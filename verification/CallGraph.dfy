/** What executing the generated code does: which functions start, in which order, and how deep the calls go. */
module CallGraph {
  import opened Folds
  import opened Arithmetic
  import opened Naming
  import opened Generator

  /** The files that are linked together, each at the position of its number. Loops run `rounds` times: ten in what
      the generator writes, but nothing depends on it. */
  datatype Program = Program(modules: seq<CFile>, utilities: seq<CFile>, rounds: nat)

  function FunctionAt(fs: seq<CFile>, file: nat, index: nat): Option<Function> {
    if file < |fs| && index < |fs[file].functions| then Some(fs[file].functions[index]) else None
  }

  /** The definition of a name. Extern functions have bodies without calls. */
  function Definition(p: Program, name: Name): Option<Function> {
    match name
    case Fun(utility, file, index) => FunctionAt(if utility then p.utilities else p.modules, file, index)
    case Extern(file) =>
      if file < |p.modules| then Some(Function(Signature(IntType, []), None, None)) else None
  }

  /** A function starting, with as many frames of functions on the stack, itself included, below the entry. */
  datatype Visit = Visit(name: Name, depth: nat)

  function Repeat<T>(n: nat, s: seq<T>): seq<T> {
    if n == 0 then [] else s + Repeat(n - 1, s)
  }

  function Append(a: Option<seq<Visit>>, b: Option<seq<Visit>>): Option<seq<Visit>> {
    if a.Some? && b.Some? then Some(a.value + b.value) else None
  }

  /** Calling a function; None if the fuel does not suffice or a name is undefined. The loop's call is repeated. */
  function Execute(p: Program, name: Name, depth: nat, fuel: nat): Option<seq<Visit>>
    decreases fuel, 0
  {
    var f := Definition(p, name);
    if fuel == 0 || f.None? then None
    else
      var looped := ExecuteIf(p, f.value.looped, depth + 1, fuel - 1);
      if looped.None? then None
      else
        var next := ExecuteIf(p, f.value.next, depth + 1, fuel - 1);
        Append(Some([Visit(name, depth)] + Repeat(p.rounds, looped.value)), next)
  }

  /** A call, if it is there. */
  function ExecuteIf(p: Program, c: Option<Call>, depth: nat, fuel: nat): Option<seq<Visit>>
    decreases fuel, 1
  {
    if c.Some? then Execute(p, c.value.callee, depth, fuel) else Some([])
  }

  /** The first k calls of an entry function. */
  function ExecuteCalls(p: Program, calls: seq<Call>, fuel: nat): Option<seq<Visit>> {
    if calls == [] then Some([])
    else
      var n := |calls| - 1;
      Append(ExecuteCalls(p, calls[..n], fuel), Execute(p, calls[n].callee, 1, fuel))
  }

  /** The entry function of module m, with its call into the previous module. */
  function ExecuteEntry(p: Program, m: nat, fuel: nat): Option<seq<Visit>>
    requires m < |p.modules|
  {
    var f := p.modules[m];
    ExecuteCalls(p, f.entry + if f.externCall.Some? then [f.externCall.value] else [], fuel)
  }

  /** Program files as GenerateCFile writes them: the modules against the utility files and extern functions that
      there are. */
  predicate WellFormed(p: Program, d: int) {
    && (forall u {:trigger GoodUtility(p.utilities[u], u, d)} :: 0 <= u < |p.utilities| ==>
          GoodUtility(p.utilities[u], u, d))
    && (forall m {:trigger GoodModule(p, m, d)} :: 0 <= m < |p.modules| ==> GoodModule(p, m, d))
  }

  predicate GoodUtility(f: CFile, u: nat, d: int) {
    f.scope.utility && f.scope.id == u && Generated(f, d)
  }

  predicate GoodModule(p: Program, m: nat, d: int)
    requires m < |p.modules|
  {
    var f := p.modules[m];
    && !f.scope.utility && f.scope.id == m && Generated(f, d)
    && match f.scope.env.utilities
       case None => true
       case Some(us) => |us| == |p.utilities| && forall u :: 0 <= u < |us| ==> us[u] == p.utilities[u].scope.signatures
  }

  // ---------------------------------------------------------------- one chain

  /** The functions visited from function i of n on, each one frame deeper than the last. */
  function Chain(utility: bool, file: nat, i: nat, n: nat, d: int, depth: nat): seq<Visit>
    requires i < n
    decreases n - i
  {
    [Visit(Fun(utility, file, i), depth)] + if Stops(i, n, d) then [] else Chain(utility, file, i + 1, n, d, depth + 1)
  }

  /** The visits to module functions. */
  function ModuleVisits(t: seq<Visit>): seq<Visit> {
    if t == [] then [] else IfModule(t[0]) + ModuleVisits(t[1..])
  }

  function IfModule(v: Visit): seq<Visit> {
    if v.name.Fun? && !v.name.utility then [v] else []
  }

  predicate NoDeeper(t: seq<Visit>, limit: int) {
    forall k :: 0 <= k < |t| ==> t[k].depth <= limit
  }

  lemma {:induction false} ModuleVisitsConcat(s: seq<Visit>, t: seq<Visit>)
    ensures ModuleVisits(s + t) == ModuleVisits(s) + ModuleVisits(t)
  {
    if s == [] {
      assert s + t == t;
    } else {
      ModuleVisitsConcat(s[1..], t);
      assert (s + t)[1..] == s[1..] + t && (s + t)[0] == s[0];
      AppendAssoc(IfModule(s[0]), ModuleVisits(s[1..]), ModuleVisits(t));
    }
  }

  lemma {:induction false} RepeatEmpty<T>(n: nat)
    ensures Repeat<T>(n, []) == []
  {
    if n > 0 {
      RepeatEmpty<T>(n - 1);
    }
  }

  lemma ExecuteIs(p: Program, name: Name, depth: nat, fuel: nat, f: Function, looped: seq<Visit>, next: seq<Visit>)
    requires fuel > 0 && Definition(p, name) == Some(f)
    requires ExecuteIf(p, f.looped, depth + 1, fuel - 1) == Some(looped)
    requires ExecuteIf(p, f.next, depth + 1, fuel - 1) == Some(next)
    ensures Execute(p, name, depth, fuel) == Some([Visit(name, depth)] + Repeat(p.rounds, looped) + next)
    ensures looped == [] ==> Execute(p, name, depth, fuel) == Some([Visit(name, depth)] + next)
  {
    RepeatEmpty<Visit>(p.rounds);
    assert [Visit(name, depth)] + [] + next == [Visit(name, depth)] + next;
  }

  /** A utility function's calls terminate, and visit its chain. */
  lemma {:induction false} UtilityExecutes(p: Program, d: int, u: nat, i: nat, depth: nat, fuel: nat)
    requires WellFormed(p, d) && u < |p.utilities| && i < |p.utilities[u].functions|
    requires fuel >= |p.utilities[u].functions| - i
    ensures Execute(p, Fun(true, u, i), depth, fuel) == Some(Chain(true, u, i, |p.utilities[u].functions|, d, depth))
    decreases |p.utilities[u].functions| - i
  {
    var f := p.utilities[u];
    assert GoodUtility(f, u, d) && GoodFunction(f.scope, d, i, f.functions[i]);
    var next: seq<Visit> := [];
    if !Stops(i, |f.functions|, d) {
      UtilityExecutes(p, d, u, i + 1, depth + 1, fuel - 1);
      next := Chain(true, u, i + 1, |f.functions|, d, depth + 1);
    }
    ExecuteIs(p, Fun(true, u, i), depth, fuel, f.functions[i], [], next);
  }

  /** The depth a chain reaches: to the end of its block of d functions, or to the last function. */
  function Reach(i: nat, n: nat, d: int): int
    requires i < n && d != 0
  {
    if d < 0 then n - 1 - i else if d - 1 - i % d < n - 1 - i then d - 1 - i % d else n - 1 - i
  }

  lemma {:induction false} ChainExact(utility: bool, file: nat, i: nat, n: nat, d: int, depth: nat)
    requires i < n && d != 0
    ensures |Chain(utility, file, i, n, d, depth)| == Reach(i, n, d) + 1
    ensures forall k :: 0 <= k < |Chain(utility, file, i, n, d, depth)| ==>
      Chain(utility, file, i, n, d, depth)[k] == Visit(Fun(utility, file, i + k), depth + k)
    decreases n - i
  {
    if d > 0 {
      ModNext(i, d);
    }
    if !Stops(i, n, d) {
      ChainExact(utility, file, i + 1, n, d, depth + 1);
    }
  }

  // ---------------------------------------------------------------- modules

  lemma {:induction false} RepeatUtility(n: nat, t: seq<Visit>, limit: int)
    requires ModuleVisits(t) == []
    ensures ModuleVisits(Repeat(n, t)) == []
    ensures NoDeeper(t, limit) ==> NoDeeper(Repeat(n, t), limit)
  {
    if n > 0 {
      RepeatUtility(n - 1, t, limit);
      ModuleVisitsConcat(t, Repeat(n - 1, t));
    }
  }

  lemma {:induction false} NoModules(t: seq<Visit>)
    requires forall k :: 0 <= k < |t| ==> t[k].name.Fun? && t[k].name.utility
    ensures ModuleVisits(t) == []
  {
    if t != [] {
      NoModules(t[1..]);
    }
  }

  /** Fuel for k calls of module functions and then any chain of a utility file. */
  predicate EnoughFuel(p: Program, k: nat, fuel: nat) {
    k <= fuel && forall u :: 0 <= u < |p.utilities| ==> k + |p.utilities[u].functions| <= fuel
  }

  /** Whatever utility function a module function calls in its loop: no module function is visited by that, and the
      stack grows by at most d frames. */
  lemma LoopedExecutes(p: Program, d: int, m: nat, i: nat, depth: nat, fuel: nat) returns (t: seq<Visit>)
    requires WellFormed(p, d) && d != 0 && m < |p.modules| && i < |p.modules[m].functions| && EnoughFuel(p, 0, fuel)
    ensures ExecuteIf(p, p.modules[m].functions[i].looped, depth, fuel) == Some(t)
    ensures ModuleVisits(t) == [] && (d >= 1 ==> NoDeeper(t, depth + d - 1))
  {
    var f := p.modules[m];
    assert GoodModule(p, m, d) && GoodFunction(f.scope, d, i, f.functions[i]);
    if f.functions[i].looped.None? { return []; }
    var callee := f.functions[i].looped.value.callee;
    var u, j := callee.file, callee.index;
    assert Visible(f.scope, callee).Some?;
    assert GoodUtility(p.utilities[u], u, d);
    UtilityExecutes(p, d, u, j, depth, fuel);
    ChainExact(true, u, j, |p.utilities[u].functions|, d, depth);
    t := Chain(true, u, j, |p.utilities[u].functions|, d, depth);
    NoModules(t);
  }

  /** One module function's visits: itself, the looped call's, then those of the next function. */
  lemma Joined(v: Visit, rounds: nat, looped: seq<Visit>, next: seq<Visit>, limit: int)
    requires v.name.Fun? && !v.name.utility && ModuleVisits(looped) == []
    ensures ModuleVisits([v] + Repeat(rounds, looped) + next) == [v] + ModuleVisits(next)
    ensures v.depth <= limit && NoDeeper(looped, limit) && NoDeeper(next, limit) ==>
      NoDeeper([v] + Repeat(rounds, looped) + next, limit)
  {
    RepeatUtility(rounds, looped, limit);
    ModuleVisitsConcat([v] + Repeat(rounds, looped), next);
    ModuleVisitsConcat([v], Repeat(rounds, looped));
    assert ModuleVisits([v]) == [v];
  }

  lemma ReachNext(i: nat, n: nat, d: int)
    requires i < n && d != 0
    ensures Reach(i, n, d) >= 0
    ensures !Stops(i, n, d) ==> Reach(i, n, d) == Reach(i + 1, n, d) + 1
  {
    if d > 0 {
      ModNext(i, d);
    }
  }

  lemma NextCallee(p: Program, d: int, m: nat, i: nat)
    requires WellFormed(p, d) && m < |p.modules| && i < |p.modules[m].functions|
    ensures var next := p.modules[m].functions[i].next;
      if Stops(i, |p.modules[m].functions|, d) then next == None
      else next.Some? && next.value.callee == Fun(false, m, i + 1)
  {
    assert GoodModule(p, m, d) && GoodFunction(p.modules[m].scope, d, i, p.modules[m].functions[i]);
  }

  /** A module function's visits from those of its two calls. */
  lemma ModuleStep(p: Program, d: int, m: nat, i: nat, depth: nat, fuel: nat, looped: seq<Visit>, next: seq<Visit>)
    returns (t: seq<Visit>)
    requires d != 0 && m < |p.modules| && i < |p.modules[m].functions| && fuel > 0
    requires ExecuteIf(p, p.modules[m].functions[i].looped, depth + 1, fuel - 1) == Some(looped)
    requires ExecuteIf(p, p.modules[m].functions[i].next, depth + 1, fuel - 1) == Some(next)
    requires var n := |p.modules[m].functions|;
      && ModuleVisits(looped) == []
      && ModuleVisits(next) == (if Stops(i, n, d) then [] else Chain(false, m, i + 1, n, d, depth + 1))
      && (d >= 1 ==> NoDeeper(looped, depth + d) && NoDeeper(next, depth + Reach(i, n, d) + d))
    ensures Execute(p, Fun(false, m, i), depth, fuel) == Some(t)
    ensures ModuleVisits(t) == Chain(false, m, i, |p.modules[m].functions|, d, depth)
    ensures d >= 1 ==> NoDeeper(t, depth + Reach(i, |p.modules[m].functions|, d) + d)
  {
    var n := |p.modules[m].functions|;
    var here := Visit(Fun(false, m, i), depth);
    ReachNext(i, n, d);
    ExecuteIs(p, here.name, depth, fuel, p.modules[m].functions[i], looped, next);
    Joined(here, p.rounds, looped, next, depth + Reach(i, n, d) + d);
    t := [here] + Repeat(p.rounds, looped) + next;
  }

  lemma {:induction false} ModuleExecutes(p: Program, d: int, m: nat, i: nat, depth: nat, fuel: nat)
    returns (t: seq<Visit>)
    requires WellFormed(p, d) && d != 0 && m < |p.modules| && i < |p.modules[m].functions|
    requires EnoughFuel(p, |p.modules[m].functions| - i, fuel)
    ensures Execute(p, Fun(false, m, i), depth, fuel) == Some(t)
    ensures ModuleVisits(t) == Chain(false, m, i, |p.modules[m].functions|, d, depth)
    ensures d >= 1 ==> NoDeeper(t, depth + Reach(i, |p.modules[m].functions|, d) + d)
    decreases |p.modules[m].functions| - i
  {
    var n, g := |p.modules[m].functions|, p.modules[m].functions[i];
    NextCallee(p, d, m, i);
    var looped := LoopedExecutes(p, d, m, i, depth + 1, fuel - 1);
    var next: seq<Visit> := [];
    ReachNext(i, n, d);
    if g.next.Some? {
      next := ModuleExecutes(p, d, m, i + 1, depth + 1, fuel - 1);
    }
    t := ModuleStep(p, d, m, i, depth, fuel, looped, next);
  }

  /** The module functions visited by the entry's calls of the functions among the first k. */
  function VisitOrder(m: nat, n: nat, d: int, k: nat): seq<Visit>
    requires k <= n
  {
    if k == 0 then []
    else VisitOrder(m, n, d, k - 1) + if d != 0 && PyMod(k - 1, d) == 0 then Chain(false, m, k - 1, n, d, 1) else []
  }

  lemma {:induction false} StartsPrefix(k: nat, n: nat, d: int)
    requires k <= n
    ensures Starts(k, d) <= Starts(n, d)
  {
    if k < n {
      StartsPrefix(k, n - 1, d);
    }
  }

  lemma OneMoreCall(p: Program, calls: seq<Call>, last: nat, fuel: nat, t: seq<Visit>, more: seq<Visit>, limit: int)
    requires last < |calls| && ExecuteCalls(p, calls[..last], fuel) == Some(t)
    requires Execute(p, calls[last].callee, 1, fuel) == Some(more)
    ensures ExecuteCalls(p, calls[..last + 1], fuel) == Some(t + more)
    ensures ModuleVisits(t + more) == ModuleVisits(t) + ModuleVisits(more)
    ensures NoDeeper(t, limit) && NoDeeper(more, limit) ==> NoDeeper(t + more, limit)
  {
    assert calls[..last + 1][..last] == calls[..last];
    ModuleVisitsConcat(t, more);
  }

  /** The call of the entry that is due to function k. */
  lemma EntryCallAt(p: Program, d: int, m: nat, k: nat)
    requires WellFormed(p, d) && d != 0 && m < |p.modules| && k < |p.modules[m].functions|
    ensures var s := |Starts(k, d)|;
      s <= |p.modules[m].entry|
      && (PyMod(k, d) == 0 ==> s < |p.modules[m].entry| && p.modules[m].entry[s].callee == Fun(false, m, k))
  {
    var f, n := p.modules[m], |p.modules[m].functions|;
    assert GoodModule(p, m, d) && GoodEntry(f.scope, Starts(n, d), f.entry);
    StartsPrefix(k, n, d);
    StartsPrefix(k + 1, n, d);
    assert PyMod(k, d) == 0 ==> Starts(n, d)[|Starts(k, d)|] == Starts(k + 1, d)[|Starts(k, d)|] == k;
  }

  /** The entry has made its calls to functions below k, and t is what they have visited. */
  ghost predicate EntryState(p: Program, d: int, m: nat, k: nat, fuel: nat, t: seq<Visit>)
    requires m < |p.modules| && k <= |p.modules[m].functions|
  {
    && |Starts(k, d)| <= |p.modules[m].entry|
    && ExecuteCalls(p, p.modules[m].entry[..|Starts(k, d)|], fuel) == Some(t)
    && ModuleVisits(t) == VisitOrder(m, |p.modules[m].functions|, d, k)
    && (d >= 1 ==> NoDeeper(t, 2 * d))
  }

  lemma OrderNext(m: nat, n: nat, d: int, k: nat)
    requires k < n && d != 0
    ensures VisitOrder(m, n, d, k + 1)
         == if PyMod(k, d) == 0 then VisitOrder(m, n, d, k) + Chain(false, m, k, n, d, 1) else VisitOrder(m, n, d, k)
    ensures Starts(k + 1, d) == if PyMod(k, d) == 0 then Starts(k, d) + [k] else Starts(k, d)
  {
  }

  lemma EntryCall(p: Program, d: int, m: nat, k: nat, fuel: nat, t: seq<Visit>, more: seq<Visit>)
    requires d != 0 && m < |p.modules| && k < |p.modules[m].functions| && EntryState(p, d, m, k, fuel, t)
    requires PyMod(k, d) == 0 && |Starts(k, d)| < |p.modules[m].entry|
    requires Execute(p, p.modules[m].entry[|Starts(k, d)|].callee, 1, fuel) == Some(more)
    requires ModuleVisits(more) == Chain(false, m, k, |p.modules[m].functions|, d, 1)
    requires d >= 1 ==> NoDeeper(more, 2 * d)
    ensures EntryState(p, d, m, k + 1, fuel, t + more)
  {
    OrderNext(m, |p.modules[m].functions|, d, k);
    OneMoreCall(p, p.modules[m].entry, |Starts(k, d)|, fuel, t, more, 2 * d);
    assert |Starts(k + 1, d)| == |Starts(k, d)| + 1;
    assert ModuleVisits(t + more) == VisitOrder(m, |p.modules[m].functions|, d, k + 1);
  }

  /** One more turn of the entry: it calls function k, or it does not. */
  lemma EntryStep(p: Program, d: int, m: nat, k: nat, fuel: nat, t: seq<Visit>) returns (after: seq<Visit>)
    requires WellFormed(p, d) && d != 0 && m < |p.modules| && k < |p.modules[m].functions|
    requires EnoughFuel(p, |p.modules[m].functions|, fuel)
    requires EntryState(p, d, m, k, fuel, t)
    ensures EntryState(p, d, m, k + 1, fuel, after)
  {
    EntryCallAt(p, d, m, k);
    if PyMod(k, d) == 0 {
      var more := ModuleExecutes(p, d, m, k, 1, fuel);
      EntryCall(p, d, m, k, fuel, t, more);
      after := t + more;
    } else {
      OrderNext(m, |p.modules[m].functions|, d, k);
      after := t;
    }
  }

  lemma {:induction false} EntryExecutes(p: Program, d: int, m: nat, k: nat, fuel: nat, t: seq<Visit>)
    returns (r: seq<Visit>)
    requires WellFormed(p, d) && d != 0 && m < |p.modules| && k <= |p.modules[m].functions|
    requires EnoughFuel(p, |p.modules[m].functions|, fuel)
    requires EntryState(p, d, m, k, fuel, t)
    ensures EntryState(p, d, m, |p.modules[m].functions|, fuel, r)
    decreases |p.modules[m].functions| - k
  {
    r := t;
    if k < |p.modules[m].functions| {
      var after := EntryStep(p, d, m, k, fuel, t);
      r := EntryExecutes(p, d, m, k + 1, fuel, after);
    }
  }

  // ---------------------------------------------------------------- theorems

  /** The visits of functions 0 to e - 1 in order, function i at the depth it has in its block. */
  function Blocks(m: nat, d: int, e: nat): seq<Visit>
    requires d >= 1
  {
    seq(e, i requires 0 <= i => Visit(Fun(false, m, i), i % d + 1))
  }

  /** The chain of a function that begins a block is the rest of that block. */
  lemma ChainInBlock(m: nat, k: nat, n: nat, d: int, j: nat)
    requires d >= 1 && k < n && k % d == 0 && j < |Chain(false, m, k, n, d, 1)|
    ensures Chain(false, m, k, n, d, 1)[j] == Visit(Fun(false, m, k + j), (k + j) % d + 1)
  {
    ChainExact(false, m, k, n, d, 1);
    ModInBlock(k, j, d);
  }

  lemma ChainIsBlock(m: nat, k: nat, n: nat, d: int)
    requires d >= 1 && k < n && k % d == 0
    ensures Blocks(m, d, k) + Chain(false, m, k, n, d, 1) == Blocks(m, d, BlockEnd(k + 1, n, d))
  {
    var all, blocks := Blocks(m, d, k) + Chain(false, m, k, n, d, 1), Blocks(m, d, BlockEnd(k + 1, n, d));
    ChainExact(false, m, k, n, d, 1);
    assert |all| == |blocks|;
    forall i | 0 <= i < |all|
      ensures all[i] == blocks[i]
    {
      if i >= k {
        ChainInBlock(m, k, n, d, i - k);
      }
    }
  }

  /** Blocks end where the next begins. */
  lemma BlockEnds(k: nat, n: nat, d: int)
    requires d >= 1 && k < n
    ensures BlockEnd(k, n, d) == if k % d == 0 then k else BlockEnd(k + 1, n, d)
  {
    if k == 0 {
      ModSmall(0, d);
    } else {
      ModNext(k - 1, d);
    }
  }

  /** The end of the block of d functions that function k - 1 is in. */
  function BlockEnd(k: nat, n: nat, d: int): (e: nat)
    requires d >= 1 && k <= n
    ensures k <= e <= n
  {
    if k == 0 then 0 else if k - 1 - (k - 1) % d + d < n then k - 1 - (k - 1) % d + d else n
  }

  lemma ModInBlock(k: nat, j: nat, d: nat)
    requires d > 0 && k % d == 0 && j < d
    ensures (k + j) % d == j
  {
    DivModUnique(k + j, d, k / d, j);
  }

  lemma {:induction false} OrderIsBlocks(m: nat, n: nat, d: int, k: nat)
    requires d >= 1 && k <= n
    ensures VisitOrder(m, n, d, k) == Blocks(m, d, BlockEnd(k, n, d))
  {
    if k > 0 {
      OrderIsBlocks(m, n, d, k - 1);
      BlockEnds(k - 1, n, d);
      if (k - 1) % d == 0 {
        ChainIsBlock(m, k - 1, n, d);
      }
    }
  }

  /** Executing the entry of any module, whatever the random choices were: it terminates, visits the module's functions
      once each in the order of their indices, function i at depth i % d + 1 and so never with more than d frames of
      the module; with those of utility functions there are never more than 2 * d. */
  lemma EntryVisitsEachOnce(p: Program, d: int, m: nat, fuel: nat) returns (t: seq<Visit>)
    requires WellFormed(p, d) && d >= 1 && m < |p.modules| && EnoughFuel(p, |p.modules[m].functions|, fuel) && fuel > 0
    ensures ExecuteEntry(p, m, fuel) == Some(t)
    ensures ModuleVisits(t) == seq(|p.modules[m].functions|, i requires 0 <= i => Visit(Fun(false, m, i), i % d + 1))
    ensures NoDeeper(t, 2 * d)
  {
    var n := |p.modules[m].functions|;
    t := EntryTrace(p, d, m, fuel);
    OrderIsBlocks(m, n, d, n);
  }

  /** The entry with its extern call, for any call depth but zero. */
  lemma EntryTrace(p: Program, d: int, m: nat, fuel: nat) returns (t: seq<Visit>)
    requires WellFormed(p, d) && d != 0 && m < |p.modules| && EnoughFuel(p, |p.modules[m].functions|, fuel) && fuel > 0
    ensures ExecuteEntry(p, m, fuel) == Some(t)
    ensures ModuleVisits(t) == VisitOrder(m, |p.modules[m].functions|, d, |p.modules[m].functions|)
    ensures d >= 1 ==> NoDeeper(t, 2 * d)
  {
    var f, n := p.modules[m], |p.modules[m].functions|;
    t := EntryExecutes(p, d, m, 0, fuel, []);
    assert GoodModule(p, m, d) && GoodEntry(f.scope, Starts(n, d), f.entry);
    assert f.entry[..|Starts(n, d)|] == f.entry;
    if f.externCall.Some? {
      var calls := f.entry + [f.externCall.value];
      assert calls[..|f.entry|] == f.entry && calls[|f.entry|].callee == Extern(m - 1);
      var visit := [Visit(Extern(m - 1), 1)];
      ExecuteIs(p, Extern(m - 1), 1, fuel, Definition(p, Extern(m - 1)).value, [], []);
      assert visit + [] == visit;
      ModuleVisitsConcat(t, visit);
      t := t + visit;
    } else {
      assert f.entry + [] == f.entry;
    }
  }

  /** Functions 0 to n - 1 of module m, each once and in order. */
  predicate InOrderOnce(t: seq<Visit>, m: nat, n: nat) {
    |t| == n && forall i :: 0 <= i < n ==> t[i].name == Fun(false, m, i)
  }

  lemma OrderGrowsByOne(m: nat, n: nat, d: int, k: nat)
    requires 0 < k <= n
    ensures VisitOrder(m, n, d, k - 1) <= VisitOrder(m, n, d, k)
  {
  }

  lemma {:induction false} OrderGrows(m: nat, n: nat, d: int, j: nat, k: nat)
    requires j <= k <= n
    ensures |VisitOrder(m, n, d, j)| <= |VisitOrder(m, n, d, k)|
  {
    if j < k {
      OrderGrows(m, n, d, j, k - 1);
      OrderGrowsByOne(m, n, d, k);
    }
  }

  lemma VisitedOnce(m: nat, n: nat, d: int)
    requires d >= 1 || (d <= -1 && n <= -d)
    ensures InOrderOnce(VisitOrder(m, n, d, n), m, n)
  {
    if d >= 1 {
      OrderIsBlocks(m, n, d, n);
      assert BlockEnd(n, n, d) == n;
    } else if n > 0 {
      ChainExact(false, m, 0, n, d, 1);
      OrderFromZero(m, n, d, n);
    }
  }

  lemma VisitedOnceIff(m: nat, n: nat, d: int)
    requires d != 0
    ensures InOrderOnce(VisitOrder(m, n, d, n), m, n) <==> d >= 1 || n <= -d
  {
    if d >= 1 || n <= -d {
      VisitedOnce(m, n, d);
    } else {
      VisitedTwice(m, n, d);
    }
  }

  /** A call depth below zero is not refused. Then functions never stop before the last, and the entry starts a chain at
      every multiple of -d: each function is visited exactly once just when there is only one such multiple. */
  lemma EntryOnceIff(p: Program, d: int, m: nat, fuel: nat) returns (t: seq<Visit>)
    requires WellFormed(p, d) && d != 0 && m < |p.modules| && EnoughFuel(p, |p.modules[m].functions|, fuel) && fuel > 0
    ensures ExecuteEntry(p, m, fuel) == Some(t)
    ensures InOrderOnce(ModuleVisits(t), m, |p.modules[m].functions|) <==> d >= 1 || |p.modules[m].functions| <= -d
  {
    t := EntryTrace(p, d, m, fuel);
    VisitedOnceIff(m, |p.modules[m].functions|, d);
  }

  lemma VisitedTwice(m: nat, n: nat, d: int)
    requires d <= -1 && n > -d
    ensures |VisitOrder(m, n, d, n)| > n
  {
    OrderFromZero(m, n, d, -d);
    ChainExact(false, m, 0, n, d, 1);
    ChainExact(false, m, -d, n, d, 1);
    DivModUnique(d, -d, -1, 0);
    OrderNext(m, n, d, -d);
    OrderGrows(m, n, d, -d + 1, n);
  }

  lemma {:induction false} OrderFromZero(m: nat, n: nat, d: int, k: nat)
    requires d <= -1 && 0 < k <= n && k <= -d
    ensures VisitOrder(m, n, d, k) == Chain(false, m, 0, n, d, 1)
  {
    if k > 1 {
      OrderFromZero(m, n, d, k - 1);
      DivModUnique(-(k - 1), -d, -1, -d - (k - 1));
    } else {
      DivModUnique(0, -d, 0, 0);
      assert VisitOrder(m, n, d, 0) == [];
    }
  }

  // ---------------------------------------------------------------- the generator's main loop

  /** The utility files of run_so_generator. */
  method GenerateUtilities(count: nat, avg: nat, d: int, env: Environment) returns (files: Option<seq<CFile>>)
    ensures files.Some? ==>
      && |files.value| == count
      && forall u :: 0 <= u < count ==>
           GoodUtility(files.value[u], u, d) && avg / 2 <= |files.value[u].functions| <= avg * 3 / 2
    ensures d != 0 ==> files.Some?
  {
    var made := [];
    for u := 0 to count
      invariant |made| == u
      invariant forall k :: 0 <= k < u ==> GoodUtility(made[k], k, d) && avg / 2 <= |made[k].functions| <= avg * 3 / 2
    {
      var n := RandomInt(avg / 2, avg * 3 / 2);
      var r := GenerateCFile(true, u, n, d, env);
      if !r.Written? { return None; }
      made := made + [r.file];
    }
    return Some(made);
  }

  /** The module files of run_so_generator. */
  method GenerateModules(count: nat, avg: nat, d: int, env: Environment) returns (files: Option<seq<CFile>>)
    requires env.utilities.Some? ==> env.utilities.value != []
    requires env.externs.Some? ==> count <= |env.externs.value|
    ensures files.Some? ==>
      && |files.value| == count
      && forall m :: 0 <= m < count ==>
           && var f := files.value[m];
              && Generated(f, d) && !f.scope.utility && f.scope.id == m && f.scope.env == env
              && avg / 2 <= |f.functions| <= avg * 3 / 2
    ensures d != 0 && (env.utilities.Some? ==> [] !in env.utilities.value) ==> files.Some?
  {
    var made := [];
    for m := 0 to count
      invariant |made| == m
      invariant forall k :: 0 <= k < m ==>
        && Generated(made[k], d) && !made[k].scope.utility && made[k].scope.id == k && made[k].scope.env == env
        && avg / 2 <= |made[k].functions| <= avg * 3 / 2
    {
      var n := RandomInt(avg / 2, avg * 3 / 2);
      var r := GenerateCFile(false, m, n, d, env);
      if !r.Written? { return None; }
      made := made + [r.file];
    }
    return Some(made);
  }

  /** run_so_generator: it writes programs of the form that the theorems are about; and it does succeed for any call
      depth but zero, if utility files get at least one function. */
  method GenerateProgram(numFiles: nat, avg: nat, d: int, extern_: bool, numUtilityFiles: nat, avgU: nat)
    returns (p: Option<Program>)
    ensures p.Some? ==>
      && WellFormed(p.value, d) && p.value.rounds == 10 && |p.value.utilities| == numUtilityFiles
      && |p.value.modules| == (if numUtilityFiles <= numFiles then numFiles - numUtilityFiles else 0)
      && (forall u :: 0 <= u < numUtilityFiles ==> avgU / 2 <= |p.value.utilities[u].functions| <= avgU * 3 / 2)
      && forall m :: 0 <= m < |p.value.modules| ==>
           && avg / 2 <= |p.value.modules[m].functions| <= avg * 3 / 2
           && (p.value.modules[m].scope.env.utilities.Some? <==> numUtilityFiles > 0)
           && (p.value.modules[m].scope.env.externs.Some? <==> extern_)
    ensures d != 0 && avgU >= 2 ==> p.Some?
  {
    var env := Environment(None, None);
    if extern_ {
      var externs := CreateFunctionList(numFiles);
      env := env.(externs := Some(externs));
    }
    var utilities := GenerateUtilities(numUtilityFiles, avgU, d, env);
    if utilities.None? { return None; }
    var lists := seq(|utilities.value|, u requires 0 <= u < |utilities.value| => utilities.value[u].scope.signatures);
    if numUtilityFiles > 0 {
      env := env.(utilities := Some(lists));
    }
    assert avgU >= 2 ==> forall u :: 0 <= u < |lists| ==> lists[u] != [];
    var count := if numUtilityFiles <= numFiles then numFiles - numUtilityFiles else 0;
    var modules := GenerateModules(count, avg, d, env);
    if modules.None? { return None; }
    return Some(Program(modules.value, utilities.value, 10));
  }
}
