/** The rooted collectives that are built on explicit messages: collecting a value from every rank, reducing and
    scanning serially, and scattering a sequence. */
module Collectives {
  import opened Folds
  import opened TreeReduction

  // ---------------------------------------------------------------- pyMPI_collective

  /** A message on its way to the root, from one of the other ranks. */
  datatype Letter<V> = Letter(from: nat, value: V)

  /** What rank i has sent that is still on its way, in order. */
  function From<V>(mail: seq<Letter<V>>, i: nat): seq<V> {
    if mail == [] then [] else (if mail[0].from == i then [mail[0].value] else []) + From(mail[1..], i)
  }

  /** A message sent joins the end of what its sender has sent, and nothing else changes. */
  lemma {:induction false} FromSent<V>(mail: seq<Letter<V>>, letter: Letter<V>, i: nat)
    ensures From(mail + [letter], i) == From(mail, i) + if letter.from == i then [letter.value] else []
  {
    if mail != [] {
      FromSent(mail[1..], letter, i);
      assert (mail + [letter])[1..] == mail[1..] + [letter];
    }
  }

  /** Where the oldest message from rank i is. */
  function Oldest<V>(mail: seq<Letter<V>>, i: nat): (k: nat)
    requires From(mail, i) != []
    ensures k < |mail| && mail[k].from == i
  {
    if mail[0].from == i then 0 else 1 + Oldest(mail[1..], i)
  }

  lemma {:induction false} FromConcat<V>(a: seq<Letter<V>>, b: seq<Letter<V>>, i: nat)
    ensures From(a + b, i) == From(a, i) + From(b, i)
  {
    if a == [] {
      assert a + b == b;
    } else {
      FromConcat(a[1..], b, i);
      assert (a + b)[1..] == a[1..] + b && (a + b)[0] == a[0];
    }
  }

  lemma {:induction false} NoneBeforeOldest<V>(mail: seq<Letter<V>>, i: nat)
    requires From(mail, i) != []
    ensures From(mail[..Oldest(mail, i)], i) == []
  {
    var k := Oldest(mail, i);
    if k > 0 {
      NoneBeforeOldest(mail[1..], i);
      assert mail[..k][1..] == mail[1..][..k - 1];
    }
  }

  lemma FromOne<V>(letter: Letter<V>, i: nat)
    ensures From([letter], i) == if letter.from == i then [letter.value] else []
  {
    assert [letter][1..] == [];
  }

  lemma FromCut<V>(mail: seq<Letter<V>>, k: nat, i: nat)
    requires k < |mail|
    ensures From(mail, i) == From(mail[..k], i) + From([mail[k]], i) + From(mail[k + 1..], i)
    ensures From(mail[..k] + mail[k + 1..], i) == From(mail[..k], i) + From(mail[k + 1..], i)
  {
    assert mail == mail[..k] + [mail[k]] + mail[k + 1..];
    FromConcat(mail[..k] + [mail[k]], mail[k + 1..], i);
    FromConcat(mail[..k], [mail[k]], i);
    FromConcat(mail[..k], mail[k + 1..], i);
  }

  lemma TakeOldest<V>(mail: seq<Letter<V>>, i: nat)
    requires From(mail, i) != []
    ensures var k := Oldest(mail, i);
      From(mail, i) == [mail[k].value] + From(mail[..k] + mail[k + 1..], i)
  {
    FromCut(mail, Oldest(mail, i), i);
    NoneBeforeOldest(mail, i);
    FromOne(mail[Oldest(mail, i)], i);
  }

  lemma OthersKeep<V>(mail: seq<Letter<V>>, k: nat, j: nat)
    requires k < |mail| && mail[k].from != j
    ensures From(mail[..k] + mail[k + 1..], j) == From(mail, j)
  {
    FromCut(mail, k, j);
    FromOne(mail[k], j);
  }

  /** A receive from rank i: its oldest message. */
  method ReceiveFrom<V>(mail: seq<Letter<V>>, i: nat) returns (value: V, rest: seq<Letter<V>>)
    requires From(mail, i) != []
    ensures From(mail, i) == [value] + From(rest, i)
    ensures forall j: nat :: j != i ==> From(rest, j) == From(mail, j)
  {
    var k := Oldest(mail, i);
    value, rest := mail[k].value, mail[..k] + mail[k + 1..];
    TakeOldest(mail, i);
    forall j: nat | j != i
      ensures From(rest, j) == From(mail, j)
    {
      OthersKeep(mail, k, j);
    }
  }

  /** The collected value of rank i: the value itself or, for MINLOC and MAXLOC, the value paired with the rank. */
  datatype Item<V> = Plain(value: V) | Ranked(value: V, rank: int)

  /** The root's loop, whatever the order in which the other ranks' messages arrive: receiving rank by rank yields
      the values in rank order, and takes exactly one message of each of the others. */
  method Collect<V>(root: nat, size: nat, localValue: V, includeRank: bool, mail: seq<Letter<V>>, ghost values: seq<V>)
    returns (result: seq<Item<V>>, rest: seq<Letter<V>>)
    requires root < size == |values| && localValue == values[root]
    requires forall i :: 0 <= i < size && i != root ==> |From(mail, i)| >= 1 && From(mail, i)[0] == values[i]
    ensures |result| == size
    ensures forall i :: 0 <= i < size ==> result[i] == if includeRank then Ranked(values[i], i) else Plain(values[i])
    ensures forall i: nat :: From(rest, i) == if i < size && i != root then From(mail, i)[1..] else From(mail, i)
  {
    result, rest := [], mail;
    for i := 0 to size
      invariant |result| == i
      invariant forall j :: 0 <= j < i ==> result[j] == if includeRank then Ranked(values[j], j) else Plain(values[j])
      invariant forall j: nat :: From(rest, j) == if j < i && j != root then From(mail, j)[1..] else From(mail, j)
    {
      var message := localValue;
      if i != root {
        message, rest := ReceiveFrom(rest, i);
      }
      result := result + [if includeRank then Ranked(message, i) else Plain(message)];
    }
  }

  function Items<V>(values: seq<V>, includeRank: bool): seq<Item<V>> {
    seq(|values|, i requires 0 <= i < |values| => if includeRank then Ranked(values[i], i) else Plain(values[i]))
  }

  // ---------------------------------------------------------------- one value for each rank

  /** What the root sends when it has a value for each rank and keeps its own: value i to rank i, in rank order. */
  function SentToOthers<V>(values: seq<V>, root: nat): seq<(nat, V)> {
    if values == [] then []
    else
      var i := |values| - 1;
      SentToOthers(values[..i], root) + if i == root then [] else [(i, values[i])]
  }

  /** What one message may be: the value for a rank other than the root. */
  ghost predicate Addressed<V>(message: (nat, V), values: seq<V>, root: nat) {
    message.0 < |values| && message.0 != root && message.1 == values[message.0]
  }

  /** Every rank but the root is sent its value, the messages are in rank order, and there are no others. */
  lemma {:induction false} SentAre<V>(values: seq<V>, root: nat, i: nat)
    ensures i < |values| && i != root ==> (i, values[i]) in SentToOthers(values, root)
    ensures forall m :: m in SentToOthers(values, root) ==> Addressed(m, values, root)
    ensures forall k, l :: 0 <= k < l < |SentToOthers(values, root)| ==>
      SentToOthers(values, root)[k].0 < SentToOthers(values, root)[l].0
  {
    if values != [] {
      var last := |values| - 1;
      var before := SentToOthers(values[..last], root);
      SentAre(values[..last], root, i);
      forall k | 0 <= k < |before|
        ensures Addressed(before[k], values, root) && before[k].0 < last
      {
        assert before[k] in before;
        assert Addressed(before[k], values[..last], root);
      }
    }
  }

  /** Message k goes to the k-th of the other ranks. */
  lemma {:induction false} SentAt<V>(values: seq<V>, root: nat, k: nat)
    ensures |SentToOthers(values, root)| == if root < |values| then |values| - 1 else |values|
    ensures k < |SentToOthers(values, root)| ==>
      var to := if k < root then k else k + 1;
      to < |values| && SentToOthers(values, root)[k] == (to, values[to])
  {
    if values != [] {
      SentAt(values[..|values| - 1], root, k);
    }
  }

  // ---------------------------------------------------------------- serial reduction and scan

  /** An operator that may raise. */
  type Operator<!V> = (V, V) -> Option<V>

  /** The values with the ground, if there is one, in front. */
  function Grounded<V>(ground: Option<V>, values: seq<V>): seq<V> {
    if ground.Some? then [ground.value] + values else values
  }

  /** Python's reduce: the left fold, or nothing if the operator raises on the way. */
  function Reduce<V>(op: Operator<V>, s: seq<V>): Option<V>
    requires s != []
  {
    if |s| == 1 then Some(s[0])
    else match Reduce(op, s[..|s| - 1])
         case None => None
         case Some(partial) => op(partial, s[|s| - 1])
  }

  /** What a call returns to Python on one rank: a value, None, an exception raised, or an exception's type as a
      value. */
  datatype Returned<V> = Returns(value: V) | ReturnsNone | Raises | ReturnsErrorType

  /** The serial path: the root collects and applies Python's reduce; the result goes to the root only, or is broadcast.
      If the operator raises, the root raises too, but only after it has let the others have the exception's type. */
  method SerialReduce<V>(op: Operator<Item<V>>, ground: Option<Item<V>>, root: nat, size: nat, localValue: V,
                         includeRank: bool, broadcast: bool, mail: seq<Letter<V>>, ghost values: seq<V>)
    returns (returned: seq<Returned<Item<V>>>)
    requires root < size == |values| && localValue == values[root]
    requires forall i :: 0 <= i < size && i != root ==> |From(mail, i)| >= 1 && From(mail, i)[0] == values[i]
    ensures |returned| == size
    ensures forall i :: 0 <= i < size ==>
      returned[i] == match Reduce(op, Grounded(ground, Items(values, includeRank)))
                     case Some(x) => if i == root || broadcast then Returns(x) else ReturnsNone
                     case None => if i == root then Raises else if broadcast then ReturnsErrorType else ReturnsNone
  {
    var data, rest := Collect(root, size, localValue, includeRank, mail, values);
    assert data == Items(values, includeRank);
    var result := Reduce(op, Grounded(ground, data));
    var final := if result.Some? then Returns(result.value) else ReturnsErrorType;
    returned := [];
    for i := 0 to size
      invariant |returned| == i
      invariant forall k :: 0 <= k < i ==>
        returned[k] == if k == root && result.None? then Raises
                       else if k == root || broadcast then final else ReturnsNone
    {
      if i == root && result.None? {
        returned := returned + [Raises];
      } else if i == root || broadcast {
        returned := returned + [final];
      } else {
        returned := returned + [ReturnsNone];
      }
    }
  }

  /** The scan goes on with None where the operator raises. */
  function OrNone<V>(op: Operator<V>, none: V): (V, V) -> V {
    (a, b) => match op(a, b) case Some(c) => c case None => none
  }

  /** What rank i gets from a scan. */
  function ScanValue<V>(op: Operator<V>, none: V, ground: Option<V>, data: seq<V>, i: nat): V
    requires i < |data|
  {
    Fold(OrNone(op, none), Grounded(ground, data[..i + 1]))
  }

  function ScanValues<V>(op: Operator<V>, none: V, ground: Option<V>, data: seq<V>, n: nat): (finals: seq<V>)
    requires n <= |data|
    ensures |finals| == n
  {
    seq(n, i requires 0 <= i < |data| => ScanValue(op, none, ground, data, i))
  }

  /** The partial result before element i: nothing yet if there is no ground and i is 0. */
  function PartialAt<V>(op: Operator<V>, none: V, ground: Option<V>, data: seq<V>, i: nat): Option<V>
    requires i <= |data|
  {
    var before := Grounded(ground, data[..i]);
    if before == [] then None else Some(Fold(OrNone(op, none), before))
  }

  /** One application of the operator; its errors are cleared and None takes the place of the result. */
  method NextPartial<V>(op: Operator<V>, none: V, partial: Option<V>, element: V) returns (next: V)
    ensures next == if partial.None? then element else OrNone(op, none)(partial.value, element)
  {
    next := element;
    if partial.Some? {
      var result := op(partial.value, element);
      next := if result.Some? then result.value else none;
    }
  }

  /** The root's loop of scan: it keeps its own value, and sends every other rank its value as soon as it has it. */
  method Scan<V>(op: Operator<V>, none: V, ground: Option<V>, data: seq<V>, root: nat)
    returns (final: V, sent: seq<(nat, V)>)
    requires root < |data|
    ensures final == ScanValue(op, none, ground, data, root)
    ensures sent == SentToOthers(ScanValues(op, none, ground, data, |data|), root)
  {
    PartialStart(op, none, ground, data);
    var partial := ground;
    final, sent := none, [];
    for i := 0 to |data|
      invariant partial == PartialAt(op, none, ground, data, i)
      invariant root < i ==> final == ScanValue(op, none, ground, data, root)
      invariant sent == ScanSent(op, none, ground, data, root, i)
    {
      PartialNext(op, none, ground, data, i);
      var value := NextPartial(op, none, partial, data[i]);
      partial := Some(value);
      if i == root {
        final := value;
      } else {
        sent := sent + [(i, value)];
      }
    }
    ScanSentToOthers(op, none, ground, data, root, |data|);
  }

  /** Element by element, the scan values are the operator applied to what came before, the ground first; where it
      raises, None takes the place of the result. */
  lemma ScanStep<V>(op: Operator<V>, none: V, ground: Option<V>, data: seq<V>, i: nat)
    requires i < |data|
    ensures var before := if i == 0 then ground else Some(ScanValue(op, none, ground, data, i - 1));
      ScanValue(op, none, ground, data, i)
      == match before
         case None => data[i]
         case Some(b) => match op(b, data[i]) case Some(c) => c case None => none
  {
    PartialNext(op, none, ground, data, i);
    if i == 0 {
      PartialStart(op, none, ground, data);
    } else {
      PartialNext(op, none, ground, data, i - 1);
    }
  }

  lemma PartialStart<V>(op: Operator<V>, none: V, ground: Option<V>, data: seq<V>)
    ensures PartialAt(op, none, ground, data, 0) == ground
  {
    assert Grounded(ground, data[..0]) == if ground.Some? then [ground.value] else [];
  }

  lemma PartialNext<V>(op: Operator<V>, none: V, ground: Option<V>, data: seq<V>, i: nat)
    requires i < |data|
    ensures var partial := PartialAt(op, none, ground, data, i);
      ScanValue(op, none, ground, data, i)
      == if partial.None? then data[i] else OrNone(op, none)(partial.value, data[i])
    ensures PartialAt(op, none, ground, data, i + 1) == Some(ScanValue(op, none, ground, data, i))
  {
    assert Grounded(ground, data[..i + 1]) == Grounded(ground, data[..i]) + [data[i]];
    FoldSnoc(OrNone(op, none), Grounded(ground, data[..i]), data[i]);
  }

  /** What has been sent before element i. */
  function ScanSent<V>(op: Operator<V>, none: V, ground: Option<V>, data: seq<V>, root: nat, i: nat): seq<(nat, V)>
    requires i <= |data|
  {
    if i == 0 then []
    else
      ScanSent(op, none, ground, data, root, i - 1)
      + if i - 1 == root then [] else [(i - 1, ScanValue(op, none, ground, data, i - 1))]
  }

  lemma {:induction false} ScanSentToOthers<V>(op: Operator<V>, none: V, ground: Option<V>, data: seq<V>,
                                               root: nat, i: nat)
    requires i <= |data|
    ensures ScanSent(op, none, ground, data, root, i) == SentToOthers(ScanValues(op, none, ground, data, i), root)
  {
    if i > 0 {
      ScanSentToOthers(op, none, ground, data, root, i - 1);
      assert ScanValues(op, none, ground, data, i)[..i - 1] == ScanValues(op, none, ground, data, i - 1);
    }
  }

  lemma FoldSnoc<V>(op: (V, V) -> V, s: seq<V>, x: V)
    ensures Fold(op, s + [x]) == if s == [] then x else op(Fold(op, s), x)
  {
    assert s != [] ==> (s + [x])[..|s + [x]| - 1] == s;
  }

  /** Where the serial reduction succeeds, it is the fold the scan computes. */
  lemma {:induction false} ReduceIsFold<V>(op: Operator<V>, none: V, s: seq<V>)
    requires s != [] && Reduce(op, s).Some?
    ensures Reduce(op, s).value == Fold(OrNone(op, none), s)
  {
    if |s| > 1 {
      ReduceIsFold(op, none, s[..|s| - 1]);
    }
  }

  // ---------------------------------------------------------------- the three reductions agree

  /** An operator that never raises. */
  function Total<V>(op: (V, V) -> V): Operator<V> {
    (a, b) => Some(op(a, b))
  }

  /** An operator that never raises, on plain items. */
  function OnPlain<V>(op: (V, V) -> V): Operator<Item<V>> {
    (a: Item<V>, b: Item<V>) => if a.Plain? && b.Plain? then Some(Plain(op(a.value, b.value))) else None
  }

  lemma {:induction false} ReducePlain<V>(op: (V, V) -> V, values: seq<V>)
    requires values != []
    ensures Reduce(OnPlain(op), Items(values, false)) == Some(Plain(Fold(op, values)))
  {
    var n := |values| - 1;
    assert Items(values, false)[..n] == Items(values[..n], false);
    if n > 0 {
      ReducePlain(op, values[..n]);
    }
  }

  /** The serial reduction of plain values: the root, or after a broadcast every rank, gets their left fold. */
  method SerialReduceValues<V>(op: (V, V) -> V, root: nat, size: nat, localValue: V, broadcast: bool,
                               mail: seq<Letter<V>>, ghost values: seq<V>)
    returns (returned: seq<Returned<Item<V>>>)
    requires root < size == |values| && localValue == values[root]
    requires forall i :: 0 <= i < size && i != root ==> |From(mail, i)| >= 1 && From(mail, i)[0] == values[i]
    ensures |returned| == size
    ensures forall i :: 0 <= i < size ==>
      returned[i] == if i == root || broadcast then Returns(Plain(Fold(op, values))) else ReturnsNone
  {
    ReducePlain(op, values);
    returned := SerialReduce(OnPlain(op), None, root, size, localValue, false, broadcast, mail, values);
  }

  lemma {:induction false} ReduceTotal<V>(op: (V, V) -> V, s: seq<V>)
    requires s != []
    ensures Reduce(Total(op), s) == Some(Fold(op, s))
  {
    if |s| > 1 {
      ReduceTotal(op, s[..|s| - 1]);
    }
  }

  /** Every completed tree reduction, under any schedule, against the serial one over the same values: equal at
      root 0 for an associative operator, and at every root for one that is commutative too. */
  lemma TreeAgreesWithSerial<V(!new)>(c: Config<V>, values: seq<V>, run: seq<System<V>>, schedule: seq<nat>)
    requires ValidConfig(c) && |values| == c.size && Associative(c.op)
    requires IsRun(c, values, run, schedule) && AllDone(run[|schedule|])
    requires c.root == 0 || Commutative(c.op)
    ensures |run[|schedule|].procs| == c.size
    ensures Reduce(Total(c.op), values) == Some(run[|schedule|].procs[c.root].result)
    ensures Reduce(OnPlain(c.op), Items(values, false)) == Some(Plain(run[|schedule|].procs[c.root].result))
  {
    ReducePlain(c.op, values);
    TreeReduceCorrect(c, values, run, schedule);
    ReduceTotal(c.op, values);
    if c.root == 0 {
      assert values[c.root..] + values[..c.root] == values;
    } else {
      FoldRotated(c.op, values, c.root);
    }
  }

  /** For an associative operator, being commutative is the same as not noticing where the operands start. */
  lemma CommutativeIffRotatable<V(!new)>(op: (V, V) -> V)
    requires Associative(op)
    ensures Commutative(op) <==>
      forall s: seq<V>, cut: nat :: cut < |s| ==> Fold(op, s[cut..] + s[..cut]) == Fold(op, s)
  {
    if Commutative(op) {
      forall s: seq<V>, cut: nat | cut < |s|
        ensures Fold(op, s[cut..] + s[..cut]) == Fold(op, s)
      {
        FoldRotated(op, s, cut);
      }
    } else {
      var a, b :| op(a, b) != op(b, a);
      var s := [a, b];
      FoldOfTwo(op, a, b);
      FoldOfTwo(op, b, a);
      assert s[1..] + s[..1] == [b, a];
    }
  }

  lemma FoldOfTwo<V>(op: (V, V) -> V, a: V, b: V)
    ensures Fold(op, [a, b]) == op(a, b)
  {
    assert [a, b][..1] == [a];
  }

  /** At every root, for any number of values, under every schedule, the tree gives what the serial reduction gives. */
  ghost predicate TreeAlwaysAgrees<V(!new)>(op: (V, V) -> V) {
    forall root: nat, values: seq<V>, run: seq<System<V>>, schedule: seq<nat> ::
      root < |values| && CompletedRun(Config(|values|, root, op), values, run, schedule) ==>
        Some(run[|schedule|].procs[root].result) == Reduce(Total(op), values)
  }

  ghost predicate CompletedRun<V>(c: Config<V>, values: seq<V>, run: seq<System<V>>, schedule: seq<nat>)
    requires ValidConfig(c) && |values| == c.size
    ensures CompletedRun(c, values, run, schedule) ==> |run| == |schedule| + 1 && |run[|schedule|].procs| == c.size
  {
    IsRun(c, values, run, schedule) && AllDone(run[|schedule|]) && |run[|schedule|].procs| == c.size
  }

  /** So for an associative operator the root of a tree reduction can be chosen freely exactly when the operator is
      commutative: otherwise there are two values, a root and a complete run whose result is another one. */
  lemma TreeAlwaysAgreesIff<V(!new)>(op: (V, V) -> V)
    requires Associative(op)
    ensures TreeAlwaysAgrees(op) <==> Commutative(op)
  {
    if Commutative(op) {
      forall root: nat, values: seq<V>, run: seq<System<V>>, schedule: seq<nat> |
        root < |values| && CompletedRun(Config(|values|, root, op), values, run, schedule)
        ensures Some(run[|schedule|].procs[root].result) == Reduce(Total(op), values)
      {
        TreeAgreesWithSerial(Config(|values|, root, op), values, run, schedule);
      }
    } else {
      var a, b :| op(a, b) != op(b, a);
      TreeDisagrees(op, a, b);
    }
  }

  lemma TreeDisagrees<V(!new)>(op: (V, V) -> V, a: V, b: V)
    requires Associative(op) && op(a, b) != op(b, a)
    ensures !TreeAlwaysAgrees(op)
  {
    var c, values := Config(2, 1, op), [a, b];
    var run, schedule := SomeCompletedRun(c, values);
    TreeReduceCorrect(c, values, run, schedule);
    ReduceTotal(op, values);
    FoldOfTwo(op, a, b);
    FoldOfTwo(op, b, a);
    assert values[1..] + values[..1] == [b, a];
    assert CompletedRun(Config(|values|, 1, op), values, run, schedule);
  }

  /** Rank i's scan value is what a serial reduction over ranks 0..i would give, ground first; so the last rank's
      is what the serial reduction gives. */
  lemma ScanAgreesWithSerial<V>(op: Operator<V>, none: V, ground: Option<V>, data: seq<V>, i: nat)
    requires i < |data| && Reduce(op, Grounded(ground, data[..i + 1])).Some?
    ensures Reduce(op, Grounded(ground, data[..i + 1])) == Some(ScanValue(op, none, ground, data, i))
    ensures i == |data| - 1 ==> Reduce(op, Grounded(ground, data)) == Some(ScanValue(op, none, ground, data, i))
  {
    ReduceIsFold(op, none, Grounded(ground, data[..i + 1]));
    if i == |data| - 1 {
      assert data[..i + 1] == data;
    }
  }

  // ---------------------------------------------------------------- scatter

  /** What is scattered: a sequence, or something that has no slices. */
  datatype Source<T> = Sequence(items: seq<T>) | Unsliceable

  /** Where slice i starts when i slices, the first `extras` of them one longer, come before it. */
  function Start(i: nat, perProcess: nat, extras: nat): nat {
    if i == 0 then 0 else Start(i - 1, perProcess, extras) + perProcess + if i - 1 < extras then 1 else 0
  }

  /** Where slice i starts when `length` elements are cut into `size` slices. */
  function SliceStart(i: nat, length: nat, size: nat): nat
    requires size > 0
  {
    Start(i, length / size, length % size)
  }

  lemma {:induction false} StartClosed(i: nat, perProcess: nat, extras: nat)
    ensures Start(i, perProcess, extras) == i * perProcess + Min(i, extras)
  {
    if i > 0 {
      StartClosed(i - 1, perProcess, extras);
      assert i * perProcess == (i - 1) * perProcess + perProcess;
    }
  }

  /** The boundaries in closed form. */
  lemma SliceStartClosed(i: nat, length: nat, size: nat)
    requires size > 0
    ensures SliceStart(i, length, size) == i * (length / size) + Min(i, length % size)
  {
    StartClosed(i, length / size, length % size);
  }

  /** The last boundary is the length. */
  lemma SliceStartEnd(length: nat, size: nat)
    requires size > 0
    ensures SliceStart(size, length, size) == length
  {
    var q, r := length / size, length % size;
    assert size * q + r == length;
    StartClosed(size, q, r);
  }

  lemma {:induction false} StartMonotone(i: nat, j: nat, perProcess: nat, extras: nat)
    requires i <= j
    ensures Start(i, perProcess, extras) <= Start(j, perProcess, extras)
  {
    if i < j {
      StartMonotone(i, j - 1, perProcess, extras);
    }
  }

  /** No slice reaches beyond the end. */
  lemma SliceBounds(i: nat, length: nat, size: nat)
    requires i < size
    ensures SliceStart(i, length, size) <= SliceStart(i + 1, length, size) <= length
  {
    StartMonotone(i + 1, size, length / size, length % size);
    SliceStartEnd(length, size);
  }

  /** Slice i of the items. */
  function SliceOf<T>(items: seq<T>, i: nat, size: nat): seq<T>
    requires i < size
  {
    SliceBounds(i, |items|, size);
    items[SliceStart(i, |items|, size)..SliceStart(i + 1, |items|, size)]
  }

  /** The slice for rank i: None if slicing fails. */
  function SliceFor<T>(source: Source<T>, i: nat, size: nat): Option<seq<T>>
    requires i < size
  {
    if source.Sequence? then Some(SliceOf(source.items, i, size)) else None
  }

  /** The slices for ranks 0 to n - 1. */
  function Slices<T>(source: Source<T>, n: nat, size: nat): (slices: seq<Option<seq<T>>>)
    requires n <= size
  {
    seq(n, i requires 0 <= i < size => SliceFor(source, i, size))
  }

  lemma SentNext<T>(source: Source<T>, i: nat, size: nat, root: nat)
    requires i < size
    ensures SentToOthers(Slices(source, i + 1, size), root)
         == SentToOthers(Slices(source, i, size), root) + if i == root then [] else [(i, SliceFor(source, i, size))]
  {
    assert Slices(source, i + 1, size)[..i] == Slices(source, i, size);
  }

  /** All slices in rank order, from what the root keeps and what it sends. */
  function InRankOrder<T>(own: Option<seq<T>>, sent: seq<(nat, Option<seq<T>>)>, root: nat): (slices: seq<seq<T>>)
    requires root <= |sent|
  {
    seq(|sent| + 1, i requires 0 <= i <= |sent| =>
      var slice := if i == root then own else sent[if i < root then i else i - 1].1;
      if slice.Some? then slice.value else [])
  }

  /** What the root keeps and sends are the slices. */
  lemma ScatteredSlices<T>(items: seq<T>, size: nat, root: nat)
    requires root < size
    ensures var sent := SentToOthers(Slices(Sequence(items), size, size), root);
      && |sent| == size - 1
      && InRankOrder(SliceFor(Sequence(items), root, size), sent, root)
         == seq(size, i requires 0 <= i < size => SliceOf(items, i, size))
  {
    var values := Slices(Sequence(items), size, size);
    var sent := SentToOthers(values, root);
    SentAt(values, root, 0);
    forall i | 0 <= i < size && i != root
      ensures sent[if i < root then i else i - 1].1 == Some(SliceOf(items, i, size))
    {
      SentAt(values, root, if i < root then i else i - 1);
    }
  }

  /** The root's loop: one slice per rank, the root keeping its own and sending the others theirs. Put together in rank
      order they are the sequence, and their lengths differ by at most one, the longer ones first. */
  method Scatter<T>(source: Source<T>, size: nat, root: nat)
    returns (result: Option<seq<T>>, sent: seq<(nat, Option<seq<T>>)>)
    requires root < size
    ensures result == SliceFor(source, root, size)
    ensures sent == SentToOthers(Slices(source, size, size), root)
    ensures |sent| == size - 1
    ensures forall k :: 0 <= k < |sent| ==> sent[k].0 == if k < root then k else k + 1
    ensures source.Unsliceable? ==> result == None && forall k :: 0 <= k < |sent| ==> sent[k].1 == None
    ensures source.Sequence? ==>
      && Concat(InRankOrder(result, sent, root)) == source.items
      && forall i :: 0 <= i < size ==>
           |InRankOrder(result, sent, root)[i]|
           == |source.items| / size + if i < |source.items| % size then 1 else 0
  {
    var length := if source.Sequence? then |source.items| else 0;
    var perProcess, extras := length / size, length % size;
    var start, end := 0, 0;
    result, sent := None, [];
    for i := 0 to size
      invariant end == SliceStart(i, length, size) <= length
      invariant extras == if i < length % size then length % size - i else 0
      invariant root < i ==> result == SliceFor(source, root, size)
      invariant sent == SentToOthers(Slices(source, i, size), root)
    {
      SliceBounds(i, length, size);
      start := end;
      end := start + perProcess;
      if extras != 0 {
        extras, end := extras - 1, end + 1;
      }
      var toSend := if source.Sequence? then Some(source.items[start..end]) else None;
      assert toSend == SliceFor(source, i, size);
      SentNext(source, i, size, root);
      if i == root {
        result := toSend;
      } else {
        sent := sent + [(i, toSend)];
      }
    }
    ScatterKeeps(source, size, root);
  }

  lemma ScatterKeeps<T>(source: Source<T>, size: nat, root: nat)
    requires root < size
    ensures var result, sent := SliceFor(source, root, size), SentToOthers(Slices(source, size, size), root);
      && |sent| == size - 1
      && (forall k :: 0 <= k < |sent| ==> sent[k].0 == if k < root then k else k + 1)
      && (source.Unsliceable? ==> result == None && forall k :: 0 <= k < |sent| ==> sent[k].1 == None)
      && (source.Sequence? ==>
            && Concat(InRankOrder(result, sent, root)) == source.items
            && forall i :: 0 <= i < size ==>
                 |InRankOrder(result, sent, root)[i]|
                 == |source.items| / size + if i < |source.items| % size then 1 else 0)
  {
    var values := Slices(source, size, size);
    var sent := SentToOthers(values, root);
    SentAt(values, root, 0);
    forall k | 0 <= k < |sent|
      ensures sent[k] == (if k < root then k else k + 1, values[if k < root then k else k + 1])
    {
      SentAt(values, root, k);
    }
    if source.Sequence? {
      var items := source.items;
      ScatteredSlices(items, size, root);
      ScatterPartitions(items, size);
      forall i | 0 <= i < size
        ensures |SliceOf(items, i, size)| == |items| / size + if i < |items| % size then 1 else 0
      {
        SliceLength(items, i, size);
      }
    }
  }

  function Concat<T>(lists: seq<seq<T>>): seq<T> {
    if lists == [] then [] else Concat(lists[..|lists| - 1]) + lists[|lists| - 1]
  }

  lemma {:induction false} SlicesUpTo<T>(items: seq<T>, size: nat, n: nat)
    requires 0 < size && n <= size
    ensures SliceStart(n, |items|, size) <= |items|
    ensures Concat(seq(n, i requires 0 <= i < size => SliceOf(items, i, size))) == items[..SliceStart(n, |items|, size)]
  {
    if n > 0 {
      SliceBounds(n - 1, |items|, size);
    }
    var f := i requires 0 <= i < size => SliceOf(items, i, size);
    if n > 0 {
      SlicesUpTo(items, size, n - 1);
      assert seq(n, f)[..n - 1] == seq(n - 1, f);
    }
  }

  lemma SliceLength<T>(items: seq<T>, i: nat, size: nat)
    requires i < size
    ensures |SliceOf(items, i, size)| == |items| / size + if i < |items| % size then 1 else 0
  {
    SliceBounds(i, |items|, size);
  }

  /** The slices are contiguous and cover the sequence: putting them together in rank order gives it back. */
  lemma ScatterPartitions<T>(items: seq<T>, size: nat)
    requires 0 < size
    ensures Concat(seq(size, i requires 0 <= i < size => SliceOf(items, i, size))) == items
  {
    SlicesUpTo(items, size, size);
    SliceStartEnd(|items|, size);
  }
}
