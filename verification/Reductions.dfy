/** The reduction operators and the table that maps their handles to the functions implementing them. */
module Reductions {
  import opened Folds
  import opened Collectives

  // ---------------------------------------------------------------- the operators on integers

  function MAX(a: int, b: int): int { if b > a then b else a }
  function MIN(a: int, b: int): int { if b < a then b else a }
  function SUM(a: int, b: int): int { a + b }
  function PROD(a: int, b: int): int { a * b }

  /** Python's truth value of an integer, and the integers that True and False are. */
  predicate Truth(a: int) { a != 0 }
  function FromBool(b: bool): int { if b then 1 else 0 }

  function LAND(a: int, b: int): int { if Truth(a) && Truth(b) then 1 else 0 }
  function LOR(a: int, b: int): int { if Truth(a) || Truth(b) then 1 else 0 }
  function LXOR(a: int, b: int): int {
    if Truth(a) then FromBool(!Truth(b)) else if Truth(b) then 1 else 0
  }

  /** So by Collectives.TreeAgreesWithSerial the tree and the serial reduction give the same result at every root. */
  lemma OperatorsAssociateAndCommute()
    ensures Associative(MAX) && Associative(MIN) && Associative(SUM) && Associative(PROD)
    ensures Associative(LAND) && Associative(LOR) && Associative(LXOR)
    ensures Commutative(MAX) && Commutative(MIN) && Commutative(SUM) && Commutative(PROD)
    ensures Commutative(LAND) && Commutative(LOR) && Commutative(LXOR)
  {
    forall a, b, c
      ensures PROD(PROD(a, b), c) == PROD(a, PROD(b, c))
    {
      assert (a * b) * c == a * (b * c);
    }
  }

  /** Over any number of ranks MAX is the greatest of the values and MIN the least. */
  lemma {:induction false} ExtremeReductions(s: seq<int>)
    requires s != []
    ensures Fold(MAX, s) in s && forall i :: 0 <= i < |s| ==> s[i] <= Fold(MAX, s)
    ensures Fold(MIN, s) in s && forall i :: 0 <= i < |s| ==> Fold(MIN, s) <= s[i]
  {
    if |s| > 1 {
      var t := s[..|s| - 1];
      ExtremeReductions(t);
      assert forall i :: 0 <= i < |t| ==> s[i] == t[i];
    }
  }

  function Sum(s: seq<int>): int {
    if s == [] then 0 else s[0] + Sum(s[1..])
  }

  function Product(s: seq<int>): int {
    if s == [] then 1 else s[0] * Product(s[1..])
  }

  lemma {:induction false} SumAppend(s: seq<int>, x: int)
    ensures Sum(s + [x]) == Sum(s) + x
    ensures Product(s + [x]) == Product(s) * x
  {
    if s != [] {
      SumAppend(s[1..], x);
      assert (s + [x])[1..] == s[1..] + [x];
      assert s[0] * (Product(s[1..]) * x) == s[0] * Product(s[1..]) * x;
    }
  }

  /** SUM and PROD reductions yield the sum and the product of the values. */
  lemma {:induction false} SumAndProductReductions(s: seq<int>)
    requires s != []
    ensures Fold(SUM, s) == Sum(s) && Fold(PROD, s) == Product(s)
  {
    var n := |s| - 1;
    assert s == s[..n] + [s[n]];
    SumAppend(s[..n], s[n]);
    if n > 0 {
      SumAndProductReductions(s[..n]);
    } else {
      assert s[..n] == [];
    }
  }

  function CountTrue(s: seq<int>): nat {
    if s == [] then 0 else CountTrue(s[..|s| - 1]) + FromBool(Truth(s[|s| - 1]))
  }

  lemma {:induction false} LogicalCounts(s: seq<int>)
    requires |s| >= 2
    ensures Fold(LAND, s) == FromBool(CountTrue(s) == |s|)
    ensures Fold(LOR, s) == FromBool(CountTrue(s) > 0)
    ensures Fold(LXOR, s) == FromBool(CountTrue(s) % 2 == 1)
    ensures CountTrue(s) <= |s|
  {
    var t := s[..|s| - 1];
    if |s| == 2 {
      assert t == [s[0]] && t[..0] == [];
      assert CountTrue(t) == FromBool(Truth(s[0]));
    } else {
      LogicalCounts(t);
    }
  }

  lemma {:induction false} CountTrueMeans(s: seq<int>)
    ensures CountTrue(s) <= |s|
    ensures CountTrue(s) == |s| <==> forall i :: 0 <= i < |s| ==> Truth(s[i])
    ensures CountTrue(s) > 0 <==> exists i :: 0 <= i < |s| && Truth(s[i])
  {
    if s != [] {
      var t := s[..|s| - 1];
      CountTrueMeans(t);
      assert forall i :: 0 <= i < |t| ==> t[i] == s[i];
    }
  }

  /** Over two or more ranks: LAND is 1 just when all values are true, LOR when one is, and LXOR when an odd
      number of them is. */
  lemma LogicalReductions(s: seq<int>)
    requires |s| >= 2
    ensures Fold(LAND, s) == FromBool(forall i :: 0 <= i < |s| ==> Truth(s[i]))
    ensures Fold(LOR, s) == FromBool(exists i :: 0 <= i < |s| && Truth(s[i]))
    ensures Fold(LXOR, s) == FromBool(CountTrue(s) % 2 == 1)
  {
    LogicalCounts(s);
    CountTrueMeans(s);
  }

  // ---------------------------------------------------------------- MINLOC and MAXLOC

  /** Python's < on the values, as a strict order in which being neither less nor greater is transitive. */
  ghost predicate WeakOrder<T(!new)>(less: (T, T) -> bool) {
    && (forall a :: !less(a, a))
    && (forall a, b, c :: less(a, b) && less(b, c) ==> less(a, c))
    && (forall a, b, c :: less(a, c) ==> less(a, b) || less(b, c))
  }

  /** MINLOC; MAXLOC is the same with the order turned round. The operator asserts that its left operand, which
      may be the ground, is a tuple. */
  function MinLoc<T>(less: (T, T) -> bool): Operator<Item<T>> {
    (a: Item<T>, b: Item<T>) =>
      if a.Plain? || b.Plain? then None
      else if less(b.value, a.value) then Some(b) else Some(a)
  }

  function Reverse<T>(less: (T, T) -> bool): (T, T) -> bool {
    (a, b) => less(b, a)
  }

  /** No value is below best, and none before it equals it. */
  ghost predicate FirstLeast<T>(less: (T, T) -> bool, values: seq<T>, best: int) {
    && 0 <= best < |values|
    && (forall j :: 0 <= j < |values| ==> !less(values[j], values[best]))
    && (forall j :: 0 <= j < best ==> less(values[best], values[j]))
  }

  lemma {:induction false} MinLocLeast<T(!new)>(less: (T, T) -> bool, values: seq<T>) returns (best: nat)
    requires WeakOrder(less) && values != []
    ensures FirstLeast(less, values, best)
    ensures Reduce(MinLoc(less), Items(values, true)) == Some(Ranked(values[best], best))
  {
    best := 0;
    var n := |values| - 1;
    if n > 0 {
      var front := values[..n];
      best := MinLocLeast(less, front);
      assert Items(values, true)[..n] == Items(front, true);
      if less(values[n], values[best]) {
        forall j | 0 <= j < n
          ensures less(values[n], values[j]) && !less(values[j], values[n])
        {
          assert !less(front[j], front[best]);
          assert less(values[n], values[j]);
        }
        best := n;
      } else {
        assert forall j :: 0 <= j < n ==> !less(front[j], front[best]);
        assert forall j :: 0 <= j < best ==> less(front[best], front[j]);
      }
    }
  }

  /** MINLOC without a ground: the least value of any rank, with the smallest rank that has it. */
  lemma MinLocWithoutGround<T(!new)>(less: (T, T) -> bool, values: seq<T>, best: int)
    requires WeakOrder(less) && values != []
    ensures FirstLeast(less, values, best) <==>
      && 0 <= best < |values|
      && Reduce(MinLoc(less), Grounded(None, Items(values, true))) == Some(Ranked(values[best], best))
  {
    var b := MinLocLeast(less, values);
  }

  /** MAXLOC without a ground: likewise the greatest. */
  lemma MaxLocWithoutGround<T(!new)>(less: (T, T) -> bool, values: seq<T>, best: int)
    requires WeakOrder(less) && values != []
    ensures
      && 0 <= best < |values|
      && (forall j :: 0 <= j < |values| ==> !less(values[best], values[j]))
      && (forall j :: 0 <= j < best ==> less(values[j], values[best]))
      <==>
      0 <= best < |values| && Reduce(MinLoc(Reverse(less)), Items(values, true)) == Some(Ranked(values[best], best))
  {
    assert WeakOrder(Reverse(less));
    MinLocWithoutGround(Reverse(less), values, best);
  }

  lemma FirstLeastUnique<T(!new)>(less: (T, T) -> bool, values: seq<T>, a: int, b: int)
    requires WeakOrder(less) && FirstLeast(less, values, a) && FirstLeast(less, values, b)
    ensures a == b
  {
    assert !less(values[a], values[b]) && !less(values[b], values[a]);
  }

  lemma FirstLeastInFront<T(!new)>(less: (T, T) -> bool, values: seq<T>, best: int)
    requires FirstLeast(less, values, best) && best < |values| - 1
    ensures FirstLeast(less, values[..|values| - 1], best)
  {
  }

  /** With a ground: it raises exactly when the ground is not a tuple; a tuple is kept, rank and all, unless some
      value is strictly below it, and then the result is the one there would have been without it. */
  lemma {:induction false} MinLocWithGround<T(!new)>(less: (T, T) -> bool, ground: Item<T>, values: seq<T>)
    returns (best: nat)
    requires WeakOrder(less) && values != []
    ensures FirstLeast(less, values, best)
    ensures Reduce(MinLoc(less), Grounded(Some(ground), Items(values, true)))
         == if ground.Plain? then None
            else Some(if less(values[best], ground.value) then Ranked(values[best], best) else ground)
  {
    best := MinLocLeast(less, values);
    var n := |values| - 1;
    var front := values[..n];
    var all := Grounded(Some(ground), Items(values, true));
    assert all[..|all| - 1] == Grounded(Some(ground), Items(front, true));
    if n == 0 {
      assert Grounded(Some(ground), Items(front, true)) == [ground];
    } else {
      var bestFront := MinLocWithGround(less, ground, front);
      if best < n {
        FirstLeastInFront(less, values, best);
        FirstLeastUnique(less, front, best, bestFront);
      }
    }
  }

  // ---------------------------------------------------------------- the table

  /** A handle of an MPI implementation, compared as the number it is, and the Python function behind it. */
  datatype Entry<F> = Entry(op: int, function_: F)

  predicate Sorted<F>(s: seq<Entry<F>>) {
    forall i, j :: 0 <= i <= j < |s| ==> s[i].op <= s[j].op
  }

  /** The number of entries that sort before a new one. */
  function Place<F>(s: seq<Entry<F>>, op: int): (k: nat)
    requires Sorted(s)
    ensures k <= |s|
    ensures forall i :: 0 <= i < k ==> s[i].op <= op
    ensures forall i :: k <= i < |s| ==> op < s[i].op
  {
    if s == [] || s[|s| - 1].op <= op then |s| else Place(s[..|s| - 1], op)
  }

  /** qsort, on a table whose last entry is the only one out of place. */
  function Insert<F>(s: seq<Entry<F>>, e: Entry<F>): (r: seq<Entry<F>>)
    requires Sorted(s)
    ensures Sorted(r) && multiset(r) == multiset(s) + multiset{e}
  {
    InsertKeeps(s, Place(s, e.op), e);
    s[..Place(s, e.op)] + [e] + s[Place(s, e.op)..]
  }

  lemma InsertKeeps<F>(s: seq<Entry<F>>, k: nat, e: Entry<F>)
    requires k <= |s| && Sorted(s)
    requires (forall i :: 0 <= i < k ==> s[i].op <= e.op) && (forall i :: k <= i < |s| ==> e.op <= s[i].op)
    ensures var r := s[..k] + [e] + s[k..];
      Sorted(r) && multiset(r) == multiset(s) + multiset{e}
  {
    assert s == s[..k] + s[k..];
  }

  predicate Distinct<F>(s: seq<Entry<F>>) {
    forall i, j :: 0 <= i < j < |s| ==> s[i].op != s[j].op
  }

  class ReductionTable<F> {
    var map_: seq<Entry<F>>

    ghost predicate Valid()
      reads this
    {
      Sorted(map_)
    }

    constructor ()
      ensures Valid() && map_ == []
    {
      map_ := [];
    }

    method Register(op: int, f: F)
      requires Valid()
      modifies this
      ensures Valid() && multiset(map_) == multiset(old(map_)) + multiset{Entry(op, f)}
    {
      map_ := Insert(map_, Entry(op, f));
    }

    /** Registers the operators one after another. */
    method RegisterAll(operators: seq<Entry<F>>)
      requires Valid()
      modifies this
      ensures Valid() && multiset(map_) == multiset(old(map_)) + multiset(operators)
    {
      for i := 0 to |operators|
        invariant Valid() && multiset(map_) == multiset(old(map_)) + multiset(operators[..i])
      {
        Register(operators[i].op, operators[i].function_);
        assert operators[..i + 1] == operators[..i] + [operators[i]];
      }
      assert operators[..|operators|] == operators;
    }

    /** The binary search: something is found exactly for the registered operators, and it was registered for op. */
    method Lookup(op: int) returns (found: Option<F>)
      requires Valid()
      ensures found.Some? <==> exists i :: 0 <= i < |map_| && map_[i].op == op
      ensures found.Some? ==> Entry(op, found.value) in map_
    {
      var lo, hi := 0, |map_| - 1;
      while lo <= hi
        invariant 0 <= lo && hi < |map_|
        invariant forall i :: 0 <= i < |map_| && (i < lo || hi < i) ==> map_[i].op != op
      {
        var mid := (lo + hi) / 2;
        if map_[mid].op == op {
          return Some(map_[mid].function_);
        } else if map_[mid].op > op {
          hi := mid - 1;
        } else {
          lo := mid + 1;
        }
      }
      return None;
    }
  }

  /** Where the handles are distinct, the function found for one is the one registered for it, and an integer that
      is no handle is found to be none. */
  method LookupRegistered<F>(operators: seq<Entry<F>>, op: int) returns (found: Option<F>)
    requires Distinct(operators)
    ensures forall e :: e in operators && e.op == op ==> found == Some(e.function_)
    ensures (forall e :: e in operators ==> e.op != op) ==> found == None
  {
    var table := new ReductionTable<F>();
    table.RegisterAll(operators);
    found := table.Lookup(op);
    assert forall e :: e in table.map_ <==> e in multiset(table.map_);
    assert forall e :: e in operators <==> e in multiset(operators);
    forall e | e in operators && e.op == op
      ensures found == Some(e.function_)
    {
      assert e in table.map_;
      assert found.Some?;
      assert Entry(op, found.value) in operators;
    }
  }
}
