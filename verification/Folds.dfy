/** Options, and the left fold that every reduction is measured against. */
module Folds {

  datatype Option<+T> = None | Some(value: T)

  ghost predicate Associative<V(!new)>(op: (V, V) -> V) {
    forall a, b, c :: op(op(a, b), c) == op(a, op(b, c))
  }

  ghost predicate Commutative<V(!new)>(op: (V, V) -> V) {
    forall a, b :: op(a, b) == op(b, a)
  }

  /** op(op(...op(s[0], s[1]), ...), s[|s|-1]) */
  function Fold<V>(op: (V, V) -> V, s: seq<V>): V
    requires s != []
  {
    if |s| == 1 then s[0] else op(Fold(op, s[..|s| - 1]), s[|s| - 1])
  }

  /** The fold of the ranks lo..hi-1. */
  function FoldRange<V>(op: (V, V) -> V, s: seq<V>, lo: nat, hi: nat): V
    requires lo < hi <= |s|
  {
    Fold(op, s[lo..hi])
  }

  lemma {:induction false} FoldConcat<V(!new)>(op: (V, V) -> V, a: seq<V>, b: seq<V>)
    requires Associative(op) && a != [] && b != []
    ensures Fold(op, a + b) == op(Fold(op, a), Fold(op, b))
    decreases |b|
  {
    var ab := a + b;
    if |b| == 1 {
      assert ab[..|ab| - 1] == a;
    } else {
      var b' := b[..|b| - 1];
      assert ab[..|ab| - 1] == a + b';
      FoldConcat(op, a, b');
    }
  }

  /** Adjacent ranges combine into one. */
  lemma FoldAdjacent<V(!new)>(op: (V, V) -> V, s: seq<V>, lo: nat, mid: nat, hi: nat)
    requires Associative(op) && lo < mid < hi <= |s|
    ensures op(FoldRange(op, s, lo, mid), FoldRange(op, s, mid, hi)) == FoldRange(op, s, lo, hi)
  {
    assert s[lo..mid] + s[mid..hi] == s[lo..hi];
    FoldConcat(op, s[lo..mid], s[mid..hi]);
  }

  /** For a commutative operator the fold does not depend on where the sequence is cut and rotated. */
  lemma FoldRotated<V(!new)>(op: (V, V) -> V, s: seq<V>, cut: nat)
    requires Associative(op) && Commutative(op) && cut < |s|
    ensures Fold(op, s[cut..] + s[..cut]) == Fold(op, s)
  {
    if cut == 0 {
      assert s[cut..] + s[..cut] == s;
    } else {
      assert s[..cut] + s[cut..] == s;
      FoldConcat(op, s[cut..], s[..cut]);
      FoldConcat(op, s[..cut], s[cut..]);
    }
  }

  lemma AppendAssoc<T>(a: seq<T>, b: seq<T>, c: seq<T>)
    ensures a + b + c == a + (b + c)
  {
  }
}
