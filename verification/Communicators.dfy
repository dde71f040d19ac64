/** Communicators as sequences of ranks: slicing one, and creating one from an inclusion list. */
module Communicators {
  import opened Folds
  import opened Messages
  import opened Arithmetic

  // ---------------------------------------------------------------- slices

  /** C's division, for a positive divisor: towards zero. */
  function TruncDiv(a: int, b: int): int
    requires b > 0
  {
    if a >= 0 then a / b else -(-a / b)
  }

  datatype SliceResult = Slice(ranks: seq<int>) | InvalidSlice | BadListSize

  /** The ranks from start up to but excluding stop, by steps of step: Python's range. */
  function Range(start: int, stop: int, step: int): seq<int>
    requires step != 0
    decreases if step > 0 then stop - start else start - stop
  {
    if (step > 0 && start < stop) || (step < 0 && start > stop) then [start] + Range(start + step, stop, step) else []
  }

  /** Whether start lies so far beyond stop that the rounding in the size formula no longer yields zero. */
  predicate TooFarApart(start: int, stop: int, step: int) {
    if step > 0 then start - stop >= 2 * step - 1 else stop - start >= 2 * -step - 1
  }

  /** The number of elements that the code computes. */
  function SliceSize(start: int, stop: int, step: int): int
    requires step != 0
  {
    if step < 0 then TruncDiv(start - (stop + 1) - step, -step) else TruncDiv((stop - 1) - start + step, step)
  }

  /** The size formula as a function of the distance to go, for steps of `width`. */
  lemma AscendingSize(distance: int, width: nat)
    requires width > 0
    ensures distance > 0 ==>
      && TruncDiv(distance - 1 + width, width) == TruncDiv(distance - width - 1 + width, width) + 1
      && distance - width > 1 - 2 * width
    ensures 1 - 2 * width < distance <= 0 ==> TruncDiv(distance - 1 + width, width) == 0
    ensures distance <= 1 - 2 * width ==> TruncDiv(distance - 1 + width, width) < 0
  {
    var a := distance - 1 + width;
    if a >= width {
      DivStep(a - width, width);
    } else if a + width <= 0 {
      DivStep(-a - width, width);
    }
  }

  /** The size is that of the range, except that it is negative when the bounds are too far apart the wrong way. */
  lemma {:induction false} SliceSizeExact(start: int, stop: int, step: int)
    requires step != 0
    ensures SliceSize(start, stop, step) < 0 <==> TooFarApart(start, stop, step)
    ensures !TooFarApart(start, stop, step) ==> SliceSize(start, stop, step) == |Range(start, stop, step)|
    decreases if step > 0 then stop - start else start - stop
  {
    if step > 0 {
      AscendingSize(stop - start, step);
      if start < stop { SliceSizeExact(start + step, stop, step); }
    } else {
      AscendingSize(start - stop, -step);
      if start > stop { SliceSizeExact(start + step, stop, step); }
    }
  }

  lemma {:induction false} RangeAt(start: int, stop: int, step: int, i: nat)
    requires step != 0 && i < |Range(start, stop, step)|
    ensures Range(start, stop, step)[i] == start + i * step
    ensures if step > 0 then start <= start + i * step < stop else stop < start + i * step <= start
    decreases i
  {
    if i > 0 {
      RangeAt(start + step, stop, step, i - 1);
      assert start + step + (i - 1) * step == start + i * step;
    }
  }

  /** And it stops only where the next would reach the bound. */
  lemma {:induction false} RangeComplete(start: int, stop: int, step: int)
    requires step != 0
    ensures var next := start + |Range(start, stop, step)| * step;
      if step > 0 then next >= stop else next <= stop
    decreases if step > 0 then stop - start else start - stop
  {
    if (step > 0 && start < stop) || (step < 0 && start > stop) {
      RangeComplete(start + step, stop, step);
      var n := |Range(start + step, stop, step)|;
      assert start + step + n * step == start + (n + 1) * step;
    }
  }

  lemma RangeDistinct(start: int, stop: int, step: int, i: nat, j: nat)
    requires step != 0 && i < j < |Range(start, stop, step)|
    ensures Range(start, stop, step)[i] != Range(start, stop, step)[j]
  {
    RangeAt(start, stop, step, i);
    RangeAt(start, stop, step, j);
    assert j * step == i * step + (j - i) * step;
    if step > 0 {
      TimesAtLeast(j - i, step);
    } else {
      TimesAtLeast(j - i, -step);
      assert (j - i) * -step == -((j - i) * step);
    }
  }

  /** comm_slice, for bounds already resolved against the size. */
  method CommSlice(start: int, stop: int, step: int) returns (result: SliceResult)
    ensures result == if step == 0 then InvalidSlice
                      else if TooFarApart(start, stop, step) then BadListSize
                      else Slice(Range(start, stop, step))
  {
    if step == 0 { return InvalidSlice; }
    var size := 0;
    if step < 0 {
      size := TruncDiv(start - (stop + 1) - step, -step);
    } else {
      size := TruncDiv((stop - 1) - start + step, step);
    }
    SliceSizeExact(start, stop, step);
    if size < 0 { return BadListSize; }
    var ranks := [];
    for i := 0 to size
      invariant ranks == Range(start, stop, step)[..i]
    {
      RangeAt(start, stop, step, i);
      ranks := ranks + [start + i * step];
    }
    return Slice(ranks);
  }

  // ---------------------------------------------------------------- creation

  /** The argument of comm_create. An element or number that does not convert to a C long is None. */
  datatype Inclusions = Sequence(elements: seq<Option<int>>) | NoneObject | Number(value: Option<int>)

  datatype Refusal =
    | NotInteger(position: nat)
    | TooLong
    | OutOfRange(rank: int, position: nat)
    | Duplicated(rank: int, position: nat)

  datatype Outcome = Created(ranks: seq<int>) | NullCommunicator | NoneResult | Refused(reason: Refusal)

  predicate InRange(s: seq<int>, size: nat) {
    forall i :: 0 <= i < |s| ==> 0 <= s[i] < size
  }

  predicate DuplicateFree(s: seq<int>) {
    forall i, j :: 0 <= i < j < |s| ==> s[i] != s[j]
  }

  predicate Integers(s: seq<Option<int>>) {
    forall i :: 0 <= i < |s| ==> s[i].Some?
  }

  /** The elements as the code stores them: in C ints. */
  function Stored(s: seq<Option<int>>): (r: seq<int>)
    requires Integers(s)
    ensures |r| == |s| && forall i :: 0 <= i < |s| ==> r[i] == ToCInt(s[i].value)
  {
    seq(|s|, i requires 0 <= i < |s| && s[i].Some? => ToCInt(s[i].value))
  }

  /** What is accepted of a non-empty list; its length is not mentioned. */
  predicate Acceptable(s: seq<Option<int>>, size: nat) {
    Integers(s) && InRange(Stored(s), size) && DuplicateFree(Stored(s))
  }

  /** The pigeonhole principle: so the check for too long a list never refuses an acceptable one. */
  lemma {:induction false} NoLongerThanRange(s: seq<int>, size: nat)
    requires InRange(s, size) && DuplicateFree(s)
    ensures |s| <= size
    decreases size
  {
    var first := if s == [] then None else Some(s[0]);
    if i :| 0 <= i < |s| && s[i] == size - 1 {
      var t := s[..i] + s[i + 1..];
      assert DuplicateFree(t) && InRange(t, size - 1);
      NoLongerThanRange(t, size - 1);
    } else if size > 0 {
      NoLongerThanRange(s, size - 1);
    }
  }

  /** The checking loops: in range, and different from everything before. */
  method Check(ranks: array<int>, len: nat, size: nat) returns (refusal: Option<Refusal>)
    requires len <= ranks.Length
    ensures refusal == None <==> InRange(ranks[..len], size) && DuplicateFree(ranks[..len])
    ensures refusal.Some? ==> Explains(refusal.value, ranks[..len], size)
  {
    for i := 0 to len
      invariant InRange(ranks[..i], size) && DuplicateFree(ranks[..i])
    {
      if ranks[i] < 0 || ranks[i] >= size {
        assert ranks[..len][i] == ranks[i] && ranks[..len][..i] == ranks[..i];
        return Some(OutOfRange(ranks[i], i));
      }
      for j := 0 to i
        invariant forall k :: 0 <= k < j ==> ranks[i] != ranks[k]
      {
        if ranks[i] == ranks[j] {
          assert ranks[..len][i] == ranks[..len][j] && ranks[..len][..i] == ranks[..i];
          return Some(Duplicated(ranks[i], i));
        }
      }
    }
    return None;
  }

  /** A refusal names the first rank that is wrong, and what is wrong with it. */
  predicate Explains(r: Refusal, s: seq<int>, size: nat) {
    (r.OutOfRange? || r.Duplicated?) && r.position < |s| && s[r.position] == r.rank
    && InRange(s[..r.position], size) && DuplicateFree(s[..r.position])
    && (r.OutOfRange? <==> !(0 <= r.rank < size))
    && (r.Duplicated? ==> exists j :: 0 <= j < r.position && s[j] == r.rank)
  }

  /** pyMPI_misc_create, up to the point where MPI builds the group: a non-empty list is accepted just when its
      stored elements are in range and duplicate-free. */
  method MiscCreate(size: nat, inclusions: Inclusions) returns (outcome: Outcome)
    ensures inclusions.NoneObject? <==> outcome.NoneResult?
    ensures inclusions == Sequence([]) <==> outcome.NullCommunicator?
    ensures inclusions.Sequence? && inclusions.elements != [] ==>
      && (outcome.Created? <==> Acceptable(inclusions.elements, size))
      && (outcome.Created? ==> outcome.ranks == Stored(inclusions.elements))
      && (outcome == Refused(TooLong) <==> |inclusions.elements| > size && Integers(inclusions.elements[..size]))
      && (outcome.Refused? && outcome.reason.NotInteger? ==>
            var p := outcome.reason.position;
            p < |inclusions.elements| && p < size && inclusions.elements[p].None? && Integers(inclusions.elements[..p]))
      && (outcome.Refused? && (outcome.reason.OutOfRange? || outcome.reason.Duplicated?) ==>
            Integers(inclusions.elements) && Explains(outcome.reason, Stored(inclusions.elements), size))
    ensures inclusions.Number? ==>
      outcome == if inclusions.value.None? then Refused(NotInteger(0))
                 else if 0 <= ToCInt(inclusions.value.value) < size then Created([ToCInt(inclusions.value.value)])
                 else Refused(OutOfRange(ToCInt(inclusions.value.value), 0))
  {
    var ranks: array<int>;
    var len := 0;
    match inclusions {
      case NoneObject => return NoneResult;
      case Number(value) =>
        if value.None? { return Refused(NotInteger(0)); }
        ranks := new int[1];
        ranks[0] := ToCInt(value.value);
        len := 1;
      case Sequence(elements) =>
        ranks := new int[size];
        while len < |elements|
          invariant len <= |elements| && len <= size
          invariant Integers(elements[..len])
          invariant forall i :: 0 <= i < len ==> ranks[i] == ToCInt(elements[i].value)
        {
          if len >= size {
            TooManyNotAcceptable(elements, size);
            return Refused(TooLong);
          }
          if elements[len].None? { return Refused(NotInteger(len)); }
          ranks[len] := ToCInt(elements[len].value);
          len := len + 1;
        }
        assert elements[..len] == elements;
        assert ranks[..len] == Stored(elements);
    }
    if len == 0 { return NullCommunicator; }
    var refusal := Check(ranks, len, size);
    if refusal.Some? { return Refused(refusal.value); }
    return Created(ranks[..len]);
  }

  lemma TooManyNotAcceptable(s: seq<Option<int>>, size: nat)
    ensures Acceptable(s, size) ==> |s| <= size
  {
    if Acceptable(s, size) {
      NoLongerThanRange(Stored(s), size);
    }
  }

  /** For ranks that fit an int, what is stored is what was given. */
  lemma AcceptableAsGiven(s: seq<int>, size: nat)
    requires forall i :: 0 <= i < |s| ==> -INT_MAX - 1 <= s[i] <= INT_MAX
    ensures Acceptable(Elements(s), size) <==> InRange(s, size) && DuplicateFree(s)
  {
    assert Stored(Elements(s)) == s;
  }

  /** What a caller would take for acceptable: the same, of the elements as given. */
  predicate GoodAsGiven(s: seq<Option<int>>, size: nat) {
    && Integers(s)
    && (forall i :: 0 <= i < |s| ==> 0 <= s[i].value < size)
    && (forall i, j :: 0 <= i < j < |s| ==> s[i].value != s[j].value)
  }

  /** Every list that is good as given is accepted; and an accepted one is good as given if and only if all its elements
      fit a C int. */
  lemma AcceptedVersusGiven(s: seq<Option<int>>, size: nat)
    requires size <= INT_MAX
    ensures GoodAsGiven(s, size) ==> Acceptable(s, size)
    ensures Acceptable(s, size) ==>
      (GoodAsGiven(s, size) <==> forall i :: 0 <= i < |s| ==> -INT_MAX - 1 <= s[i].value <= INT_MAX)
  {
    if Acceptable(s, size) && forall i :: 0 <= i < |s| ==> -INT_MAX - 1 <= s[i].value <= INT_MAX {
      assert forall i :: 0 <= i < |s| ==> Stored(s)[i] == s[i].value;
    }
  }

  /** An input that is accepted and should not be: 2 to the 32nd, which is stored as rank 0. */
  lemma LargeRankAccepted(size: nat)
    requires 0 < size <= INT_MAX
    ensures Acceptable(Elements([0x1_0000_0000]), size) && !GoodAsGiven(Elements([0x1_0000_0000]), size)
  {
    assert ToCInt(0x1_0000_0000) == 0;
    assert Elements([0x1_0000_0000])[0] == Some(0x1_0000_0000);
  }

  function Elements(s: seq<int>): (r: seq<Option<int>>)
    ensures |r| == |s| && Integers(r) && forall i :: 0 <= i < |s| ==> r[i] == Some(s[i])
  {
    seq(|s|, i requires 0 <= i < |s| => Some(s[i]))
  }

  /** A slice between bounds inside the communicator is a list that comm_create accepts, whichever way it steps. */
  lemma SlicesAreAcceptable(start: int, stop: int, step: int, size: nat)
    requires step != 0 && size <= INT_MAX
    requires if step > 0 then 0 <= start && stop <= size else start < size && -1 <= stop
    ensures Acceptable(Elements(Range(start, stop, step)), size)
  {
    var s := Range(start, stop, step);
    forall i | 0 <= i < |s|
      ensures s[i] == start + i * step && 0 <= s[i] < size
    {
      RangeAt(start, stop, step, i);
    }
    forall i, j | 0 <= i < j < |s|
      ensures s[i] != s[j]
    {
      RangeDistinct(start, stop, step, i, j);
    }
    AcceptableAsGiven(s, size);
  }
}
