/** gather and allgather: every rank packs its list; the root collects the headers, lays the bodies out in one buffer
    at the prefix sums of their sizes, unpacks each with its own header and concatenates. */
module Gathering {
  import opened Folds
  import opened Messages
  import opened Buffers
  import opened Collectives

  /** The part of its list that a rank contributes: the first `count` elements, or all if no count is given; None,
      exactly when the list is shorter than the count, for the exception it raises then. */
  method Choose(list: seq<PyObject>, countGiven: int) returns (chosen: Option<seq<PyObject>>)
    ensures chosen == None <==> countGiven > |list|
    ensures chosen.Some? ==> chosen.value == if countGiven < 0 then list else list[..countGiven]
  {
    var count, objectSize := countGiven, |list|;
    if count < 0 {
      count := objectSize;
    }
    if objectSize < count {
      return None;
    } else if objectSize > count {
      return Some(list[..count]);
    }
    return Some(list);
  }

  /** Every rank's list fits a message. */
  predicate AllSendable(codec: Codec, lists: seq<seq<PyObject>>) {
    forall i :: 0 <= i < |lists| ==> Sendable(codec, PyList(lists[i]))
  }

  /** The second message of a rank, possibly empty. */
  function BodyOf(codec: Codec, list: seq<PyObject>): (body: seq<byte>)
    requires Sendable(codec, PyList(list))
    ensures |body| == Pack(codec, PyList(list)).message.header.bytesInSecondMessage
  {
    var overflow := Pack(codec, PyList(list)).overflow;
    if overflow.Some? then overflow.value else []
  }

  /** The sum of the first i sizes. */
  function PrefixSum(sizes: seq<nat>, i: nat): nat
    requires i <= |sizes|
  {
    if i == 0 then 0 else PrefixSum(sizes, i - 1) + sizes[i - 1]
  }

  /** Regions that start at the prefix sums are disjoint, in order, and fill exactly the total. */
  lemma {:induction false} RegionsFit(sizes: seq<nat>, i: nat, j: nat)
    requires i < j <= |sizes|
    ensures PrefixSum(sizes, i) + sizes[i] <= PrefixSum(sizes, j)
    ensures PrefixSum(sizes, i) + sizes[i] == PrefixSum(sizes, i + 1)
  {
    if i + 1 < j {
      RegionsFit(sizes, i, j - 1);
    }
  }

  /** So for all of them, given as the counts and displacements that the code computes. */
  lemma LaidOut(sizes: seq<nat>, counts: seq<int>, displacements: seq<int>)
    requires |counts| == |displacements| == |sizes|
    requires forall i :: 0 <= i < |sizes| ==> counts[i] == sizes[i]
    requires forall i :: 0 <= i < |sizes| ==> displacements[i] == PrefixSum(sizes, i)
    ensures forall i, j :: 0 <= i < j < |sizes| ==> displacements[i] + counts[i] <= displacements[j]
    ensures forall i :: 0 <= i < |sizes| ==>
      0 <= displacements[i] && displacements[i] + counts[i] <= PrefixSum(sizes, |sizes|)
  {
    forall i, j | 0 <= i < j <= |sizes|
      ensures PrefixSum(sizes, i) + sizes[i] <= PrefixSum(sizes, j)
    {
      RegionsFit(sizes, i, j);
    }
  }

  /** The sizes of the ranks' second messages. */
  function BodySizes(codec: Codec, lists: seq<seq<PyObject>>): (sizes: seq<nat>)
    requires AllSendable(codec, lists)
    ensures |sizes| == |lists|
  {
    seq(|lists|, i requires 0 <= i < |lists| => |BodyOf(codec, lists[i])|)
  }

  /** A region of a buffer and what is in it. */
  predicate LiesAt(body: seq<byte>, buffer: seq<byte>, displacement: int, count: int) {
    0 <= displacement && 0 <= count && displacement + count <= |buffer|
    && buffer[displacement..displacement + count] == body
  }

  lemma Undisturbed(body: seq<byte>, before: seq<byte>, after: seq<byte>, displacement: int, count: int, from: int)
    requires LiesAt(body, before, displacement, count) && displacement + count <= from
    requires |before| == |after| && forall k :: 0 <= k < |before| && k < from ==> after[k] == before[k]
    ensures LiesAt(body, after, displacement, count)
  {
  }

  /** MPI_Gatherv on the root: body i goes to displacement i. The regions must lie in the buffer, one after the
      other. */
  method MpiGatherv(bodies: seq<seq<byte>>, recvCounts: array<int>, displacements: array<int>, buffer: array<byte>)
    requires recvCounts.Length == displacements.Length == |bodies|
    requires forall i :: 0 <= i < |bodies| ==>
      recvCounts[i] == |bodies[i]| && 0 <= displacements[i] && displacements[i] + recvCounts[i] <= buffer.Length
    requires forall i, j :: 0 <= i < j < |bodies| ==> displacements[i] + recvCounts[i] <= displacements[j]
    modifies buffer
    ensures forall i :: 0 <= i < |bodies| ==> LiesAt(bodies[i], buffer[..], displacements[i], recvCounts[i])
  {
    for i := 0 to |bodies|
      invariant forall j :: 0 <= j < i ==> LiesAt(bodies[j], buffer[..], displacements[j], recvCounts[j])
    {
      ghost var before := buffer[..];
      var d := displacements[i];
      forall k | 0 <= k < |bodies[i]| {
        buffer[d + k] := bodies[i][k];
      }
      forall j | 0 <= j < i
        ensures LiesAt(bodies[j], buffer[..], displacements[j], recvCounts[j])
      {
        Undisturbed(bodies[j], before, buffer[..], displacements[j], recvCounts[j], d);
      }
      assert LiesAt(bodies[i], buffer[..], d, recvCounts[i]);
    }
  }

  /** The root's first loop. */
  method LayOut(all: seq<Message>, ghost sizes: seq<nat>, recvCounts: array<int>, displacements: array<int>)
    returns (totalBytes: int)
    requires |all| == |sizes| == recvCounts.Length == displacements.Length
    requires forall i :: 0 <= i < |all| ==> all[i].header.bytesInSecondMessage == sizes[i]
    requires recvCounts != displacements
    modifies recvCounts, displacements
    ensures totalBytes == PrefixSum(sizes, |sizes|)
    ensures forall i {:trigger recvCounts[i]} :: 0 <= i < |all| ==> recvCounts[i] == sizes[i]
    ensures forall i {:trigger displacements[i]} :: 0 <= i < |all| ==> displacements[i] == PrefixSum(sizes, i)
    ensures forall i, j :: 0 <= i < j < |all| ==> displacements[i] + recvCounts[i] <= displacements[j]
    ensures forall i :: 0 <= i < |all| ==> 0 <= displacements[i] && displacements[i] + recvCounts[i] <= totalBytes
  {
    totalBytes := 0;
    for i := 0 to |all|
      invariant totalBytes == PrefixSum(sizes, i)
      invariant forall j {:trigger recvCounts[j]} :: 0 <= j < i ==> recvCounts[j] == sizes[j]
      invariant forall j {:trigger displacements[j]} :: 0 <= j < i ==> displacements[j] == PrefixSum(sizes, j)
    {
      var nbytes := all[i].header.bytesInSecondMessage;
      recvCounts[i] := nbytes;
      displacements[i] := totalBytes;
      totalBytes := totalBytes + nbytes;
    }
    ghost var counts, starts := recvCounts[..], displacements[..];
    LaidOut(sizes, counts, starts);
    assert forall i :: 0 <= i < |all| ==> recvCounts[i] == counts[i] && displacements[i] == starts[i];
  }

  /** One turn of the root's second loop: copy rank i's region out and unpack it with rank i's header. The
      unpacker releases the copy, so the free that follows in the source never fires. */
  method UnpackRegion(codec: Codec, list: seq<PyObject>, m: Message, region: seq<byte>, arena: Arena)
    returns (nth: Unpacked)
    requires arena.Valid() && Faithful(codec) && Sendable(codec, PyList(list))
    requires m == Pack(codec, PyList(list)).message && region == BodyOf(codec, list)
    modifies arena
    ensures nth == Value(PyList(list)) && arena.Valid() && arena.live == old(arena.live)
  {
    RoundTrip(codec, PyList(list));
    var header := new MessageBuffer();
    header.Fill(m);
    var data := NullPtr;
    if |region| != 0 {
      var p := arena.Malloc(|region|);
      arena.Write(p, region);
      assert arena.live[p] == region;
      data := Heap(p);
    }
    assert View(arena, Some(data)) == Arrived(Frames(codec, PyList(list)));
    nth, data := header.Unpack(codec, arena, Some(data));
    assert data == NullPtr;
  }

  /** The buffer of all second messages, and where each rank's lies in it. */
  method GatherBodies(all: seq<Message>, bodies: seq<seq<byte>>)
    returns (recvCounts: array<int>, displacements: array<int>, secondMessages: array<byte>)
    requires |all| == |bodies|
    requires forall i :: 0 <= i < |all| ==> all[i].header.bytesInSecondMessage == |bodies[i]|
    ensures recvCounts.Length == displacements.Length == |all|
    ensures forall i :: 0 <= i < |all| ==> LiesAt(bodies[i], secondMessages[..], displacements[i], recvCounts[i])
  {
    ghost var sizes: seq<nat> := seq(|bodies|, i requires 0 <= i < |bodies| => |bodies[i]|);
    recvCounts := new int[|all|];
    displacements := new int[|all|];
    var totalBytes := LayOut(all, sizes, recvCounts, displacements);
    secondMessages := new byte[totalBytes](_ => 0);
    MpiGatherv(bodies, recvCounts, displacements, secondMessages);
  }

  /** What the root does with the headers and bodies of all ranks. */
  method Assemble(codec: Codec, lists: seq<seq<PyObject>>, all: seq<Message>, bodies: seq<seq<byte>>, arena: Arena)
    returns (result: seq<PyObject>)
    requires arena.Valid() && Faithful(codec) && AllSendable(codec, lists) && |all| == |bodies| == |lists|
    requires forall i :: 0 <= i < |lists| ==>
      all[i] == Pack(codec, PyList(lists[i])).message && bodies[i] == BodyOf(codec, lists[i])
    modifies arena
    ensures result == Concat(lists)
    ensures arena.Valid() && arena.live == old(arena.live)
  {
    var recvCounts, displacements, secondMessages := GatherBodies(all, bodies);
    result := [];
    for i := 0 to |lists|
      invariant result == Concat(lists[..i])
      invariant arena.Valid() && arena.live == old(arena.live)
      modifies arena
    {
      assert LiesAt(bodies[i], secondMessages[..], displacements[i], recvCounts[i]);
      var region := secondMessages[displacements[i]..displacements[i] + recvCounts[i]];
      var nth := UnpackRegion(codec, lists[i], all[i], region, arena);
      result := result + nth.content.items;
      assert lists[..i + 1][..i] == lists[..i];
    }
    assert lists[..|lists|] == lists;
  }

  /** What the ranks pass to gather: a list, and how much of it to send. */
  datatype Contribution = Contribution(list: seq<PyObject>, count: int)

  /** No rank raises for want of elements. */
  predicate AllLongEnough(inputs: seq<Contribution>) {
    forall i :: 0 <= i < |inputs| ==> inputs[i].count <= |inputs[i].list|
  }

  /** What each rank sends then. */
  function ChosenLists(inputs: seq<Contribution>): (lists: seq<seq<PyObject>>)
    requires AllLongEnough(inputs)
    ensures |lists| == |inputs|
  {
    seq(|inputs|, i requires 0 <= i < |inputs| && inputs[i].count <= |inputs[i].list| =>
      if inputs[i].count < 0 then inputs[i].list else inputs[i].list[..inputs[i].count])
  }

  /** How many elements the first n ranks contribute. */
  function Taken(inputs: seq<Contribution>, n: nat): nat
    requires n <= |inputs|
  {
    if n == 0 then 0
    else Taken(inputs, n - 1) + if inputs[n - 1].count < 0 then |inputs[n - 1].list| else inputs[n - 1].count
  }

  /** Element k of rank i's list is where it belongs. */
  ghost predicate InPlace(inputs: seq<Contribution>, result: seq<PyObject>, i: nat, k: nat)
    requires i < |inputs| && k < |inputs[i].list|
  {
    Taken(inputs, i) + k < |result| && result[Taken(inputs, i) + k] == inputs[i].list[k]
  }

  /** The first elements of every rank's list, as many as its count says, in rank order, and nothing else. */
  ghost predicate IsGathering(inputs: seq<Contribution>, result: seq<PyObject>) {
    && AllLongEnough(inputs)
    && |result| == Taken(inputs, |inputs|)
    && forall i, k ::
         0 <= i < |inputs| && 0 <= k < |inputs[i].list| && (inputs[i].count < 0 || k < inputs[i].count) ==>
         InPlace(inputs, result, i, k)
  }

  lemma {:induction false} ConcatLength(inputs: seq<Contribution>, n: nat)
    requires AllLongEnough(inputs) && n <= |inputs|
    ensures |Concat(ChosenLists(inputs)[..n])| == Taken(inputs, n)
  {
    var lists := ChosenLists(inputs);
    if n > 0 {
      ConcatLength(inputs, n - 1);
      assert lists[..n][..n - 1] == lists[..n - 1];
    }
  }

  lemma GatheredAt(inputs: seq<Contribution>, i: nat, k: nat)
    requires AllLongEnough(inputs) && i < |inputs|
    requires k < |inputs[i].list| && (inputs[i].count < 0 || k < inputs[i].count)
    ensures InPlace(inputs, Concat(ChosenLists(inputs)), i, k)
  {
    ConcatLength(inputs, i);
    ConcatAt(ChosenLists(inputs), i, k);
  }

  lemma ChosenIsGathering(inputs: seq<Contribution>)
    requires AllLongEnough(inputs)
    ensures IsGathering(inputs, Concat(ChosenLists(inputs)))
  {
    var lists := ChosenLists(inputs);
    ConcatLength(inputs, |inputs|);
    assert lists[..|inputs|] == lists;
    assert |Concat(lists)| == Taken(inputs, |inputs|);
    forall i, k | 0 <= i < |inputs| && 0 <= k < |inputs[i].list| && (inputs[i].count < 0 || k < inputs[i].count)
      ensures InPlace(inputs, Concat(lists), i, k)
    {
      GatheredAt(inputs, i, k);
    }
  }

  /** The root packs its own list, takes part in MPI_Gather and MPI_Gatherv, and puts everything together. */
  method GatherLists(codec: Codec, lists: seq<seq<PyObject>>, root: nat, mine: seq<PyObject>, arena: Arena)
    returns (result: seq<PyObject>)
    requires arena.Valid() && Faithful(codec) && root < |lists| && mine == lists[root]
    requires AllSendable(codec, lists) && PrefixSum(BodySizes(codec, lists), |lists|) <= INT_MAX
    modifies arena
    ensures result == Concat(lists)
    ensures arena.Valid() && arena.live == old(arena.live)
  {
    var myHeader := new MessageBuffer();
    var myBody, aborted := myHeader.Pack(codec, PyList(mine), arena, NullPtr);
    var all := seq(|lists|, i requires 0 <= i < |lists| => Pack(codec, PyList(lists[i])).message);
    var bodies := seq(|lists|, i requires 0 <= i < |lists| && AllSendable(codec, lists) => BodyOf(codec, lists[i]));
    result := Assemble(codec, lists, all, bodies, arena);
    myBody := myHeader.MessageFree(arena, myBody);
  }

  /** gather on the root, once every rank has contributed: the concatenation of the contributions in rank order; and
      every buffer it allocated has been released. */
  method GatherRoot(codec: Codec, inputs: seq<Contribution>, root: nat, arena: Arena) returns (result: seq<PyObject>)
    requires arena.Valid() && Faithful(codec) && root < |inputs| && AllLongEnough(inputs)
    requires AllSendable(codec, ChosenLists(inputs))
    requires PrefixSum(BodySizes(codec, ChosenLists(inputs)), |inputs|) <= INT_MAX
    modifies arena
    ensures result == Concat(ChosenLists(inputs)) && IsGathering(inputs, result)
    ensures arena.Valid() && arena.live == old(arena.live)
  {
    var mine := Choose(inputs[root].list, inputs[root].count);
    result := GatherLists(codec, ChosenLists(inputs), root, mine.value, arena);
    ChosenIsGathering(inputs);
  }

  /** allgather is a gather to rank 0 followed by a broadcast of what rank 0 got. Every other rank, unpacking the
      broadcast with its own header, ends up with the same concatenation as rank 0. */
  method AllGather(codec: Codec, inputs: seq<Contribution>, arena: Arena) returns (results: seq<Unpacked>)
    requires arena.Valid() && Faithful(codec) && 0 < |inputs| && AllLongEnough(inputs)
    requires AllSendable(codec, ChosenLists(inputs))
    requires PrefixSum(BodySizes(codec, ChosenLists(inputs)), |inputs|) <= INT_MAX
    requires Sendable(codec, PyList(Concat(ChosenLists(inputs))))
    modifies arena
    ensures |results| == |inputs|
    ensures forall i :: 0 <= i < |inputs| ==>
      && results[i].Value? && results[i].content.PyList? && IsGathering(inputs, results[i].content.items)
      && results[i] == results[0]
    ensures arena.Valid() && arena.live == old(arena.live)
  {
    var gathered := GatherRoot(codec, inputs, 0, arena);
    var outcome, calls := BcastRoot(codec, PyList(gathered), arena);
    results := [Value(PyList(gathered))];
    for i := 1 to |inputs|
      invariant |results| == i && arena.Valid() && arena.live == old(arena.live)
      invariant forall j :: 0 <= j < i ==> results[j] == Value(PyList(gathered))
      modifies arena
    {
      var received, used := BcastSlave(codec, arena, calls, PyList(gathered));
      results := results + [received];
    }
  }

  /** What the ranks give back in a gather after a scatter: their whole slices. */
  function Whole(slices: seq<seq<PyObject>>): (inputs: seq<Contribution>)
    ensures |inputs| == |slices|
    ensures forall i :: 0 <= i < |slices| ==> inputs[i] == Contribution(slices[i], -1)
  {
    seq(|slices|, i requires 0 <= i < |slices| => Contribution(slices[i], -1))
  }

  /** Scatter, then gather, from any root to any root: the sequence again. */
  method ScatterGather(codec: Codec, items: seq<PyObject>, size: nat, from: nat, to: nat, arena: Arena)
    returns (result: seq<PyObject>)
    requires arena.Valid() && Faithful(codec) && from < size && to < size
    requires forall slices :: |slices| == size && Concat(slices) == items ==>
      AllSendable(codec, slices) && PrefixSum(BodySizes(codec, slices), |slices|) <= INT_MAX
    modifies arena
    ensures result == items
    ensures arena.Valid() && arena.live == old(arena.live)
  {
    var own, sent := Scatter(Sequence(items), size, from);
    var slices := InRankOrder(own, sent, from);
    assert ChosenLists(Whole(slices)) == slices;
    result := GatherRoot(codec, Whole(slices), to, arena);
  }

  /** Gathering the parts of a sequence, however it was cut, is concatenation: the length is the sum of the lengths
      and element k of rank i's part is element k past the lengths of the parts before it. */
  lemma {:induction false} ConcatAt<T>(lists: seq<seq<T>>, i: nat, k: nat)
    requires i < |lists| && k < |lists[i]|
    ensures |Concat(lists[..i])| + k < |Concat(lists)|
    ensures Concat(lists)[|Concat(lists[..i])| + k] == lists[i][k]
    decreases |lists|
  {
    var shorter := lists[..|lists| - 1];
    if i < |lists| - 1 {
      ConcatAt(shorter, i, k);
      assert shorter[..i] == lists[..i];
    }
  }
}
