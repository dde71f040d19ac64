/** The polling and waiting calls over lists of receive requests. */
module RequestLists {
  import opened Folds
  import opened Messages
  import opened Buffers
  import opened Requests

  /** One request of a list: its message, and what unready tests of it leave in its status. */
  datatype Item = Item(fields: Fields, mail: Mail, junk: Status, junk': Status)

  /** A request as some run that test_cancelled did not disturb leaves it, for a message other than the empty string. */
  ghost predicate Reachable(x: Item) {
    ValidMail(x.mail) && Inv(x.fields, x.mail) && StatusTrue(x.fields, x.mail) && x.mail.content != PyStr([])
  }

  /** The request holds its message, and its status names the sender. */
  predicate Delivered(x: Item) {
    x.fields.posted == Some(x.mail.content) && x.fields.status == Of(x.mail.source, x.mail.tag)
  }

  predicate HasArrived(x: Item) {
    Sendable(x.mail.codec, x.mail.content) && Here(x.mail)
  }

  function PollItem(x: Item): (Item, bool)
    requires Sendable(x.mail.codec, x.mail.content)
  {
    var (f, ready) := Test(x.fields, x.mail, x.junk, x.junk');
    (x.(fields := f), ready)
  }

  function WaitItem(x: Item): Item
    requires Sendable(x.mail.codec, x.mail.content)
  {
    x.(fields := Wait(x.fields, x.mail))
  }

  /** Polling one request of the list tells whether its whole message has arrived, and if so it is delivered. */
  lemma PollItemReports(x: Item)
    requires Reachable(x)
    ensures var (x', ready) := PollItem(x);
      && Reachable(x') && (ready <==> Here(x.mail))
      && (if ready then Delivered(x') else x'.fields.posted == None)
  {
    HappenInv(x.fields, x.mail, Poll(x.junk, x.junk'));
    StatusStep(x.fields, x.mail, Poll(x.junk, x.junk'));
    PollReports(x.fields, x.mail, x.junk, x.junk');
  }

  lemma WaitItemDelivers(x: Item)
    requires Reachable(x)
    ensures Delivered(WaitItem(x))
  {
    WaitDelivers(x.fields, x.mail);
    StatusStep(x.fields, x.mail, WaitFor);
  }

  /** The positions at which the flags are set, in order. */
  function Positions(flags: seq<bool>): (indices: seq<nat>)
    ensures forall k :: 0 <= k < |indices| ==> indices[k] < |flags|
  {
    if flags == [] then []
    else
      var last := |flags| - 1;
      Positions(flags[..last]) + if flags[last] then [last] else []
  }

  lemma {:induction false} PositionsAreExact(flags: seq<bool>)
    ensures var indices := Positions(flags);
      && (forall i: nat :: i in indices <==> i < |flags| && flags[i])
      && (forall k, l :: 0 <= k < l < |indices| ==> indices[k] < indices[l])
  {
    if flags != [] {
      PositionsAreExact(flags[..|flags| - 1]);
    }
  }

  /** The loop of testsome: every request is polled once, in order; the indices are those that reported ready. */
  method TestSome<R, S>(requests: array<R>, poll: R -> (R, bool), status: R -> S)
    returns (indices: seq<nat>, statuses: seq<S>, ghost flags: seq<bool>)
    modifies requests
    ensures |flags| == requests.Length && indices == Positions(flags) && |statuses| == |indices|
    ensures forall i :: 0 <= i < requests.Length ==> (requests[i], flags[i]) == poll(old(requests[i]))
    ensures forall k :: 0 <= k < |indices| ==> statuses[k] == status(requests[indices[k]])
  {
    indices, statuses, flags := [], [], [];
    for i := 0 to requests.Length
      invariant |flags| == i && |statuses| == |indices| && indices == Positions(flags)
      invariant forall j :: i <= j < requests.Length ==> requests[j] == old(requests[j])
      invariant forall j :: 0 <= j < i ==> (requests[j], flags[j]) == poll(old(requests[j]))
      invariant forall k :: 0 <= k < |indices| ==> statuses[k] == status(requests[indices[k]])
    {
      var (r, flag) := poll(requests[i]);
      requests[i] := r;
      if flag {
        indices := indices + [i];
        statuses := statuses + [status(r)];
      }
      assert (flags + [flag])[..i] == flags;
      flags := flags + [flag];
    }
  }

  /** The loop of waitall. */
  method WaitAll<R, S>(requests: array<R>, wait: R -> R, status: R -> S) returns (statuses: seq<S>)
    modifies requests
    ensures |statuses| == requests.Length
    ensures forall i :: 0 <= i < requests.Length ==>
      requests[i] == wait(old(requests[i])) && statuses[i] == status(requests[i])
  {
    statuses := [];
    for i := 0 to requests.Length
      invariant |statuses| == i
      invariant forall j :: i <= j < requests.Length ==> requests[j] == old(requests[j])
      invariant forall j :: 0 <= j < i ==> requests[j] == wait(old(requests[j])) && statuses[j] == status(requests[j])
    {
      requests[i] := wait(requests[i]);
      statuses := statuses + [status(requests[i])];
    }
  }

  /** testsome on receive requests: the indices are exactly those of the requests whose whole message has arrived,
      and those requests are then delivered, with statuses that name their senders. */
  lemma TestSomeSelectsArrived(before: seq<Item>, after: seq<Item>, flags: seq<bool>)
    requires |before| == |after| == |flags|
    requires forall i :: 0 <= i < |before| ==> Reachable(before[i]) && (after[i], flags[i]) == PollItem(before[i])
    ensures forall i :: 0 <= i < |before| ==> (i in Positions(flags) <==> HasArrived(before[i]))
    ensures forall i :: i in Positions(flags) ==> Delivered(after[i])
  {
    PositionsAreExact(flags);
    forall i | 0 <= i < |before|
      ensures i in Positions(flags) <==> HasArrived(before[i])
      ensures flags[i] ==> Delivered(after[i])
    {
      PollItemReports(before[i]);
    }
  }
}
