/** Point-to-point messages in flight: any number of processes sending, receiving, exchanging and posting
    requests at once, each logical message travelling as a header and, if it is long, a body on the same tag. */
module Streams {
  import opened Folds
  import opened Messages

  /** A source or tag argument; Any is MPI_ANY_SOURCE or MPI_ANY_TAG. */
  datatype Spec = Any | Exactly(n: nat)

  predicate Accepts(spec: Spec, n: nat) {
    spec.Any? || spec.n == n
  }

  datatype Parcel = Parcel(tag: nat, frame: Frame)

  /** An unfinished receive: waiting for a header, or narrowed to where its header came from. */
  datatype Slot = Want(source: Spec, tag: Spec) | Half(from: nat, on: nat, head: Message)

  predicate Matches(s: Slot, a: nat, t: nat) {
    match s
    case Want(source, tag) => Accepts(source, a) && Accepts(tag, t)
    case Half(from, on, _) => from == a && on == t
  }

  /** A body that its sender has still to send. */
  datatype Owed = Owed(to: nat, tag: nat, bytes: seq<byte>)

  /** What a process still owes of a send, and its unfinished receives. Slot 0 belongs to the blocking receive; the
      others to requests. */
  datatype Proc = Proc(owes: Option<Owed>, slots: map<nat, Slot>)

  /** What a process is blocked in, if anything: sending the rest of a message, receiving, or, in an exchange, both. */
  datatype Mode = Idle | Sending | Receiving | Exchanging

  function ModeOf(p: Proc): Mode {
    if 0 in p.slots then (if p.owes.Some? then Exchanging else Receiving)
    else if p.owes.Some? then Sending else Idle
  }

  /** `sent` and `got` log, per source, destination and tag, the objects sends were started for and receives
      completed with. `corrupt` is set when a receive takes a frame that is not the one it is for. */
  datatype World = World(procs: seq<Proc>, channels: map<(nat, nat), seq<Parcel>>,
                         sent: map<(nat, nat, nat), seq<PyObject>>, got: map<(nat, nat, nat), seq<PyObject>>,
                         corrupt: bool)

  function Get<K, V>(m: map<K, seq<V>>, k: K): seq<V> {
    if k in m then m[k] else []
  }

  function Initial(size: nat): World {
    World(seq(size, _ => Proc(None, map[])), map[], map[], map[], false)
  }

  /** The position of the first parcel whose tag is accepted: messages do not overtake. */
  function First(q: seq<Parcel>, tag: Spec): (i: nat)
    ensures i <= |q|
    ensures i < |q| ==> Accepts(tag, q[i].tag)
    ensures forall j :: 0 <= j < i ==> !Accepts(tag, q[j].tag)
  {
    if q == [] || Accepts(tag, q[0].tag) then 0 else 1 + First(q[1..], tag)
  }

  datatype Event =
    | StartSend(r: nat, to: nat, tag: nat, content: PyObject)
    | FinishSend(r: nat)
    | StartRecv(r: nat, source: Spec, from: Spec)
    | StartExchange(r: nat, to: nat, tag: nat, content: PyObject, source: Spec, from: Spec)
    | Post(r: nat, id: nat, source: Spec, from: Spec)
    | TakeHead(r: nat, id: nat, a: nat)
    | TakeBody(r: nat, id: nat)

  predicate Enabled(codec: Codec, w: World, e: Event) {
    && e.r < |w.procs|
    && var p := w.procs[e.r];
       match e
       case StartSend(r, to, tag, x) => ModeOf(p).Idle? && to < |w.procs| && Sendable(codec, x)
       case FinishSend(r) => p.owes.Some? && (0 in p.slots ==> p.slots[0].Half?)
       case StartRecv(r, source, tag) => ModeOf(p).Idle?
       case StartExchange(r, to, tag, x, source, recvtag) => ModeOf(p).Idle? && to < |w.procs| && Sendable(codec, x)
       case Post(r, id, source, tag) => ModeOf(p).Idle? && id > 0 && id !in p.slots
       case TakeHead(r, id, a) =>
         && id in p.slots && p.slots[id].Want? && Accepts(p.slots[id].source, a)
         && First(Get(w.channels, (a, r)), p.slots[id].tag) < |Get(w.channels, (a, r))|
       case TakeBody(r, id) =>
         && id in p.slots && p.slots[id].Half? && (id == 0 ==> p.owes.None?)
         && var q := Get(w.channels, (p.slots[id].from, r));
            First(q, Exactly(p.slots[id].on)) < |q|
  }

  function SendHead(codec: Codec, w: World, r: nat, to: nat, tag: nat, x: PyObject): World
    requires Sendable(codec, x)
  {
    w.(channels := w.channels[(r, to) := Get(w.channels, (r, to)) + [Parcel(tag, Frames(codec, x)[0])]],
       sent := w.sent[(r, to, tag) := Get(w.sent, (r, to, tag)) + [x]])
  }

  function SendTail(w: World, r: nat, o: Owed): World {
    w.(channels := w.channels[(r, o.to) := Get(w.channels, (r, o.to)) + [Parcel(o.tag, Body(o.bytes))]])
  }

  function OwedFor(codec: Codec, to: nat, tag: nat, x: PyObject): Option<Owed>
    requires Sendable(codec, x)
  {
    var fs := Frames(codec, x);
    if |fs| == 2 then Some(Owed(to, tag, fs[1].bytes)) else None
  }

  function Remove<T>(q: seq<T>, i: nat): seq<T>
    requires i < |q|
  {
    q[..i] + q[i + 1..]
  }

  function Complete(codec: Codec, w: World, r: nat, id: nat, a: nat, t: nat, m: Message, part2: Part2): World
    requires r < |w.procs|
  {
    var p := w.procs[r];
    match Unpack(codec, m, part2)
    case Value(x) =>
      w.(procs := w.procs[r := p.(slots := p.slots - {id})],
         got := w.got[(a, r, t) := Get(w.got, (a, r, t)) + [x]])
    case _ => w.(corrupt := true)
  }

  function Step(codec: Codec, w: World, e: Event): World
    requires Enabled(codec, w, e)
  {
    var p := w.procs[e.r];
    match e
    case StartSend(r, to, tag, x) =>
      SendHead(codec, w, r, to, tag, x).(procs := w.procs[r := p.(owes := OwedFor(codec, to, tag, x))])
    case FinishSend(r) =>
      SendTail(w, r, p.owes.value).(procs := w.procs[r := p.(owes := None)])
    case StartRecv(r, source, tag) =>
      w.(procs := w.procs[r := p.(slots := p.slots[0 := Want(source, tag)])])
    case StartExchange(r, to, tag, x, source, recvtag) =>
      SendHead(codec, w, r, to, tag, x)
        .(procs := w.procs[r := Proc(OwedFor(codec, to, tag, x), p.slots[0 := Want(source, recvtag)])])
    case Post(r, id, source, tag) =>
      w.(procs := w.procs[r := p.(slots := p.slots[id := Want(source, tag)])])
    case TakeHead(r, id, a) =>
      var q := Get(w.channels, (a, r));
      var i := First(q, p.slots[id].tag);
      var w' := w.(channels := w.channels[(a, r) := Remove(q, i)]);
      (match q[i].frame
       case Body(_) => w'.(corrupt := true)
       case Head(m) =>
         if m.header.bytesInSecondMessage == 0 then Complete(codec, w', r, id, a, q[i].tag, m, Null)
         else
           w'.(procs := w.procs[r := p.(slots := p.slots[id := Half(a, q[i].tag, m)])]))
    case TakeBody(r, id) =>
      var s := p.slots[id];
      var q := Get(w.channels, (s.from, r));
      var i := First(q, Exactly(s.on));
      var w' := w.(channels := w.channels[(s.from, r) := Remove(q, i)]);
      (match q[i].frame
       case Head(_) => w'.(corrupt := true)
       case Body(bytes) => Complete(codec, w', r, id, s.from, s.on, s.head, Data(bytes)))
  }

  predicate Meets(x: Spec, y: Spec) {
    x.Any? || y.Any? || x.n == y.n
  }

  /** Could be a rank of a communicator of this size. */
  predicate Exists(size: nat, source: Spec) {
    if source.Any? then size > 0 else source.n < size
  }

  /** Whether two receives could both take a frame of one stream. */
  predicate Clash(size: nat, x: Slot, y: Slot) {
    match (x, y)
    case (Want(s, t), Want(s', t')) => Meets(s, s') && Exists(size, s) && Exists(size, s') && Meets(t, t')
    case (Want(s, t), Half(a, n, _)) => a < size && Accepts(s, a) && Accepts(t, n)
    case (Half(a, n, _), Want(s, t)) => a < size && Accepts(s, a) && Accepts(t, n)
    case (Half(a, n, _), Half(a', n', _)) => a < size && a == a' && n == n'
  }

  /** What the caller of a receive has to see to: no unfinished receive of the same process could take frames of
      the same stream. Everything else is unrestricted. */
  predicate Disciplined(w: World, e: Event) {
    e.r < |w.procs| ==>
      var slots := w.procs[e.r].slots;
      match e
      case StartRecv(_, s, t) => forall id :: id in slots ==> !Clash(|w.procs|, slots[id], Want(s, t))
      case StartExchange(_, _, _, _, s, t) => forall id :: id in slots ==> !Clash(|w.procs|, slots[id], Want(s, t))
      case Post(_, _, s, t) => forall id :: id in slots ==> !Clash(|w.procs|, slots[id], Want(s, t))
      case _ => true
  }

  // ---------------------------------------------------------------- invariant

  /** The frames of one stream: those on one channel with one tag. */
  function OnTag(q: seq<Parcel>, t: nat): seq<Frame> {
    if q == [] then [] else (if q[0].tag == t then [q[0].frame] else []) + OnTag(q[1..], t)
  }

  /** The frames of a sequence of messages, end to end. */
  function Flat(codec: Codec, xs: seq<PyObject>): seq<Frame> {
    if xs == [] then [] else (if Sendable(codec, xs[0]) then Frames(codec, xs[0]) else []) + Flat(codec, xs[1..])
  }

  predicate HalfOn(s: Slot, a: nat, t: nat) {
    s.Half? && s.from == a && s.on == t
  }

  function Tail(owes: Option<Owed>, b: nat, t: nat): seq<Frame> {
    if owes.Some? && owes.value.to == b && owes.value.tag == t then [Body(owes.value.bytes)] else []
  }

  /** One stream, from a to b with tag t: what was got is a prefix of what was sent, and the frames of the
      remaining messages are, in order, the header a narrowed receive is holding, the frames on the
      channel, and the body that the sender has still to send. */
  ghost predicate StreamOk(codec: Codec, slots: map<nat, Slot>, owes: Option<Owed>, stream: seq<Frame>,
                           sent: seq<PyObject>, got: seq<PyObject>, a: nat, b: nat, t: nat)
  {
    && got <= sent
    && (forall x :: x in sent ==> Sendable(codec, x))
    && (forall id :: id in slots && HalfOn(slots[id], a, t) ==>
          && slots[id].head.header.bytesInSecondMessage != 0
          && [Head(slots[id].head)] + stream + Tail(owes, b, t) == Flat(codec, sent[|got|..]))
    && ((forall id :: id in slots ==> !HalfOn(slots[id], a, t)) ==>
          stream + Tail(owes, b, t) == Flat(codec, sent[|got|..]))
  }

  function Owes(w: World, a: nat): Option<Owed> {
    if a < |w.procs| then w.procs[a].owes else None
  }

  function Stream(w: World, a: nat, b: nat, t: nat): seq<Frame> {
    OnTag(Get(w.channels, (a, b)), t)
  }

  ghost predicate StreamAt(codec: Codec, w: World, a: nat, b: nat, t: nat) {
    b < |w.procs| ==>
      StreamOk(codec, w.procs[b].slots, Owes(w, a), Stream(w, a, b, t),
               Get(w.sent, (a, b, t)), Get(w.got, (a, b, t)), a, b, t)
  }

  ghost predicate Exclusive(size: nat, slots: map<nat, Slot>) {
    forall i, j :: i in slots && j in slots && i != j ==> !Clash(size, slots[i], slots[j])
  }

  /** Only processes send. */
  ghost predicate NoStrangers(w: World) {
    forall a: nat, b: nat :: a >= |w.procs| ==> Get(w.channels, (a, b)) == []
  }

  ghost predicate Inv(codec: Codec, w: World) {
    && !w.corrupt && NoStrangers(w)
    && (forall r :: 0 <= r < |w.procs| ==> Exclusive(|w.procs|, w.procs[r].slots))
    && (forall a: nat, b: nat, t: nat :: StreamAt(codec, w, a, b, t))
  }

  // ---------------------------------------------------------------- sequences

  lemma {:induction false} OnTagAppend(q: seq<Parcel>, p: Parcel, t: nat)
    ensures OnTag(q + [p], t) == OnTag(q, t) + if p.tag == t then [p.frame] else []
  {
    if q != [] {
      OnTagAppend(q[1..], p, t);
      assert (q + [p])[1..] == q[1..] + [p];
    }
  }

  lemma ChannelAppend(channels: map<(nat, nat), seq<Parcel>>, key: (nat, nat), p: Parcel, other: (nat, nat), t: nat)
    ensures OnTag(Get(channels[key := Get(channels, key) + [p]], other), t)
         == OnTag(Get(channels, other), t) + if other == key && p.tag == t then [p.frame] else []
  {
    OnTagAppend(Get(channels, key), p, t);
  }

  /** Taking the first parcel with an accepted tag takes the first frame of its stream and leaves the others alone. */
  lemma {:induction false} OnTagRemove(q: seq<Parcel>, spec: Spec, t: nat)
    requires First(q, spec) < |q|
    ensures var i := First(q, spec);
      if q[i].tag == t then OnTag(q, t) == [q[i].frame] + OnTag(Remove(q, i), t)
      else OnTag(Remove(q, i), t) == OnTag(q, t)
  {
    var i := First(q, spec);
    if i == 0 {
      assert Remove(q, 0) == q[1..];
    } else {
      OnTagRemove(q[1..], spec, t);
      assert Remove(q, i)[1..] == Remove(q[1..], i - 1);
      assert Remove(q, i)[0] == q[0];
    }
  }

  lemma {:induction false} FlatAppend(codec: Codec, xs: seq<PyObject>, x: PyObject)
    requires Sendable(codec, x)
    ensures Flat(codec, xs + [x]) == Flat(codec, xs) + Frames(codec, x)
  {
    if xs != [] {
      FlatAppend(codec, xs[1..], x);
      assert (xs + [x])[1..] == xs[1..] + [x];
    } else {
      assert (xs + [x])[1..] == [];
    }
  }

  // ---------------------------------------------------------------- one stream through one event

  lemma StreamSent(codec: Codec, slots: map<nat, Slot>, stream: seq<Frame>, sent: seq<PyObject>, got: seq<PyObject>,
                   a: nat, b: nat, t: nat, x: PyObject)
    requires StreamOk(codec, slots, None, stream, sent, got, a, b, t) && Sendable(codec, x)
    ensures StreamOk(codec, slots, OwedFor(codec, b, t, x), stream + [Frames(codec, x)[0]], sent + [x], got, a, b, t)
  {
    var owes := OwedFor(codec, b, t, x);
    assert (sent + [x])[|got|..] == sent[|got|..] + [x];
    FlatAppend(codec, sent[|got|..], x);
    assert [Frames(codec, x)[0]] + Tail(owes, b, t) == Frames(codec, x);
    assert stream + [Frames(codec, x)[0]] + Tail(owes, b, t) == stream + Frames(codec, x);
    forall id | id in slots && HalfOn(slots[id], a, t)
      ensures [Head(slots[id].head)] + (stream + [Frames(codec, x)[0]]) + Tail(owes, b, t)
           == Flat(codec, (sent + [x])[|got|..])
    {
      assert [Head(slots[id].head)] + stream + [] == Flat(codec, sent[|got|..]);
      assert [Head(slots[id].head)] + (stream + [Frames(codec, x)[0]]) + Tail(owes, b, t)
          == [Head(slots[id].head)] + stream + Frames(codec, x);
    }
  }

  lemma StreamTail(codec: Codec, slots: map<nat, Slot>, o: Owed, stream: seq<Frame>, sent: seq<PyObject>,
                   got: seq<PyObject>, a: nat, b: nat, t: nat)
    requires StreamOk(codec, slots, Some(o), stream, sent, got, a, b, t)
    ensures StreamOk(codec, slots, None, stream + Tail(Some(o), b, t), sent, got, a, b, t)
  {
  }

  /** Frames still to be taken off a stream begin with those of the oldest message not yet received. */
  lemma FirstPending(codec: Codec, sent: seq<PyObject>, got: seq<PyObject>, fs: seq<Frame>)
    requires got <= sent && fs == Flat(codec, sent[|got|..]) && fs != []
    requires forall x :: x in sent ==> Sendable(codec, x)
    ensures |got| < |sent| && Sendable(codec, sent[|got|])
    ensures fs == Frames(codec, sent[|got|]) + Flat(codec, sent[|got| + 1..])
  {
    var pending := sent[|got|..];
    assert pending[0] == sent[|got|] && sent[|got|] in sent;
    assert pending[1..] == sent[|got| + 1..];
  }

  /** A header receive that nothing else competes with takes the header of the next message of the stream. */
  lemma NextIsHead(codec: Codec, slots: map<nat, Slot>, owes: Option<Owed>, stream: seq<Frame>,
                   sent: seq<PyObject>, got: seq<PyObject>, a: nat, b: nat, t: nat, id: nat, size: nat)
    requires StreamOk(codec, slots, owes, stream, sent, got, a, b, t) && stream != [] && a < size
    requires Exclusive(size, slots) && id in slots && slots[id].Want? && Matches(slots[id], a, t)
    ensures |got| < |sent| && Sendable(codec, sent[|got|])
    ensures stream[0] == Frames(codec, sent[|got|])[0]
    ensures stream[1..] + Tail(owes, b, t) == Frames(codec, sent[|got|])[1..] + Flat(codec, sent[|got| + 1..])
    ensures forall j :: j in slots ==> !HalfOn(slots[j], a, t)
  {
    var fs := stream + Tail(owes, b, t);
    FirstPending(codec, sent, got, fs);
    assert fs[0] == stream[0] && fs[1..] == stream[1..] + Tail(owes, b, t);
  }

  lemma DropTwo(h: Frame, stream: seq<Frame>, tail: seq<Frame>)
    requires stream != []
    ensures var fs := [h] + stream + tail;
      fs[0] == h && fs[1] == stream[0] && fs[2..] == stream[1..] + tail
  {
  }

  /** A body receive takes the body of the message whose header it holds. */
  lemma NextIsBody(codec: Codec, slots: map<nat, Slot>, owes: Option<Owed>, stream: seq<Frame>,
                   sent: seq<PyObject>, got: seq<PyObject>, a: nat, b: nat, t: nat, id: nat)
    requires StreamOk(codec, slots, owes, stream, sent, got, a, b, t) && stream != []
    requires id in slots && HalfOn(slots[id], a, t)
    ensures |got| < |sent| && Sendable(codec, sent[|got|])
    ensures Frames(codec, sent[|got|]) == [Head(slots[id].head), stream[0]]
    ensures stream[1..] + Tail(owes, b, t) == Flat(codec, sent[|got| + 1..])
  {
    var h := Head(slots[id].head);
    var fs := [h] + stream + Tail(owes, b, t);
    FirstPending(codec, sent, got, fs);
    DropTwo(h, stream, Tail(owes, b, t));
    var next := Frames(codec, sent[|got|]);
    assert next[0] == h;
    assert fs[2..] == Flat(codec, sent[|got| + 1..]);
  }

  // ---------------------------------------------------------------- every event keeps the invariant

  lemma SlotChanged(codec: Codec, slots: map<nat, Slot>, slots': map<nat, Slot>, owes: Option<Owed>, stream: seq<Frame>,
                    sent: seq<PyObject>, got: seq<PyObject>, a: nat, b: nat, t: nat, id: nat)
    requires StreamOk(codec, slots, owes, stream, sent, got, a, b, t)
    requires forall j :: j != id ==> (j in slots' <==> j in slots) && (j in slots ==> slots'[j] == slots[j])
    requires id in slots ==> !HalfOn(slots[id], a, t)
    requires id in slots' ==> !HalfOn(slots'[id], a, t)
    ensures StreamOk(codec, slots', owes, stream, sent, got, a, b, t)
  {
    if forall j :: j in slots' ==> !HalfOn(slots'[j], a, t) {
      assert forall j :: j in slots ==> !HalfOn(slots[j], a, t);
    }
  }

  /** p is w.procs[r] after sending, possibly with a receive just posted in slot 0. */
  ghost predicate SenderMoves(codec: Codec, size: nat, before: Proc, p: Proc, to: nat, tag: nat, x: PyObject,
                              want: Slot)
  {
    && Sendable(codec, x) && before.owes.None? && p.owes == OwedFor(codec, to, tag, x) && want.Want?
    && (p.slots == before.slots
        || (0 !in before.slots && p.slots == before.slots[0 := want]
            && forall id :: id in before.slots ==> !Clash(size, before.slots[id], want)))
  }

  /** What a send's first frame changes of one stream. */
  lemma SendHeadChanges(codec: Codec, w: World, w': World, r: nat, to: nat, tag: nat, x: PyObject, p: Proc, want: Slot,
                        a: nat, b: nat, t: nat)
    requires r < |w.procs| && SenderMoves(codec, |w.procs|, w.procs[r], p, to, tag, x, want)
    requires w' == SendHead(codec, w, r, to, tag, x).(procs := w.procs[r := p])
    ensures if (a, b, t) == (r, to, tag) then
              && Stream(w', a, b, t) == Stream(w, a, b, t) + [Frames(codec, x)[0]]
              && Get(w'.sent, (a, b, t)) == Get(w.sent, (a, b, t)) + [x]
            else
              Stream(w', a, b, t) == Stream(w, a, b, t) && Get(w'.sent, (a, b, t)) == Get(w.sent, (a, b, t))
    ensures Get(w'.got, (a, b, t)) == Get(w.got, (a, b, t))
    ensures Owes(w', a) == if a == r then OwedFor(codec, to, tag, x) else Owes(w, a)
    ensures a == r ==> Owes(w, a) == None
  {
    ChannelAppend(w.channels, (r, to), Parcel(tag, Frames(codec, x)[0]), (a, b), t);
  }

  lemma SameTail(codec: Codec, slots: map<nat, Slot>, owes: Option<Owed>, owes': Option<Owed>, stream: seq<Frame>,
                 sent: seq<PyObject>, got: seq<PyObject>, a: nat, b: nat, t: nat)
    requires StreamOk(codec, slots, owes, stream, sent, got, a, b, t) && Tail(owes, b, t) == Tail(owes', b, t)
    ensures StreamOk(codec, slots, owes', stream, sent, got, a, b, t)
  {
  }

  lemma SendHeadStream(codec: Codec, w: World, w': World, r: nat, to: nat, tag: nat, x: PyObject, p: Proc, want: Slot,
                       a: nat, b: nat, t: nat)
    requires StreamAt(codec, w, a, b, t) && b < |w.procs|
    requires r < |w.procs| && SenderMoves(codec, |w.procs|, w.procs[r], p, to, tag, x, want)
    requires w' == SendHead(codec, w, r, to, tag, x).(procs := w.procs[r := p])
    ensures StreamOk(codec, w.procs[b].slots, Owes(w', a), Stream(w', a, b, t),
                     Get(w'.sent, (a, b, t)), Get(w'.got, (a, b, t)), a, b, t)
  {
    SendHeadChanges(codec, w, w', r, to, tag, x, p, want, a, b, t);
    if (a, b, t) == (r, to, tag) {
      StreamSent(codec, w.procs[b].slots, Stream(w, a, b, t),
                 Get(w.sent, (a, b, t)), Get(w.got, (a, b, t)), a, b, t, x);
    } else {
      SameTail(codec, w.procs[b].slots, Owes(w, a), Owes(w', a), Stream(w, a, b, t),
               Get(w.sent, (a, b, t)), Get(w.got, (a, b, t)), a, b, t);
    }
  }

  lemma SendHeadInv(codec: Codec, w: World, r: nat, to: nat, tag: nat, x: PyObject, p: Proc, want: Slot)
    requires Inv(codec, w) && r < |w.procs| && SenderMoves(codec, |w.procs|, w.procs[r], p, to, tag, x, want)
    ensures Inv(codec, SendHead(codec, w, r, to, tag, x).(procs := w.procs[r := p]))
  {
    var w' := SendHead(codec, w, r, to, tag, x).(procs := w.procs[r := p]);
    forall a: nat, b: nat, t: nat
      ensures StreamAt(codec, w', a, b, t)
    {
      assert StreamAt(codec, w, a, b, t);
      if b < |w.procs| {
        SendHeadStream(codec, w, w', r, to, tag, x, p, want, a, b, t);
        if b == r && p.slots != w.procs[r].slots {
          SlotChanged(codec, w.procs[r].slots, p.slots, Owes(w', a), Stream(w', a, b, t),
                      Get(w'.sent, (a, b, t)), Get(w'.got, (a, b, t)), a, b, t, 0);
        }
      }
    }
    assert Exclusive(|w.procs|, w.procs[r].slots);
    assert Exclusive(|w.procs|, p.slots);
  }

  lemma SendTailChanges(w: World, w': World, r: nat, o: Owed, p: Proc, a: nat, b: nat, t: nat)
    requires r < |w.procs| && w.procs[r].owes == Some(o)
    requires p.owes.None? && p.slots == w.procs[r].slots && w' == SendTail(w, r, o).(procs := w.procs[r := p])
    ensures Stream(w', a, b, t) == if a == r then Stream(w, a, b, t) + Tail(Some(o), b, t) else Stream(w, a, b, t)
    ensures Owes(w', a) == if a == r then None else Owes(w, a)
    ensures |w'.procs| == |w.procs| && w'.sent == w.sent && w'.got == w.got
    ensures b < |w.procs| ==> w'.procs[b].slots == w.procs[b].slots
  {
    ChannelAppend(w.channels, (r, o.to), Parcel(o.tag, Body(o.bytes)), (a, b), t);
  }

  lemma SendTailStream(codec: Codec, w: World, w': World, r: nat, o: Owed, p: Proc, a: nat, b: nat, t: nat)
    requires StreamAt(codec, w, a, b, t) && b < |w.procs| && r < |w.procs| && w.procs[r].owes == Some(o)
    requires p.owes.None? && p.slots == w.procs[r].slots && w' == SendTail(w, r, o).(procs := w.procs[r := p])
    ensures StreamAt(codec, w', a, b, t)
  {
    SendTailChanges(w, w', r, o, p, a, b, t);
    if a == r {
      StreamTail(codec, w.procs[b].slots, o, Stream(w, a, b, t),
                 Get(w.sent, (a, b, t)), Get(w.got, (a, b, t)), a, b, t);
    }
  }

  lemma FinishSendInv(codec: Codec, w: World, r: nat)
    requires Inv(codec, w) && Enabled(codec, w, FinishSend(r))
    ensures Inv(codec, Step(codec, w, FinishSend(r)))
  {
    var w' := Step(codec, w, FinishSend(r));
    forall a: nat, b: nat, t: nat
      ensures StreamAt(codec, w', a, b, t)
    {
      assert StreamAt(codec, w, a, b, t);
      if b < |w.procs| {
        SendTailStream(codec, w, w', r, w.procs[r].owes.value, w'.procs[r], a, b, t);
      }
    }
  }

  lemma PostInv(codec: Codec, w: World, r: nat, id: nat, source: Spec, tag: Spec)
    requires Inv(codec, w) && r < |w.procs| && id !in w.procs[r].slots
    requires forall j :: j in w.procs[r].slots ==> !Clash(|w.procs|, w.procs[r].slots[j], Want(source, tag))
    ensures Inv(codec, w.(procs := w.procs[r := w.procs[r].(slots := w.procs[r].slots[id := Want(source, tag)])]))
  {
    var w' := w.(procs := w.procs[r := w.procs[r].(slots := w.procs[r].slots[id := Want(source, tag)])]);
    forall a: nat, b: nat, t: nat
      ensures StreamAt(codec, w', a, b, t)
    {
      assert StreamAt(codec, w, a, b, t);
      if b == r {
        SlotChanged(codec, w.procs[r].slots, w'.procs[r].slots, Owes(w, a), Stream(w, a, b, t),
                    Get(w.sent, (a, b, t)), Get(w.got, (a, b, t)), a, b, t, id);
      }
    }
    assert Exclusive(|w.procs|, w'.procs[r].slots);
  }

  /** The message a header receive is about to take the header of. */
  lemma HeadIsNext(codec: Codec, w: World, r: nat, id: nat, a: nat)
    requires Inv(codec, w) && Enabled(codec, w, TakeHead(r, id, a))
    ensures var q := Get(w.channels, (a, r));
            var i := First(q, w.procs[r].slots[id].tag);
            var t := q[i].tag;
            var got, sent := Get(w.got, (a, r, t)), Get(w.sent, (a, r, t));
            && Matches(w.procs[r].slots[id], a, t)
            && |got| < |sent| && Sendable(codec, sent[|got|]) && q[i].frame == Frames(codec, sent[|got|])[0]
            && OnTag(Remove(q, i), t) + Tail(Owes(w, a), r, t)
               == Frames(codec, sent[|got|])[1..] + Flat(codec, sent[|got| + 1..])
            && (forall j :: j in w.procs[r].slots ==> !HalfOn(w.procs[r].slots[j], a, t))
  {
    var q := Get(w.channels, (a, r));
    var i := First(q, w.procs[r].slots[id].tag);
    var t := q[i].tag;
    OnTagRemove(q, w.procs[r].slots[id].tag, t);
    assert StreamAt(codec, w, a, r, t);
    NextIsHead(codec, w.procs[r].slots, Owes(w, a), Stream(w, a, r, t),
               Get(w.sent, (a, r, t)), Get(w.got, (a, r, t)), a, r, t, id, |w.procs|);
  }

  lemma BodyIsNext(codec: Codec, w: World, r: nat, id: nat)
    requires Inv(codec, w) && Enabled(codec, w, TakeBody(r, id))
    ensures var s := w.procs[r].slots[id];
            var q := Get(w.channels, (s.from, r));
            var i := First(q, Exactly(s.on));
            var got, sent := Get(w.got, (s.from, r, s.on)), Get(w.sent, (s.from, r, s.on));
            && |got| < |sent| && Sendable(codec, sent[|got|])
            && Frames(codec, sent[|got|]) == [Head(s.head), q[i].frame]
            && OnTag(Remove(q, i), s.on) + Tail(Owes(w, s.from), r, s.on) == Flat(codec, sent[|got| + 1..])
  {
    var s := w.procs[r].slots[id];
    var q := Get(w.channels, (s.from, r));
    OnTagRemove(q, Exactly(s.on), s.on);
    assert StreamAt(codec, w, s.from, r, s.on);
    NextIsBody(codec, w.procs[r].slots, Owes(w, s.from), Stream(w, s.from, r, s.on),
               Get(w.sent, (s.from, r, s.on)), Get(w.got, (s.from, r, s.on)), s.from, r, s.on, id);
  }

  /** Only the channel from a to r, process r and its log of (a, t) differ; the other tags keep their frames. */
  ghost predicate Taken(w: World, w': World, r: nat, a: nat, t: nat, q': seq<Parcel>, p: Proc, got': seq<PyObject>) {
    && r < |w.procs| && p.owes == w.procs[r].owes
    && (forall n: nat :: n != t ==> OnTag(q', n) == Stream(w, a, r, n))
    && w'.procs == w.procs[r := p] && w'.channels == w.channels[(a, r) := q'] && w'.sent == w.sent && !w'.corrupt
    && (forall k :: k != (a, r, t) ==> Get(w'.got, k) == Get(w.got, k)) && Get(w'.got, (a, r, t)) == got'
  }

  lemma TakenChanges(w: World, w': World, r: nat, a: nat, t: nat, q': seq<Parcel>, p: Proc, got': seq<PyObject>,
                     a': nat, b': nat, t': nat)
    requires Taken(w, w', r, a, t, q', p, got') && (a', b', t') != (a, r, t)
    ensures Stream(w', a', b', t') == Stream(w, a', b', t')
    ensures Get(w'.sent, (a', b', t')) == Get(w.sent, (a', b', t'))
    ensures Get(w'.got, (a', b', t')) == Get(w.got, (a', b', t'))
    ensures Owes(w', a') == Owes(w, a')
  {
  }

  lemma TakenElsewhere(codec: Codec, w: World, w': World, r: nat, id: nat, a: nat, t: nat, q': seq<Parcel>, p: Proc,
                       got': seq<PyObject>, a': nat, b': nat, t': nat)
    requires StreamAt(codec, w, a', b', t') && Taken(w, w', r, a, t, q', p, got') && (a', b', t') != (a, r, t)
    requires id in w.procs[r].slots && Matches(w.procs[r].slots[id], a, t)
    requires p.slots == w.procs[r].slots - {id} || exists m :: p.slots == w.procs[r].slots[id := Half(a, t, m)]
    ensures StreamAt(codec, w', a', b', t')
  {
    TakenChanges(w, w', r, a, t, q', p, got', a', b', t');
    if b' == r {
      SlotChanged(codec, w.procs[r].slots, p.slots, Owes(w, a'), Stream(w, a', r, t'),
                  Get(w.sent, (a', r, t')), Get(w.got, (a', r, t')), a', r, t', id);
    }
  }

  /** The stream from which the last frame of a message has been taken. */
  lemma CompleteStream(codec: Codec, slots: map<nat, Slot>, owes: Option<Owed>, before: seq<Frame>, stream: seq<Frame>,
                       sent: seq<PyObject>, got: seq<PyObject>, a: nat, b: nat, t: nat, id: nat)
    requires StreamOk(codec, slots, owes, before, sent, got, a, b, t) && |got| < |sent|
    requires stream + Tail(owes, b, t) == Flat(codec, sent[|got| + 1..])
    requires forall j :: j in slots && j != id ==> !HalfOn(slots[j], a, t)
    ensures StreamOk(codec, slots - {id}, owes, stream, sent, got + [sent[|got|]], a, b, t)
  {
  }

  /** A receive takes the last frame of the next message: that message is delivered. */
  ghost predicate Completes(codec: Codec, w: World, w': World, r: nat, id: nat, a: nat, t: nat, q': seq<Parcel>,
                            p: Proc, got': seq<PyObject>)
  {
    && Taken(w, w', r, a, t, q', p, got') && a < |w.procs|
    && id in w.procs[r].slots && Matches(w.procs[r].slots[id], a, t) && p.slots == w.procs[r].slots - {id}
    && (forall j :: j in w.procs[r].slots && j != id ==> !HalfOn(w.procs[r].slots[j], a, t))
    && var got, sent := Get(w.got, (a, r, t)), Get(w.sent, (a, r, t));
       && |got| < |sent| && OnTag(q', t) + Tail(Owes(w, a), r, t) == Flat(codec, sent[|got| + 1..])
       && got' == got + [sent[|got|]]
  }

  lemma CompleteAt(codec: Codec, w: World, w': World, r: nat, id: nat, a: nat, t: nat, q': seq<Parcel>, p: Proc,
                   got': seq<PyObject>, a': nat, b': nat, t': nat)
    requires StreamAt(codec, w, a', b', t') && Completes(codec, w, w', r, id, a, t, q', p, got')
    ensures StreamAt(codec, w', a', b', t')
  {
    if (a', b', t') != (a, r, t) {
      TakenElsewhere(codec, w, w', r, id, a, t, q', p, got', a', b', t');
    } else {
      CompleteStream(codec, w.procs[r].slots, Owes(w, a), Stream(w, a, r, t), OnTag(q', t),
                     Get(w.sent, (a, r, t)), Get(w.got, (a, r, t)), a, r, t, id);
    }
  }

  lemma CompleteInv(codec: Codec, w: World, w': World, r: nat, id: nat, a: nat, t: nat, q': seq<Parcel>, p: Proc,
                    got': seq<PyObject>)
    requires Inv(codec, w) && Completes(codec, w, w', r, id, a, t, q', p, got')
    ensures Inv(codec, w')
  {
    forall a': nat, b': nat, t': nat
      ensures StreamAt(codec, w', a', b', t')
    {
      assert StreamAt(codec, w, a', b', t');
      CompleteAt(codec, w, w', r, id, a, t, q', p, got', a', b', t');
    }
    FewerSlots(|w.procs|, w.procs[r].slots, id);
  }

  lemma NarrowStream(codec: Codec, slots: map<nat, Slot>, owes: Option<Owed>, stream: seq<Frame>,
                     sent: seq<PyObject>, got: seq<PyObject>, a: nat, b: nat, t: nat, id: nat, m: Message)
    requires StreamOk(codec, slots, owes, [Head(m)] + stream, sent, got, a, b, t)
    requires forall j :: j in slots ==> !HalfOn(slots[j], a, t)
    requires m.header.bytesInSecondMessage != 0
    ensures StreamOk(codec, slots[id := Half(a, t, m)], owes, stream, sent, got, a, b, t)
  {
    assert HalfOn(slots[id := Half(a, t, m)][id], a, t);
  }

  lemma FewerSlots(size: nat, slots: map<nat, Slot>, id: nat)
    requires Exclusive(size, slots)
    ensures Exclusive(size, slots - {id})
  {
  }

  lemma NarrowSlots(size: nat, slots: map<nat, Slot>, id: nat, a: nat, t: nat, m: Message)
    requires Exclusive(size, slots) && id in slots && Matches(slots[id], a, t)
    ensures Exclusive(size, slots[id := Half(a, t, m)])
  {
  }

  /** A receive that takes the header of a long message is narrowed to that message's stream. */
  lemma NarrowInv(codec: Codec, w: World, w': World, r: nat, id: nat, a: nat, t: nat, q': seq<Parcel>, p: Proc,
                  m: Message)
    requires Inv(codec, w) && Taken(w, w', r, a, t, q', p, Get(w.got, (a, r, t)))
    requires id in w.procs[r].slots && w.procs[r].slots[id].Want? && Matches(w.procs[r].slots[id], a, t)
    requires p.slots == w.procs[r].slots[id := Half(a, t, m)]
    requires forall j :: j in w.procs[r].slots ==> !HalfOn(w.procs[r].slots[j], a, t)
    requires m.header.bytesInSecondMessage != 0 && Stream(w, a, r, t) == [Head(m)] + OnTag(q', t)
    ensures Inv(codec, w')
  {
    forall a': nat, b': nat, t': nat
      ensures StreamAt(codec, w', a', b', t')
    {
      assert StreamAt(codec, w, a', b', t');
      if (a', b', t') != (a, r, t) {
        TakenElsewhere(codec, w, w', r, id, a, t, q', p, Get(w.got, (a, r, t)), a', b', t');
      } else {
        NarrowStream(codec, w.procs[r].slots, Owes(w, a), OnTag(q', t),
                     Get(w.sent, (a, r, t)), Get(w.got, (a, r, t)), a, r, t, id, m);
      }
    }
    NarrowSlots(|w.procs|, w.procs[r].slots, id, a, t, m);
  }

  lemma TakeHeadInv(codec: Codec, w: World, r: nat, id: nat, a: nat)
    requires Faithful(codec) && Inv(codec, w) && Enabled(codec, w, TakeHead(r, id, a))
    ensures Inv(codec, Step(codec, w, TakeHead(r, id, a)))
  {
    var w', p := Step(codec, w, TakeHead(r, id, a)), w.procs[r];
    var q := Get(w.channels, (a, r));
    var i := First(q, p.slots[id].tag);
    var t := q[i].tag;
    HeadIsNext(codec, w, r, id, a);
    forall n: nat ensures n != t ==> OnTag(Remove(q, i), n) == OnTag(q, n)
    {
      OnTagRemove(q, p.slots[id].tag, n);
    }
    var x := Get(w.sent, (a, r, t))[|Get(w.got, (a, r, t))|];
    RoundTrip(codec, x);
    var m := q[i].frame.message;
    if m.header.bytesInSecondMessage == 0 {
      assert Frames(codec, x)[1..] == [];
      CompleteInv(codec, w, w', r, id, a, t, Remove(q, i), w'.procs[r], Get(w'.got, (a, r, t)));
    } else {
      OnTagRemove(q, p.slots[id].tag, t);
      NarrowInv(codec, w, w', r, id, a, t, Remove(q, i), w'.procs[r], m);
    }
  }

  lemma TakeBodyInv(codec: Codec, w: World, r: nat, id: nat)
    requires Faithful(codec) && Inv(codec, w) && Enabled(codec, w, TakeBody(r, id))
    ensures Inv(codec, Step(codec, w, TakeBody(r, id)))
  {
    var w', s := Step(codec, w, TakeBody(r, id)), w.procs[r].slots[id];
    var q := Get(w.channels, (s.from, r));
    var i := First(q, Exactly(s.on));
    BodyIsNext(codec, w, r, id);
    forall n: nat ensures n != s.on ==> OnTag(Remove(q, i), n) == OnTag(q, n)
    {
      OnTagRemove(q, Exactly(s.on), n);
    }
    RoundTrip(codec, Get(w.sent, (s.from, r, s.on))[|Get(w.got, (s.from, r, s.on))|]);
    CompleteInv(codec, w, w', r, id, s.from, s.on, Remove(q, i), w'.procs[r], Get(w'.got, (s.from, r, s.on)));
  }

  lemma EventInv(codec: Codec, w: World, e: Event)
    requires Faithful(codec) && Inv(codec, w) && Enabled(codec, w, e) && Disciplined(w, e)
    ensures Inv(codec, Step(codec, w, e))
  {
    match e
    case StartSend(r, to, tag, x) =>
      SendHeadInv(codec, w, r, to, tag, x, Step(codec, w, e).procs[r], Want(Any, Any));
    case FinishSend(r) => FinishSendInv(codec, w, r);
    case StartRecv(r, s, t) => PostInv(codec, w, r, 0, s, t);
    case StartExchange(r, to, tag, x, s, t) =>
      SendHeadInv(codec, w, r, to, tag, x, Step(codec, w, e).procs[r], Want(s, t));
    case Post(r, id, s, t) => PostInv(codec, w, r, id, s, t);
    case TakeHead(r, id, a) => TakeHeadInv(codec, w, r, id, a);
    case TakeBody(r, id) => TakeBodyInv(codec, w, r, id);
  }

  // ---------------------------------------------------------------- theorems

  /** A run: any interleaving of the processes' events in which callers keep their receives apart. */
  ghost predicate IsRun(codec: Codec, size: nat, worlds: seq<World>, events: seq<Event>) {
    && |worlds| == |events| + 1 && worlds[0] == Initial(size)
    && (forall i :: 0 <= i < |events| ==>
          && Enabled(codec, worlds[i], events[i]) && Disciplined(worlds[i], events[i])
          && worlds[i + 1] == Step(codec, worlds[i], events[i]))
  }

  lemma {:induction false} RunInv(codec: Codec, size: nat, worlds: seq<World>, events: seq<Event>, i: nat)
    requires Faithful(codec) && IsRun(codec, size, worlds, events) && i < |worlds|
    ensures Inv(codec, worlds[i]) && |worlds[i].procs| == size
  {
    if i > 0 {
      RunInv(codec, size, worlds, events, i - 1);
      EventInv(codec, worlds[i - 1], events[i - 1]);
    }
  }

  /** No frame that belongs to (a, b, t) is in anybody's hands. */
  predicate Quiescent(w: World, a: nat, b: nat, t: nat)
    requires b < |w.procs|
  {
    Tail(Owes(w, a), b, t) == [] && forall id :: id in w.procs[b].slots ==> !HalfOn(w.procs[b].slots[id], a, t)
  }

  lemma {:induction false} FlatEmpty(codec: Codec, xs: seq<PyObject>)
    requires forall x :: x in xs ==> Sendable(codec, x)
    ensures Flat(codec, xs) == [] ==> xs == []
  {
    if xs != [] {
      assert xs[0] in xs;
    }
  }

  /** In every state of every run, on every stream: nothing has been mispaired; the objects received are exactly
      the first objects sent, in order; when neither end is halfway through a message, the frames in flight
      are the whole messages still to come; and when none are in flight, everything sent has been received. */
  lemma StreamsCarryWholeMessages(codec: Codec, size: nat, worlds: seq<World>, events: seq<Event>, i: nat,
                                  a: nat, b: nat, t: nat)
    requires Faithful(codec) && IsRun(codec, size, worlds, events) && i < |worlds| && b < size
    ensures var w := worlds[i];
            var sent, got := Get(w.sent, (a, b, t)), Get(w.got, (a, b, t));
      && |w.procs| == size && !w.corrupt
      && got <= sent
      && (Quiescent(w, a, b, t) ==> Stream(w, a, b, t) == Flat(codec, sent[|got|..]))
      && (Quiescent(w, a, b, t) && Stream(w, a, b, t) == [] ==> got == sent)
  {
    var w := worlds[i];
    RunInv(codec, size, worlds, events, i);
    assert StreamAt(codec, w, a, b, t);
    FlatEmpty(codec, Get(w.sent, (a, b, t))[|Get(w.got, (a, b, t))|..]);
  }

  /** Whatever wildcards a receive uses, the frame it matches first is the header of the oldest message not yet
      received on the stream it lands on, and once narrowed the frame it matches is that message's body. */
  lemma ReceivesPairHeaderAndBody(codec: Codec, size: nat, worlds: seq<World>, events: seq<Event>, i: nat, e: Event)
    requires Faithful(codec) && IsRun(codec, size, worlds, events) && i < |worlds| && Enabled(codec, worlds[i], e)
    ensures e.TakeHead? ==>
      var q := Get(worlds[i].channels, (e.a, e.r));
      var p := q[First(q, worlds[i].procs[e.r].slots[e.id].tag)];
      var got, sent := Get(worlds[i].got, (e.a, e.r, p.tag)), Get(worlds[i].sent, (e.a, e.r, p.tag));
      |got| < |sent| && Sendable(codec, sent[|got|]) && p.frame == Frames(codec, sent[|got|])[0]
    ensures e.TakeBody? ==>
      var s := worlds[i].procs[e.r].slots[e.id];
      var q := Get(worlds[i].channels, (s.from, e.r));
      var p := q[First(q, Exactly(s.on))];
      var got, sent := Get(worlds[i].got, (s.from, e.r, s.on)), Get(worlds[i].sent, (s.from, e.r, s.on));
      |got| < |sent| && Sendable(codec, sent[|got|]) && Frames(codec, sent[|got|]) == [Head(s.head), p.frame]
  {
    RunInv(codec, size, worlds, events, i);
    if e.TakeHead? {
      HeadIsNext(codec, worlds[i], e.r, e.id, e.a);
    } else if e.TakeBody? {
      BodyIsNext(codec, worlds[i], e.r, e.id);
    }
  }

  // ---------------------------------------------------------------- blocking calls return

  /** A frame that the receive in slot id of process r can take is on a channel to r. */
  ghost predicate FrameThere(w: World, r: nat, id: nat)
    requires r < |w.procs| && id in w.procs[r].slots
  {
    match w.procs[r].slots[id]
    case Want(source, tag) =>
      exists a: nat, k: nat :: k < |Get(w.channels, (a, r))|
                               && Accepts(source, a) && Accepts(tag, Get(w.channels, (a, r))[k].tag)
    case Half(from, on, _) =>
      exists k: nat :: k < |Get(w.channels, (from, r))| && Get(w.channels, (from, r))[k].tag == on
  }

  /** The receive in slot id can take a frame now. */
  ghost predicate CanTake(codec: Codec, w: World, r: nat, id: nat) {
    Enabled(codec, w, TakeBody(r, id)) || exists a :: Enabled(codec, w, TakeHead(r, id, a))
  }

  /** In any world: a process is free for a new call, or it can send what it owes, or it is in a receive, and that can
      go on exactly when there is a frame for it. In an exchange the body goes out as soon as the other side's header is
      in. */
  lemma BlockedOnlyOnFrames(codec: Codec, w: World, r: nat)
    requires r < |w.procs|
    ensures match ModeOf(w.procs[r])
      case Idle => forall s, n :: Enabled(codec, w, StartRecv(r, s, n))
      case Sending => Enabled(codec, w, FinishSend(r))
      case Receiving => CanTake(codec, w, r, 0) <==> FrameThere(w, r, 0)
      case Exchanging =>
        if w.procs[r].slots[0].Half? then Enabled(codec, w, FinishSend(r))
        else CanTake(codec, w, r, 0) <==> FrameThere(w, r, 0)
  {
    if 0 in w.procs[r].slots && FrameThere(w, r, 0) {
      match w.procs[r].slots[0]
      case Want(source, tag) =>
        var a: nat, k: nat :| k < |Get(w.channels, (a, r))| && Accepts(source, a)
                              && Accepts(tag, Get(w.channels, (a, r))[k].tag);
        assert Enabled(codec, w, TakeHead(r, 0, a));
      case Half(from, on, _) =>
        assert First(Get(w.channels, (from, r)), Exactly(on)) < |Get(w.channels, (from, r))|;
    }
  }

  /** Nothing but the receiver's slots, the log of this stream and its channel changes. */
  ghost predicate OnlyReceives(w: World, w': World, r: nat, a: nat, t: nat) {
    && |w'.procs| == |w.procs| && r < |w.procs| && w'.procs[r].owes == w.procs[r].owes && w'.sent == w.sent
    && (forall b :: 0 <= b < |w.procs| && b != r ==> w'.procs[b] == w.procs[b])
    && (forall key :: key != (a, r, t) ==> Get(w'.got, key) == Get(w.got, key))
    && (forall key :: key != (a, r) ==> Get(w'.channels, key) == Get(w.channels, key))
  }

  /** What taking a header does, whether for the blocking receive or for a request: a message that fits is delivered and
      the receive is over; otherwise the receive is narrowed to the message's stream. */
  lemma HeadTaken(codec: Codec, w: World, r: nat, id: nat, a: nat)
    requires Faithful(codec) && Inv(codec, w) && Enabled(codec, w, TakeHead(r, id, a))
    ensures var q := Get(w.channels, (a, r));
            var t := q[First(q, w.procs[r].slots[id].tag)].tag;
            var got, sent := Get(w.got, (a, r, t)), Get(w.sent, (a, r, t));
            var w' := Step(codec, w, TakeHead(r, id, a));
      && |got| < |sent| && Sendable(codec, sent[|got|]) && OnlyReceives(w, w', r, a, t)
      && if |Frames(codec, sent[|got|])| == 1 then
           w'.procs[r].slots == w.procs[r].slots - {id} && Get(w'.got, (a, r, t)) == got + [sent[|got|]]
         else
           && w'.procs[r].slots == w.procs[r].slots[id := Half(a, t, Frames(codec, sent[|got|])[0].message)]
           && Get(w'.got, (a, r, t)) == got
  {
    HeadIsNext(codec, w, r, id, a);
    var q := Get(w.channels, (a, r));
    var t := q[First(q, w.procs[r].slots[id].tag)].tag;
    RoundTrip(codec, Get(w.sent, (a, r, t))[|Get(w.got, (a, r, t))|]);
  }

  /** Taking a body delivers the message. */
  lemma BodyTaken(codec: Codec, w: World, r: nat, id: nat)
    requires Faithful(codec) && Inv(codec, w) && Enabled(codec, w, TakeBody(r, id))
    ensures var s := w.procs[r].slots[id];
            var got, sent := Get(w.got, (s.from, r, s.on)), Get(w.sent, (s.from, r, s.on));
            var w' := Step(codec, w, TakeBody(r, id));
      && |got| < |sent| && OnlyReceives(w, w', r, s.from, s.on)
      && w'.procs[r].slots == w.procs[r].slots - {id} && Get(w'.got, (s.from, r, s.on)) == got + [sent[|got|]]
  {
    BodyIsNext(codec, w, r, id);
    var s := w.procs[r].slots[id];
    RoundTrip(codec, Get(w.sent, (s.from, r, s.on))[|Get(w.got, (s.from, r, s.on))|]);
  }

  /** Where each call ends: a send after one or two frames; a receive with the last frame of its message; an exchange
      with whichever of the two is last. */
  lemma CallsReturn(codec: Codec, w: World, e: Event)
    requires Faithful(codec) && Inv(codec, w) && Enabled(codec, w, e)
    ensures var mode, mode' := ModeOf(w.procs[e.r]), ModeOf(Step(codec, w, e).procs[e.r]);
      match e
      case StartSend(_, _, _, x) => mode' == if |Frames(codec, x)| == 1 then Idle else Sending
      case FinishSend(_) => mode' == if mode.Sending? then Idle else Receiving
      case StartRecv(_, _, _) => mode' == Receiving
      case StartExchange(_, _, _, x, _, _) => mode' == if |Frames(codec, x)| == 1 then Receiving else Exchanging
      case Post(_, _, _, _) => mode' == Idle
      case TakeHead(r, id, a) =>
        var q := Get(w.channels, (a, r));
        var t := q[First(q, w.procs[r].slots[id].tag)].tag;
        var got, sent := Get(w.got, (a, r, t)), Get(w.sent, (a, r, t));
        && |got| < |sent| && Sendable(codec, sent[|got|])
        && mode' == if id == 0 && |Frames(codec, sent[|got|])| == 1
                    then (if mode.Exchanging? then Sending else Idle) else mode
      case TakeBody(r, id) => mode' == if id == 0 then Idle else mode
  {
    match e
    case TakeHead(r, id, a) => HeadTaken(codec, w, r, id, a);
    case TakeBody(r, id) => BodyTaken(codec, w, r, id);
    case _ =>
  }

  lemma {:induction false} OnTagWhere(q: seq<Parcel>, t: nat) returns (k: nat)
    requires OnTag(q, t) != []
    ensures k < |q| && q[k].tag == t
  {
    if q[0].tag == t {
      k := 0;
    } else {
      k := OnTagWhere(q[1..], t);
      k := k + 1;
    }
  }

  /** The body that a narrowed receive waits for is on its channel, or the sender still owes it. */
  lemma BodyComes(codec: Codec, w: World, r: nat, id: nat)
    requires Inv(codec, w) && r < |w.procs| && id in w.procs[r].slots && w.procs[r].slots[id].Half?
    ensures var s := w.procs[r].slots[id];
      || FrameThere(w, r, id)
      || (s.from < |w.procs| && w.procs[s.from].owes.Some?
          && w.procs[s.from].owes.value.to == r && w.procs[s.from].owes.value.tag == s.on)
  {
    var s := w.procs[r].slots[id];
    assert StreamAt(codec, w, s.from, r, s.on) && HalfOn(s, s.from, s.on);
    var stream, tail := Stream(w, s.from, r, s.on), Tail(Owes(w, s.from), r, s.on);
    var got, sent := Get(w.got, (s.from, r, s.on)), Get(w.sent, (s.from, r, s.on));
    var fs := [Head(s.head)] + stream + tail;
    FirstPending(codec, sent, got, fs);
    assert Frames(codec, sent[|got|])[0] == fs[0];
    if stream != [] {
      var k := OnTagWhere(Get(w.channels, (s.from, r)), s.on);
    }
  }

  /** The blocking call of process r can go on. */
  ghost predicate CanProceed(codec: Codec, w: World, r: nat) {
    Enabled(codec, w, FinishSend(r)) || CanTake(codec, w, r, 0)
  }

  /** When nobody's blocking call can go on, in any state of any run, every blocked process waits for a header that is
      not there, or for the body of a message whose sender waits for such a header in an exchange of its own. */
  lemma StuckOnlyOnHeaders(codec: Codec, size: nat, worlds: seq<World>, events: seq<Event>, i: nat, r: nat)
    requires Faithful(codec) && IsRun(codec, size, worlds, events) && i < |worlds| && r < size
    requires forall b :: 0 <= b < size ==> !CanProceed(codec, worlds[i], b)
    ensures |worlds[i].procs| == size
    ensures var w := worlds[i];
      || ModeOf(w.procs[r]).Idle?
      || WaitsForHeader(w, r)
      || (0 in w.procs[r].slots && w.procs[r].slots[0].Half? && w.procs[r].slots[0].from < size
          && WaitsForHeader(w, w.procs[r].slots[0].from))
  {
    RunInv(codec, size, worlds, events, i);
    var w := worlds[i];
    BlockedOnlyOnFrames(codec, w, r);
    assert !CanProceed(codec, w, r);
    if 0 in w.procs[r].slots && w.procs[r].slots[0].Half? {
      BodyComes(codec, w, r, 0);
      var from := w.procs[r].slots[0].from;
      BlockedOnlyOnFrames(codec, w, from);
      assert !CanProceed(codec, w, from);
    }
  }

  ghost predicate WaitsForHeader(w: World, r: nat) {
    r < |w.procs| && 0 in w.procs[r].slots && w.procs[r].slots[0].Want? && !FrameThere(w, r, 0)
  }

  /** A clash is exactly a stream, from some process, that both receives accept. */
  lemma ClashIff(size: nat, x: Slot, y: Slot)
    ensures Clash(size, x, y) <==> exists a: nat, t: nat :: a < size && Matches(x, a, t) && Matches(y, a, t)
  {
    if Clash(size, x, y) {
      var a := if x.Half? then x.from else if x.source.Exactly? then x.source.n
               else if y.Half? then y.from else if y.source.Exactly? then y.source.n else 0;
      var t := if x.Half? then x.on else if x.tag.Exactly? then x.tag.n
               else if y.Half? then y.on else if y.tag.Exactly? then y.tag.n else 0;
      assert Matches(x, a, t) && Matches(y, a, t);
    }
  }

  /** The first half of sending a long message on an empty channel. */
  lemma LongSendHead(codec: Codec, w: World, a: nat, r: nat, t: nat, x: PyObject) returns (w1: World)
    requires r < |w.procs| && a < |w.procs|
    requires Get(w.channels, (a, r)) == [] && ModeOf(w.procs[a]).Idle?
    requires Sendable(codec, x) && |Frames(codec, x)| == 2
    ensures Enabled(codec, w, StartSend(a, r, t, x)) && w1 == Step(codec, w, StartSend(a, r, t, x))
    ensures Get(w1.channels, (a, r)) == [Parcel(t, Frames(codec, x)[0])]
    ensures |w1.procs| == |w.procs| && w1.procs[r].slots == w.procs[r].slots
    ensures ModeOf(w1.procs[a]).Sending? && w1.procs[a].owes == Some(Owed(r, t, Frames(codec, x)[1].bytes))
  {
    w1 := Step(codec, w, StartSend(a, r, t, x));
  }

  /** A long message sent on an empty channel leaves its two frames there, and nobody's slots change. */
  lemma LongSend(codec: Codec, w: World, a: nat, r: nat, t: nat, x: PyObject) returns (w1: World, w2: World)
    requires r < |w.procs| && a < |w.procs|
    requires Get(w.channels, (a, r)) == [] && ModeOf(w.procs[a]).Idle?
    requires Sendable(codec, x) && |Frames(codec, x)| == 2
    ensures Enabled(codec, w, StartSend(a, r, t, x)) && w1 == Step(codec, w, StartSend(a, r, t, x))
    ensures Enabled(codec, w1, FinishSend(a)) && w2 == Step(codec, w1, FinishSend(a))
    ensures Get(w2.channels, (a, r)) == [Parcel(t, Frames(codec, x)[0]), Parcel(t, Frames(codec, x)[1])]
    ensures |w2.procs| == |w.procs| && w2.procs[r].slots == w.procs[r].slots
  {
    w1 := LongSendHead(codec, w, a, r, t, x);
    w2 := Step(codec, w1, FinishSend(a));
  }

  /** Taking a header that announces a body narrows the request and leaves what is behind it. */
  lemma NarrowFirst(codec: Codec, w: World, r: nat, i: nat, a: nat, t: nat, m: Message, rest: seq<Parcel>)
    requires r < |w.procs| && i in w.procs[r].slots && w.procs[r].slots[i].Want?
    requires Matches(w.procs[r].slots[i], a, t) && m.header.bytesInSecondMessage != 0
    requires Get(w.channels, (a, r)) == [Parcel(t, Head(m))] + rest
    ensures Enabled(codec, w, TakeHead(r, i, a))
    ensures var w' := Step(codec, w, TakeHead(r, i, a));
      && Get(w'.channels, (a, r)) == rest
      && |w'.procs| == |w.procs| && w'.procs[r].slots == w.procs[r].slots[i := Half(a, t, m)]
  {
    var q := Get(w.channels, (a, r));
    assert q[0] == Parcel(t, Head(m)) && First(q, w.procs[r].slots[i].tag) == 0;
    assert Remove(q, 0) == rest;
  }

  /** The discipline is needed: wherever two posted requests of r clash on a stream (a, t) whose channel is empty,
      one long message from a, taken header first by the one and then by the other, corrupts the second. */
  lemma ClashingRequestsMispair(codec: Codec, w: World, r: nat, i: nat, j: nat, a: nat, t: nat, x: PyObject)
    returns (w1: World, w2: World, w3: World, w4: World)
    requires r < |w.procs| && a < |w.procs| && i in w.procs[r].slots && j in w.procs[r].slots
    requires i != j && w.procs[r].slots[i].Want? && w.procs[r].slots[j].Want?
    requires Matches(w.procs[r].slots[i], a, t) && Matches(w.procs[r].slots[j], a, t)
    requires Get(w.channels, (a, r)) == [] && ModeOf(w.procs[a]).Idle?
    requires Sendable(codec, x) && |Frames(codec, x)| == 2
    ensures Enabled(codec, w, StartSend(a, r, t, x)) && w1 == Step(codec, w, StartSend(a, r, t, x))
    ensures Enabled(codec, w1, FinishSend(a)) && w2 == Step(codec, w1, FinishSend(a))
    ensures Enabled(codec, w2, TakeHead(r, i, a)) && w3 == Step(codec, w2, TakeHead(r, i, a))
    ensures Enabled(codec, w3, TakeHead(r, j, a)) && w4 == Step(codec, w3, TakeHead(r, j, a))
    ensures w4.corrupt
  {
    w1, w2 := LongSend(codec, w, a, r, t, x);
    var fs := Frames(codec, x);
    NarrowFirst(codec, w2, r, i, a, t, fs[0].message, [Parcel(t, fs[1])]);
    w3 := Step(codec, w2, TakeHead(r, i, a));
    w4 := Step(codec, w3, TakeHead(r, j, a));
  }

  /** Such a world is reached at once: a process that starts by posting two receives that both accept some stream
      runs into it. */
  lemma ClashCorrupts(codec: Codec, size: nat, r: nat, i: nat, j: nat, s: Spec, n: Spec, s': Spec, n': Spec,
                      a: nat, t: nat, x: PyObject)
    returns (w1: World, w2: World, w3: World, w4: World, w5: World, w6: World)
    requires r < size && a < size && 0 < i && 0 < j && i != j
    requires Accepts(s, a) && Accepts(n, t) && Accepts(s', a) && Accepts(n', t)
    requires Sendable(codec, x) && |Frames(codec, x)| == 2
    ensures Enabled(codec, Initial(size), Post(r, i, s, n)) && w1 == Step(codec, Initial(size), Post(r, i, s, n))
    ensures Enabled(codec, w1, Post(r, j, s', n')) && w2 == Step(codec, w1, Post(r, j, s', n'))
    ensures Enabled(codec, w2, StartSend(a, r, t, x)) && w3 == Step(codec, w2, StartSend(a, r, t, x))
    ensures Enabled(codec, w3, FinishSend(a)) && w4 == Step(codec, w3, FinishSend(a))
    ensures Enabled(codec, w4, TakeHead(r, i, a)) && w5 == Step(codec, w4, TakeHead(r, i, a))
    ensures Enabled(codec, w5, TakeHead(r, j, a)) && w6 == Step(codec, w5, TakeHead(r, j, a))
    ensures w6.corrupt
  {
    w1, w2 := TwoPosts(codec, size, r, i, j, s, n, s', n');
    w3, w4, w5, w6 := ClashingRequestsMispair(codec, w2, r, i, j, a, t, x);
  }

  lemma TwoPosts(codec: Codec, size: nat, r: nat, i: nat, j: nat, s: Spec, n: Spec, s': Spec, n': Spec)
    returns (w1: World, w2: World)
    requires r < size && 0 < i && 0 < j && i != j
    ensures Enabled(codec, Initial(size), Post(r, i, s, n)) && w1 == Step(codec, Initial(size), Post(r, i, s, n))
    ensures Enabled(codec, w1, Post(r, j, s', n')) && w2 == Step(codec, w1, Post(r, j, s', n'))
    ensures |w2.procs| == size && w2.procs[r].slots == map[i := Want(s, n), j := Want(s', n')] && w2.channels == map[]
    ensures forall a :: 0 <= a < size ==> ModeOf(w2.procs[a]).Idle?
  {
    w1 := Step(codec, Initial(size), Post(r, i, s, n));
    w2 := Step(codec, w1, Post(r, j, s', n'));
  }

  /** A continuation of a run in which callers keep their receives apart, and where it leads. */
  ghost predicate Continues(codec: Codec, w: World, events: seq<Event>, end: World)
    decreases |events|
  {
    if events == [] then end == w
    else Enabled(codec, w, events[0]) && Disciplined(w, events[0])
         && Continues(codec, Step(codec, w, events[0]), events[1..], end)
  }

  /** Nothing that happens from here on is mispaired. */
  ghost predicate SafeFromHere(codec: Codec, w: World) {
    forall events, end :: Continues(codec, w, events, end) ==> !end.corrupt
  }

  lemma {:induction false} ContinuesInv(codec: Codec, w: World, events: seq<Event>, end: World)
    requires Faithful(codec) && Inv(codec, w) && Continues(codec, w, events, end)
    ensures Inv(codec, end)
    decreases |events|
  {
    if events != [] {
      EventInv(codec, w, events[0]);
      ContinuesInv(codec, Step(codec, w, events[0]), events[1..], end);
    }
  }

  lemma OneMore(codec: Codec, w: World, e: Event, events: seq<Event>, end: World)
    requires Enabled(codec, w, e) && Disciplined(w, e) && Continues(codec, Step(codec, w, e), events, end)
    ensures Continues(codec, w, [e] + events, end)
  {
    assert ([e] + events)[1..] == events;
  }

  lemma ContinuesFour(codec: Codec, w: World, e1: Event, e2: Event, e3: Event, e4: Event,
                      w1: World, w2: World, w3: World, w4: World)
    requires Enabled(codec, w, e1) && Disciplined(w, e1) && w1 == Step(codec, w, e1)
    requires Enabled(codec, w1, e2) && Disciplined(w1, e2) && w2 == Step(codec, w1, e2)
    requires Enabled(codec, w2, e3) && Disciplined(w2, e3) && w3 == Step(codec, w2, e3)
    requires Enabled(codec, w3, e4) && Disciplined(w3, e4) && w4 == Step(codec, w3, e4)
    ensures exists events :: Continues(codec, w, events, w4)
  {
    OneMore(codec, w3, e4, [], w4);
    OneMore(codec, w2, e3, [e4] + [], w4);
    OneMore(codec, w1, e2, [e3] + ([e4] + []), w4);
    OneMore(codec, w, e1, [e2] + ([e3] + ([e4] + [])), w4);
  }

  lemma UnsafeAfterClash(codec: Codec, size: nat, r: nat, i: nat, j: nat, s: Spec, n: Spec, s': Spec, n': Spec,
                         a: nat, t: nat, x: PyObject)
    requires r < size && a < size && 0 < i && 0 < j && i != j
    requires Accepts(s, a) && Accepts(n, t) && Accepts(s', a) && Accepts(n', t)
    requires Sendable(codec, x) && |Frames(codec, x)| == 2
    ensures !SafeFromHere(codec, AfterPosts(codec, size, r, i, j, s, n, s', n'))
  {
    var w1, w2, w3, w4, w5, w6 := ClashCorrupts(codec, size, r, i, j, s, n, s', n', a, t, x);
    ContinuesFour(codec, w2, StartSend(a, r, t, x), FinishSend(a), TakeHead(r, i, a), TakeHead(r, j, a),
                  w3, w4, w5, w6);
  }

  /** The world in which process r, as the first thing of all, has posted two receives. */
  function AfterPosts(codec: Codec, size: nat, r: nat, i: nat, j: nat, s: Spec, n: Spec, s': Spec, n': Spec): World
    requires r < size && 0 < i && 0 < j && i != j
  {
    Step(codec, Step(codec, Initial(size), Post(r, i, s, n)), Post(r, j, s', n'))
  }

  /** With no stream in common, the two are posted within the discipline. */
  lemma ApartIsSafe(codec: Codec, size: nat, r: nat, i: nat, j: nat, s: Spec, n: Spec, s': Spec, n': Spec)
    requires Faithful(codec) && r < size && 0 < i && 0 < j && i != j && !Clash(size, Want(s, n), Want(s', n'))
    ensures SafeFromHere(codec, AfterPosts(codec, size, r, i, j, s, n, s', n'))
  {
    var w0 := Initial(size);
    InitialInv(codec, size);
    var w1 := Step(codec, w0, Post(r, i, s, n));
    EventInv(codec, w0, Post(r, i, s, n));
    var w2 := Step(codec, w1, Post(r, j, s', n'));
    assert w1.procs[r].slots == map[i := Want(s, n)];
    EventInv(codec, w1, Post(r, j, s', n'));
    forall events, end | Continues(codec, w2, events, end)
      ensures !end.corrupt
    {
      ContinuesInv(codec, w2, events, end);
    }
  }

  lemma InitialInv(codec: Codec, size: nat)
    ensures Inv(codec, Initial(size))
  {
  }

  /** The discipline is exactly what is needed of two receives that a process posts first: nothing is ever mispaired by
      whatever follows within the discipline, if and only if no process sends a stream that both accept. */
  lemma SafeIffApart(codec: Codec, size: nat, r: nat, i: nat, j: nat, s: Spec, n: Spec, s': Spec, n': Spec)
    requires Faithful(codec) && r < size && 0 < i && 0 < j && i != j
    ensures SafeFromHere(codec, AfterPosts(codec, size, r, i, j, s, n, s', n')) <==>
      !exists a: nat, t: nat :: a < size && Matches(Want(s, n), a, t) && Matches(Want(s', n'), a, t)
  {
    ClashIff(size, Want(s, n), Want(s', n'));
    if a: nat, t: nat :| a < size && Matches(Want(s, n), a, t) && Matches(Want(s', n'), a, t) {
      var long := PyStr(seq(PREFIX_CHARS + 1, _ => 0));
      UnsafeAfterClash(codec, size, r, i, j, s, n, s', n', a, t, long);
    } else {
      ApartIsSafe(codec, size, r, i, j, s, n, s', n');
    }
  }
}
