/** The C side of messages: header structs filled in place, overflow buffers that are allocated, borrowed and
    freed, and the blocking calls built on them. Freeing is only possible for a live allocation and addresses
    are never reused, so a call that leaves the arena as it found it has freed each of its buffers exactly once. */
module Buffers {
  import opened Folds
  import opened Messages

  /** malloc and free. */
  class Arena {
    var live: map<nat, seq<byte>>
    var next: nat

    ghost predicate Valid()
      reads this
    {
      forall p :: p in live ==> p < next
    }

    constructor ()
      ensures Valid() && live == map[]
    {
      live, next := map[], 0;
    }

    method Malloc(size: nat) returns (p: nat)
      requires Valid()
      modifies this
      ensures Valid() && p == old(next) && next == p + 1
      ensures p !in old(live) && p in live && |live[p]| == size && live == old(live)[p := live[p]]
    {
      p := next;
      live, next := live[p := seq(size, _ => 0)], next + 1;
    }

    /** memcpy, or a receive, into the front of an allocation. */
    method Write(p: nat, bytes: seq<byte>)
      requires Valid() && p in live && |bytes| <= |live[p]|
      modifies this`live
      ensures Valid() && live == old(live)[p := bytes + old(live)[p][|bytes|..]]
    {
      live := live[p := bytes + live[p][|bytes|..]];
    }

    method Free(p: nat)
      requires Valid() && p in live
      modifies this`live
      ensures Valid() && live == old(live) - {p}
    {
      live := live - {p};
    }
  }

  /** A char*: null, into a string that Python owns, or an allocation. */
  datatype Pointer = NullPtr | Borrowed(bytes: seq<byte>) | Heap(address: nat)

  /** Safe to read, and to free if the header says so. */
  ghost predicate Usable(arena: Arena, p: Pointer, freeBuffer: bool)
    reads arena
  {
    && (p.Heap? ==> p.address in arena.live)
    && (p.Borrowed? ==> !freeBuffer)
  }

  /** What the unpacker sees through its second argument, a char** that may itself be null. */
  ghost function View(arena: Arena, part2: Option<Pointer>): Part2
    requires part2.Some? && part2.value.Heap? ==> part2.value.address in arena.live
    reads arena
  {
    match part2
    case None => NoPointer
    case Some(NullPtr) => Null
    case Some(Borrowed(b)) => Data(b)
    case Some(Heap(p)) => Data(arena.live[p])
  }

  /** The arena after p has been freed, if it is an allocation. */
  ghost function Without(live: map<nat, seq<byte>>, p: Pointer): map<nat, seq<byte>> {
    if p.Heap? then live - {p.address} else live
  }

  /** Unpacking a string that is not in the prefix marks its buffer as one to free. */
  function AfterUnpack(m: Message): Message {
    if m.header.messageType == AsString && m.header.bytesInPrefix == 0 then Freeable(m) else m
  }

  /** The header with its note that the second buffer is to be freed. */
  function Freeable(m: Message): Message {
    m.(header := m.header.(freeBuffer := true))
  }

  /** PyMPI_Message: the header fields and the prefix array. */
  class MessageBuffer {
    var header: Header
    const prefix: array<byte>

    ghost predicate Valid()
      reads this
    {
      prefix.Length == PREFIX_CHARS && header.bytesInPrefix <= PREFIX_CHARS
    }

    ghost function Contents(): Message
      requires Valid()
      reads this, prefix
    {
      Message(header, prefix[..header.bytesInPrefix])
    }

    constructor ()
      ensures Valid() && fresh(prefix)
    {
      header := Header(0, 0, 0, AsLong, false, 0);
      prefix := new byte[PREFIX_CHARS](_ => 0);
    }

    method SetPrefix(bytes: seq<byte>)
      requires Valid() && |bytes| <= PREFIX_CHARS
      modifies prefix
      ensures prefix[..|bytes|] == bytes
    {
      forall i | 0 <= i < |bytes| {
        prefix[i] := bytes[i];
      }
    }

    /** Receives a first frame into this buffer. */
    method Fill(m: Message)
      requires Valid() && m.header.bytesInPrefix == |m.prefix| <= PREFIX_CHARS
      modifies this, prefix
      ensures Valid() && Contents() == m
    {
      header := m.header;
      SetPrefix(m.prefix);
    }

    /** pyMPI_pack. Only the string branch writes a null buffer2; the others leave it alone when unused. */
    method Pack(codec: Codec, x: PyObject, arena: Arena, buffer2In: Pointer) returns (buffer2: Pointer, aborted: bool)
      requires Valid() && arena.Valid()
      modifies this, prefix, arena
      ensures Valid() && arena.Valid()
      ensures aborted <==> Messages.Pack(codec, x).Aborts?
      ensures !aborted ==>
        var p := Messages.Pack(codec, x);
        && Contents() == p.message
        && (p.overflow.None? ==> buffer2 == (if x.PyStr? then NullPtr else buffer2In) && arena.live == old(arena.live))
        && (p.overflow.Some? && x.PyStr? ==> buffer2 == Borrowed(p.overflow.value) && arena.live == old(arena.live))
        && (p.overflow.Some? && !x.PyStr? ==>
              && buffer2.Heap? && buffer2.address !in old(arena.live)
              && arena.live == old(arena.live)[buffer2.address := p.overflow.value])
      ensures aborted ==> arena.live == old(arena.live)
    {
      buffer2, aborted := buffer2In, false;
      match x
      case PyInt(i) => header := Header(0, i, 0, AsLong, false, 0);
      case PyFloat(d) => header := Header(d, 0, 0, AsDouble, false, 0);
      case PyStr(s) =>
        if |s| <= PREFIX_CHARS {
          header := Header(0, 0, 0, AsString, false, |s|);
          SetPrefix(s);
          buffer2 := NullPtr;
        } else {
          header := Header(0, 0, ToCInt(|s|), AsString, false, 0);
          buffer2 := Borrowed(s);
        }
      case _ =>
        var pickled := codec.dumps(x);
        var n := ToCInt(|pickled|);
        if 0 <= n <= PREFIX_CHARS {
          header := Header(0, 0, 0, AsPickle, false, n);
          SetPrefix(pickled[..n]);
        } else if n < 0 {
          aborted := true;
        } else {
          header := Header(0, 0, n, AsPickle, true, 0);
          var p := arena.Malloc(n);
          arena.Write(p, pickled[..n]);
          assert arena.live[p] == pickled[..n];
          buffer2 := Heap(p);
        }
    }

    /** pyMPI_message_free */
    method MessageFree(arena: Arena, part2: Pointer) returns (cleared: Pointer)
      requires arena.Valid() && Usable(arena, part2, header.freeBuffer)
      modifies arena
      ensures arena.Valid() && cleared == NullPtr
      ensures arena.live == if header.freeBuffer then Without(old(arena.live), part2) else old(arena.live)
    {
      if part2.Heap? && header.freeBuffer {
        arena.Free(part2.address);
      }
      cleared := NullPtr;
    }

    /** pyMPI_unpack: reads the object and then releases the second buffer, nulling the caller's pointer.
        The string branch declares the buffer its own whatever the header says. */
    method Unpack(codec: Codec, arena: Arena, part2: Option<Pointer>) returns (result: Unpacked, cleared: Pointer)
      requires Valid() && arena.Valid()
      requires part2.Some? ==> Usable(arena, part2.value, header.freeBuffer || header.messageType == AsString)
      modifies this, arena
      ensures result == Messages.Unpack(codec, old(Contents()), old(View(arena, part2)))
      ensures arena.Valid()
      ensures !result.Faults? && part2.Some? ==>
        && cleared == NullPtr
        && arena.live == (if old(header.freeBuffer || (header.messageType == AsString && header.bytesInPrefix == 0))
                          then Without(old(arena.live), part2.value) else old(arena.live))
      ensures part2.None? ==> arena.live == old(arena.live)
      ensures Valid() && Contents() == AfterUnpack(old(Contents()))
    {
      cleared := if part2.Some? then part2.value else NullPtr;
      result := Raises;
      assert Contents().prefix[..header.bytesInPrefix] == prefix[..header.bytesInPrefix];
      var second := header.bytesInSecondMessage;
      var view := NoPointer;
      if part2.Some? {
        view := match part2.value
          case NullPtr => Null
          case Borrowed(b) => Data(b)
          case Heap(p) => Data(arena.live[p]);
      }
      match header.messageType {
        case AsLong => result := Value(PyInt(header.longPayload));
        case AsDouble => result := Value(PyFloat(header.doublePayload));
        case AsString =>
          if header.bytesInPrefix != 0 {
            result := Value(PyStr(prefix[..header.bytesInPrefix]));
          } else {
            header := header.(freeBuffer := true);
            if part2.None? { result := Faults; return; }
            if second == 0 {
              result := Value(PyStr([]));
            } else if second > 0 {
              if !view.Data? || second > |view.bytes| { result := Faults; return; }
              result := Value(PyStr(view.bytes[..second]));
            }
          }
        case AsPickle =>
          if second != 0 {
            if !view.Data? || second < 0 || second > |view.bytes| { result := Faults; return; }
            result := Loads(codec, view.bytes[..second]);
          } else {
            result := Loads(codec, prefix[..header.bytesInPrefix]);
          }
        case _ =>
      }
      if part2.Some? {
        cleared := MessageFree(arena, part2.value);
      }
    }
  }

  /** MPI_Status: the sender and tag of a completed receive, or the empty status of a null request. */
  datatype Status = Empty | Of(source: nat, tag: nat)

  /** The frames from one sender with one tag, oldest first. */
  class Wire {
    const source: nat
    const tag: nat
    var frames: seq<Frame>

    constructor (source: nat, tag: nat)
      ensures this.source == source && this.tag == tag && frames == []
    {
      this.source, this.tag, frames := source, tag, [];
    }

    method Send(f: Frame)
      modifies this
      ensures frames == old(frames) + [f]
    {
      frames := frames + [f];
    }

    method Receive() returns (f: Frame, status: Status)
      requires frames != []
      modifies this
      ensures f == old(frames)[0] && frames == old(frames)[1..] && status == Of(source, tag)
    {
      f, frames, status := frames[0], frames[1..], Of(source, tag);
    }
  }

  /** The bytes a pointer addresses. */
  method Read(arena: Arena, p: Pointer) returns (bytes: seq<byte>)
    requires p != NullPtr && (p.Heap? ==> p.address in arena.live)
    ensures View(arena, Some(p)) == Data(bytes)
  {
    bytes := match p case Borrowed(b) => b case Heap(a) => arena.live[a];
  }

  /** What packing x has left: the header in buffer1 and the overflow behind buffer2. */
  ghost predicate Holds(codec: Codec, x: PyObject, arena: Arena, live: map<nat, seq<byte>>,
                        buffer1: MessageBuffer, buffer2: Pointer)
    reads arena, buffer1, buffer1.prefix
  {
    var p := Messages.Pack(codec, x);
    && p.Packed? && buffer1.Valid() && buffer1.Contents() == p.message
    && Usable(arena, buffer2, buffer1.header.freeBuffer)
    && View(arena, Some(buffer2)) == (if p.overflow.Some? then Data(p.overflow.value) else Null)
    && (buffer2.Heap? <==> buffer1.header.freeBuffer)
    && Without(arena.live, buffer2) == live
  }

  /** The start of every send: pack, and send the header. */
  method StartSend(codec: Codec, x: PyObject, arena: Arena, wire: Wire)
    returns (buffer1: MessageBuffer, buffer2: Pointer, aborted: bool)
    requires arena.Valid()
    modifies arena, wire
    ensures arena.Valid() && fresh(buffer1) && fresh(buffer1.prefix)
    ensures aborted <==> Messages.Pack(codec, x).Aborts?
    ensures aborted ==> arena.live == old(arena.live) && wire.frames == old(wire.frames)
    ensures !aborted ==>
      && Holds(codec, x, arena, old(arena.live), buffer1, buffer2)
      && wire.frames == old(wire.frames) + [Head(Messages.Pack(codec, x).message)]
  {
    buffer1 := new MessageBuffer();
    buffer2, aborted := buffer1.Pack(codec, x, arena, NullPtr);
    if !aborted {
      wire.Send(Head(Message(buffer1.header, buffer1.prefix[..buffer1.header.bytesInPrefix])));
    }
  }

  /** The end of every send: the overflow, if the header announced one; then its buffer is released. */
  method FinishSend(codec: Codec, ghost x: PyObject, arena: Arena, wire: Wire, buffer1: MessageBuffer, buffer2: Pointer,
                    ghost live: map<nat, seq<byte>>)
    returns (outcome: SendOutcome)
    requires arena.Valid() && Holds(codec, x, arena, live, buffer1, buffer2)
    modifies arena, wire
    ensures arena.Valid() && arena.live == live
    ensures var t := Transmitted(codec, x);
      outcome == t.outcome && t.frames != [] && wire.frames == old(wire.frames) + t.frames[1..]
  {
    outcome := Sent;
    var second := buffer1.header.bytesInSecondMessage;
    if second < 0 {
      outcome := MpiError;
    } else if second > 0 {
      var bytes := Read(arena, buffer2);
      wire.Send(Body(bytes[..second]));
    }
    var cleared := buffer1.MessageFree(arena, buffer2);
  }

  /** pyMPI_send: the header, then as much of the overflow as the header announces, and the overflow buffer is released
      again; also where the length does not fit the header. */
  method PyMpiSend(codec: Codec, x: PyObject, arena: Arena, wire: Wire) returns (outcome: SendOutcome)
    requires arena.Valid()
    modifies arena, wire
    ensures arena.Valid() && arena.live == old(arena.live)
    ensures outcome == Transmitted(codec, x).outcome
    ensures outcome != Aborted ==> wire.frames == old(wire.frames) + Transmitted(codec, x).frames
  {
    var buffer1, buffer2, aborted := StartSend(codec, x, arena, wire);
    if aborted { return Aborted; }
    outcome := FinishSend(codec, x, arena, wire, buffer1, buffer2, old(arena.live));
    HeadThenRest(Transmitted(codec, x).frames, old(wire.frames));
  }

  lemma HeadThenRest(fs: seq<Frame>, before: seq<Frame>)
    requires fs != []
    ensures before + [fs[0]] + fs[1..] == before + fs
  {
    assert fs == [fs[0]] + fs[1..];
  }

  /** Receives a body into a buffer of the announced size, which the header is then made to own. */
  method ReceiveBody(buffer1: MessageBuffer, arena: Arena, bytes: seq<byte>) returns (buffer2: Pointer)
    requires arena.Valid() && buffer1.Valid() && |bytes| == buffer1.header.bytesInSecondMessage
    modifies buffer1, arena
    ensures arena.Valid() && buffer1.Valid() && buffer1.Contents() == Freeable(old(buffer1.Contents()))
    ensures buffer2.Heap? && buffer2.address !in old(arena.live)
    ensures arena.live == old(arena.live)[buffer2.address := bytes]
  {
    var p := arena.Malloc(buffer1.header.bytesInSecondMessage);
    arena.Write(p, bytes);
    assert arena.live[p] == bytes;
    buffer2 := Heap(p);
    buffer1.header := buffer1.header.(freeBuffer := true);
  }

  /** The end of every blocking receive: buffer1 holds a header; a body is received if it announces one, into a
      buffer that the unpacker then owns. `fs` are the frames of a message as some send left them. */
  method ReceiveRest(codec: Codec, buffer1: MessageBuffer, arena: Arena, wire: Wire, ghost fs: seq<Frame>,
                     ghost rest: seq<Frame>, headStatus: Status)
    returns (result: Unpacked, status: Status)
    requires arena.Valid() && exists x :: fs == Transmitted(codec, x).frames && fs != []
    requires buffer1.Valid() && buffer1.Contents() == fs[0].message && wire.frames == fs[1..] + rest
    requires headStatus == Of(wire.source, wire.tag)
    modifies buffer1, arena, wire
    ensures result == Received(codec, fs) && wire.frames == rest && status == headStatus
    ensures arena.Valid() && (!result.Faults? ==> arena.live == old(arena.live))
  {
    status := headStatus;
    var buffer2 := NullPtr;
    var second := buffer1.header.bytesInSecondMessage;
    if second < 0 { return Faults, status; }
    if second != 0 {
      var body;
      body, status := wire.Receive();
      buffer2 := ReceiveBody(buffer1, arena, body.bytes);
    }
    assert View(arena, Some(buffer2)) == Arrived(fs);
    result, buffer2 := buffer1.Unpack(codec, arena, Some(buffer2));
  }

  /** The start of every blocking receive: the header. */
  method ReceiveHead(wire: Wire) returns (buffer1: MessageBuffer, status: Status)
    requires wire.frames != [] && wire.frames[0].Head? && Whole(wire.frames[0].message)
    modifies wire
    ensures fresh(buffer1) && fresh(buffer1.prefix) && buffer1.Valid()
    ensures buffer1.Contents() == old(wire.frames)[0].message && wire.frames == old(wire.frames)[1..]
    ensures status == Of(wire.source, wire.tag)
  {
    buffer1 := new MessageBuffer();
    var head;
    head, status := wire.Receive();
    buffer1.Fill(head.message);
  }

  /** pyMPI_recv on a wire that starts with the frames that a send of x put there: what it returns, and the status. */
  method PyMpiRecv(codec: Codec, arena: Arena, wire: Wire, ghost x: PyObject, ghost rest: seq<Frame>)
    returns (result: Unpacked, status: Status)
    requires arena.Valid() && Transmitted(codec, x).outcome != Aborted
    requires wire.frames == Transmitted(codec, x).frames + rest
    modifies arena, wire
    ensures result == Received(codec, Transmitted(codec, x).frames)
    ensures Faithful(codec) && Sendable(codec, x) ==> result == Value(x)
    ensures wire.frames == rest && status == Of(wire.source, wire.tag)
    ensures arena.Valid() && (!result.Faults? ==> arena.live == old(arena.live))
  {
    if Faithful(codec) && Sendable(codec, x) {
      SendableArrives(codec, x);
    }
    var buffer1;
    buffer1, status := ReceiveHead(wire);
    result, status := ReceiveRest(codec, buffer1, arena, wire, Transmitted(codec, x).frames, rest, status);
  }

  /** The sending half of an exchange, and the header of the other half. */
  method Exchange(codec: Codec, x: PyObject, arena: Arena, outgoing: Wire, incoming: Wire)
    returns (outcome: SendOutcome, recvBuffer1: MessageBuffer, status: Status)
    requires arena.Valid() && outgoing != incoming
    requires incoming.frames != [] && incoming.frames[0].Head? && Whole(incoming.frames[0].message)
    modifies arena, outgoing, incoming
    ensures outcome == Transmitted(codec, x).outcome
    ensures outgoing.frames == old(outgoing.frames) + Transmitted(codec, x).frames
    ensures incoming.frames == if outcome == Aborted then old(incoming.frames) else old(incoming.frames)[1..]
    ensures fresh(recvBuffer1) && fresh(recvBuffer1.prefix) && recvBuffer1.Valid()
    ensures outcome != Aborted ==>
      recvBuffer1.Contents() == old(incoming.frames)[0].message && status == Of(incoming.source, incoming.tag)
    ensures arena.Valid() && arena.live == old(arena.live)
  {
    var sendBuffer1, sendBuffer2, aborted := StartSend(codec, x, arena, outgoing);
    if aborted {
      recvBuffer1 := new MessageBuffer();
      return Aborted, recvBuffer1, Empty;
    }
    recvBuffer1, status := ReceiveHead(incoming);
    outcome := FinishSend(codec, x, arena, outgoing, sendBuffer1, sendBuffer2, old(arena.live));
    HeadThenRest(Transmitted(codec, x).frames, old(outgoing.frames));
  }

  /** pyMPI_message_sendrecv, given that the frames of y, as some send left them, are what arrives. Each side's header
      goes out before either body, and the send buffer is released as soon as its body has been sent. If that fails,
      y's body stays where it is. */
  method SendRecv(codec: Codec, x: PyObject, arena: Arena, outgoing: Wire, incoming: Wire,
                  ghost y: PyObject, ghost rest: seq<Frame>)
    returns (outcome: SendOutcome, result: Unpacked, status: Status)
    requires arena.Valid() && Transmitted(codec, y).outcome != Aborted
    requires outgoing != incoming && incoming.frames == Transmitted(codec, y).frames + rest
    modifies arena, outgoing, incoming
    ensures outcome == Transmitted(codec, x).outcome
    ensures outgoing.frames == old(outgoing.frames) + Transmitted(codec, x).frames
    ensures outcome == Aborted ==> incoming.frames == old(incoming.frames)
    ensures outcome == MpiError ==> incoming.frames == Transmitted(codec, y).frames[1..] + rest
    ensures outcome == Sent ==>
      && result == Received(codec, Transmitted(codec, y).frames)
      && (Faithful(codec) && Sendable(codec, y) ==> result == Value(y))
      && incoming.frames == rest && status == Of(incoming.source, incoming.tag)
    ensures arena.Valid() && (outcome != Sent || !result.Faults? ==> arena.live == old(arena.live))
  {
    if Faithful(codec) && Sendable(codec, y) {
      SendableArrives(codec, y);
    }
    result := Raises;
    var recvBuffer1;
    outcome, recvBuffer1, status := Exchange(codec, x, arena, outgoing, incoming);
    if outcome == Sent {
      result, status := ReceiveRest(codec, recvBuffer1, arena, incoming, Transmitted(codec, y).frames, rest, status);
    }
  }

  /** The frames that the root hands to its successive MPI_Bcast calls. It decides on the second call by looking at
      buffer2; MPI refuses a negative size. */
  function Broadcast(codec: Codec, x: PyObject): (t: Transmission)
    ensures Sendable(codec, x) ==> t == Transmission(Frames(codec, x), Sent)
    ensures t.frames != [] ==> t.frames[0].Head? && Whole(t.frames[0].message)
    ensures t.frames == [] <==> t.outcome == Aborted
    ensures t.outcome == MpiError <==> t.frames != [] && t.frames[0].message.header.bytesInSecondMessage < 0
    ensures t.outcome == Sent ==> |t.frames| == RootCalls(codec, x)
    ensures |t.frames| <= 2 && (|t.frames| == 2 ==> t.frames[1].Body?)
    ensures t.outcome != Aborted && t.frames[0].message.header.bytesInSecondMessage > 0 ==>
      |t.frames| == 2 && |t.frames[1].bytes| == t.frames[0].message.header.bytesInSecondMessage
  {
    match Pack(codec, x)
    case Aborts => Transmission([], Aborted)
    case Packed(m, overflow) =>
      var second := m.header.bytesInSecondMessage;
      assert overflow.Some? && second == |overflow.value| ==> overflow.value[..second] == overflow.value;
      if overflow.None? then Transmission([Head(m)], Sent)
      else if second < 0 then Transmission([Head(m)], MpiError)
      else Transmission([Head(m), Body(overflow.value[..second])], Sent)
  }

  /** The root's side of bcast. */
  method BcastRoot(codec: Codec, message: PyObject, arena: Arena) returns (outcome: SendOutcome, calls: seq<Frame>)
    requires arena.Valid()
    modifies arena
    ensures arena.Valid() && arena.live == old(arena.live)
    ensures Transmission(calls, outcome) == Broadcast(codec, message)
    ensures outcome == Sent ==> |calls| == RootCalls(codec, message)
  {
    var buffer1 := new MessageBuffer();
    var buffer2, aborted := buffer1.Pack(codec, message, arena, NullPtr);
    if aborted { return Aborted, []; }
    calls := [Head(Message(buffer1.header, buffer1.prefix[..buffer1.header.bytesInPrefix]))];
    outcome := Sent;
    if buffer2 != NullPtr {
      var second := buffer1.header.bytesInSecondMessage;
      if second < 0 {
        outcome := MpiError;
      } else {
        var bytes := Read(arena, buffer2);
        calls := calls + [Body(bytes[..second])];
      }
    }
    buffer2 := buffer1.MessageFree(arena, buffer2);
  }

  /** The other ranks' side: they decide on the second call by looking at the header they received. */
  method BcastSlave(codec: Codec, arena: Arena, calls: seq<Frame>, ghost message: PyObject)
    returns (result: Unpacked, used: nat)
    requires arena.Valid() && calls == Broadcast(codec, message).frames && calls != []
    modifies arena
    ensures 1 <= used <= |calls| && result == Received(codec, calls[..used])
    ensures !result.Faults? ==> used == SlaveCalls(codec, message)
    ensures Faithful(codec) && Sendable(codec, message) ==> result == Value(message) && used == |calls|
    ensures arena.Valid() && (!result.Faults? ==> arena.live == old(arena.live))
  {
    if Faithful(codec) && Sendable(codec, message) {
      SendableArrives(codec, message);
    }
    var buffer1 := new MessageBuffer();
    var buffer2 := NullPtr;
    buffer1.Fill(calls[0].message);
    used := 1;
    var second := buffer1.header.bytesInSecondMessage;
    if second < 0 { return Faults, used; }
    if second != 0 {
      used := 2;
      buffer2 := ReceiveBody(buffer1, arena, calls[1].bytes);
    }
    assert |calls| == 2 ==> calls[..2] == calls;
    assert View(arena, Some(buffer2)) == Arrived(calls[..used]);
    result, buffer2 := buffer1.Unpack(codec, arena, Some(buffer2));
  }

  /** How many MPI_Bcast calls the root makes, and how many everybody else makes. */
  function RootCalls(codec: Codec, x: PyObject): nat {
    match Pack(codec, x)
    case Packed(_, overflow) => if overflow.Some? then 2 else 1
    case Aborts => 0
  }

  function SlaveCalls(codec: Codec, x: PyObject): nat {
    match Pack(codec, x)
    case Packed(m, _) => if m.header.bytesInSecondMessage != 0 then 2 else 1
    case Aborts => 0
  }

  /** The calls match for everything whose length fits an int. Beyond that they come apart exactly when
      a string's length wraps to zero: the root still holds its overflow pointer. */
  lemma BcastCallsMatch(codec: Codec, x: PyObject)
    ensures Sendable(codec, x) ==> RootCalls(codec, x) == SlaveCalls(codec, x) == |Frames(codec, x)|
    ensures x.PyStr? ==>
      (RootCalls(codec, x) == SlaveCalls(codec, x) <==> |x.bytes| == 0 || |x.bytes| % 0x1_0000_0000 != 0)
  {
    if x.PyStr? && |x.bytes| > PREFIX_CHARS {
      assert ToCInt(|x.bytes|) == 0 <==> |x.bytes| % 0x1_0000_0000 == 0;
    }
  }
}
