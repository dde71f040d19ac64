/** How a Python object becomes a fixed-size first frame plus an optional second one, and back. */
module Messages {
  import opened Folds

  newtype byte = x: int | 0 <= x < 256

  /** Python values, split the way the packer tells them apart. Floats are their bit patterns. */
  datatype PyObject =
    | PyNone
    | PyInt(value: int)
    | PyFloat(bits: int)
    | PyStr(bytes: seq<byte>)
    | PyList(items: seq<PyObject>)
    | PyTuple(fields: seq<PyObject>)
    | PyOther(id: nat)

  /** cPickle.dumps and cPickle.loads. */
  datatype Codec = Codec(dumps: PyObject -> seq<byte>, loads: seq<byte> -> Option<PyObject>)

  ghost predicate Faithful(codec: Codec) {
    forall x :: codec.loads(codec.dumps(x)) == Some(x)
  }

  datatype Protocol = AsLong | AsDouble | AsString | AsNumpy | AsNumarray | AsNumeric | AsPickle

  datatype Header = Header(doublePayload: int, longPayload: int, bytesInSecondMessage: int,
                           messageType: Protocol, freeBuffer: bool, bytesInPrefix: nat)

  /** The eager limit of 512 bytes less the 32 bytes of the header. */
  const PREFIX_CHARS := 480
  const INT_MAX := 0x7fff_ffff

  /** What is stored when a number is assigned to a 32-bit C int. */
  function ToCInt(n: int): (r: int)
    ensures -INT_MAX - 1 <= n <= INT_MAX <==> r == n
    ensures -INT_MAX - 1 <= r <= INT_MAX
  {
    var low := n % 0x1_0000_0000;
    if low <= INT_MAX then low else low - 0x1_0000_0000
  }

  /** The first frame: the header and the prefix bytes it declares. */
  datatype Message = Message(header: Header, prefix: seq<byte>)

  datatype Frame = Head(message: Message) | Body(bytes: seq<byte>)

  /** The outcome of packing: the first frame and the bytes buffer2 points at (None for a null pointer).
      Aborts: an overflow buffer of negative size was asked for. */
  datatype Packed = Packed(message: Message, overflow: Option<seq<byte>>) | Aborts

  /** The overflow pointer says what the header says: it is non-null just when a second frame is announced,
      and then it holds that many bytes. */
  predicate Consistent(p: Packed) {
    && p.Packed?
    && (p.overflow.Some? <==> p.message.header.bytesInSecondMessage > 0)
    && (p.overflow.Some? ==> |p.overflow.value| == p.message.header.bytesInSecondMessage)
    && p.message.header.bytesInSecondMessage >= 0
  }

  function Pack(codec: Codec, x: PyObject): (p: Packed)
    ensures p.Packed? && p.message.header.bytesInSecondMessage > 0 ==>
      p.overflow.Some? && |p.overflow.value| >= p.message.header.bytesInSecondMessage
    ensures PayloadSize(codec, x) <= INT_MAX ==> Consistent(p)
    ensures x.PyStr? && PayloadSize(codec, x) > INT_MAX ==> !Consistent(p)
  {
    match x
    case PyInt(i) => Packed(Message(Header(0, i, 0, AsLong, false, 0), []), None)
    case PyFloat(d) => Packed(Message(Header(d, 0, 0, AsDouble, false, 0), []), None)
    case PyStr(s) =>
      if |s| <= PREFIX_CHARS then Packed(Message(Header(0, 0, 0, AsString, false, |s|), s), None)
      else Packed(Message(Header(0, 0, ToCInt(|s|), AsString, false, 0), []), Some(s))
    case _ =>
      var pickled := codec.dumps(x);
      var n := ToCInt(|pickled|);
      if n < 0 then Aborts
      else if n <= PREFIX_CHARS then Packed(Message(Header(0, 0, 0, AsPickle, false, n), pickled[..n]), None)
      else Packed(Message(Header(0, 0, n, AsPickle, true, 0), []), Some(pickled[..n]))
  }

  /** The second argument of the unpacker: a null char**, a pointer to a null char*, or to a buffer. */
  datatype Part2 = NoPointer | Null | Data(bytes: seq<byte>)

  /** Faults: a null pointer was followed. */
  datatype Unpacked = Value(content: PyObject) | Raises | Faults

  function Loads(codec: Codec, bytes: seq<byte>): Unpacked {
    match codec.loads(bytes)
    case Some(x) => Value(x)
    case None => Raises
  }

  function Unpack(codec: Codec, m: Message, part2: Part2): Unpacked {
    var second := m.header.bytesInSecondMessage;
    match m.header.messageType
    case AsLong => Value(PyInt(m.header.longPayload))
    case AsDouble => Value(PyFloat(m.header.doublePayload))
    case AsString =>
      if m.header.bytesInPrefix != 0 then
        (if m.header.bytesInPrefix <= |m.prefix| then Value(PyStr(m.prefix[..m.header.bytesInPrefix])) else Faults)
      else if part2.NoPointer? then Faults
      else if second < 0 then Raises
      else if second == 0 then Value(PyStr([]))
      else if part2.Data? && second <= |part2.bytes| then Value(PyStr(part2.bytes[..second]))
      else Faults
    case AsPickle =>
      if second != 0 then
        (if part2.Data? && 0 <= second <= |part2.bytes| then Loads(codec, part2.bytes[..second]) else Faults)
      else if m.header.bytesInPrefix <= |m.prefix| then Loads(codec, m.prefix[..m.header.bytesInPrefix])
      else Faults
    case _ => Raises
  }

  /** The number of bytes an object has to carry besides the header. */
  function PayloadSize(codec: Codec, x: PyObject): nat {
    match x
    case PyInt(_) => 0
    case PyFloat(_) => 0
    case PyStr(s) => |s|
    case _ => |codec.dumps(x)|
  }

  /** The guard a caller can check: the payload's length fits the header's int field. */
  predicate Sendable(codec: Codec, x: PyObject) {
    PayloadSize(codec, x) <= INT_MAX
  }

  /** The frames that a send puts on the wire, and a receive takes off it. */
  function Frames(codec: Codec, x: PyObject): (fs: seq<Frame>)
    requires Sendable(codec, x)
    ensures fs != [] && fs[0].Head? && fs[0].message == Pack(codec, x).message
    ensures if fs[0].message.header.bytesInSecondMessage == 0 then |fs| == 1
            else |fs| == 2 && fs[1].Body? && |fs[1].bytes| == fs[0].message.header.bytesInSecondMessage
    ensures Pack(codec, x).overflow == if |fs| == 2 then Some(fs[1].bytes) else None
  {
    var p := Pack(codec, x);
    [Head(p.message)] + if p.overflow.Some? then [Body(p.overflow.value)] else []
  }

  /** One frame exactly for what fits the eager limit. */
  lemma OneFrameIffEager(codec: Codec, x: PyObject)
    requires Sendable(codec, x)
    ensures |Frames(codec, x)| == 1 <==>
      match x
      case PyInt(_) => true
      case PyFloat(_) => true
      case PyStr(s) => |s| <= 512 - 32
      case _ => |codec.dumps(x)| <= 512 - 32
  {
  }

  /** What the unpacker is given for a message whose frames have all arrived. */
  function Arrived(fs: seq<Frame>): Part2 {
    if |fs| == 2 && fs[1].Body? then Data(fs[1].bytes) else Null
  }

  /** Pack then unpack is the identity, whichever frame the bytes travel in; and never both. */
  lemma RoundTrip(codec: Codec, x: PyObject)
    requires Faithful(codec) && Sendable(codec, x)
    ensures var fs := Frames(codec, x);
      && Unpack(codec, fs[0].message, Arrived(fs)) == Value(x)
      && (fs[0].message.header.bytesInPrefix == 0 || |fs| == 1)
      && fs[0].message.header.bytesInPrefix == |fs[0].message.prefix| <= PREFIX_CHARS
  {
    match x
    case PyStr(s) =>
      assert s[..|s|] == s;
    case PyInt(_) =>
    case PyFloat(_) =>
    case _ =>
      var pickled := codec.dumps(x);
      assert pickled[..|pickled|] == pickled;
  }

  datatype SendOutcome = Sent | MpiError | Aborted

  datatype Transmission = Transmission(frames: seq<Frame>, outcome: SendOutcome)

  /** What a send of any object puts on the wire, however the int field of the length wrapped: no more of the overflow
      than the header says, and an error from MPI, after the header has gone out, if that is negative. */
  function Transmitted(codec: Codec, x: PyObject): (t: Transmission)
    ensures t.frames != [] ==> t.frames[0].Head? && Whole(t.frames[0].message)
    ensures t.frames == [] <==> t.outcome == Aborted
    ensures t.outcome == MpiError <==> t.frames != [] && t.frames[0].message.header.bytesInSecondMessage < 0
    ensures t.outcome != Aborted ==> |t.frames| == if t.frames[0].message.header.bytesInSecondMessage > 0 then 2 else 1
    ensures |t.frames| == 2 ==>
      t.frames[1].Body? && |t.frames[1].bytes| == t.frames[0].message.header.bytesInSecondMessage
  {
    match Pack(codec, x)
    case Aborts => Transmission([], Aborted)
    case Packed(m, overflow) =>
      var second := m.header.bytesInSecondMessage;
      if second > 0 then Transmission([Head(m), Body(overflow.value[..second])], Sent)
      else Transmission([Head(m)], if second < 0 then MpiError else Sent)
  }

  /** The prefix is as long as the header says, and fits. */
  predicate Whole(m: Message) {
    m.header.bytesInPrefix == |m.prefix| <= PREFIX_CHARS
  }

  /** What a blocking receive returns for the frames of one message. A negative length makes it ask for a buffer of
      that size and trip over the null pointer. */
  function Received(codec: Codec, fs: seq<Frame>): Unpacked
    requires fs != [] && fs[0].Head?
  {
    var second := fs[0].message.header.bytesInSecondMessage;
    if second < 0 || (second > 0 && !(|fs| == 2 && fs[1].Body? && |fs[1].bytes| == second)) then Faults
    else Unpack(codec, fs[0].message, Arrived(fs))
  }

  /** Where the length fits, that is the round trip. */
  lemma SendableArrives(codec: Codec, x: PyObject)
    requires Faithful(codec) && Sendable(codec, x)
    ensures Transmitted(codec, x) == Transmission(Frames(codec, x), Sent)
    ensures Received(codec, Frames(codec, x)) == Value(x)
  {
    RoundTrip(codec, x);
    var overflow := Pack(codec, x).overflow;
    assert overflow.Some? ==> overflow.value[..|overflow.value|] == overflow.value;
  }

  /** A string sent and received arrives intact if and only if its length fits a C int. */
  lemma StringRoundTripIff(codec: Codec, s: seq<byte>)
    ensures Transmitted(codec, PyStr(s)).outcome != Aborted
    ensures Received(codec, Transmitted(codec, PyStr(s)).frames) == Value(PyStr(s)) <==> |s| <= INT_MAX
  {
    var n := ToCInt(|s|);
    if |s| > PREFIX_CHARS && n > 0 {
      assert s[..n][..n] == s[..n];
      assert |s| <= INT_MAX ==> s[..n] == s;
    }
  }

  /** With a null second argument, as the request code passes for a message without a second frame,
      unpacking works for everything but the empty string, on which it follows the null pointer. */
  lemma NoPointerIff(codec: Codec, x: PyObject)
    requires Faithful(codec) && Sendable(codec, x) && |Frames(codec, x)| == 1
    ensures Unpack(codec, Frames(codec, x)[0].message, NoPointer) == if x == PyStr([]) then Faults else Value(x)
  {
    RoundTrip(codec, x);
  }
}
