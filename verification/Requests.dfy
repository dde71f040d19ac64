/** A receive request: a header receive posted at once, a body receive posted when the header turns out to
    announce one, and a caller that polls and waits in any order. */
module Requests {
  import opened Folds
  import opened Messages
  import opened Buffers

  /** The message this request is matched with, and how much of it has arrived. */
  datatype Mail = Mail(codec: Codec, content: PyObject, source: nat, tag: nat, headHere: bool, bodyHere: bool)

  ghost predicate ValidMail(m: Mail) {
    && Faithful(m.codec) && Sendable(m.codec, m.content)
    && (m.bodyHere ==> m.headHere && |Frames(m.codec, m.content)| == 2)
  }

  /** The fields of the request object; a false `...Active` is MPI_REQUEST_NULL. `bodyPosts` lists the source and
      tag of every body receive posted so far; `filled` says that MPI has written the body to the buffer. */
  datatype Fields = Fields(descriptionActive: bool, bufferActive: bool, buffer: bool, filled: bool,
                           firstBufMsg: Option<Messages.Message>, status: Status, posted: Option<PyObject>,
                           faulted: bool, bodyPosts: seq<Status>)

  const FRESH := Fields(true, false, false, false, None, Empty, None, false, [])

  // ---------------------------------------------------------------- MPI on the two handles

  /** MPI_Test: a null handle is ready with an empty status; one that is not ready leaves the status undefined. */
  function TestDescription(f: Fields, m: Mail, junk: Status): (r: (Fields, bool))
    requires Sendable(m.codec, m.content)
  {
    if !f.descriptionActive then (f.(status := Empty), true)
    else if m.headHere then (DescriptionDone(f, m), true)
    else (f.(status := junk), false)
  }

  function DescriptionDone(f: Fields, m: Mail): Fields
    requires Sendable(m.codec, m.content)
  {
    f.(descriptionActive := false, status := Of(m.source, m.tag),
       firstBufMsg := Some(Frames(m.codec, m.content)[0].message))
  }

  function TestBuffer(f: Fields, m: Mail, junk: Status): (r: (Fields, bool)) {
    if !f.bufferActive then (f.(status := Empty), true)
    else if m.bodyHere then (f.(bufferActive := false, filled := true, status := Of(m.source, m.tag)), true)
    else (f.(status := junk), false)
  }

  // ---------------------------------------------------------------- the methods of the request

  function Settle(f: Fields, u: Unpacked): Fields {
    match u
    case Value(x) => f.(posted := Some(x))
    case Raises => f
    case Faults => f.(faulted := true)
  }

  /** request_second_message */
  function SecondMessage(f: Fields, m: Mail): Fields {
    if f.posted.Some? || f.firstBufMsg.None? then f
    else if f.firstBufMsg.value.header.bytesInSecondMessage == 0 then
      Settle(f, Unpack(m.codec, f.firstBufMsg.value, NoPointer))
        .(firstBufMsg := Some(AfterUnpack(f.firstBufMsg.value)))
    else if !f.buffer then
      f.(buffer := true, bufferActive := true, bodyPosts := f.bodyPosts + [f.status],
         firstBufMsg := Some(Freeable(f.firstBufMsg.value)))
    else f
  }

  /** Unpacking the header and the buffer, which is released. */
  function UnpackBody(f: Fields, m: Mail): Fields
    requires Sendable(m.codec, m.content)
  {
    var fs := Frames(m.codec, m.content);
    if f.firstBufMsg.None? then f
    else Settle(f, Unpack(m.codec, f.firstBufMsg.value, if f.filled then Arrived(fs) else Null))
           .(buffer := false, firstBufMsg := Some(AfterUnpack(f.firstBufMsg.value)))
  }

  /** request_test on a receive, with the flag it reports. */
  function Test(f: Fields, m: Mail, junk: Status, junk': Status): (Fields, bool)
    requires Sendable(m.codec, m.content)
  {
    if f.posted.Some? then (f, true)
    else
      var (f1, ready1) := TestDescription(f, m, junk);
      if ready1 then PollFurther(f1, m, junk') else (f1, false)
  }

  /** The rest of a poll, once the header is here. */
  function PollFurther(f: Fields, m: Mail, junk: Status): (Fields, bool)
    requires Sendable(m.codec, m.content)
  {
    var f2 := SecondMessage(f, m);
    if f2.posted.Some? || f2.faulted then (f2, f2.posted.Some?)
    else
      var (f3, ready3) := TestBuffer(f2, m, junk);
      if ready3 then (UnpackBody(f3, m), true) else (f3, false)
  }

  /** request_wait on a receive: it returns once the frames have arrived. */
  function Wait(f: Fields, m: Mail): Fields
    requires Sendable(m.codec, m.content)
  {
    if f.posted.Some? then f
    else
      WaitFurther(if f.descriptionActive then DescriptionDone(f, m) else f, m)
  }

  /** The rest of a wait, once the header is here. */
  function WaitFurther(f: Fields, m: Mail): Fields
    requires Sendable(m.codec, m.content)
  {
    var f2 := SecondMessage(f, m);
    if f2.posted.Some? || f2.faulted then f2
    else
      var f3 := if f2.bufferActive
                then f2.(bufferActive := false, filled := true, status := Of(m.source, m.tag)) else f2;
      UnpackBody(f3, m)
  }

  /** The test_cancelled attribute tests the body handle, with a status of its own. */
  function TestCancelled(f: Fields, m: Mail): Fields {
    if f.bufferActive && m.bodyHere then f.(bufferActive := false, filled := true) else f
  }

  /** What can happen to a request. A truth test and the ready attribute poll once unless the message is there;
      the message and status attributes wait unless the message is there. */
  datatype Event =
    | HeadArrives
    | BodyArrives
    | Poll(junk: Status, junk': Status)
    | TruthTest(junk: Status, junk': Status)
    | WaitFor
    | Message
    | GetStatus
    | Cancelled

  function Happen(f: Fields, m: Mail, e: Event): (Fields, Mail)
    requires Sendable(m.codec, m.content)
  {
    var long := |Frames(m.codec, m.content)| == 2;
    var m' := m.(headHere := true, bodyHere := long);
    if f.faulted then (f, m)
    else match e
    case HeadArrives => (f, m.(headHere := true))
    case BodyArrives => (f, if m.headHere && long then m.(bodyHere := true) else m)
    case Poll(j, j') => (Test(f, m, j, j').0, m)
    case TruthTest(j, j') => if f.posted.Some? then (f, m) else (Test(f, m, j, j').0, m)
    case WaitFor => if f.posted.Some? then (f, m) else (Wait(f, m), m')
    case Message => if f.posted.Some? then (f, m) else (Wait(f, m), m')
    case GetStatus => if f.posted.Some? then (f, m) else (Wait(f, m), m')
    case Cancelled => (TestCancelled(f, m), m)
  }

  function Run(f: Fields, m: Mail, events: seq<Event>): (Fields, Mail)
    requires Sendable(m.codec, m.content)
    ensures Run(f, m, events).1
         == m.(headHere := Run(f, m, events).1.headHere, bodyHere := Run(f, m, events).1.bodyHere)
    decreases |events|
  {
    if events == [] then (f, m)
    else
      var (f', m') := Run(f, m, events[..|events| - 1]);
      Happen(f', m', events[|events| - 1])
  }

  // ---------------------------------------------------------------- invariant

  /** A request is waiting for its header, or for its body, or has its message, or has followed a null pointer. */
  ghost predicate Inv(f: Fields, m: Mail)
    requires Sendable(m.codec, m.content)
  {
    var fs := Frames(m.codec, m.content);
    && |f.bodyPosts| <= 1 && (f.bodyPosts != [] ==> f.bodyPosts[0] == Of(m.source, m.tag) && |fs| == 2)
    && if f.faulted then
         m.content == PyStr([]) && f.posted == None && !f.descriptionActive
       else if f.posted.Some? then
         f.posted == Some(m.content) && !f.bufferActive && !f.buffer && !f.descriptionActive && m.headHere
         && (|fs| == 2 ==> m.bodyHere && |f.bodyPosts| == 1)
       else if f.descriptionActive then
         !f.bufferActive && !f.buffer && !f.filled && f.bodyPosts == [] && f.firstBufMsg == None
       else
         |fs| == 2 && f.buffer && m.headHere && |f.bodyPosts| == 1 && f.firstBufMsg == Some(Freeable(fs[0].message))
         && (f.filled ==> m.bodyHere) && f.bufferActive == !f.filled
  }

  lemma TestInv(f: Fields, m: Mail, j: Status, j': Status)
    requires ValidMail(m) && Inv(f, m) && !f.faulted
    ensures Inv(Test(f, m, j, j').0, m)
  {
    RoundTrip(m.codec, m.content);
    if |Frames(m.codec, m.content)| == 1 {
      NoPointerIff(m.codec, m.content);
    }
  }

  lemma WaitInv(f: Fields, m: Mail)
    requires ValidMail(m) && Inv(f, m) && !f.faulted
    ensures Inv(Wait(f, m), m.(headHere := true, bodyHere := |Frames(m.codec, m.content)| == 2))
  {
    RoundTrip(m.codec, m.content);
    if |Frames(m.codec, m.content)| == 1 {
      NoPointerIff(m.codec, m.content);
    }
  }

  lemma HappenInv(f: Fields, m: Mail, e: Event)
    requires ValidMail(m) && Inv(f, m)
    ensures var (f', m') := Happen(f, m, e); ValidMail(m') && Inv(f', m')
  {
    if !f.faulted {
      match e
      case Poll(j, j') => TestInv(f, m, j, j');
      case TruthTest(j, j') => TestInv(f, m, j, j');
      case WaitFor => WaitInv(f, m);
      case Message => WaitInv(f, m);
      case GetStatus => WaitInv(f, m);
      case _ =>
    }
  }

  lemma {:induction false} RunInv(m: Mail, events: seq<Event>)
    requires ValidMail(m)
    ensures var (f', m') := Run(FRESH, m, events); ValidMail(m') && Inv(f', m')
    decreases |events|
  {
    if events != [] {
      RunInv(m, events[..|events| - 1]);
      var (f', m') := Run(FRESH, m, events[..|events| - 1]);
      HappenInv(f', m', events[|events| - 1]);
    }
  }

  // ---------------------------------------------------------------- theorems

  /** Everything the sender put on the wire for this message has arrived. */
  predicate Here(m: Mail)
    requires Sendable(m.codec, m.content)
  {
    m.headHere && (|Frames(m.codec, m.content)| == 2 ==> m.bodyHere)
  }

  /** Under any mix of polls, truth tests, waits, attribute reads and arrivals, the request is one atomic receive:
      it holds nothing, or it holds the message that was sent, and then all of it has arrived; the body receive
      has been posted at most once, narrowed to the true sender and tag; and it goes wrong only on the empty
      string, which it never delivers. */
  lemma RequestIsAtomicReceive(m: Mail, events: seq<Event>)
    requires ValidMail(m)
    ensures var (f, m') := Run(FRESH, m, events);
      && (f.posted == None || (f.posted == Some(m.content) && Here(m')))
      && |f.bodyPosts| <= 1 && (f.bodyPosts != [] ==> f.bodyPosts[0] == Of(m.source, m.tag))
      && (f.faulted ==> m.content == PyStr([]))
      && (m.content == PyStr([]) ==> f.posted == None)
  {
    RunInv(m, events);
    if m.content == PyStr([]) {
      NeverEmpty(m, events);
    }
  }

  lemma EmptyStep(f: Fields, m: Mail, e: Event)
    requires ValidMail(m) && Inv(f, m) && m.content == PyStr([]) && f.posted == None
    ensures Happen(f, m, e).0.posted == None
  {
    NoPointerIff(m.codec, m.content);
  }

  lemma {:induction false} NeverEmpty(m: Mail, events: seq<Event>)
    requires ValidMail(m) && m.content == PyStr([])
    ensures Run(FRESH, m, events).0.posted == None
    decreases |events|
  {
    if events != [] {
      NeverEmpty(m, events[..|events| - 1]);
      RunInv(m, events[..|events| - 1]);
      var (f, m') := Run(FRESH, m, events[..|events| - 1]);
      EmptyStep(f, m', events[|events| - 1]);
    }
  }

  /** Once the message is there nothing changes it, nor the status, nor any other field. */
  lemma {:induction false} PostedIsFinal(m: Mail, events: seq<Event>, later: seq<Event>)
    requires ValidMail(m) && Run(FRESH, m, events).0.posted.Some?
    ensures Run(FRESH, m, events + later).0 == Run(FRESH, m, events).0
    decreases |later|
  {
    if later == [] {
      assert events + later == events;
    } else {
      var earlier := later[..|later| - 1];
      PostedIsFinal(m, events, earlier);
      assert (events + later)[..|events + later| - 1] == events + earlier;
      RunInv(m, events + earlier);
    }
  }

  /** Whether test_cancelled, read now, uses up the completion of the body receive. */
  predicate Eats(f: Fields, m: Mail, e: Event) {
    e.Cancelled? && !f.faulted && f.bufferActive && m.bodyHere
  }

  /** Whether such a read was among the events of a run. */
  predicate Eaten(m: Mail, events: seq<Event>)
    requires Sendable(m.codec, m.content)
  {
    events != [] &&
    var last := |events| - 1;
    var (f, m') := Run(FRESH, m, events[..last]);
    Eaten(m, events[..last]) || Eats(f, m', events[last])
  }

  /** While the completion has not been used up: the status of a held message is right. */
  ghost predicate StatusTrue(f: Fields, m: Mail) {
    if f.posted.Some? then f.status == Of(m.source, m.tag) else !f.filled
  }

  lemma TestStatus(f: Fields, m: Mail, j: Status, j': Status)
    requires ValidMail(m) && Inv(f, m) && !f.faulted && StatusTrue(f, m)
    ensures StatusTrue(Test(f, m, j, j').0, m)
  {
    RoundTrip(m.codec, m.content);
  }

  lemma WaitStatus(f: Fields, m: Mail)
    requires ValidMail(m) && Inv(f, m) && !f.faulted && StatusTrue(f, m)
    ensures StatusTrue(Wait(f, m), m)
  {
    RoundTrip(m.codec, m.content);
  }

  lemma StatusStep(f: Fields, m: Mail, e: Event)
    requires ValidMail(m) && Inv(f, m) && StatusTrue(f, m) && !Eats(f, m, e)
    ensures StatusTrue(Happen(f, m, e).0, m)
  {
    if !f.faulted {
      match e
      case Poll(j, j') => TestStatus(f, m, j, j');
      case TruthTest(j, j') => TestStatus(f, m, j, j');
      case WaitFor => WaitStatus(f, m);
      case Message => WaitStatus(f, m);
      case GetStatus => WaitStatus(f, m);
      case _ =>
    }
  }

  /** The status of a completed receive names the true sender and tag, although every re-test of the finished header
      request blanks it and every unsuccessful test may scribble on it; unless test_cancelled was read at a moment
      when the body had arrived and had not been noticed yet. */
  lemma {:induction false} StatusNamesSender(m: Mail, events: seq<Event>)
    requires ValidMail(m) && !Eaten(m, events)
    ensures StatusTrue(Run(FRESH, m, events).0, m)
    decreases |events|
  {
    if events != [] {
      var earlier := events[..|events| - 1];
      StatusNamesSender(m, earlier);
      RunInv(m, earlier);
      StatusStep(Run(FRESH, m, earlier).0, Run(FRESH, m, earlier).1, events[|events| - 1]);
    }
  }

  /** What an unsuccessful test leaves in the status does not happen to be the right answer. */
  predicate Unlucky(m: Mail, e: Event) {
    (e.Poll? ==> e.junk != Of(m.source, m.tag) && e.junk' != Of(m.source, m.tag))
    && (e.TruthTest? ==> e.junk != Of(m.source, m.tag) && e.junk' != Of(m.source, m.tag))
  }

  /** While the body is awaited the status is not right, and once its completion has been used up it never will be. */
  ghost predicate StatusLost(f: Fields, m: Mail, eaten: bool) {
    && (f.posted.None? && f.buffer ==> f.status != Of(m.source, m.tag))
    && (eaten ==> f.status != Of(m.source, m.tag) && (f.posted.None? ==> f.filled))
  }

  lemma TestLost(f: Fields, m: Mail, j: Status, j': Status, eaten: bool)
    requires ValidMail(m) && Inv(f, m) && !f.faulted && StatusLost(f, m, eaten)
    requires j != Of(m.source, m.tag) && j' != Of(m.source, m.tag)
    ensures StatusLost(Test(f, m, j, j').0, m, eaten)
  {
    RoundTrip(m.codec, m.content);
  }

  lemma WaitLost(f: Fields, m: Mail, eaten: bool)
    requires ValidMail(m) && Inv(f, m) && !f.faulted && StatusLost(f, m, eaten)
    ensures StatusLost(Wait(f, m), m, eaten)
  {
    RoundTrip(m.codec, m.content);
  }

  lemma LostStep(f: Fields, m: Mail, e: Event, eaten: bool)
    requires ValidMail(m) && Inv(f, m) && StatusLost(f, m, eaten) && Unlucky(m, e)
    ensures StatusLost(Happen(f, m, e).0, m, eaten || Eats(f, m, e))
  {
    if !f.faulted {
      match e
      case Poll(j, j') => TestLost(f, m, j, j', eaten);
      case TruthTest(j, j') => TestLost(f, m, j, j', eaten);
      case WaitFor => WaitLost(f, m, eaten);
      case Message => WaitLost(f, m, eaten);
      case GetStatus => WaitLost(f, m, eaten);
      case _ =>
    }
  }

  lemma {:induction false} LostForGood(m: Mail, events: seq<Event>)
    requires ValidMail(m) && forall e :: e in events ==> Unlucky(m, e)
    ensures StatusLost(Run(FRESH, m, events).0, m, Eaten(m, events))
    decreases |events|
  {
    if events != [] {
      var last := |events| - 1;
      assert events[last] in events;
      LostForGood(m, events[..last]);
      RunInv(m, events[..last]);
      var (f, m') := Run(FRESH, m, events[..last]);
      LostStep(f, m', events[last], Eaten(m, events[..last]));
    }
  }

  lemma UnluckyStatusIff(m: Mail, events: seq<Event>)
    requires ValidMail(m) && forall e :: e in events ==> Unlucky(m, e)
    requires Run(FRESH, m, events).0.posted.Some?
    ensures Run(FRESH, m, events).0.status == Of(m.source, m.tag) <==> !Eaten(m, events)
  {
    LostForGood(m, events);
    if !Eaten(m, events) {
      StatusNamesSender(m, events);
    }
  }

  /** The same event, up to what an unsuccessful test leaves in the status. */
  predicate SameEvent(e: Event, e': Event) {
    e == e' || (e.Poll? && e'.Poll?) || (e.TruthTest? && e'.TruthTest?)
  }

  predicate SameButJunk(events: seq<Event>, events': seq<Event>) {
    |events| == |events'| && forall i :: 0 <= i < |events| ==> SameEvent(events[i], events'[i])
  }

  predicate SameButStatus(f: Fields, g: Fields) {
    g == f.(status := g.status)
  }

  lemma TestSame(f: Fields, g: Fields, m: Mail, j: Status, j': Status, k: Status, k': Status)
    requires ValidMail(m) && Inv(f, m) && !f.faulted && SameButStatus(f, g)
    ensures SameButStatus(Test(f, m, j, j').0, Test(g, m, k, k').0)
  {
  }

  lemma WaitSame(f: Fields, g: Fields, m: Mail)
    requires ValidMail(m) && Inv(f, m) && !f.faulted && SameButStatus(f, g)
    ensures SameButStatus(Wait(f, m), Wait(g, m))
  {
  }

  lemma StepSame(f: Fields, g: Fields, m: Mail, e: Event, e': Event)
    requires ValidMail(m) && Inv(f, m) && SameButStatus(f, g) && SameEvent(e, e')
    ensures SameButStatus(Happen(f, m, e).0, Happen(g, m, e').0) && Happen(f, m, e).1 == Happen(g, m, e').1
    ensures Eats(f, m, e) == Eats(g, m, e')
  {
    if !f.faulted {
      match e
      case Poll(j, j') => TestSame(f, g, m, j, j', e'.junk, e'.junk');
      case TruthTest(j, j') => TestSame(f, g, m, j, j', e'.junk, e'.junk');
      case WaitFor => WaitSame(f, g, m);
      case Message => WaitSame(f, g, m);
      case GetStatus => WaitSame(f, g, m);
      case _ =>
    }
  }

  lemma {:induction false} RunSame(m: Mail, events: seq<Event>, events': seq<Event>)
    requires ValidMail(m) && SameButJunk(events, events')
    ensures SameButStatus(Run(FRESH, m, events).0, Run(FRESH, m, events').0)
    ensures Run(FRESH, m, events).1 == Run(FRESH, m, events').1 && Eaten(m, events) == Eaten(m, events')
    decreases |events|
  {
    if events != [] {
      var last := |events| - 1;
      RunSame(m, events[..last], events'[..last]);
      RunInv(m, events[..last]);
      var (f, m') := Run(FRESH, m, events[..last]);
      var (g, _) := Run(FRESH, m, events'[..last]);
      StepSame(f, g, m', events[last], events'[last]);
    }
  }

  function Blanked(e: Event): Event {
    match e
    case Poll(_, _) => Poll(Empty, Empty)
    case TruthTest(_, _) => TruthTest(Empty, Empty)
    case _ => e
  }

  /** The status of a request that holds its message names the sender, whatever MPI leaves in the status after
      unsuccessful tests, if and only if test_cancelled was never read while the body receive was posted, the body had
      arrived, and no test had noticed. */
  lemma StatusRightIff(m: Mail, events: seq<Event>)
    requires ValidMail(m) && Run(FRESH, m, events).0.posted.Some?
    ensures !Eaten(m, events) <==>
      forall events' :: SameButJunk(events, events') ==> Run(FRESH, m, events').0.status == Of(m.source, m.tag)
  {
    if !Eaten(m, events) {
      forall events' | SameButJunk(events, events')
        ensures Run(FRESH, m, events').0.status == Of(m.source, m.tag)
      {
        RunSame(m, events, events');
        StatusNamesSender(m, events');
      }
    } else {
      var blanked := seq(|events|, i requires 0 <= i < |events| => Blanked(events[i]));
      assert SameButJunk(events, blanked);
      RunSame(m, events, blanked);
      assert forall e :: e in blanked ==> Unlucky(m, e);
      UnluckyStatusIff(m, blanked);
    }
  }

  /** Not a matter of one run: a failed test may leave the right answer, and then a wait keeps it. */
  lemma EatenButRight(m: Mail)
    requires ValidMail(m) && |Frames(m.codec, m.content)| == 2 && !m.headHere
    ensures var right := Of(m.source, m.tag);
            var events := [HeadArrives, Poll(right, right), BodyArrives, Cancelled, WaitFor];
      && Eaten(m, events)
      && Run(FRESH, m, events).0.posted == Some(m.content) && Run(FRESH, m, events).0.status == right
  {
    RoundTrip(m.codec, m.content);
    var right := Of(m.source, m.tag);
    var e2 := [HeadArrives, Poll(right, right)];
    var e3 := e2 + [BodyArrives];
    var e4 := e3 + [Cancelled];
    var events := [HeadArrives, Poll(right, right), BodyArrives, Cancelled, WaitFor];
    assert e4 + [WaitFor] == events && events[..4] == e4 && e4[..3] == e3;
    PollNarrows(m, right, right);
    RunNext(FRESH, m, e2, BodyArrives);
    RunNext(FRESH, m, e3, Cancelled);
    RunNext(FRESH, m, e4, WaitFor);
  }

  /** A poll after the header has arrived posts the body receive, narrowed. */
  lemma PollNarrows(m: Mail, j: Status, j': Status)
    requires ValidMail(m) && |Frames(m.codec, m.content)| == 2 && !m.headHere
    ensures var (f, m') := Run(FRESH, m, [HeadArrives, Poll(j, j')]);
      && f == Fields(false, true, true, false, Some(Freeable(Frames(m.codec, m.content)[0].message)), j', None, false,
                     [Of(m.source, m.tag)])
      && m' == m.(headHere := true)
  {
    assert [] + [HeadArrives] == [HeadArrives] && [HeadArrives] + [Poll(j, j')] == [HeadArrives, Poll(j, j')];
    RunNext(FRESH, m, [], HeadArrives);
    RunNext(FRESH, m, [HeadArrives], Poll(j, j'));
  }

  /** Reading test_cancelled when the body has just arrived uses up the body's completion; a later poll still
      delivers the message, with the empty status. */
  lemma CancelledBlanksStatus(m: Mail, j: Status, j': Status)
    requires ValidMail(m) && |Frames(m.codec, m.content)| == 2 && !m.headHere
    ensures var f := Run(FRESH, m, [HeadArrives, Poll(j, j'), BodyArrives, Cancelled, Poll(j, j')]).0;
      f.posted == Some(m.content) && f.status == Empty
  {
    RoundTrip(m.codec, m.content);
    var e2 := [HeadArrives, Poll(j, j')];
    var e4 := e2 + [BodyArrives] + [Cancelled];
    assert e4 + [Poll(j, j')] == [HeadArrives, Poll(j, j'), BodyArrives, Cancelled, Poll(j, j')];
    PollNarrows(m, j, j');
    RunNext(FRESH, m, e2, BodyArrives);
    RunNext(FRESH, m, e2 + [BodyArrives], Cancelled);
    RunNext(FRESH, m, e4, Poll(j, j'));
  }

  lemma RunNext(f: Fields, m: Mail, events: seq<Event>, e: Event)
    requires Sendable(m.codec, m.content)
    ensures var (f', m') := Run(f, m, events);
      Sendable(m'.codec, m'.content) && Run(f, m, events + [e]) == Happen(f', m', e)
  {
    assert (events + [e])[..|events + [e]| - 1] == events;
  }

  lemma WaitDelivers(f: Fields, m: Mail)
    requires ValidMail(m) && Inv(f, m) && m.content != PyStr([])
    ensures Wait(f, m).posted == Some(m.content)
  {
    HappenInv(f, m, WaitFor);
    RoundTrip(m.codec, m.content);
    if |Frames(m.codec, m.content)| == 1 {
      NoPointerIff(m.codec, m.content);
    }
  }

  lemma PollReports(f: Fields, m: Mail, j: Status, j': Status)
    requires ValidMail(m) && Inv(f, m) && m.content != PyStr([])
    ensures Test(f, m, j, j').1 <==> Here(m)
    ensures Test(f, m, j, j').1 <==> Test(f, m, j, j').0.posted == Some(m.content)
  {
    HappenInv(f, m, Poll(j, j'));
    RoundTrip(m.codec, m.content);
    if |Frames(m.codec, m.content)| == 1 {
      NoPointerIff(m.codec, m.content);
    }
  }

  /** A poll reports readiness exactly when the whole message has arrived, and then the message is there; a wait
      always leaves it there. The empty string excepted. */
  lemma PollAndWait(m: Mail, events: seq<Event>, j: Status, j': Status)
    requires ValidMail(m) && m.content != PyStr([])
    ensures var (f, m') := Run(FRESH, m, events);
      && (Test(f, m', j, j').1 <==> Here(m'))
      && (Test(f, m', j, j').1 <==> Test(f, m', j, j').0.posted == Some(m.content))
      && Wait(f, m').posted == Some(m.content)
  {
    RunInv(m, events);
    var (f, m') := Run(FRESH, m, events);
    PollReports(f, m', j, j');
    WaitDelivers(f, m');
  }

  /** What each event does to a request whose message is not the empty string, after any run: a poll or a truth test
      leaves the message there if and only if all of it has arrived; a wait, or reading the message or the status,
      always does; arrivals arrive and change nothing else; and test_cancelled neither delivers nor loses the
      message. */
  lemma EventsDeliver(m: Mail, events: seq<Event>, e: Event)
    requires ValidMail(m) && m.content != PyStr([])
    ensures var (f, m') := Run(FRESH, m, events);
            var (g, m'') := Happen(f, m', e);
            var long := |Frames(m.codec, m.content)| == 2;
      && (g.posted == None || g.posted == Some(m.content))
      && match e
         case Poll(_, _) => m'' == m' && (g.posted.Some? <==> Here(m'))
         case TruthTest(_, _) => m'' == m' && (g.posted.Some? <==> Here(m'))
         case WaitFor => g.posted.Some? && Here(m'')
         case Message => g.posted.Some? && Here(m'')
         case GetStatus => g.posted.Some? && Here(m'')
         case HeadArrives => g == f && m'' == m'.(headHere := true)
         case BodyArrives => g == f && m'' == m'.(bodyHere := m'.bodyHere || (m'.headHere && long))
         case Cancelled => g.posted == f.posted && m'' == m'
  {
    RunInv(m, events);
    var (f, m') := Run(FRESH, m, events);
    HappenInv(f, m', e);
    match e
    case Poll(j, j') => PollReports(f, m', j, j');
    case TruthTest(j, j') => PollReports(f, m', j, j');
    case WaitFor => WaitDelivers(f, m');
    case Message => WaitDelivers(f, m');
    case GetStatus => WaitDelivers(f, m');
    case _ =>
  }

  /** On the empty string the first look after its header has arrived follows the null pointer. */
  lemma EmptyStringFaults(m: Mail, j: Status, j': Status)
    requires ValidMail(m) && m.content == PyStr([])
    ensures Test(FRESH, m.(headHere := true), j, j').0.faulted && Wait(FRESH, m).faulted
  {
    NoPointerIff(m.codec, m.content);
  }
}
