/** The request object: the fields of Requests, kept in place over a header struct and an allocated buffer. */
module RequestObjects {
  import opened Folds
  import opened Messages
  import opened Buffers
  import opened Requests

  /** The request object itself. `mail` is MPI's side of it. */
  class Request {
    var descriptionActive: bool
    var bufferActive: bool
    var firstBufMsg: MessageBuffer
    var headHeld: bool
    var buffer: Pointer
    var filled: bool
    var status: Status
    var postedMessage: Option<PyObject>
    var faulted: bool
    var bodyPosts: seq<Status>
    var mail: Mail
    const arena: Arena

    ghost function Abs(): Fields
      requires firstBufMsg.Valid()
      reads this, firstBufMsg, firstBufMsg.prefix
    {
      Fields(descriptionActive, bufferActive, buffer != NullPtr, filled,
             if headHeld then Some(firstBufMsg.Contents()) else None, status, postedMessage, faulted, bodyPosts)
    }

    /** The request owns its buffer, which is big enough for the body and holds it once MPI has written it. */
    ghost predicate Sound()
      reads this, firstBufMsg, firstBufMsg.prefix, arena
    {
      && arena.Valid() && firstBufMsg.Valid() && ValidMail(mail) && !buffer.Borrowed?
      && var fs := Frames(mail.codec, mail.content);
         && (headHeld ==> firstBufMsg.Contents() == fs[0].message || firstBufMsg.Contents() == Freeable(fs[0].message))
         && (buffer.Heap? ==>
               && headHeld && buffer.address in arena.live && |fs| == 2 && firstBufMsg.header.freeBuffer
               && |arena.live[buffer.address]| == |fs[1].bytes|
               && (filled ==> arena.live[buffer.address] == fs[1].bytes))
    }

    ghost predicate Valid()
      reads this, firstBufMsg, firstBufMsg.prefix, arena
    {
      Sound() && Inv(Abs(), mail)
    }

    /** Everything else on the heap. */
    ghost function Others(): map<nat, seq<byte>>
      reads this, arena
    {
      Without(arena.live, buffer)
    }

    /** pyMPI_asynchronous_irecv */
    constructor (mail: Mail, arena: Arena)
      requires ValidMail(mail) && arena.Valid()
      ensures Valid() && this.mail == mail && this.arena == arena && Abs() == FRESH
      ensures fresh(firstBufMsg) && fresh(firstBufMsg.prefix)
      ensures Others() == arena.live
    {
      var first := new MessageBuffer();
      descriptionActive, bufferActive, headHeld, buffer, filled := true, false, false, NullPtr, false;
      firstBufMsg, status, postedMessage, faulted, bodyPosts := first, Empty, None, false, [];
      this.mail, this.arena := mail, arena;
    }

    /** MPI completes the header receive. */
    method CompleteDescription()
      requires Sound() && buffer == NullPtr
      modifies this`descriptionActive, this`status, this`headHeld, firstBufMsg, firstBufMsg.prefix
      ensures Sound() && headHeld && Abs() == DescriptionDone(old(Abs()), mail)
    {
      RoundTrip(mail.codec, mail.content);
      firstBufMsg.Fill(Frames(mail.codec, mail.content)[0].message);
      descriptionActive, status, headHeld := false, Of(mail.source, mail.tag), true;
    }

    /** MPI completes the body receive. */
    method CompleteBuffer()
      requires Sound() && buffer.Heap?
      modifies this`bufferActive, this`filled, arena
      ensures Sound() && Others() == old(Others())
      ensures Abs() == old(Abs()).(bufferActive := false, filled := true)
    {
      var body := Frames(mail.codec, mail.content)[1].bytes;
      arena.Write(buffer.address, body);
      assert arena.live[buffer.address] == body;
      bufferActive, filled := false, true;
    }

    /** The body receive is posted, narrowed to where the header came from. */
    method PostBody()
      requires Sound() && headHeld && buffer == NullPtr && firstBufMsg.header.bytesInSecondMessage != 0
      modifies this`buffer, this`filled, this`bufferActive, this`bodyPosts, firstBufMsg, arena
      ensures Sound() && Others() == old(Others()) && firstBufMsg.Contents() == Freeable(old(firstBufMsg.Contents()))
      ensures buffer.Heap? && bufferActive && !filled && bodyPosts == old(bodyPosts) + [status]
    {
      var p := arena.Malloc(firstBufMsg.header.bytesInSecondMessage);
      buffer, filled := Heap(p), false;
      firstBufMsg.header := firstBufMsg.header.(freeBuffer := true);
      bufferActive, bodyPosts := true, bodyPosts + [status];
    }

    /** request_second_message */
    method SecondMessage()
      requires Sound() && headHeld && (buffer == NullPtr ==> !filled)
      modifies this, firstBufMsg, arena
      ensures Sound() && firstBufMsg == old(firstBufMsg) && mail == old(mail) && headHeld && Others() == old(Others())
      ensures Abs() == Requests.SecondMessage(old(Abs()), mail)
    {
      if postedMessage.Some? { return; }
      if firstBufMsg.header.bytesInSecondMessage == 0 {
        var result, _ := firstBufMsg.Unpack(mail.codec, arena, None);
        Settle(result);
      } else if buffer == NullPtr {
        PostBody();
      }
    }

    method Settle(u: Unpacked)
      modifies this`postedMessage, this`faulted
      ensures postedMessage == if u.Value? then Some(u.content) else old(postedMessage)
      ensures faulted == (old(faulted) || u.Faults?)
    {
      match u {
        case Value(x) => postedMessage := Some(x);
        case Raises =>
        case Faults => faulted := true;
      }
    }

    /** Unpacks what has arrived; the buffer is freed. */
    method UnpackBody()
      requires Sound() && headHeld && buffer.Heap? && filled && RoundTrips()
      modifies this, firstBufMsg, arena
      ensures Sound() && firstBufMsg == old(firstBufMsg) && mail == old(mail) && Others() == old(Others())
      ensures Abs() == Requests.UnpackBody(old(Abs()), mail)
    {
      var result, cleared := firstBufMsg.Unpack(mail.codec, arena, Some(buffer));
      buffer := cleared;
      Settle(result);
    }

    ghost predicate RoundTrips()
      requires Sound()
      reads this, firstBufMsg, firstBufMsg.prefix, arena
    {
      var fs := Frames(mail.codec, mail.content);
      Messages.Unpack(mail.codec, fs[0].message, Arrived(fs)) == Value(mail.content)
    }

    /** MPI_Test on the header's handle. */
    method TestDescription(junk: Status) returns (ready: bool)
      requires Sound() && (descriptionActive ==> buffer == NullPtr)
      modifies this`descriptionActive, this`status, this`headHeld, firstBufMsg, firstBufMsg.prefix
      ensures Sound() && (Abs(), ready) == Requests.TestDescription(old(Abs()), mail, junk)
    {
      if !descriptionActive {
        status, ready := Empty, true;
      } else if mail.headHere {
        CompleteDescription();
        ready := true;
      } else {
        status, ready := junk, false;
      }
    }

    /** MPI_Test on the body's handle. */
    method TestBuffer(junk: Status) returns (ready: bool)
      requires Sound() && buffer.Heap?
      modifies this`bufferActive, this`filled, this`status, arena
      ensures Sound() && Others() == old(Others()) && (Abs(), ready) == Requests.TestBuffer(old(Abs()), mail, junk)
    {
      if !bufferActive {
        status, ready := Empty, true;
      } else if mail.bodyHere {
        CompleteBuffer();
        status, ready := Of(mail.source, mail.tag), true;
      } else {
        status, ready := junk, false;
      }
    }

    /** The header is here and the message is not. */
    ghost predicate AtHeader()
      reads this, firstBufMsg, firstBufMsg.prefix, arena
    {
      && Sound() && headHeld && mail.headHere && postedMessage == None && !faulted
      && (if buffer == NullPtr then !filled && !bufferActive else bufferActive == !filled)
    }

    /** request_second_message, and whether there is still a body to look for. */
    method LookFurther() returns (more: bool)
      requires AtHeader()
      modifies this, firstBufMsg, arena
      ensures Sound() && headHeld && firstBufMsg == old(firstBufMsg) && mail == old(mail) && Others() == old(Others())
      ensures Abs() == Requests.SecondMessage(old(Abs()), mail)
      ensures more <==> postedMessage == None && !faulted
      ensures more ==> buffer.Heap? && bufferActive == !filled
    {
      RoundTrip(mail.codec, mail.content);
      if firstBufMsg.header.bytesInSecondMessage == 0 {
        NoPointerIff(mail.codec, mail.content);
      }
      SecondMessage();
      more := postedMessage == None && !faulted;
    }

    method PollFurther(junk: Status) returns (ready: bool)
      requires AtHeader()
      modifies this, firstBufMsg, arena
      ensures Sound() && firstBufMsg == old(firstBufMsg) && mail == old(mail) && Others() == old(Others())
      ensures (Abs(), ready) == Requests.PollFurther(old(Abs()), mail, junk)
    {
      var more := LookFurther();
      if !more { return postedMessage.Some?; }
      ready := TestBuffer(junk);
      if ready {
        RoundTrip(mail.codec, mail.content);
        UnpackBody();
      }
    }

    method WaitFurther()
      requires AtHeader()
      modifies this, firstBufMsg, arena
      ensures Sound() && firstBufMsg == old(firstBufMsg) && mail == old(mail) && Others() == old(Others())
      ensures Abs() == Requests.WaitFurther(old(Abs()), mail)
    {
      var more := LookFurther();
      if !more { return; }
      if bufferActive {
        CompleteBuffer();
        status := Of(mail.source, mail.tag);
      }
      RoundTrip(mail.codec, mail.content);
      UnpackBody();
    }

    /** A poll while the message is not there. */
    method TestUnposted(junk: Status, junk': Status) returns (ready: bool)
      requires Valid() && !faulted && postedMessage == None
      modifies this, firstBufMsg, firstBufMsg.prefix, arena
      ensures Sound() && firstBufMsg == old(firstBufMsg) && mail == old(mail) && Others() == old(Others())
      ensures (Abs(), ready) == Requests.Test(old(Abs()), mail, junk, junk')
    {
      ready := TestDescription(junk);
      if ready {
        ready := PollFurther(junk');
      }
    }

    /** request_test on a receive: whether the message is there; what an unready test leaves in the status is `junk`. */
    method Test(junk: Status, junk': Status) returns (ready: bool)
      requires Valid() && !faulted
      modifies this, firstBufMsg, firstBufMsg.prefix, arena
      ensures Valid() && firstBufMsg == old(firstBufMsg) && mail == old(mail) && Others() == old(Others())
      ensures (Abs(), ready) == Requests.Test(old(Abs()), mail, junk, junk')
      ensures mail.content != PyStr([]) ==> (ready <==> Here(mail)) && (ready <==> postedMessage == Some(mail.content))
    {
      if mail.content != PyStr([]) {
        PollReports(Abs(), mail, junk, junk');
      }
      TestInv(Abs(), mail, junk, junk');
      if postedMessage.Some? { return true; }
      ready := TestUnposted(junk, junk');
    }

    /** A wait while the message is not there. */
    method WaitUnposted()
      requires Valid() && !faulted && postedMessage == None
      modifies this, firstBufMsg, firstBufMsg.prefix, arena
      ensures Sound() && firstBufMsg == old(firstBufMsg) && Others() == old(Others())
      ensures mail == old(mail).(headHere := true, bodyHere := |Frames(mail.codec, mail.content)| == 2)
      ensures Abs() == Requests.Wait(old(Abs()), old(mail))
    {
      mail := mail.(headHere := true, bodyHere := |Frames(mail.codec, mail.content)| == 2);
      if descriptionActive {
        CompleteDescription();
      }
      WaitFurther();
    }

    /** request_wait on a receive: returns when the frames have arrived. */
    method Wait()
      requires Valid() && !faulted
      modifies this, firstBufMsg, firstBufMsg.prefix, arena
      ensures Valid() && firstBufMsg == old(firstBufMsg) && Others() == old(Others())
      ensures (Abs(), mail) == Happen(old(Abs()), old(mail), WaitFor)
      ensures mail.content != PyStr([]) ==> postedMessage == Some(mail.content) && Here(mail)
    {
      if mail.content != PyStr([]) {
        WaitDelivers(Abs(), mail);
      }
      if postedMessage.Some? { return; }
      WaitInv(Abs(), mail);
      WaitUnposted();
    }

    /** request_nonzero: one poll unless the message is there. */
    method Nonzero(junk: Status, junk': Status) returns (ready: bool)
      requires Valid() && !faulted
      modifies this, firstBufMsg, firstBufMsg.prefix, arena
      ensures Valid() && firstBufMsg == old(firstBufMsg) && Others() == old(Others())
      ensures (Abs(), mail) == Happen(old(Abs()), old(mail), TruthTest(junk, junk')) && ready == postedMessage.Some?
      ensures mail == old(mail) && (mail.content != PyStr([]) ==> (ready <==> Here(mail)))
    {
      if mail.content != PyStr([]) {
        PollReports(Abs(), mail, junk, junk');
      }
      if postedMessage.Some? { return true; }
      var tested := Test(junk, junk');
      ready := postedMessage.Some?;
    }

    /** The message attribute: a wait unless the message is there. For anything but the empty string it is there
        afterwards, and nothing of what the request allocated is left on the heap. */
    method GetMessage() returns (message: Option<PyObject>)
      requires Valid() && !faulted
      modifies this, firstBufMsg, firstBufMsg.prefix, arena
      ensures Valid() && firstBufMsg == old(firstBufMsg)
      ensures (Abs(), mail) == Happen(old(Abs()), old(mail), Event.Message) && message == postedMessage
      ensures mail.content != PyStr([]) ==> message == Some(mail.content) && arena.live == old(Others())
    {
      if postedMessage.None? {
        if mail.content != PyStr([]) {
          WaitDelivers(Abs(), mail);
        }
        Wait();
      }
      message := postedMessage;
    }
  }
}
