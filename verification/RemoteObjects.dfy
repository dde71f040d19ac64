/** The remote-object module's lists: the sends it has posted, and, in parallel, the receive requests it has posted and
    the objects that posted them. */
module RemoteObjects {
  import opened Folds
  import opened Messages
  import RemoteIds

  type Obj = nat

  /** One method call made on behalf of a message: which request it came in on, and the object it was made on. */
  datatype Dispatch = Dispatch(request: nat, actor: Obj, message: PyObject)

  /** Requests are numbered as they are posted; posters[id] posted request id. `log` lists the calls made. */
  datatype Board = Board(posters: seq<Obj>, recvs: seq<nat>, cache: seq<Obj>, log: seq<Dispatch>)

  const NO_OBJECTS := Board([], [], [], [])

  /** remote_init of an object that receives: it posts a request, and request and object are appended. */
  function Enlist(b: Board, o: Obj): Board {
    b.(posters := b.posters + [o], recvs := b.recvs + [|b.posters|], cache := b.cache + [o])
  }

  function EnlistAll(b: Board, os: seq<Obj>): (r: Board)
    ensures |r.recvs| == |b.recvs| + |os| && |r.cache| == |b.cache| + |os|
  {
    if os == [] then b else Enlist(EnlistAll(b, os[..|os| - 1]), os[|os| - 1])
  }

  lemma {:induction false} EnlistAllExact(b: Board, os: seq<Obj>)
    ensures var r := EnlistAll(b, os);
      && r.posters == b.posters + os && r.cache == b.cache + os && r.log == b.log && b.recvs <= r.recvs
      && forall i :: |b.recvs| <= i < |r.recvs| ==> r.recvs[i] >= |b.posters|
  {
    if os != [] {
      EnlistAllExact(b, os[..|os| - 1]);
    }
  }

  /** What a poll of a request finds. Each is polled at most once in one pass, so this stands for any timing. */
  type Poll = nat -> Option<PyObject>

  /** The receiving objects that are created by the method called with a message. */
  type Handler = (Obj, PyObject) -> seq<Obj>

  /** The method call, with whatever it creates; then the object posts a request in place of the one just served. */
  function Call(b: Board, i: nat, message: PyObject, handler: Handler): Board
    requires i < |b.recvs| && i < |b.cache|
  {
    var actor := b.cache[i];
    var called := b.(log := b.log + [Dispatch(b.recvs[i], actor, message)]);
    var after := EnlistAll(called, handler(actor, message));
    after.(posters := after.posters + [actor], recvs := after.recvs[i := |after.posters|])
  }

  /** One turn of the receiving loop. */
  function Serve(b: Board, i: nat, poll: Poll, handler: Handler): Board
    requires i < |b.recvs| && i < |b.cache|
  {
    var found := poll(b.recvs[i]);
    if found.Some? then Call(b, i, found.value, handler) else b
  }

  /** The loop over the first n requests. */
  function ServeAll(b: Board, n: nat, poll: Poll, handler: Handler): (r: Board)
    requires n <= |b.recvs| && |b.recvs| == |b.cache|
    ensures |b.recvs| <= |r.recvs| && |r.recvs| == |r.cache|
  {
    if n == 0 then b else Serve(ServeAll(b, n - 1, poll, handler), n - 1, poll, handler)
  }

  // ---------------------------------------------------------------- the invariant

  function Requests(log: seq<Dispatch>): seq<nat> {
    seq(|log|, k requires 0 <= k < |log| => log[k].request)
  }

  /** The numbers below n. */
  function Below(n: nat): multiset<nat> {
    if n == 0 then multiset{} else Below(n - 1) + multiset{n - 1}
  }

  /** The two lists run in parallel, request i posted by object i; every request ever posted is either waiting or
      has been dispatched, and only once; and each was dispatched to the object that had posted it. */
  ghost predicate Inv(b: Board) {
    && |b.recvs| == |b.cache|
    && (forall i :: 0 <= i < |b.recvs| ==> PostedBy(b, b.recvs[i], b.cache[i]))
    && (forall k :: 0 <= k < |b.log| ==> PostedBy(b, b.log[k].request, b.log[k].actor))
    && multiset(b.recvs) + multiset(Requests(b.log)) == Below(|b.posters|)
  }

  ghost predicate PostedBy(b: Board, request: nat, o: Obj) {
    request < |b.posters| && b.posters[request] == o
  }

  lemma EnlistInv(b: Board, o: Obj)
    requires Inv(b)
    ensures Inv(Enlist(b, o))
  {
    var r := Enlist(b, o);
    var request: nat := |b.posters|;
    assert multiset(r.recvs) == multiset(b.recvs) + multiset{request};
  }

  lemma {:induction false} EnlistAllInv(b: Board, os: seq<Obj>)
    requires Inv(b)
    ensures Inv(EnlistAll(b, os))
  {
    if os != [] {
      EnlistAllInv(b, os[..|os| - 1]);
      EnlistInv(EnlistAll(b, os[..|os| - 1]), os[|os| - 1]);
    }
  }

  /** A dispatched request moves from the waiting ones to the log, and a new one takes its place. */
  lemma ReplaceCounts(recvs: seq<nat>, done: seq<nat>, i: nat, n: nat)
    requires i < |recvs| && multiset(recvs) + multiset(done) == Below(n)
    ensures multiset(recvs[i := n]) + multiset(done + [recvs[i]]) == Below(n + 1)
  {
    assert recvs[i] in multiset(recvs);
    assert multiset(recvs[i := n]) == multiset(recvs) - multiset{recvs[i]} + multiset{n};
  }

  lemma ReplaceInv(b: Board, i: nat, message: PyObject)
    requires Inv(b) && i < |b.recvs|
    ensures Inv(Board(b.posters + [b.cache[i]], b.recvs[i := |b.posters|], b.cache,
                      b.log + [Dispatch(b.recvs[i], b.cache[i], message)]))
  {
    var d := Dispatch(b.recvs[i], b.cache[i], message);
    var r := Board(b.posters + [b.cache[i]], b.recvs[i := |b.posters|], b.cache, b.log + [d]);
    ReplaceCounts(b.recvs, Requests(b.log), i, |b.posters|);
    assert Requests(r.log) == Requests(b.log) + [b.recvs[i]];
    assert PostedBy(b, b.recvs[i], b.cache[i]);
    forall k | 0 <= k < |r.recvs|
      ensures PostedBy(r, r.recvs[k], r.cache[k])
    {
      assert PostedBy(b, b.recvs[k], b.cache[k]);
    }
    forall k | 0 <= k < |r.log|
      ensures PostedBy(r, r.log[k].request, r.log[k].actor)
    {
      assert k < |b.log| ==> PostedBy(b, b.log[k].request, b.log[k].actor);
    }
  }

  lemma CallInv(b: Board, i: nat, message: PyObject, handler: Handler)
    requires Inv(b) && i < |b.recvs|
    ensures Inv(Call(b, i, message, handler))
  {
    var os := handler(b.cache[i], message);
    EnlistAllInv(b, os);
    EnlistAllExact(b, os);
    EnlistIgnoresLog(b, b.log + [Dispatch(b.recvs[i], b.cache[i], message)], os);
    ReplaceInv(EnlistAll(b, os), i, message);
  }

  lemma {:induction false} EnlistIgnoresLog(b: Board, log: seq<Dispatch>, os: seq<Obj>)
    ensures EnlistAll(b.(log := log), os) == EnlistAll(b, os).(log := log)
  {
    if os != [] {
      EnlistIgnoresLog(b, log, os[..|os| - 1]);
    }
  }

  // ---------------------------------------------------------------- one pass

  /** The calls that a pass makes: one for each request that is ready, in the order of the list. */
  function Calls(b: Board, n: nat, poll: Poll): seq<Dispatch>
    requires n <= |b.recvs| && |b.recvs| == |b.cache|
  {
    if n == 0 then [] else Calls(b, n - 1, poll) + ReadyAt(b, n - 1, poll)
  }

  function ReadyAt(b: Board, i: nat, poll: Poll): seq<Dispatch>
    requires i < |b.recvs| && |b.recvs| == |b.cache|
  {
    var found := poll(b.recvs[i]);
    if found.Some? then [Dispatch(b.recvs[i], b.cache[i], found.value)] else []
  }

  /** Where request i of b is polled true it has been replaced by a new request, and elsewhere it stays. */
  ghost predicate Replaced(b: Board, r: Board, n: nat, poll: Poll) {
    && b.cache <= r.cache && b.posters <= r.posters && |b.recvs| <= |r.recvs|
    && (forall i :: 0 <= i < |b.recvs| ==> if i < n && poll(b.recvs[i]).Some? then r.recvs[i] >= |b.posters|
                                           else r.recvs[i] == b.recvs[i])
    && (forall i :: |b.recvs| <= i < |r.recvs| ==> r.recvs[i] >= |b.posters|)
  }

  /** What a pass has done after n requests. */
  ghost predicate Passed(b: Board, r: Board, n: nat, poll: Poll)
    requires n <= |b.recvs| && |b.recvs| == |b.cache|
  {
    Inv(r) && r.log == b.log + Calls(b, n, poll) && Replaced(b, r, n, poll)
  }

  lemma ServeInv(r: Board, i: nat, poll: Poll, handler: Handler)
    requires Inv(r) && i < |r.recvs|
    ensures Inv(Serve(r, i, poll, handler))
  {
    if poll(r.recvs[i]).Some? {
      CallInv(r, i, poll(r.recvs[i]).value, handler);
    }
  }

  lemma ServeAllNext(b: Board, n: nat, poll: Poll, handler: Handler)
    requires 0 < n <= |b.recvs| && |b.recvs| == |b.cache|
    ensures ServeAll(b, n, poll, handler) == Serve(ServeAll(b, n - 1, poll, handler), n - 1, poll, handler)
  {
  }

  lemma {:induction false} ServeAllInv(b: Board, n: nat, poll: Poll, handler: Handler)
    requires Inv(b) && n <= |b.recvs|
    ensures Inv(ServeAll(b, n, poll, handler))
  {
    if n > 0 {
      ServeAllInv(b, n - 1, poll, handler);
      ServeInv(ServeAll(b, n - 1, poll, handler), n - 1, poll, handler);
      ServeAllNext(b, n, poll, handler);
    }
  }

  lemma ServeReplaces(b: Board, r: Board, n: nat, poll: Poll, handler: Handler)
    requires n < |b.recvs| && |b.recvs| == |b.cache| && |r.recvs| == |r.cache| && Replaced(b, r, n, poll)
    ensures Replaced(b, Serve(r, n, poll, handler), n + 1, poll)
  {
    var found := poll(r.recvs[n]);
    if found.Some? {
      var called := r.(log := r.log + [Dispatch(r.recvs[n], r.cache[n], found.value)]);
      EnlistAllExact(called, handler(r.cache[n], found.value));
    }
  }

  lemma {:induction false} ServeAllReplaces(b: Board, n: nat, poll: Poll, handler: Handler)
    requires n <= |b.recvs| && |b.recvs| == |b.cache|
    ensures Replaced(b, ServeAll(b, n, poll, handler), n, poll)
  {
    if n > 0 {
      ServeAllReplaces(b, n - 1, poll, handler);
      ServeReplaces(b, ServeAll(b, n - 1, poll, handler), n - 1, poll, handler);
    }
  }

  lemma ServeLog(r: Board, i: nat, poll: Poll, handler: Handler)
    requires i < |r.recvs| && |r.recvs| == |r.cache|
    ensures Serve(r, i, poll, handler).log == r.log + ReadyAt(r, i, poll)
  {
    var found := poll(r.recvs[i]);
    if found.Some? {
      EnlistAllExact(r.(log := r.log + ReadyAt(r, i, poll)), handler(r.cache[i], found.value));
    }
  }

  lemma {:induction false} ServeAllLog(b: Board, n: nat, poll: Poll, handler: Handler)
    requires n <= |b.recvs| && |b.recvs| == |b.cache|
    ensures ServeAll(b, n, poll, handler).log == b.log + Calls(b, n, poll)
  {
    if n > 0 {
      ServeAllLog(b, n - 1, poll, handler);
      ServeAllReplaces(b, n - 1, poll, handler);
      var r := ServeAll(b, n - 1, poll, handler);
      ServeLog(r, n - 1, poll, handler);
      assert ReadyAt(r, n - 1, poll) == ReadyAt(b, n - 1, poll);
      AppendAssoc(b.log, Calls(b, n - 1, poll), ReadyAt(b, n - 1, poll));
    }
  }

  /** The objects that the methods called in a pass create, in order. */
  function CreatedBy(b: Board, n: nat, poll: Poll, handler: Handler): seq<Obj>
    requires n <= |b.recvs| && |b.recvs| == |b.cache|
  {
    if n == 0 then []
    else
      var found := poll(b.recvs[n - 1]);
      CreatedBy(b, n - 1, poll, handler) + if found.Some? then handler(b.cache[n - 1], found.value) else []
  }

  lemma ServeCache(r: Board, i: nat, poll: Poll, handler: Handler)
    requires i < |r.recvs| && |r.recvs| == |r.cache|
    ensures var found := poll(r.recvs[i]);
      Serve(r, i, poll, handler).cache == r.cache + if found.Some? then handler(r.cache[i], found.value) else []
  {
    var found := poll(r.recvs[i]);
    if found.Some? {
      EnlistAllExact(r.(log := r.log + ReadyAt(r, i, poll)), handler(r.cache[i], found.value));
    }
  }

  /** After a pass the objects are those from before, at the same places, and then all that were created in it. */
  lemma {:induction false} ServeAllCache(b: Board, n: nat, poll: Poll, handler: Handler)
    requires n <= |b.recvs| && |b.recvs| == |b.cache|
    ensures ServeAll(b, n, poll, handler).cache == b.cache + CreatedBy(b, n, poll, handler)
  {
    if n > 0 {
      ServeAllCache(b, n - 1, poll, handler);
      ServeAllReplaces(b, n - 1, poll, handler);
      var r := ServeAll(b, n - 1, poll, handler);
      ServeCache(r, n - 1, poll, handler);
      var found := poll(b.recvs[n - 1]);
      var made := if found.Some? then handler(b.cache[n - 1], found.value) else [];
      AppendAssoc(b.cache, CreatedBy(b, n - 1, poll, handler), made);
    }
  }

  /** A pass dispatches the requests that are ready, each once and to its own object, and puts a request that is new
      and posted by the same object in the place of each; the others stay. What the called methods create is
      appended behind, and left for the next pass. */
  lemma ServeAllExact(b: Board, n: nat, poll: Poll, handler: Handler)
    requires Inv(b) && n <= |b.recvs|
    ensures Passed(b, ServeAll(b, n, poll, handler), n, poll)
  {
    ServeAllInv(b, n, poll, handler);
    ServeAllLog(b, n, poll, handler);
    ServeAllReplaces(b, n, poll, handler);
  }

  // ---------------------------------------------------------------- runs

  datatype Event = Created(o: Obj) | Pass(poll: Poll, handler: Handler)

  /** Any sequence of creations of receiving objects and passes of the housekeeping. */
  function Run(events: seq<Event>): (b: Board)
    ensures |b.recvs| == |b.cache|
  {
    if events == [] then NO_OBJECTS
    else
      var b := Run(events[..|events| - 1]);
      match events[|events| - 1]
      case Created(o) => Enlist(b, o)
      case Pass(poll, handler) => ServeAll(b, |b.recvs|, poll, handler)
  }

  lemma {:induction false} RunInv(events: seq<Event>)
    ensures Inv(Run(events))
  {
    if events != [] {
      var b := Run(events[..|events| - 1]);
      RunInv(events[..|events| - 1]);
      match events[|events| - 1]
      case Created(o) => EnlistInv(b, o);
      case Pass(poll, handler) => ServeAllInv(b, |b.recvs|, poll, handler);
    }
  }

  lemma {:induction false} BelowCounts(n: nat, x: nat)
    ensures Below(n)[x] == if x < n then 1 else 0
  {
    if n > 0 {
      BelowCounts(n - 1, x);
    }
  }

  lemma CountTwice(s: seq<nat>, k: nat, l: nat)
    requires k < l < |s| && s[k] == s[l]
    ensures multiset(s)[s[k]] >= 2
  {
    assert s == s[..l] + s[l..];
    assert s[l] in multiset(s[l..]) && s[..l][k] in multiset(s[..l]);
  }

  /** After any run: the lists are parallel, waiting request i having been posted by object i; no request has been
      dispatched twice or waits after it was dispatched; each went to the object that had posted it; and none got
      lost. */
  lemma DispatchedExactlyOnce(events: seq<Event>, request: nat, k: nat, l: nat)
    ensures var b := Run(events);
      && |b.recvs| == |b.cache|
      && (k < |b.recvs| ==> b.recvs[k] < |b.posters| && b.posters[b.recvs[k]] == b.cache[k])
      && (k < |b.log| ==> b.log[k].request < |b.posters| && b.posters[b.log[k].request] == b.log[k].actor)
      && (k < l < |b.log| ==> b.log[k].request != b.log[l].request)
      && (k < |b.log| ==> b.log[k].request !in b.recvs)
      && (request < |b.posters| ==> request in b.recvs || request in Requests(b.log))
  {
    RunInv(events);
    var b := Run(events);
    BelowCounts(|b.posters|, request);
    if k < |b.log| {
      var done := Requests(b.log);
      BelowCounts(|b.posters|, done[k]);
      assert done[k] in multiset(done);
      assert (multiset(b.recvs) + multiset(done))[done[k]] == 1;
      if k < l < |b.log| && done[k] == done[l] {
        CountTwice(done, k, l);
      }
    }
    if k < |b.recvs| {
      assert PostedBy(b, b.recvs[k], b.cache[k]);
    }
    assert request in multiset(b.recvs) + multiset(Requests(b.log)) <==> request < |b.posters|;
  }

  // ---------------------------------------------------------------- the send sweep

  /** A posted send: postedMessage, which the truth test looks at first, and what a poll would say. */
  datatype SendRequest = SendRequest(posted: Option<PyObject>, completes: bool)

  predicate Truth(r: SendRequest) {
    r.posted.Some? || r.completes
  }

  /** The requests that do not test true, in order. */
  function NotReady(s: seq<SendRequest>): seq<SendRequest> {
    if s == [] then [] else Kept(s[0]) + NotReady(s[1..])
  }

  function Kept(r: SendRequest): seq<SendRequest> {
    if Truth(r) then [] else [r]
  }

  lemma {:induction false} NotReadyConcat(a: seq<SendRequest>, b: seq<SendRequest>)
    ensures NotReady(a + b) == NotReady(a) + NotReady(b)
  {
    if a == [] {
      assert a + b == b;
    } else {
      NotReadyConcat(a[1..], b);
      assert (a + b)[1..] == a[1..] + b && (a + b)[0] == a[0];
      AppendAssoc(Kept(a[0]), NotReady(a[1..]), NotReady(b));
    }
  }

  predicate AllNotReady(s: seq<SendRequest>) {
    forall i :: 0 <= i < |s| ==> !Truth(s[i])
  }

  lemma {:induction false} AllNotReadyStay(s: seq<SendRequest>)
    requires AllNotReady(s)
    ensures NotReady(s) == s
  {
    if s != [] {
      AllNotReadyStay(s[1..]);
    }
  }

  /** Deleting a ready request changes nothing about which are not ready. */
  lemma NotReadyAt(s: seq<SendRequest>, i: nat)
    requires i < |s|
    ensures Truth(s[i]) ==> NotReady(s[..i] + s[i + 1..]) == NotReady(s)
  {
    assert s == s[..i] + s[i..];
    NotReadyConcat(s[..i], s[i..]);
    NotReadyConcat(s[..i], s[i + 1..]);
    assert s[i..][1..] == s[i + 1..];
  }

  /** Exactly the not-ready requests are left, as often as they were there. */
  lemma {:induction false} NotReadyKeeps(s: seq<SendRequest>, r: SendRequest)
    ensures multiset(NotReady(s))[r] == if Truth(r) then 0 else multiset(s)[r]
  {
    if s != [] {
      NotReadyKeeps(s[1..], r);
      assert s == [s[0]] + s[1..];
    }
  }

  /** The request that isend returns: it holds the message. `completes` is what a poll would say. */
  function Isend(message: PyObject, completes: bool): SendRequest {
    SendRequest(Some(message), completes)
  }

  function Isends(messages: seq<PyObject>, completes: seq<bool>): seq<SendRequest>
    requires |messages| == |completes|
  {
    if messages == [] then [] else [Isend(messages[0], completes[0])] + Isends(messages[1..], completes[1..])
  }

  /** All requests that isend returns test true, finished or not: the sweep drops them all. */
  lemma {:induction false} SweepDropsAllIsends(messages: seq<PyObject>, completes: seq<bool>)
    requires |messages| == |completes|
    ensures |Isends(messages, completes)| == |messages| && NotReady(Isends(messages, completes)) == []
  {
    if messages != [] {
      SweepDropsAllIsends(messages[1..], completes[1..]);
    }
  }

  // ---------------------------------------------------------------- the module's state

  class RemoteModule {
    var lastUnique: nat
    var sendsPosted: seq<SendRequest>
    var recvsPosted: seq<nat>
    var objectCache: seq<Obj>
    var posters: seq<Obj>
    var log: seq<Dispatch>

    ghost function View(): Board
      reads this
    {
      Board(posters, recvsPosted, objectCache, log)
    }

    constructor ()
      ensures View() == NO_OBJECTS && sendsPosted == [] && lastUnique == 0
    {
      lastUnique, sendsPosted, recvsPosted, objectCache, posters, log := 0, [], [], [], [], [];
    }

    method RemoteIrecv(o: Obj) returns (request: nat)
      modifies this`posters
      ensures request == |old(posters)| && posters == old(posters) + [o]
    {
      request, posters := |posters|, posters + [o];
    }

    /** remote_init on process `me`, as one of the members of a communicator; `clocks` are what the processes bring to
        the MPI_Allreduce, after the creations so far. */
    method RemoteInit(o: Obj, clocks: seq<nat>, members: RemoteIds.Members, me: nat, receive: bool,
                      ghost creations: seq<RemoteIds.Members>)
      returns (unique: nat)
      requires Inv(View()) && me < |clocks| && me in members && clocks[me] == lastUnique
      requires clocks == RemoteIds.Clocks(|clocks|, creations)
      modifies this
      ensures unique == RemoteIds.IdOf(|clocks|, creations + [members], |creations|)
      ensures lastUnique == unique && lastUnique == RemoteIds.Clocks(|clocks|, creations + [members])[me]
      ensures old(lastUnique) < lastUnique
      ensures View() == (if receive then Enlist(old(View()), o) else old(View())) && Inv(View())
      ensures receive ==>
        && objectCache == old(objectCache) + [o] && posters == old(posters) + [o] && log == old(log)
        && |recvsPosted| == |objectCache| && recvsPosted == old(recvsPosted) + [|old(posters)|]
      ensures sendsPosted == old(sendsPosted)
    {
      EnlistInv(View(), o);
      RemoteIds.NextCreation(|clocks|, creations, members);
      RemoteIds.MaxOverIsMax(clocks, members);
      unique := RemoteIds.MaxOver(clocks, members) + 1;
      lastUnique := unique;
      if receive {
        var request := RemoteIrecv(o);
        recvsPosted := recvsPosted + [request];
        objectCache := objectCache + [o];
      }
    }

    /** The first loop of rco_housekeeping: deletes in place. */
    method SweepSends()
      modifies this`sendsPosted
      ensures sendsPosted == NotReady(old(sendsPosted))
    {
      var i, len := 0, |sendsPosted|;
      while i < len
        invariant i <= len == |sendsPosted|
        invariant AllNotReady(sendsPosted[..i])
        invariant NotReady(sendsPosted) == NotReady(old(sendsPosted))
        decreases len - i
      {
        NotReadyAt(sendsPosted, i);
        ghost var before := sendsPosted[..i];
        if Truth(sendsPosted[i]) {
          sendsPosted := sendsPosted[..i] + sendsPosted[i + 1..];
          len := |sendsPosted|;
          assert sendsPosted[..i] == before;
        } else {
          i := i + 1;
        }
      }
      assert sendsPosted[..i] == sendsPosted;
      AllNotReadyStay(sendsPosted);
    }

    /** Calls the method named in a message, which may create receiving objects. */
    method CallMethod(request: nat, actor: Obj, message: PyObject, handler: Handler)
      modifies this`posters, this`recvsPosted, this`objectCache, this`log
      ensures View() == EnlistAll(old(View()).(log := old(log) + [Dispatch(request, actor, message)]),
                                  handler(actor, message))
    {
      log := log + [Dispatch(request, actor, message)];
      ghost var called := View();
      var os := handler(actor, message);
      for k := 0 to |os|
        invariant View() == EnlistAll(called, os[..k])
      {
        assert os[..k + 1][..k] == os[..k];
        var r := RemoteIrecv(os[k]);
        recvsPosted := recvsPosted + [r];
        objectCache := objectCache + [os[k]];
      }
      assert os[..|os|] == os;
    }

    /** One turn of the second loop. */
    method ServeRequest(i: nat, poll: Poll, handler: Handler)
      requires i < |recvsPosted| && |recvsPosted| == |objectCache|
      modifies this`posters, this`recvsPosted, this`objectCache, this`log
      ensures View() == Serve(old(View()), i, poll, handler)
    {
      var request := recvsPosted[i];
      var found := poll(request);
      if found.Some? {
        var actor := objectCache[i];
        CallMethod(request, actor, found.value, handler);
        var newRequest := RemoteIrecv(actor);
        recvsPosted := recvsPosted[i := newRequest];
      }
    }

    /** rco_housekeeping: the sends, then the receives that were waiting when the second loop began. */
    method Housekeeping(poll: Poll, handler: Handler)
      requires Inv(View())
      modifies this
      ensures sendsPosted == NotReady(old(sendsPosted)) && lastUnique == old(lastUnique)
      ensures View() == ServeAll(old(View()), |old(recvsPosted)|, poll, handler)
      ensures Passed(old(View()), View(), |old(recvsPosted)|, poll)
      ensures objectCache == old(objectCache) + CreatedBy(old(View()), |old(recvsPosted)|, poll, handler)
    {
      SweepSends();
      ghost var start := View();
      var len := |recvsPosted|;
      for i := 0 to len
        invariant View() == ServeAll(start, i, poll, handler)
        invariant sendsPosted == NotReady(old(sendsPosted)) && lastUnique == old(lastUnique)
      {
        ServeRequest(i, poll, handler);
      }
      ServeAllExact(start, len, poll, handler);
      ServeAllCache(start, len, poll, handler);
    }
  }
}
