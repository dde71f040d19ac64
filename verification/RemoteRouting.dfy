/** Which object a remote call reaches. A request is posted for any source on the communicator and tag of its object,
    MPI gives a message to the oldest posted request that accepts it, and the housekeeping calls the object that posted
    the request: it never looks at the identifier in the message. */
module RemoteRouting {

  datatype Endpoint = Endpoint(comm: nat, tag: nat)

  /** A message for object `to`, in a request that `actor` posted. */
  datatype Match = Match(actor: nat, to: nat)

  /** One process. Its receiving objects are created in the order 0, 1, 2, ...; `waiting` are the posters of the
      unmatched requests, oldest first, `unexpected` the addressees of the messages that found no request, oldest
      first; `calling` are the objects whose method is running, and `log` the calls made. */
  datatype State = State(created: nat, waiting: seq<nat>, unexpected: seq<nat>, matched: seq<Match>, calling: seq<nat>,
                         log: seq<Match>)

  const START := State(0, [], [], [], [], [])

  /** Messages for a are accepted by the requests of b. */
  predicate Same(endpoints: seq<Endpoint>, a: nat, b: nat) {
    a < |endpoints| && b < |endpoints| && endpoints[a] == endpoints[b]
  }

  /** The position of the oldest entry with the endpoint of o. */
  function Oldest(endpoints: seq<Endpoint>, s: seq<nat>, o: nat): (k: nat)
    ensures k <= |s|
    ensures k < |s| ==> Same(endpoints, s[k], o)
    ensures forall j :: 0 <= j < k ==> !Same(endpoints, s[j], o)
  {
    if s == [] || Same(endpoints, s[0], o) then 0 else 1 + Oldest(endpoints, s[1..], o)
  }

  function Remove<T>(s: seq<T>, k: nat): seq<T>
    requires k < |s|
  {
    s[..k] + s[k + 1..]
  }

  /** __remote_irecv__ of object o. */
  function Post(endpoints: seq<Endpoint>, s: State, o: nat): State {
    var k := Oldest(endpoints, s.unexpected, o);
    if k < |s.unexpected| then
      s.(matched := s.matched + [Match(o, s.unexpected[k])], unexpected := Remove(s.unexpected, k))
    else s.(waiting := s.waiting + [o])
  }

  /** A message for object `to` arrives. */
  function Arrive(endpoints: seq<Endpoint>, s: State, to: nat): State {
    var k := Oldest(endpoints, s.waiting, to);
    if k < |s.waiting| then
      s.(matched := s.matched + [Match(s.waiting[k], to)], waiting := Remove(s.waiting, k))
    else s.(unexpected := s.unexpected + [to])
  }

  /** The housekeeping notices the matched requests in any order; a call and the new request that follows it are two
      events, since the method called may create objects. */
  datatype Event = Created | Arrives(to: nat) | Called(k: nat) | Reposts(k: nat)

  /** What cannot happen changes nothing. */
  function Step(endpoints: seq<Endpoint>, s: State, e: Event): State {
    match e
    case Created => if s.created < |endpoints| then Post(endpoints, s.(created := s.created + 1), s.created) else s
    case Arrives(to) => if to < |endpoints| then Arrive(endpoints, s, to) else s
    case Called(k) =>
      if k < |s.matched| then
        s.(matched := Remove(s.matched, k), calling := s.calling + [s.matched[k].actor], log := s.log + [s.matched[k]])
      else s
    case Reposts(k) =>
      if k < |s.calling| then Post(endpoints, s.(calling := Remove(s.calling, k)), s.calling[k]) else s
  }

  function Run(endpoints: seq<Endpoint>, events: seq<Event>): State {
    if events == [] then START
    else Step(endpoints, Run(endpoints, events[..|events| - 1]), events[|events| - 1])
  }

  lemma RunNext(endpoints: seq<Endpoint>, events: seq<Event>, e: Event)
    ensures Run(endpoints, events + [e]) == Step(endpoints, Run(endpoints, events), e)
  {
    assert (events + [e])[..|events|] == events;
  }

  // ---------------------------------------------------------------- requests only get messages of their endpoint

  ghost predicate AllSame(endpoints: seq<Endpoint>, s: seq<Match>) {
    forall k :: 0 <= k < |s| ==> Same(endpoints, s[k].actor, s[k].to)
  }

  lemma StepSame(endpoints: seq<Endpoint>, s: State, e: Event)
    requires AllSame(endpoints, s.matched) && AllSame(endpoints, s.log)
    ensures AllSame(endpoints, Step(endpoints, s, e).matched) && AllSame(endpoints, Step(endpoints, s, e).log)
  {
  }

  lemma {:induction false} RunSame(endpoints: seq<Endpoint>, events: seq<Event>)
    ensures AllSame(endpoints, Run(endpoints, events).matched) && AllSame(endpoints, Run(endpoints, events).log)
  {
    if events != [] {
      RunSame(endpoints, events[..|events| - 1]);
      StepSame(endpoints, Run(endpoints, events[..|events| - 1]), events[|events| - 1]);
    }
  }

  // ---------------------------------------------------------------- nothing is lost

  function Actors(s: seq<Match>): seq<nat> {
    seq(|s|, k requires 0 <= k < |s| => s[k].actor)
  }

  function Addressees(s: seq<Match>): seq<nat> {
    seq(|s|, k requires 0 <= k < |s| => s[k].to)
  }

  /** The messages that have arrived for objects of this process. */
  function Arrived(endpoints: seq<Endpoint>, events: seq<Event>): multiset<nat> {
    if events == [] then multiset{}
    else
      var e := events[|events| - 1];
      Arrived(endpoints, events[..|events| - 1])
      + if e.Arrives? && e.to < |endpoints| then multiset{e.to} else multiset{}
  }

  /** The objects that exist: one entry each. */
  function Existing(n: nat): multiset<nat> {
    if n == 0 then multiset{} else Existing(n - 1) + multiset{n - 1}
  }

  /** The objects that have a request waiting or matched, or a call running; one entry for each of those. */
  function Busy(s: State): multiset<nat> {
    multiset(s.waiting) + multiset(Actors(s.matched)) + multiset(s.calling)
  }

  /** The messages that are still unexpected, or matched, or have been delivered. */
  function Kept(s: State): multiset<nat> {
    multiset(s.unexpected) + multiset(Addressees(s.matched)) + multiset(Addressees(s.log))
  }

  /** No message is left lying that some waiting request would accept. */
  ghost predicate Prompt(endpoints: seq<Endpoint>, s: State) {
    forall i, j :: 0 <= i < |s.waiting| && 0 <= j < |s.unexpected| ==> !Same(endpoints, s.waiting[i], s.unexpected[j])
  }

  lemma RemoveCounts<T>(s: seq<T>, k: nat)
    requires k < |s|
    ensures multiset(Remove(s, k)) + multiset{s[k]} == multiset(s)
  {
    assert s == s[..k] + [s[k]] + s[k + 1..];
  }

  lemma ActorsAppend(s: seq<Match>, m: Match)
    ensures Actors(s + [m]) == Actors(s) + [m.actor] && Addressees(s + [m]) == Addressees(s) + [m.to]
  {
  }

  lemma ActorsRemove(s: seq<Match>, k: nat)
    requires k < |s|
    ensures multiset(Actors(Remove(s, k))) + multiset{s[k].actor} == multiset(Actors(s))
    ensures multiset(Addressees(Remove(s, k))) + multiset{s[k].to} == multiset(Addressees(s))
  {
    RemoveCounts(Actors(s), k);
    RemoveCounts(Addressees(s), k);
    assert Actors(Remove(s, k)) == Remove(Actors(s), k);
    assert Addressees(Remove(s, k)) == Remove(Addressees(s), k);
  }

  /** Posting adds one request of o, and takes nothing from the messages. */
  lemma PostCounts(endpoints: seq<Endpoint>, s: State, o: nat)
    ensures Busy(Post(endpoints, s, o)) == Busy(s) + multiset{o} && Kept(Post(endpoints, s, o)) == Kept(s)
  {
    var k := Oldest(endpoints, s.unexpected, o);
    if k < |s.unexpected| {
      RemoveCounts(s.unexpected, k);
      ActorsAppend(s.matched, Match(o, s.unexpected[k]));
    }
  }

  lemma PostPrompt(endpoints: seq<Endpoint>, s: State, o: nat)
    requires Prompt(endpoints, s) && o < |endpoints|
    ensures Prompt(endpoints, Post(endpoints, s, o))
  {
  }

  lemma ArriveCounts(endpoints: seq<Endpoint>, s: State, to: nat)
    ensures Busy(Arrive(endpoints, s, to)) == Busy(s) && Kept(Arrive(endpoints, s, to)) == Kept(s) + multiset{to}
  {
    var k := Oldest(endpoints, s.waiting, to);
    if k < |s.waiting| {
      RemoveCounts(s.waiting, k);
      ActorsAppend(s.matched, Match(s.waiting[k], to));
    }
  }

  lemma CallCounts(endpoints: seq<Endpoint>, s: State, k: nat)
    requires k < |s.matched|
    ensures Busy(Step(endpoints, s, Called(k))) == Busy(s) && Kept(Step(endpoints, s, Called(k))) == Kept(s)
  {
    ActorsRemove(s.matched, k);
    ActorsAppend(s.log, s.matched[k]);
  }

  lemma RepostCounts(endpoints: seq<Endpoint>, s: State, k: nat)
    requires k < |s.calling|
    ensures Busy(Step(endpoints, s, Reposts(k))) == Busy(s) && Kept(Step(endpoints, s, Reposts(k))) == Kept(s)
  {
    var s' := s.(calling := Remove(s.calling, k));
    RemoveCounts(s.calling, k);
    assert Busy(s') + multiset{s.calling[k]} == Busy(s) && Kept(s') == Kept(s);
    PostCounts(endpoints, s', s.calling[k]);
  }

  lemma ArrivePrompt(endpoints: seq<Endpoint>, s: State, to: nat)
    requires Prompt(endpoints, s)
    ensures Prompt(endpoints, Arrive(endpoints, s, to))
  {
  }

  lemma CreateCounts(endpoints: seq<Endpoint>, s: State)
    requires s.created < |endpoints|
    ensures Busy(Step(endpoints, s, Created)) == Busy(s) + multiset{s.created}
    ensures Kept(Step(endpoints, s, Created)) == Kept(s)
  {
    var s' := s.(created := s.created + 1);
    assert Busy(s') == Busy(s) && Kept(s') == Kept(s);
    PostCounts(endpoints, s', s.created);
  }

  lemma StepCounts(endpoints: seq<Endpoint>, s: State, e: Event)
    ensures if e.Created? && s.created < |endpoints| then Busy(Step(endpoints, s, e)) == Busy(s) + multiset{s.created}
            else Busy(Step(endpoints, s, e)) == Busy(s)
    ensures if e.Arrives? && e.to < |endpoints| then Kept(Step(endpoints, s, e)) == Kept(s) + multiset{e.to}
            else Kept(Step(endpoints, s, e)) == Kept(s)
  {
    if e.Created? && s.created < |endpoints| {
      CreateCounts(endpoints, s);
    } else if e.Arrives? && e.to < |endpoints| {
      ArriveCounts(endpoints, s, e.to);
    } else if e.Called? && e.k < |s.matched| {
      CallCounts(endpoints, s, e.k);
    } else if e.Reposts? && e.k < |s.calling| {
      RepostCounts(endpoints, s, e.k);
    } else {
      assert Step(endpoints, s, e) == s;
    }
  }

  lemma StepCreated(endpoints: seq<Endpoint>, s: State, e: Event)
    ensures Step(endpoints, s, e).created == s.created + if e.Created? && s.created < |endpoints| then 1 else 0
  {
  }

  lemma StepPrompt(endpoints: seq<Endpoint>, s: State, e: Event)
    requires Prompt(endpoints, s) && forall k :: 0 <= k < |s.calling| ==> s.calling[k] < |endpoints|
    ensures Prompt(endpoints, Step(endpoints, s, e))
  {
    match e
    case Created =>
      if s.created < |endpoints| {
        PostPrompt(endpoints, s.(created := s.created + 1), s.created);
      }
    case Arrives(to) => ArrivePrompt(endpoints, s, to);
    case Reposts(k) =>
      if k < |s.calling| {
        PostPrompt(endpoints, s.(calling := Remove(s.calling, k)), s.calling[k]);
      }
    case _ =>
  }

  lemma {:induction false} RunCreated(endpoints: seq<Endpoint>, events: seq<Event>)
    ensures Run(endpoints, events).created <= |endpoints|
  {
    if events != [] {
      RunCreated(endpoints, events[..|events| - 1]);
    }
  }

  lemma {:induction false} ExistingCounts(n: nat, o: nat)
    ensures Existing(n)[o] == if o < n then 1 else 0
  {
    if n > 0 {
      ExistingCounts(n - 1, o);
    }
  }

  lemma CallingExist(endpoints: seq<Endpoint>, s: State)
    requires Busy(s) == Existing(s.created) && s.created <= |endpoints|
    ensures forall k :: 0 <= k < |s.calling| ==> s.calling[k] < |endpoints|
  {
    forall k | 0 <= k < |s.calling|
      ensures s.calling[k] < |endpoints|
    {
      assert s.calling[k] in multiset(s.calling);
      assert s.calling[k] in Existing(s.created);
      ExistingCounts(s.created, s.calling[k]);
    }
  }

  lemma {:induction false} RunBusy(endpoints: seq<Endpoint>, events: seq<Event>)
    ensures Busy(Run(endpoints, events)) == Existing(Run(endpoints, events).created)
  {
    if events != [] {
      var s, e := Run(endpoints, events[..|events| - 1]), events[|events| - 1];
      RunBusy(endpoints, events[..|events| - 1]);
      StepCounts(endpoints, s, e);
      StepCreated(endpoints, s, e);
    }
  }

  lemma {:induction false} RunKept(endpoints: seq<Endpoint>, events: seq<Event>)
    ensures Kept(Run(endpoints, events)) == Arrived(endpoints, events)
  {
    if events != [] {
      RunKept(endpoints, events[..|events| - 1]);
      StepCounts(endpoints, Run(endpoints, events[..|events| - 1]), events[|events| - 1]);
    }
  }

  lemma {:induction false} RunPrompt(endpoints: seq<Endpoint>, events: seq<Event>)
    ensures Prompt(endpoints, Run(endpoints, events))
  {
    if events != [] {
      var earlier := events[..|events| - 1];
      RunPrompt(endpoints, earlier);
      RunCreated(endpoints, earlier);
      RunBusy(endpoints, earlier);
      CallingExist(endpoints, Run(endpoints, earlier));
      StepPrompt(endpoints, Run(endpoints, earlier), events[|events| - 1]);
    }
  }

  /** In every state of every run: an object that exists has exactly one request waiting or matched, or its method is
      running and it will post again; a message that arrived is delivered, or matched, or waits unexpected, none lost
      and none twice; and it waits only while no request would take it. */
  lemma NothingLost(endpoints: seq<Endpoint>, events: seq<Event>, o: nat)
    ensures var s := Run(endpoints, events);
      && multiset(s.waiting)[o] + multiset(Actors(s.matched))[o] + multiset(s.calling)[o]
         == (if o < s.created then 1 else 0)
      && multiset(s.unexpected)[o] + multiset(Addressees(s.matched))[o] + multiset(Addressees(s.log))[o]
         == Arrived(endpoints, events)[o]
      && (o in s.unexpected ==> forall w :: w in s.waiting ==> !Same(endpoints, w, o))
  {
    RunBusy(endpoints, events);
    RunKept(endpoints, events);
    RunPrompt(endpoints, events);
    var s := Run(endpoints, events);
    ExistingCounts(s.created, o);
    assert Busy(s)[o] == Existing(s.created)[o] && Kept(s)[o] == Arrived(endpoints, events)[o];
  }

  // ---------------------------------------------------------------- the theorem

  /** Whatever happens, every call is made on the object that the message is for. */
  ghost predicate AlwaysRightful(endpoints: seq<Endpoint>) {
    forall events, k :: 0 <= k < |Run(endpoints, events).log| ==>
      Run(endpoints, events).log[k].actor == Run(endpoints, events).log[k].to
  }

  /** No two receiving objects share communicator and tag. */
  predicate Separate(endpoints: seq<Endpoint>) {
    forall i, j :: 0 <= i < j < |endpoints| ==> endpoints[i] != endpoints[j]
  }

  function Numbers(n: nat): (s: seq<nat>)
    ensures |s| == n && forall i :: 0 <= i < n ==> s[i] == i
  {
    seq(n, i requires 0 <= i => i)
  }

  function Creations(n: nat): seq<Event> {
    if n == 0 then [] else Creations(n - 1) + [Created]
  }

  /** With nothing unexpected, a new object's request waits behind the others. */
  lemma CreateStep(endpoints: seq<Endpoint>, n: nat)
    requires n < |endpoints|
    ensures Step(endpoints, State(n, Numbers(n), [], [], [], []), Created)
         == State(n + 1, Numbers(n + 1), [], [], [], [])
  {
    assert Numbers(n + 1) == Numbers(n) + [n];
  }

  lemma CreateNext(endpoints: seq<Endpoint>, events: seq<Event>, n: nat)
    requires n < |endpoints| && Run(endpoints, events) == State(n, Numbers(n), [], [], [], [])
    ensures Run(endpoints, events + [Created]) == State(n + 1, Numbers(n + 1), [], [], [], [])
  {
    var s := Run(endpoints, events);
    RunNext(endpoints, events, Created);
    CreateStep(endpoints, n);
    assert Step(endpoints, s, Created) == State(n + 1, Numbers(n + 1), [], [], [], []);
  }

  lemma {:induction false} CreateAll(endpoints: seq<Endpoint>, n: nat)
    requires n <= |endpoints|
    ensures Run(endpoints, Creations(n)) == State(n, Numbers(n), [], [], [], [])
  {
    if n > 0 {
      CreateAll(endpoints, n - 1);
      CreateNext(endpoints, Creations(n - 1), n - 1);
    }
  }

  /** The message for j goes to the first object on its endpoint. */
  lemma OldestTakes(endpoints: seq<Endpoint>, i: nat, j: nat) returns (k: nat)
    requires i < j < |endpoints| && endpoints[i] == endpoints[j]
    ensures k <= i
    ensures Run(endpoints, Creations(j + 1) + [Arrives(j)]).matched == [Match(k, j)]
    ensures Run(endpoints, Creations(j + 1) + [Arrives(j)]).log == []
  {
    CreateAll(endpoints, j + 1);
    RunNext(endpoints, Creations(j + 1), Arrives(j));
    var waiting := Numbers(j + 1);
    k := Oldest(endpoints, waiting, j);
    assert Same(endpoints, waiting[i], j);
    assert waiting[k] == k;
  }

  /** The failing run: of two objects on one endpoint, the younger is sent a message. */
  lemma Misdirected(endpoints: seq<Endpoint>, i: nat, j: nat) returns (events: seq<Event>)
    requires i < j < |endpoints| && endpoints[i] == endpoints[j]
    ensures |Run(endpoints, events).log| == 1
    ensures Run(endpoints, events).log[0].to == j && Run(endpoints, events).log[0].actor <= i
  {
    var before := Creations(j + 1) + [Arrives(j)];
    var k := OldestTakes(endpoints, i, j);
    RunNext(endpoints, before, Called(0));
    events := before + [Called(0)];
    assert Run(endpoints, events).log == [Match(k, j)];
  }

  /** Every call reaches the object it is for, in every run, if and only if no two receiving objects of the process
      share communicator and tag. */
  lemma RightfulIff(endpoints: seq<Endpoint>)
    ensures AlwaysRightful(endpoints) <==> Separate(endpoints)
  {
    if Separate(endpoints) {
      forall events, k | 0 <= k < |Run(endpoints, events).log|
        ensures Run(endpoints, events).log[k].actor == Run(endpoints, events).log[k].to
      {
        RunSame(endpoints, events);
      }
    } else {
      var i, j :| 0 <= i < j < |endpoints| && endpoints[i] == endpoints[j];
      var events := Misdirected(endpoints, i, j);
      assert Run(endpoints, events).log[0].actor != Run(endpoints, events).log[0].to;
    }
  }
}
