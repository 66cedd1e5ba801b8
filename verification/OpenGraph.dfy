/**
  The Open Graph fetch coordinator of cmd/api/helpers.go: a cache, one flight per
  URL, and at most twenty concurrent fetches per user, with timeouts, panics and
  cache expiry. Any number of calls run concurrently; `Do` is one step of one of
  them and a run is any sequence of steps.
 */
module OpenGraph {

  const USER_FETCH_LIMIT: nat := 20

  datatype Preview = Preview(title: string, description: string, image: seq<int>)

  /** `Nothing` is what callers see after a timeout or a panic: empty title, description and image. */
  datatype Outcome = Got(preview: Preview) | Nothing

  /** The function run under singleflight: waiting for a token, fetching, unwinding, or done. */
  datatype Phase =
    | Waiting
    | Fetching
    | Unwinding(outcome: Outcome)
    | Returned(outcome: Outcome)
  {
    /** A token has been taken from the user's pool and not yet put back. */
    predicate HoldsToken() {
      Fetching? || Unwinding?
    }
  }

  datatype Flight = Flight(url: string, user: string, phase: Phase)

  /** A getOpenGraphData call; `via` is the flight that answered it, if it was not the cache. */
  datatype Source = Cache | Via(flight: nat)
  datatype Status = Looking | Missed | Blocked(flight: nat) | Answered(outcome: Outcome, source: Source)
  datatype Call = Call(url: string, user: string, status: Status)

  /**
    `group` is singleflight's map from URL to the flight in progress, `pools` the
    number of tokens in each user's channel. `fetched` and `outcomes` record, for
    the specification, every completed fetch and how every flight ended.
   */
  datatype State = State(
    cache: map<string, Preview>,
    group: map<string, nat>,
    flights: map<nat, Flight>,
    pools: map<string, nat>,
    calls: map<nat, Call>,
    nextFlight: nat,
    fetched: set<(string, Preview)>,
    outcomes: map<nat, Outcome>)

  datatype Event =
    | Arrive(c: nat, url: string, user: string)
    | LookUp(c: nat)
    | Enter(c: nat)
    | Acquire(f: nat)
    | TimeOut(f: nat)
    | Fetch(f: nat, preview: Preview)
    | Panic(f: nat)
    | Release(f: nat)
    | Finish(f: nat)
    | Expire(url: string)

  function Tokens(s: State, user: string): nat {
    if user in s.pools then s.pools[user] else 0
  }

  function SetCall(s: State, c: nat, status: Status): State
    requires c in s.calls
  {
    s.(calls := s.calls[c := s.calls[c].(status := status)])
  }

  function SetPhase(s: State, f: nat, phase: Phase): State
    requires f in s.flights
  {
    s.(flights := s.flights[f := s.flights[f].(phase := phase)])
  }

  /** Everyone blocked on flight f, its leader included, gets its outcome. */
  function Deliver(calls: map<nat, Call>, f: nat, o: Outcome): map<nat, Call> {
    map c | c in calls :: if calls[c].status == Blocked(f) then calls[c].(status := Answered(o, Via(f))) else calls[c]
  }

  function EnterGroup(s: State, c: nat): State
    requires c in s.calls
  {
    var url := s.calls[c].url;
    if url in s.group then SetCall(s, c, Blocked(s.group[url]))
    else
      var f := s.nextFlight;
      SetCall(s, c, Blocked(f)).(
        group := s.group[url := f],
        flights := s.flights[f := Flight(url, s.calls[c].user, Waiting)],
        nextFlight := f + 1)
  }

  function FinishFlight(s: State, f: nat, o: Outcome): State
    requires f in s.flights
  {
    s.(group := s.group - {s.flights[f].url}, flights := s.flights - {f},
       calls := Deliver(s.calls, f, o), outcomes := s.outcomes[f := o])
  }

  /** One step; an event that is not possible in s leaves it unchanged. */
  function Do(s: State, e: Event): State {
    match e
    case Arrive(c, url, user) =>
      if c in s.calls then s else s.(calls := s.calls[c := Call(url, user, Looking)])
    case LookUp(c) =>
      if c !in s.calls || !s.calls[c].status.Looking? then s
      else if s.calls[c].url in s.cache then SetCall(s, c, Answered(Got(s.cache[s.calls[c].url]), Cache))
      else SetCall(s, c, Missed)
    case Enter(c) =>
      if c !in s.calls || !s.calls[c].status.Missed? then s else EnterGroup(s, c)
    case Acquire(f) =>
      if f !in s.flights || !s.flights[f].phase.Waiting? then s
      else
        var user := s.flights[f].user;
        if Tokens(s, user) >= USER_FETCH_LIMIT then s
        else SetPhase(s, f, Fetching).(pools := s.pools[user := Tokens(s, user) + 1])
    case TimeOut(f) =>
      if f in s.flights && s.flights[f].phase.Waiting? then SetPhase(s, f, Returned(Nothing)) else s
    case Fetch(f, p) =>
      if f !in s.flights || !s.flights[f].phase.Fetching? then s
      else
        var url := s.flights[f].url;
        SetPhase(s, f, Unwinding(Got(p))).(cache := s.cache[url := p], fetched := s.fetched + {(url, p)})
    case Panic(f) =>
      if f in s.flights && s.flights[f].phase.Fetching? then SetPhase(s, f, Unwinding(Nothing)) else s
    case Release(f) =>
      if f !in s.flights || !s.flights[f].phase.Unwinding? then s
      else
        var user := s.flights[f].user;
        SetPhase(s, f, Returned(s.flights[f].phase.outcome)).(
          pools := s.pools[user := if Tokens(s, user) == 0 then 0 else Tokens(s, user) - 1])
    case Finish(f) =>
      if f in s.flights && s.flights[f].phase.Returned? then FinishFlight(s, f, s.flights[f].phase.outcome) else s
    case Expire(url) => s.(cache := s.cache - {url})
  }

  function Run(s: State, es: seq<Event>): State {
    if es == [] then s else Do(Run(s, es[..|es| - 1]), es[|es| - 1])
  }

  // ---------------------------------------------------------------------
  // Invariants
  // ---------------------------------------------------------------------

  /** A flight is in progress exactly while its URL maps to it. */
  ghost predicate OneFlightPerUrl(s: State) {
    && (forall url <- s.group :: s.group[url] in s.flights && s.flights[s.group[url]].url == url)
    && (forall f <- s.flights :: s.flights[f].url in s.group && s.group[s.flights[f].url] == f)
    && (forall f <- s.flights :: f < s.nextFlight)
    && (forall f <- s.outcomes :: f < s.nextFlight && f !in s.flights)
  }

  /** The flights led by a user that hold one of that user's tokens. */
  function Holders(flights: map<nat, Flight>, user: string): set<nat> {
    set f | f in flights && flights[f].user == user && flights[f].phase.HoldsToken()
  }

  ghost predicate TokensMatchHolders(s: State) {
    forall user: string :: Tokens(s, user) == |Holders(s.flights, user)| <= USER_FETCH_LIMIT
  }

  /** o is either nothing or the result of a completed fetch of url. */
  ghost predicate Genuine(s: State, url: string, o: Outcome) {
    o.Got? ==> (url, o.preview) in s.fetched
  }

  ghost predicate ResultsGenuine(s: State) {
    && (forall url <- s.cache :: Genuine(s, url, Got(s.cache[url])))
    && (forall f <- s.flights ::
          s.flights[f].phase.Unwinding? || s.flights[f].phase.Returned? ==>
            Genuine(s, s.flights[f].url, s.flights[f].phase.outcome))
  }

  ghost predicate CallInv(s: State, call: Call) {
    match call.status
    case Blocked(f) => f in s.flights && s.flights[f].url == call.url
    case Answered(o, source) =>
      Genuine(s, call.url, o) && (source.Via? ==> source.flight in s.outcomes && s.outcomes[source.flight] == o)
    case _ => true
  }

  ghost predicate Inv(s: State) {
    && OneFlightPerUrl(s)
    && TokensMatchHolders(s)
    && ResultsGenuine(s)
    && forall c <- s.calls :: CallInv(s, s.calls[c])
  }

  // ---------------------------------------------------------------------
  // Every step keeps them
  // ---------------------------------------------------------------------

  lemma HoldersAfter(flights: map<nat, Flight>, f: nat, after: Flight, user: string)
    requires f in flights ==> flights[f].user == after.user
    ensures Holders(flights[f := after], user) ==
            if user != after.user then Holders(flights, user)
            else if after.phase.HoldsToken() then Holders(flights, user) + {f}
            else Holders(flights, user) - {f}
  {
  }

  /** A flight changes phase; tokens, cache and fetch log change with it or stay. */
  lemma PhaseKeepsFlights(s: State, f: nat, phase: Phase, t: State)
    requires OneFlightPerUrl(s) && f in s.flights && t.flights == SetPhase(s, f, phase).flights
    requires t.group == s.group && t.nextFlight == s.nextFlight && t.outcomes == s.outcomes
    ensures OneFlightPerUrl(t)
  {
  }

  lemma PhaseKeepsTokens(s: State, f: nat, phase: Phase, t: State)
    requires TokensMatchHolders(s) && f in s.flights && t.flights == SetPhase(s, f, phase).flights
    requires forall user: string ::
               Tokens(t, user) == Tokens(s, user) +
                 if user != s.flights[f].user || phase.HoldsToken() == s.flights[f].phase.HoldsToken() then 0
                 else if phase.HoldsToken() then 1 else -1
    requires Tokens(t, s.flights[f].user) <= USER_FETCH_LIMIT
    ensures TokensMatchHolders(t)
  {
    forall user: string
      ensures Tokens(t, user) == |Holders(t.flights, user)| <= USER_FETCH_LIMIT
    {
      assert Tokens(s, user) == |Holders(s.flights, user)| <= USER_FETCH_LIMIT;
      HoldersAfter(s.flights, f, t.flights[f], user);
      if user == s.flights[f].user {
        var before := Holders(s.flights, user);
        if s.flights[f].phase.HoldsToken() {
          assert f in before && before + {f} == before;
        } else {
          assert f !in before && before - {f} == before;
        }
      }
    }
  }

  /** Calls only look at the URL of a flight, the outcomes and the fetch log. */
  lemma CallsKept(s: State, t: State)
    requires forall c <- s.calls :: CallInv(s, s.calls[c])
    requires t.calls == s.calls && s.fetched <= t.fetched && t.outcomes == s.outcomes
    requires forall f <- s.flights :: f in t.flights && t.flights[f].url == s.flights[f].url
    ensures forall c <- t.calls :: CallInv(t, t.calls[c])
  {
    forall c | c in t.calls
      ensures CallInv(t, t.calls[c])
    {
      assert CallInv(s, s.calls[c]);
    }
  }

  lemma PhaseKeepsInv(s: State, f: nat, phase: Phase, t: State)
    requires Inv(s) && f in s.flights && t.flights == SetPhase(s, f, phase).flights
    requires t.group == s.group && t.nextFlight == s.nextFlight && t.outcomes == s.outcomes && t.calls == s.calls
    requires s.fetched <= t.fetched && ResultsGenuine(t)
    requires forall user: string ::
               Tokens(t, user) == Tokens(s, user) +
                 if user != s.flights[f].user || phase.HoldsToken() == s.flights[f].phase.HoldsToken() then 0
                 else if phase.HoldsToken() then 1 else -1
    requires Tokens(t, s.flights[f].user) <= USER_FETCH_LIMIT
    ensures Inv(t)
  {
    PhaseKeepsFlights(s, f, phase, t);
    PhaseKeepsTokens(s, f, phase, t);
    CallsKept(s, t);
  }

  lemma AcquireKeepsInv(s: State, f: nat)
    requires Inv(s)
    ensures Inv(Do(s, Acquire(f)))
  {
    var t := Do(s, Acquire(f));
    if t != s {
      PhaseKeepsInv(s, f, Fetching, t);
    }
  }

  lemma TimeOutKeepsInv(s: State, f: nat)
    requires Inv(s)
    ensures Inv(Do(s, TimeOut(f)))
  {
    var t := Do(s, TimeOut(f));
    if t != s {
      assert Tokens(s, s.flights[f].user) <= USER_FETCH_LIMIT;
      PhaseKeepsInv(s, f, Returned(Nothing), t);
    }
  }

  lemma FetchKeepsInv(s: State, f: nat, p: Preview)
    requires Inv(s)
    ensures Inv(Do(s, Fetch(f, p)))
  {
    var t := Do(s, Fetch(f, p));
    if t != s {
      assert Tokens(s, s.flights[f].user) <= USER_FETCH_LIMIT;
      PhaseKeepsInv(s, f, Unwinding(Got(p)), t);
    }
  }

  lemma PanicKeepsInv(s: State, f: nat)
    requires Inv(s)
    ensures Inv(Do(s, Panic(f)))
  {
    var t := Do(s, Panic(f));
    if t != s {
      assert Tokens(s, s.flights[f].user) <= USER_FETCH_LIMIT;
      PhaseKeepsInv(s, f, Unwinding(Nothing), t);
    }
  }

  /** The channel receive never blocks: an unwinding flight's own token is still in the pool. */
  lemma ReleaseKeepsInv(s: State, f: nat)
    requires Inv(s)
    ensures Inv(Do(s, Release(f)))
    ensures f in s.flights && s.flights[f].phase.Unwinding? ==> Tokens(s, s.flights[f].user) > 0
  {
    if f in s.flights && s.flights[f].phase.Unwinding? {
      var user := s.flights[f].user;
      assert Tokens(s, user) == |Holders(s.flights, user)| <= USER_FETCH_LIMIT;
      assert f in Holders(s.flights, user);
      PhaseKeepsInv(s, f, Returned(s.flights[f].phase.outcome), Do(s, Release(f)));
    }
  }

  /** s and t differ at most in their calls. */
  ghost predicate SameButCalls(s: State, t: State) {
    && t.cache == s.cache && t.group == s.group && t.flights == s.flights && t.pools == s.pools
    && t.nextFlight == s.nextFlight && t.fetched == s.fetched && t.outcomes == s.outcomes
  }

  lemma CallChangesKeep(s: State, t: State)
    requires SameButCalls(s, t) && OneFlightPerUrl(s) && TokensMatchHolders(s) && ResultsGenuine(s)
    ensures OneFlightPerUrl(t) && TokensMatchHolders(t) && ResultsGenuine(t)
  {
    TokensKept(s, t);
  }

  lemma CallInvKept(s: State, t: State, call: Call)
    requires SameButCalls(s, t) && CallInv(s, call)
    ensures CallInv(t, call)
  {
  }

  /** Only the status of call c changes, to one that fits. */
  lemma SetCallKeepsInv(s: State, c: nat, status: Status)
    requires Inv(s) && c in s.calls && CallInv(s, s.calls[c].(status := status))
    ensures Inv(SetCall(s, c, status))
  {
    var t := SetCall(s, c, status);
    CallChangesKeep(s, t);
    forall d | d in t.calls
      ensures CallInv(t, t.calls[d])
    {
      CallInvKept(s, t, t.calls[d]);
    }
  }

  lemma TokensKept(s: State, t: State)
    requires TokensMatchHolders(s) && t.pools == s.pools
    requires forall user: string :: Holders(t.flights, user) == Holders(s.flights, user)
    ensures TokensMatchHolders(t)
  {
    forall user: string
      ensures Tokens(t, user) == |Holders(t.flights, user)| <= USER_FETCH_LIMIT
    {
      assert Tokens(s, user) == |Holders(s.flights, user)| <= USER_FETCH_LIMIT;
    }
  }

  /** Opening a flight for a URL that has none. */
  function Open(s: State, url: string, user: string): State {
    s.(group := s.group[url := s.nextFlight], flights := s.flights[s.nextFlight := Flight(url, user, Waiting)],
       nextFlight := s.nextFlight + 1)
  }

  lemma OpenKeepsFlights(s: State, url: string, user: string)
    requires OneFlightPerUrl(s) && url !in s.group
    ensures OneFlightPerUrl(Open(s, url, user)) && s.nextFlight !in s.flights
  {
  }

  lemma OpenKeepsTokens(s: State, url: string, user: string)
    requires TokensMatchHolders(s) && s.nextFlight !in s.flights
    ensures TokensMatchHolders(Open(s, url, user))
  {
    var t := Open(s, url, user);
    forall u: string
      ensures Holders(t.flights, u) == Holders(s.flights, u)
    {
      HoldersAfter(s.flights, s.nextFlight, t.flights[s.nextFlight], u);
    }
    TokensKept(s, t);
  }

  lemma OpenKeepsResults(s: State, url: string, user: string)
    requires ResultsGenuine(s)
    ensures ResultsGenuine(Open(s, url, user))
  {
  }

  lemma OpenKeepsInv(s: State, url: string, user: string)
    requires Inv(s) && url !in s.group
    ensures Inv(Open(s, url, user))
  {
    OpenKeepsFlights(s, url, user);
    OpenKeepsTokens(s, url, user);
    OpenKeepsResults(s, url, user);
    CallsKept(s, Open(s, url, user));
  }

  lemma EnterKeepsInv(s: State, c: nat)
    requires Inv(s)
    ensures Inv(Do(s, Enter(c)))
  {
    if c in s.calls && s.calls[c].status.Missed? {
      var url := s.calls[c].url;
      if url in s.group {
        SetCallKeepsInv(s, c, Blocked(s.group[url]));
      } else {
        var t := Open(s, url, s.calls[c].user);
        OpenKeepsInv(s, url, s.calls[c].user);
        SetCallKeepsInv(t, c, Blocked(s.nextFlight));
        assert Do(s, Enter(c)) == SetCall(t, c, Blocked(s.nextFlight));
      }
    }
  }

  lemma FinishKeepsFlights(s: State, f: nat, o: Outcome)
    requires OneFlightPerUrl(s) && f in s.flights
    ensures OneFlightPerUrl(FinishFlight(s, f, o))
  {
  }

  lemma FinishKeepsCalls(s: State, f: nat, o: Outcome)
    requires Inv(s) && f in s.flights && Genuine(s, s.flights[f].url, o)
    ensures var t := FinishFlight(s, f, o);
            forall d <- t.calls :: CallInv(t, t.calls[d])
  {
    var t := FinishFlight(s, f, o);
    forall d | d in t.calls
      ensures CallInv(t, t.calls[d])
    {
      assert CallInv(s, s.calls[d]);
    }
  }

  /** Everyone who joined gets the flight's own outcome, nobody else's status changes, and the URL becomes free. */
  lemma FinishKeepsInv(s: State, f: nat)
    requires Inv(s)
    ensures Inv(Do(s, Finish(f)))
    ensures f in s.flights && s.flights[f].phase.Returned? ==>
              var t, o := Do(s, Finish(f)), s.flights[f].phase.outcome;
              && f !in t.flights && s.flights[f].url !in t.group && t.calls.Keys == s.calls.Keys
              && forall c <- s.calls ::
                   t.calls[c].status == if s.calls[c].status == Blocked(f) then Answered(o, Via(f)) else s.calls[c].status
  {
    if f in s.flights && s.flights[f].phase.Returned? {
      var o := s.flights[f].phase.outcome;
      var t := FinishFlight(s, f, o);
      FinishKeepsFlights(s, f, o);
      FinishKeepsCalls(s, f, o);
      HoldersAtFinish(s, f, o);
      TokensKept(s, t);
    }
  }

  lemma HoldersAtFinish(s: State, f: nat, o: Outcome)
    requires f in s.flights && s.flights[f].phase.Returned?
    ensures forall user: string :: Holders(FinishFlight(s, f, o).flights, user) == Holders(s.flights, user)
  {
  }

  lemma ArriveKeepsInv(s: State, c: nat, url: string, user: string)
    requires Inv(s)
    ensures Inv(Do(s, Arrive(c, url, user)))
  {
    if c !in s.calls {
      var t := s.(calls := s.calls[c := Call(url, user, Looking)]);
      assert Do(s, Arrive(c, url, user)) == t;
      CallChangesKeep(s, t);
      forall d | d in t.calls
        ensures CallInv(t, t.calls[d])
      {
        if d != c {
          CallInvKept(s, t, s.calls[d]);
        }
      }
    }
  }

  lemma LookUpKeepsInv(s: State, c: nat)
    requires Inv(s)
    ensures Inv(Do(s, LookUp(c)))
  {
    if c in s.calls && s.calls[c].status.Looking? {
      var url := s.calls[c].url;
      if url in s.cache {
        assert Genuine(s, url, Got(s.cache[url]));
        SetCallKeepsInv(s, c, Answered(Got(s.cache[url]), Cache));
      } else {
        SetCallKeepsInv(s, c, Missed);
      }
    }
  }

  lemma ExpireKeepsInv(s: State, url: string)
    requires Inv(s)
    ensures Inv(Do(s, Expire(url)))
  {
    TokensKept(s, Do(s, Expire(url)));
    CallsKept(s, Do(s, Expire(url)));
  }

  lemma DoKeepsInv(s: State, e: Event)
    requires Inv(s)
    ensures Inv(Do(s, e))
  {
    match e
    case Enter(c) => EnterKeepsInv(s, c);
    case Acquire(f) => AcquireKeepsInv(s, f);
    case TimeOut(f) => TimeOutKeepsInv(s, f);
    case Fetch(f, p) => FetchKeepsInv(s, f, p);
    case Panic(f) => PanicKeepsInv(s, f);
    case Release(f) => ReleaseKeepsInv(s, f);
    case Finish(f) => FinishKeepsInv(s, f);
    case Arrive(c, url, user) => ArriveKeepsInv(s, c, url, user);
    case LookUp(c) => LookUpKeepsInv(s, c);
    case Expire(url) => ExpireKeepsInv(s, url);
  }

  ghost predicate Init(s: State) {
    s.cache == map[] && s.group == map[] && s.flights == map[] && s.pools == map[] && s.calls == map[] &&
    s.outcomes == map[] && s.fetched == {}
  }

  lemma {:induction false} RunKeepsInv(s: State, es: seq<Event>)
    requires Inv(s)
    ensures Inv(Run(s, es))
    decreases |es|
  {
    if es != [] {
      RunKeepsInv(s, es[..|es| - 1]);
      DoKeepsInv(Run(s, es[..|es| - 1]), es[|es| - 1]);
    }
  }

  // ---------------------------------------------------------------------
  // The guarantees
  // ---------------------------------------------------------------------

  /** Both were answered, and by the same flight. */
  predicate SameFlight(a: Status, b: Status) {
    a.Answered? && b.Answered? && a.source.Via? && a.source == b.source
  }

  /**
    In every reachable state: two flights never have the same URL; the tokens in
    a user's pool are exactly the running fetches that user leads, and at most
    twenty; every cached preview and every answered preview came from a completed
    fetch of that very URL; and two calls answered by one flight got the same
    outcome.
   */
  lemma CoordinatorSafety(s: State, es: seq<Event>)
    requires Init(s)
    ensures var t := Run(s, es);
            && (forall f, g :: f in t.flights && g in t.flights && t.flights[f].url == t.flights[g].url ==> f == g)
            && (forall user: string :: Tokens(t, user) == |Holders(t.flights, user)| <= 20)
            && (forall url <- t.cache :: (url, t.cache[url]) in t.fetched)
            && (forall c <- t.calls :: t.calls[c].status.Answered? && t.calls[c].status.outcome.Got? ==>
                  (t.calls[c].url, t.calls[c].status.outcome.preview) in t.fetched)
            && (forall c, d :: c in t.calls && d in t.calls && SameFlight(t.calls[c].status, t.calls[d].status) ==>
                  t.calls[c].status.outcome == t.calls[d].status.outcome)
  {
    InitInv(s);
    RunKeepsInv(s, es);
    var t := Run(s, es);
    forall c | c in t.calls
      ensures CallInv(t, t.calls[c])
    {
    }
  }

  // ---------------------------------------------------------------------
  // What each call gets, and why
  // ---------------------------------------------------------------------

  /** A call that finds its URL in the cache is answered at once; one that does not goes on to the group. */
  lemma LookUpAnswers(s: State, c: nat)
    requires c in s.calls && s.calls[c].status == Looking
    ensures var t, url := Do(s, LookUp(c)), s.calls[c].url;
            && c in t.calls
            && (url in s.cache ==> t.calls[c].status == Answered(Got(s.cache[url]), Cache))
            && (url !in s.cache ==> t.calls[c].status == Missed)
            && t == s.(calls := t.calls) && t.calls == s.calls[c := s.calls[c].(status := t.calls[c].status)]
  {
  }

  /** A call that missed joins the flight for its URL if there is one, else it opens one and leads it. */
  lemma EnterJoinsOrLeads(s: State, c: nat)
    requires OneFlightPerUrl(s) && c in s.calls && s.calls[c].status == Missed
    ensures var t, url := Do(s, Enter(c)), s.calls[c].url;
            && c in t.calls && t.calls[c].status.Blocked? && url in t.group && t.group[url] == t.calls[c].status.flight
            && (url in s.group ==> t.group == s.group && t.flights == s.flights)
            && (url !in s.group ==>
                  var f := t.group[url];
                  f !in s.flights && f !in s.outcomes && t.flights == s.flights[f := Flight(url, s.calls[c].user, Waiting)])
  {
  }

  /** A waiting flight starts fetching exactly when its user has fewer than twenty fetches running. */
  lemma AcquireStartsIff(s: State, f: nat)
    requires Inv(s) && f in s.flights && s.flights[f].phase == Waiting
    ensures var t, user := Do(s, Acquire(f)), s.flights[f].user;
            f in t.flights && (t.flights[f].phase == Fetching <==> |Holders(s.flights, user)| < 20)
  {
    assert Tokens(s, s.flights[f].user) == |Holders(s.flights, s.flights[f].user)|;
  }

  /** A completed fetch is cached under its URL; nothing else in the cache changes. */
  lemma FetchIsCached(s: State, f: nat, p: Preview)
    requires f in s.flights && s.flights[f].phase == Fetching
    ensures Do(s, Fetch(f, p)).cache == s.cache[s.flights[f].url := p]
  {
  }

  /** A cached preview stays until it expires or a later fetch of the same URL replaces it. */
  lemma CacheKept(s: State, e: Event, url: string)
    requires url in s.cache && e != Expire(url)
    requires e.Fetch? && e.f in s.flights ==> s.flights[e.f].url != url
    ensures url in Do(s, e).cache && Do(s, e).cache[url] == s.cache[url]
  {
  }

  /** An expired URL is forgotten, and only that. */
  lemma ExpireForgets(s: State, url: string)
    ensures url !in Do(s, Expire(url)).cache
    ensures forall u <- s.cache :: u != url ==> u in Do(s, Expire(url)).cache && Do(s, Expire(url)).cache[u] == s.cache[u]
    ensures Do(s, Expire(url)) == s.(cache := Do(s, Expire(url)).cache)
  {
  }

  /** In state s, event e decides that flight f ends with outcome o. */
  predicate Decides(s: State, e: Event, f: nat, o: Outcome) {
    && f in s.flights
    && match s.flights[f].phase
       case Waiting => e == TimeOut(f) && o == Nothing
       case Fetching => (e == Panic(f) && o == Nothing) || (o.Got? && e == Fetch(f, o.preview))
       case _ => false
  }

  /** Flight f has been decided: it is on its way out with outcome o, or has ended with it. */
  predicate Settled(s: State, f: nat, o: Outcome) {
    if f in s.flights then s.flights[f].phase == Unwinding(o) || s.flights[f].phase == Returned(o)
    else f in s.outcomes && s.outcomes[f] == o
  }

  /** A deciding event settles its flight. */
  lemma DecidesSettles(s: State, e: Event, f: nat, o: Outcome)
    requires Decides(s, e, f, o)
    ensures Settled(Do(s, e), f, o)
  {
  }

  /** Nothing unsettles a flight. */
  lemma SettledStays(s: State, e: Event, f: nat, o: Outcome)
    requires OneFlightPerUrl(s) && Settled(s, f, o)
    ensures Settled(Do(s, e), f, o)
  {
    if e.Enter? {
      EnterLeaves(s, e.c, f);
    } else if e.Finish? {
      FinishLeaves(s, e.f, f);
    } else if MovesFlight(e) && e.f == f {
      if f in s.flights {
        OwnStep(s, e);
      } else {
        NoStep(s, e);
      }
    } else {
      OtherStep(s, e, f);
    }
  }

  /** Only a deciding event settles a flight. */
  lemma SettledBecause(s: State, e: Event, f: nat, o: Outcome)
    requires OneFlightPerUrl(s) && Settled(Do(s, e), f, o)
    ensures Settled(s, f, o) || Decides(s, e, f, o)
  {
    if e.Enter? {
      EnterLeaves(s, e.c, f);
    } else if e.Finish? {
      FinishLeaves(s, e.f, f);
    } else if MovesFlight(e) && e.f == f {
      if f in s.flights {
        OwnStep(s, e);
      } else {
        NoStep(s, e);
      }
    } else {
      OtherStep(s, e, f);
    }
  }

  /** Entering the group changes no flight there is, and a new one starts out waiting. */
  lemma EnterLeaves(s: State, c: nat, f: nat)
    requires OneFlightPerUrl(s)
    ensures var t := Do(s, Enter(c));
            && t.outcomes == s.outcomes
            && (f in s.flights ==> f in t.flights && t.flights[f] == s.flights[f])
            && (f !in s.flights && f in t.flights ==> t.flights[f].phase == Waiting && f !in s.outcomes)
  {
  }

  /** Finishing flight g removes it, and records its own outcome. */
  lemma FinishLeaves(s: State, g: nat, f: nat)
    ensures var t := Do(s, Finish(g));
            if f == g && g in s.flights && s.flights[g].phase.Returned?
            then f !in t.flights && f in t.outcomes && t.outcomes[f] == s.flights[g].phase.outcome
            else (f in t.flights <==> f in s.flights) && (f in s.flights ==> t.flights[f] == s.flights[f])
                 && (f in t.outcomes <==> f in s.outcomes) && (f in s.outcomes ==> t.outcomes[f] == s.outcomes[f])
  {
  }

  /** The phase a flight's own event leads to; a full pool keeps it waiting. */
  function NextPhase(phase: Phase, e: Event, full: bool): Phase {
    match phase
    case Waiting => if e.TimeOut? then Returned(Nothing) else if e.Acquire? && !full then Fetching else phase
    case Fetching => if e.Panic? then Unwinding(Nothing) else if e.Fetch? then Unwinding(Got(e.preview)) else phase
    case Unwinding(o) => if e.Release? then Returned(o) else phase
    case Returned(_) => phase
  }

  predicate MovesFlight(e: Event) {
    e.Acquire? || e.TimeOut? || e.Fetch? || e.Panic? || e.Release?
  }

  /** Flight f is in phase `phase` and nothing has ended. */
  predicate MovedTo(s: State, t: State, f: nat, phase: Phase) {
    t.outcomes == s.outcomes && t.flights.Keys == s.flights.Keys && f in t.flights && t.flights[f].phase == phase
  }

  lemma StartStep(s: State, e: Event)
    requires (e.Acquire? || e.TimeOut?) && e.f in s.flights
    ensures MovedTo(s, Do(s, e), e.f, NextPhase(s.flights[e.f].phase, e, Tokens(s, s.flights[e.f].user) >= 20))
  {
  }

  lemma FetchStep(s: State, e: Event)
    requires (e.Fetch? || e.Panic?) && e.f in s.flights
    ensures MovedTo(s, Do(s, e), e.f, NextPhase(s.flights[e.f].phase, e, Tokens(s, s.flights[e.f].user) >= 20))
  {
  }

  lemma ReleaseStep(s: State, e: Event)
    requires e.Release? && e.f in s.flights
    ensures MovedTo(s, Do(s, e), e.f, NextPhase(s.flights[e.f].phase, e, Tokens(s, s.flights[e.f].user) >= 20))
  {
  }

  /** A flight's own events move it along its phases. */
  lemma OwnStep(s: State, e: Event)
    requires MovesFlight(e) && e.f in s.flights
    ensures MovedTo(s, Do(s, e), e.f, NextPhase(s.flights[e.f].phase, e, Tokens(s, s.flights[e.f].user) >= 20))
  {
    if e.Acquire? || e.TimeOut? {
      StartStep(s, e);
    } else if e.Release? {
      ReleaseStep(s, e);
    } else {
      FetchStep(s, e);
    }
  }

  /** Flight f, if it is there, stays in its phase, and nothing ends. */
  predicate Unmoved(s: State, t: State, f: nat) {
    && t.outcomes == s.outcomes && (f in t.flights <==> f in s.flights)
    && (f in s.flights ==> t.flights[f].phase == s.flights[f].phase)
  }

  lemma StartLeaves(s: State, e: Event, f: nat)
    requires (e.Acquire? || e.TimeOut?) && e.f != f
    ensures Unmoved(s, Do(s, e), f)
  {
  }

  lemma FetchLeaves(s: State, e: Event, f: nat)
    requires (e.Fetch? || e.Panic?) && e.f != f
    ensures Unmoved(s, Do(s, e), f)
  {
  }

  lemma ReleaseLeaves(s: State, e: Event, f: nat)
    requires e.Release? && e.f != f
    ensures Unmoved(s, Do(s, e), f)
  {
  }

  lemma CallLeaves(s: State, e: Event, f: nat)
    requires e.Arrive? || e.LookUp? || e.Expire?
    ensures Unmoved(s, Do(s, e), f)
  {
  }

  /** Events of other flights and calls leave it in its phase, and end nothing. */
  lemma OtherStep(s: State, e: Event, f: nat)
    requires !e.Enter? && !e.Finish? && (MovesFlight(e) ==> e.f != f)
    ensures Unmoved(s, Do(s, e), f)
  {
    if e.Acquire? || e.TimeOut? {
      StartLeaves(s, e, f);
    } else if e.Fetch? || e.Panic? {
      FetchLeaves(s, e, f);
    } else if e.Release? {
      ReleaseLeaves(s, e, f);
    } else {
      CallLeaves(s, e, f);
    }
  }

  /** A flight that is not there has no events of its own. */
  lemma NoStep(s: State, e: Event)
    requires MovesFlight(e) && e.f !in s.flights
    ensures Do(s, e) == s
  {
  }

  /** The k-th event of the run decided that f ends with o. */
  predicate DecidedAt(s: State, es: seq<Event>, k: nat, f: nat, o: Outcome) {
    k < |es| && Decides(Run(s, es[..k]), es[k], f, o)
  }

  lemma DecidedEarlier(s: State, es: seq<Event>, n: nat, k: nat, f: nat, o: Outcome)
    requires n <= |es| && DecidedAt(s, es[..n], k, f, o)
    ensures DecidedAt(s, es, k, f, o)
  {
    assert es[..n][..k] == es[..k];
  }

  lemma {:induction false} SettledWasDecided(s: State, es: seq<Event>, f: nat, o: Outcome)
    requires Init(s) && Settled(Run(s, es), f, o)
    ensures exists k: nat :: DecidedAt(s, es, k, f, o)
    decreases |es|
  {
    if es != [] {
      var n := |es| - 1;
      InitInv(s);
      RunKeepsInv(s, es[..n]);
      assert OneFlightPerUrl(Run(s, es[..n]));
      SettledBecause(Run(s, es[..n]), es[n], f, o);
      if Settled(Run(s, es[..n]), f, o) {
        SettledWasDecided(s, es[..n], f, o);
        var k: nat :| DecidedAt(s, es[..n], k, f, o);
        DecidedEarlier(s, es, n, k, f, o);
      } else {
        assert DecidedAt(s, es, n, f, o);
      }
    }
  }

  lemma {:induction false} DecidedStaysSettled(s: State, es: seq<Event>, k: nat, f: nat, o: Outcome)
    requires Init(s) && DecidedAt(s, es, k, f, o)
    ensures Settled(Run(s, es), f, o)
    decreases |es|
  {
    var n := |es| - 1;
    InitInv(s);
    RunKeepsInv(s, es[..n]);
    if k == n {
      DecidesSettles(Run(s, es[..n]), es[n], f, o);
    } else {
      assert es[..n][..k] == es[..k];
      DecidedStaysSettled(s, es[..n], k, f, o);
      SettledStays(Run(s, es[..n]), es[n], f, o);
    }
  }

  /**
    Over every run, how a flight ended is decided by what happened to it and by
    nothing else: preview p exactly when a fetch of it completed with p, nothing
    exactly when it timed out waiting or panicked while fetching.
   */
  lemma OutcomeIffDecided(s: State, es: seq<Event>, f: nat, o: Outcome)
    requires Init(s) && f in Run(s, es).outcomes
    ensures Run(s, es).outcomes[f] == o <==> exists k: nat :: DecidedAt(s, es, k, f, o)
  {
    InitInv(s);
    RunKeepsInv(s, es);
    if Run(s, es).outcomes[f] == o {
      SettledWasDecided(s, es, f, o);
    }
    if k: nat :| DecidedAt(s, es, k, f, o) {
      DecidedStaysSettled(s, es, k, f, o);
    }
  }

  /** So everyone a flight answers gets p exactly when its fetch completed with p. */
  lemma AnswerIffFetched(s: State, es: seq<Event>, c: nat, f: nat, p: Preview)
    requires Init(s) && c in Run(s, es).calls
    requires Run(s, es).calls[c].status.Answered? && Run(s, es).calls[c].status.source == Via(f)
    ensures Run(s, es).calls[c].status.outcome == Got(p) <==>
            exists k: nat :: k < |es| && es[k] == Fetch(f, p) && DecidedAt(s, es, k, f, Got(p))
  {
    InitInv(s);
    RunKeepsInv(s, es);
    assert CallInv(Run(s, es), Run(s, es).calls[c]);
    OutcomeIffDecided(s, es, f, Got(p));
  }

  lemma InitInv(s: State)
    requires Init(s)
    ensures Inv(s)
  {
    assert forall user: string :: Holders(s.flights, user) == {};
  }

  // ---------------------------------------------------------------------
  // Tokens and progress
  // ---------------------------------------------------------------------

  /** Every exit gives its token back: with no flight in progress all pools are empty. */
  lemma NoTokenLeaks(s: State, es: seq<Event>, user: string)
    requires Init(s) && Run(s, es).flights == map[]
    ensures Tokens(Run(s, es), user) == 0
  {
    CoordinatorSafety(s, es);
    assert Holders(Run(s, es).flights, user) == {};
  }

  lemma RunConcat(s: State, es: seq<Event>, fs: seq<Event>)
    ensures Run(s, es + fs) == Run(Run(s, es), fs)
    decreases |fs|
  {
    if fs == [] {
      assert es + fs == es;
    } else {
      var n := |fs| - 1;
      assert (es + fs)[..|es + fs| - 1] == es + fs[..n];
      RunConcat(s, es, fs[..n]);
    }
  }

  lemma RunOne(s: State, e: Event)
    ensures Run(s, [e]) == Do(s, e)
  {
    assert [e][..0] == [];
  }

  /** The exit open to flight f in each phase: a waiting one times out, a fetching one panics, and so on. */
  function Exit(phase: Phase, f: nat): Event {
    match phase
    case Waiting => TimeOut(f)
    case Fetching => Panic(f)
    case Unwinding(_) => Release(f)
    case Returned(_) => Finish(f)
  }

  function StepsLeft(phase: Phase): nat {
    match phase
    case Waiting => 2
    case Fetching => 3
    case Unwinding(_) => 2
    case Returned(_) => 1
  }

  lemma ExitAdvances(s: State, f: nat)
    requires f in s.flights && !s.flights[f].phase.Returned?
    ensures var t := Do(s, Exit(s.flights[f].phase, f));
            && f in t.flights && t.flights[f].url == s.flights[f].url && t.calls == s.calls
            && StepsLeft(t.flights[f].phase) + 1 == StepsLeft(s.flights[f].phase)
  {
    var next := ExitPhase(s.flights[f].phase);
    ExitSets(s, f);
    assert SetPhase(s, f, next).flights[f] == s.flights[f].(phase := next);
  }

  /** The phase that exit leads to. */
  function ExitPhase(phase: Phase): Phase {
    match phase
    case Waiting => Returned(Nothing)
    case Fetching => Unwinding(Nothing)
    case Unwinding(o) => Returned(o)
    case Returned(o) => Returned(o)
  }

  lemma ExitSets(s: State, f: nat)
    requires f in s.flights && !s.flights[f].phase.Returned?
    ensures var t := Do(s, Exit(s.flights[f].phase, f));
            t.flights == SetPhase(s, f, ExitPhase(s.flights[f].phase)).flights && t.calls == s.calls
  {
  }

  /** Everyone blocked on f in s is answered in t, by f, and f's URL is free again. */
  ghost predicate Ended(s: State, f: nat, t: State)
    requires f in s.flights
  {
    && f !in t.flights && s.flights[f].url !in t.group && f in t.outcomes
    && forall c <- s.calls :: s.calls[c].status == Blocked(f) ==>
         c in t.calls && t.calls[c].status == Answered(t.outcomes[f], Via(f))
  }

  /**
    Nobody waits forever on the coordinator itself: whatever phase a flight is
    in, at most three of its own exit steps (timeout, panic, unwinding) end it,
    and then everyone blocked on it has the same answer.
   */
  lemma FlightsCanAlwaysEnd(s: State, f: nat) returns (es: seq<Event>)
    requires f in s.flights
    ensures |es| <= 3 && Ended(s, f, Run(s, es))
    ensures |es| == StepsLeft(s.flights[f].phase)
    decreases StepsLeft(s.flights[f].phase)
  {
    var e := Exit(s.flights[f].phase, f);
    RunOne(s, e);
    if s.flights[f].phase.Returned? {
      es := [e];
    } else {
      ExitAdvances(s, f);
      var t := Do(s, e);
      var rest := FlightsCanAlwaysEnd(t, f);
      RunConcat(s, [e], rest);
      es := [e] + rest;
    }
  }
}
