/** Range verification under concurrency: any number of calls and background refreshes, sharing one cache
    and at most one fetch at a time, in every interleaving. */
module RangesProtocol {
  import opened Text
  import opened Ranges

  /** Where an answer came from: the cache as fetched at a time, or a fetch the call waited for. */
  datatype Origin = FromCache(lastFetch: int) | FromFlight(flight: nat)

  /** A call to loadNetworks. `now` is its own clock reading, `seen` how many fetches had been recorded when
      it began, `held` whether it began during a backoff. */
  datatype Call =
    | Begun(now: nat, seen: nat, held: bool)
    | Missed(now: nat, seen: nat, held: bool)
    | Wanting(now: nat, seen: nat, held: bool)
    | Awaiting(now: nat, seen: nat, held: bool, flight: nat)
    | Rescued(now: nat, error: string)
    | Done(now: nat, result: Loaded, origin: Origin)

  datatype Flight = Flight(id: nat, started: nat, over: bool)

  /** `settled` records the fetches in order, true for a success; `published` what successes brought, and when
      they began. */
  datatype State = State(
    policy: Policy, cache: Cache, clock: nat, calls: map<nat, Call>, flight: Option<Flight>, flights: nat,
    results: map<nat, Outcome>, settled: seq<bool>, published: set<(seq<Network>, int)>)

  datatype Step =
    | Tick(passed: nat) | Begin(call: nat) | Get(call: nat) | Look(call: nat) | Join(call: nat)
    | Refresh | Settle(outcome: Outcome) | Release | Take(call: nat) | Rescue(call: nat)

  function Init(policy: Policy): State { State(policy, EMPTY, 0, map[], None, 0, map[], [], {}) }

  predicate Enabled(s: State, step: Step) {
    match step
    case Tick(_) => true
    case Begin(r) => r !in s.calls
    case Get(r) => r in s.calls && s.calls[r].Begun?
    case Look(r) => r in s.calls && s.calls[r].Missed?
    case Join(r) => r in s.calls && s.calls[r].Wanting?
    case Refresh => true
    case Settle(_) => s.flight.Some? && !s.flight.value.over
    case Release => s.flight.Some? && s.flight.value.over
    case Take(r) => r in s.calls && s.calls[r].Awaiting? && s.calls[r].flight in s.results
    case Rescue(r) => r in s.calls && s.calls[r].Rescued?
  }

  /** A fetch is joined if one is in flight and started otherwise. */
  function Flying(s: State): State {
    if s.flight.Some? then s else s.(flight := Some(Flight(s.flights, s.clock, false)), flights := s.flights + 1)
  }

  function Got(s: State, c: Call): Call
    requires c.Begun?
  {
    if Fresh(s.cache, c.now) then Done(c.now, Loaded(s.cache.networks, false), FromCache(s.cache.lastFetch))
    else Missed(c.now, c.seen, c.held)
  }

  function Looked(s: State, c: Call): Call
    requires c.Missed?
  {
    if BackedOff(s.cache, c.now) then
      Done(c.now, Fallback(s.policy, s.cache, c.now, Refused(s.cache)), FromCache(s.cache.lastFetch))
    else Wanting(c.now, c.seen, c.held)
  }

  function Taken(c: Call, outcome: Outcome): Call
    requires c.Awaiting?
  {
    match outcome
    case Fetched(networks) => Done(c.now, Loaded(networks, false), FromFlight(c.flight))
    case Broken(error) => Rescued(c.now, error)
  }

  function Settled(s: State, outcome: Outcome): State
    requires s.flight.Some?
  {
    var f := s.flight.value;
    s.(cache := Stored(s.policy, s.cache, outcome, f.started), flight := Some(f.(over := true)),
       results := s.results[f.id := outcome], settled := s.settled + [outcome.Fetched?],
       published := if outcome.Fetched? then s.published + {(outcome.networks, f.started)} else s.published)
  }

  function Apply(s: State, step: Step): State
    requires Enabled(s, step)
  {
    match step
    case Tick(passed) => s.(clock := s.clock + passed)
    case Begin(r) => s.(calls := s.calls[r := Begun(s.clock, |s.settled|, BackedOff(s.cache, s.clock))])
    case Get(r) => s.(calls := s.calls[r := Got(s, s.calls[r])])
    case Look(r) => s.(calls := s.calls[r := Looked(s, s.calls[r])])
    case Join(r) =>
      var c, f := s.calls[r], Flying(s);
      f.(calls := s.calls[r := Awaiting(c.now, c.seen, c.held, f.flight.value.id)])
    case Refresh => Flying(s)
    case Settle(outcome) => Settled(s, outcome)
    case Release => s.(flight := None)
    case Take(r) => s.(calls := s.calls[r := Taken(s.calls[r], s.results[s.calls[r].flight])])
    case Rescue(r) =>
      var c := s.calls[r];
      s.(calls := s.calls[r := Done(c.now, Fallback(s.policy, s.cache, c.now, c.error), FromCache(s.cache.lastFetch))])
  }

  ghost predicate Legal(policy: Policy, steps: seq<Step>)
    decreases |steps|, 0
  {
    |steps| == 0
    || (Legal(policy, steps[..|steps| - 1]) && Enabled(After(policy, steps[..|steps| - 1]), steps[|steps| - 1]))
  }

  ghost function After(policy: Policy, steps: seq<Step>): State
    requires Legal(policy, steps)
    decreases |steps|, 1
  {
    if |steps| == 0 then Init(policy) else Apply(After(policy, steps[..|steps| - 1]), steps[|steps| - 1])
  }

  // ---------------------------------------------------------------- invariant

  /** Cached ranges are a published document's, with the expiry its fetch gave them; backoffs end at most one
      backoff after the clock, and after the fetch in flight began. */
  ghost predicate CacheSound(s: State) {
    var c := s.cache;
    && (|c.networks| > 0 ==> (c.networks, c.lastFetch) in s.published && c.expiresAt == c.lastFetch + s.policy.refresh)
    && c.lastFetch <= s.clock
    && (c.retryAfter.Some? ==> c.retryAfter.value <= s.clock + FETCH_BACKOFF)
    && (s.flight.Some? ==>
          var started := s.flight.value.started;
          c.lastFetch <= started <= s.clock && (c.retryAfter.Some? ==> c.retryAfter.value <= started + FETCH_BACKOFF))
  }

  /** The last fetch recorded is what the cache's error state says. */
  ghost predicate ErrorsSound(s: State) {
    s.cache.retryAfter.Some? <==> |s.settled| > 0 && !s.settled[|s.settled| - 1]
  }

  /** Flights and their results. */
  ghost predicate FlightsSound(s: State) {
    && (s.flight.Some? ==> s.flight.value.id < s.flights && (s.flight.value.over <==> s.flight.value.id in s.results))
    && (forall f :: f in s.results ==>
          f < s.flights && (s.results[f].Fetched? ==> exists t :: (s.results[f].networks, t) in s.published))
  }

  predicate InTime(p: Policy, now: int, lastFetch: int, stale: bool) {
    if stale then p.useStale && p.maxStale > 0 && now <= lastFetch + p.refresh + p.maxStale
    else now <= lastFetch + p.refresh
  }

  /** An answer is backed by what was published. */
  ghost predicate Backed(s: State, c: Call)
    requires c.Done?
  {
    c.result.Loaded? ==>
      match c.origin
      case FromCache(lastFetch) =>
        && |c.result.networks| > 0 && (c.result.networks, lastFetch) in s.published
        && InTime(s.policy, c.now, lastFetch, c.result.stale)
      case FromFlight(f) => !c.result.stale && f in s.results && s.results[f] == Fetched(c.result.networks)
  }

  ghost predicate AnswersSound(s: State) {
    forall r :: r in s.calls && s.calls[r].Done? ==> Backed(s, s.calls[r])
  }

  predicate Pending(c: Call) { c.Begun? || c.Missed? }

  predicate Asking(c: Call) { c.Wanting? || c.Awaiting? }

  /** A fetch recorded from position `seen` on succeeded. */
  ghost predicate Recovered(s: State, seen: nat) { exists i :: seen <= i < |s.settled| && s.settled[i] }

  /** A call that began in a backoff: it stays in it as long as the last recorded fetch failed. */
  ghost predicate Waits(s: State, c: Call)
    requires Pending(c)
  {
    && c.seen <= |s.settled|
    && (c.held ==>
          && (s.cache.retryAfter.Some? ==> c.now < s.cache.retryAfter.value)
          && (c.seen == |s.settled| ==> s.cache.retryAfter.Some?)
          && (s.flight.Some? ==> c.now < s.flight.value.started + FETCH_BACKOFF))
  }

  ghost predicate CallsSound(s: State) {
    && (forall r :: r in s.calls ==> s.calls[r].now <= s.clock)
    && (forall r :: r in s.calls && Pending(s.calls[r]) ==> Waits(s, s.calls[r]))
    && (forall r :: r in s.calls && Asking(s.calls[r]) && s.calls[r].held ==> Recovered(s, s.calls[r].seen))
  }

  ghost predicate Invariant(s: State) {
    CacheSound(s) && ErrorsSound(s) && FlightsSound(s) && AnswersSound(s) && CallsSound(s)
  }

  lemma StepKeepsCache(s: State, step: Step)
    requires CacheSound(s) && Enabled(s, step)
    ensures CacheSound(Apply(s, step))
  {
  }

  lemma StepKeepsErrors(s: State, step: Step)
    requires ErrorsSound(s) && Enabled(s, step)
    ensures ErrorsSound(Apply(s, step))
  {
  }

  lemma StepKeepsFlights(s: State, step: Step)
    requires FlightsSound(s) && Enabled(s, step)
    ensures FlightsSound(Apply(s, step))
  {
    if step.Settle? {
      var s' := Apply(s, step);
      forall f | f in s'.results && s'.results[f].Fetched?
        ensures exists t :: (s'.results[f].networks, t) in s'.published
      {
        if f == s.flight.value.id {
          assert (s'.results[f].networks, s.flight.value.started) in s'.published;
        } else {
          var t :| (s.results[f].networks, t) in s.published;
          assert (s'.results[f].networks, t) in s'.published;
        }
      }
    }
  }

  lemma FallbackIsBacked(s: State, now: nat, error: string)
    requires CacheSound(s)
    ensures Backed(s, Done(now, Fallback(s.policy, s.cache, now, error), FromCache(s.cache.lastFetch)))
  {
  }

  lemma BackedLasts(s: State, s': State, c: Call)
    requires c.Done? && Backed(s, c) && s'.policy == s.policy && s.published <= s'.published
    requires forall f :: f in s.results ==> f in s'.results && s'.results[f] == s.results[f]
    ensures Backed(s', c)
  {
  }

  lemma StepKeepsAnswers(s: State, step: Step)
    requires CacheSound(s) && FlightsSound(s) && AnswersSound(s) && Enabled(s, step)
    ensures AnswersSound(Apply(s, step))
  {
    var s' := Apply(s, step);
    forall r | r in s'.calls && s'.calls[r].Done? ensures Backed(s', s'.calls[r]) {
      if r in s.calls && s.calls[r] == s'.calls[r] {
        BackedLasts(s, s', s.calls[r]);
      } else {
        NewAnswerIsBacked(s, step, r);
      }
    }
  }

  lemma NewAnswerIsBacked(s: State, step: Step, r: nat)
    requires CacheSound(s) && Enabled(s, step)
    requires var s' := Apply(s, step);
             r in s'.calls && s'.calls[r].Done? && !(r in s.calls && s.calls[r] == s'.calls[r])
    ensures Backed(Apply(s, step), Apply(s, step).calls[r])
  {
    if r in s.calls {
      FallbackIsBacked(s, s.calls[r].now, Refused(s.cache));
      if s.calls[r].Rescued? {
        FallbackIsBacked(s, s.calls[r].now, s.calls[r].error);
      }
    }
  }

  lemma WaitsLasts(s: State, step: Step, c: Call)
    requires CacheSound(s) && Pending(c) && c.now <= s.clock && Waits(s, c) && Enabled(s, step)
    ensures Waits(Apply(s, step), c)
  {
  }

  lemma RecoveredLasts(s: State, step: Step, seen: nat)
    requires Recovered(s, seen) && Enabled(s, step)
    ensures Recovered(Apply(s, step), seen)
  {
    var i :| seen <= i < |s.settled| && s.settled[i];
    assert Apply(s, step).settled[i];
  }

  /** The heart of it: a call that began in a backoff goes on to fetch exactly when the last fetch recorded
      is a success recorded since. */
  lemma LookInBackoff(s: State, c: Call)
    requires ErrorsSound(s) && c.Missed? && c.held && Waits(s, c)
    ensures Looked(s, c).Wanting? <==> |s.settled| > c.seen && s.settled[|s.settled| - 1]
    ensures Looked(s, c).Wanting? ==> Recovered(s, c.seen)
  {
    if Looked(s, c).Wanting? {
      assert s.settled[|s.settled| - 1];
    }
  }

  lemma NewCallIsSound(s: State, step: Step, r: nat)
    requires CacheSound(s) && ErrorsSound(s) && CallsSound(s) && Enabled(s, step)
    requires var s' := Apply(s, step); r in s'.calls && !(r in s.calls && s.calls[r] == s'.calls[r])
    ensures var s' := Apply(s, step);
            && s'.calls[r].now <= s'.clock && (Pending(s'.calls[r]) ==> Waits(s', s'.calls[r]))
            && (Asking(s'.calls[r]) && s'.calls[r].held ==> Recovered(s', s'.calls[r].seen))
  {
    if step.Look? && s.calls[r].held {
      LookInBackoff(s, s.calls[r]);
    }
    if step.Join? && s.calls[r].held {
      RecoveredLasts(s, step, s.calls[r].seen);
    }
  }

  lemma StepKeepsCalls(s: State, step: Step)
    requires CacheSound(s) && ErrorsSound(s) && CallsSound(s) && Enabled(s, step)
    ensures CallsSound(Apply(s, step))
  {
    var s' := Apply(s, step);
    forall r | r in s'.calls
      ensures s'.calls[r].now <= s'.clock && (Pending(s'.calls[r]) ==> Waits(s', s'.calls[r]))
      ensures Asking(s'.calls[r]) && s'.calls[r].held ==> Recovered(s', s'.calls[r].seen)
    {
      if r in s.calls && s.calls[r] == s'.calls[r] {
        OldCallIsSound(s, step, s.calls[r]);
      } else {
        NewCallIsSound(s, step, r);
      }
    }
  }

  lemma OldCallIsSound(s: State, step: Step, c: Call)
    requires CacheSound(s) && Enabled(s, step) && c.now <= s.clock
    requires (Pending(c) ==> Waits(s, c)) && (Asking(c) && c.held ==> Recovered(s, c.seen))
    ensures c.now <= Apply(s, step).clock && (Pending(c) ==> Waits(Apply(s, step), c))
    ensures Asking(c) && c.held ==> Recovered(Apply(s, step), c.seen)
  {
    if Pending(c) {
      WaitsLasts(s, step, c);
    }
    if Asking(c) && c.held {
      RecoveredLasts(s, step, c.seen);
    }
  }

  lemma {:induction false} RunsKeepInvariant(policy: Policy, steps: seq<Step>)
    requires Legal(policy, steps)
    ensures Invariant(After(policy, steps)) && After(policy, steps).policy == policy
  {
    if |steps| > 0 {
      var s, step := After(policy, steps[..|steps| - 1]), steps[|steps| - 1];
      RunsKeepInvariant(policy, steps[..|steps| - 1]);
      StepKeepsCache(s, step);
      StepKeepsErrors(s, step);
      StepKeepsFlights(s, step);
      StepKeepsAnswers(s, step);
      StepKeepsCalls(s, step);
    }
  }

  // ---------------------------------------------------------------- what it comes to

  /** Whatever happens concurrently, a call that verifies an address does so from a document some fetch
      published; from the cache only while that document is fresh by the call's own clock, or, marked as
      stale, under a policy that allows it and within the limit. */
  lemma VerifiedMeansPublished(policy: Policy, steps: seq<Step>, r: nat, ip: nat)
    requires Legal(policy, steps) && r in After(policy, steps).calls
    requires var c := After(policy, steps).calls[r]; c.Done? && c.result.Loaded? && Matches(c.result.networks, ip)
    ensures var s, c := After(policy, steps), After(policy, steps).calls[r];
            && (exists t :: (c.result.networks, t) in s.published)
            && (c.origin.FromCache? ==>
                  && (c.result.networks, c.origin.lastFetch) in s.published
                  && InTime(policy, c.now, c.origin.lastFetch, c.result.stale))
            && (c.origin.FromFlight? ==> !c.result.stale)
  {
    RunsKeepInvariant(policy, steps);
    var s := After(policy, steps);
    assert Backed(s, s.calls[r]);
  }

  /** Only a successful fetch changes the ranges or their expiry, and never to older ones. */
  lemma OnlySuccessReplaces(policy: Policy, steps: seq<Step>, step: Step)
    requires Legal(policy, steps) && Enabled(After(policy, steps), step)
    ensures var c, c' := After(policy, steps).cache, Apply(After(policy, steps), step).cache;
            && c.lastFetch <= c'.lastFetch
            && (!(step.Settle? && step.outcome.Fetched?) ==>
                  c'.networks == c.networks && c'.expiresAt == c.expiresAt && c'.lastFetch == c.lastFetch)
            && (!step.Settle? ==> c' == c)
  {
    RunsKeepInvariant(policy, steps);
  }

  /** Backoff, exactly: a call that began while retrying was held back goes on to fetch if and only if the
      last fetch recorded before it looks is a success that came after the call began. */
  lemma BackoffHoldsExactly(policy: Policy, steps: seq<Step>, r: nat)
    requires Legal(policy, steps) && Enabled(After(policy, steps), Look(r)) && After(policy, steps).calls[r].held
    ensures var s := After(policy, steps);
            Apply(s, Look(r)).calls[r].Wanting? <==> |s.settled| > s.calls[r].seen && s.settled[|s.settled| - 1]
  {
    RunsKeepInvariant(policy, steps);
    var s := After(policy, steps);
    assert Waits(s, s.calls[r]);
    LookInBackoff(s, s.calls[r]);
  }

  /** So such a call takes part in a fetch only after a recovery. */
  lemma HeldCallsFetchOnlyAfterRecovery(policy: Policy, steps: seq<Step>, r: nat)
    requires Legal(policy, steps) && r in After(policy, steps).calls
    requires Asking(After(policy, steps).calls[r]) && After(policy, steps).calls[r].held
    ensures Recovered(After(policy, steps), After(policy, steps).calls[r].seen)
  {
    RunsKeepInvariant(policy, steps);
  }

  /** How long the last fetch counts: until the next is recorded, a failure holds calls back for thirty seconds after
      it began, and a success serves what it brought until the refresh is due and holds back nobody. */
  lemma {:induction false} LastFetchCounts(policy: Policy, steps: seq<Step>, n: nat, now: int)
    requires Legal(policy, steps) && n < |steps| && steps[n].Settle? && Legal(policy, steps[..n])
    requires Enabled(After(policy, steps[..n]), steps[n])
    requires forall i :: n < i < |steps| ==> !steps[i].Settle?
    ensures var cache, started := After(policy, steps).cache, After(policy, steps[..n]).flight.value.started;
            match steps[n].outcome
            case Broken(error) =>
              && cache.lastError == error && (BackedOff(cache, now) <==> now < started + 30 * 1_000_000_000)
            case Fetched(networks) =>
              && cache.networks == networks && !BackedOff(cache, now)
              && (Fresh(cache, now) <==> |networks| > 0 && now <= started + policy.refresh)
    decreases |steps|
  {
    var front, last := steps[..|steps| - 1], steps[|steps| - 1];
    RunsKeepInvariant(policy, steps[..n]);
    if n < |front| {
      assert front[..n] == steps[..n];
      LastFetchCounts(policy, front, n, now);
      OnlySuccessReplaces(policy, front, last);
    } else {
      assert front == steps[..n];
    }
  }

  /** What a call is answered from the cache, in every run: at its first look the ranges, if they are not expired; when
      held back and when its fetch failed, the expired ranges if the policy lets it have them for that long, and the
      error otherwise. */
  lemma CacheAnswersExactly(policy: Policy, steps: seq<Step>, r: nat)
    requires Legal(policy, steps) && r in After(policy, steps).calls
    ensures var s, c := After(policy, steps), After(policy, steps).calls[r];
            var cache := s.cache;
            var stale := |cache.networks| > 0 && policy.useStale && policy.maxStale > 0
                         && c.now <= cache.lastFetch + policy.refresh + policy.maxStale;
            && (Enabled(s, Get(r)) ==>
                  Apply(s, Get(r)).calls[r] ==
                  if |cache.networks| > 0 && c.now <= cache.lastFetch + policy.refresh
                  then Done(c.now, Loaded(cache.networks, false), FromCache(cache.lastFetch))
                  else Missed(c.now, c.seen, c.held))
            && (Enabled(s, Look(r)) ==>
                  Apply(s, Look(r)).calls[r] ==
                  if !(cache.retryAfter.Some? && c.now < cache.retryAfter.value) then Wanting(c.now, c.seen, c.held)
                  else Done(c.now, if stale then Loaded(cache.networks, true)
                                   else Unavailable("ip range refresh failed: " + cache.lastError),
                            FromCache(cache.lastFetch)))
            && (Enabled(s, Rescue(r)) ==>
                  Apply(s, Rescue(r)).calls[r] ==
                  Done(c.now, if stale then Loaded(cache.networks, true) else Unavailable(c.error),
                       FromCache(cache.lastFetch)))
  {
    RunsKeepInvariant(policy, steps);
  }

  lemma Extend(policy: Policy, steps: seq<Step>, s: State, step: Step) returns (longer: seq<Step>, next: State)
    requires Legal(policy, steps) && After(policy, steps) == s && Enabled(s, step)
    ensures longer == steps + [step] && Legal(policy, longer) && next == Apply(s, step) && After(policy, longer) == next
  {
    longer, next := steps + [step], Apply(s, step);
    assert longer[..|steps|] == steps;
  }

  /** And it can: a fetch fails, a call begins in the backoff and misses, the refresher recovers, the call
      fetches again although the cache is fresh. */
  lemma RecoveryUnderACall(policy: Policy) returns (steps: seq<Step>, r: nat)
    requires policy.refresh > 0
    ensures Legal(policy, steps) && r in After(policy, steps).calls
    ensures var s := After(policy, steps); Asking(s.calls[r]) && s.calls[r].held && Fresh(s.cache, s.calls[r].now)
  {
    var s := Init(policy);
    steps, r := [], 0;
    steps, s := Extend(policy, steps, s, Refresh);
    steps, s := Extend(policy, steps, s, Settle(Broken("down")));
    steps, s := Extend(policy, steps, s, Release);
    steps, s := Extend(policy, steps, s, Begin(0));
    steps, s := Extend(policy, steps, s, Get(0));
    steps, s := Extend(policy, steps, s, Refresh);
    steps, s := Extend(policy, steps, s, Settle(Fetched([{1}])));
    steps, s := Extend(policy, steps, s, Look(0));
  }

  /** Any time may pass, and a refresh fetch what it will: the cache is then as if the fetch had been made by a call. */
  lemma RefreshAlone(policy: Policy, steps: seq<Step>, passed: nat, outcome: Outcome) returns (longer: seq<Step>)
    requires Legal(policy, steps) && After(policy, steps).flight.None? && After(policy, steps).policy == policy
    ensures Legal(policy, longer) && steps <= longer
    ensures var s, t := After(policy, steps), After(policy, longer);
            && t.clock == s.clock + passed && t.cache == Stored(policy, s.cache, outcome, t.clock)
            && t.calls == s.calls && t.flight.None?
  {
    var t;
    longer, t := Extend(policy, steps, After(policy, steps), Tick(passed));
    longer, t := Extend(policy, longer, t, Refresh);
    longer, t := Extend(policy, longer, t, Settle(outcome));
    longer, t := Extend(policy, longer, t, Release);
  }

  /** Left alone, a call does what the sequential code does. */
  lemma UndisturbedCallLoads(policy: Policy, steps: seq<Step>, r: nat, outcome: Outcome)
    returns (longer: seq<Step>, t: State)
    requires Legal(policy, steps) && r !in After(policy, steps).calls && After(policy, steps).flight.None?
    requires After(policy, steps).policy == policy
    ensures Legal(policy, longer) && steps <= longer && t == After(policy, longer) && r in t.calls && t.calls[r].Done?
    ensures var s := After(policy, steps);
            var (loaded, after, fetched) := Load(policy, s.cache, s.clock, s.clock, outcome);
            t.calls[r].result == loaded && t.cache == after && |t.settled| == |s.settled| + if fetched then 1 else 0
  {
    var s := After(policy, steps);
    longer, t := Extend(policy, steps, s, Begin(r));
    longer, t := Extend(policy, longer, t, Get(r));
    if !Fresh(s.cache, s.clock) {
      longer, t := Extend(policy, longer, t, Look(r));
      if !BackedOff(s.cache, s.clock) {
        longer, t := FetchAlone(policy, longer, t, r, outcome);
      }
    }
  }

  lemma FetchAlone(policy: Policy, steps: seq<Step>, s: State, r: nat, outcome: Outcome)
    returns (longer: seq<Step>, t: State)
    requires Legal(policy, steps) && After(policy, steps) == s && s.flight.None? && s.policy == policy
    requires r in s.calls && s.calls[r].Wanting? && s.calls[r].now == s.clock
    ensures Legal(policy, longer) && steps <= longer && t == After(policy, longer) && r in t.calls && t.calls[r].Done?
    ensures t.cache == Stored(policy, s.cache, outcome, s.clock) && |t.settled| == |s.settled| + 1
    ensures t.calls[r].result == match outcome
                                 case Fetched(networks) => Loaded(networks, false)
                                 case Broken(error) => Fallback(policy, t.cache, s.clock, error)
  {
    longer, t := Extend(policy, steps, s, Join(r));
    longer, t := Extend(policy, longer, t, Settle(outcome));
    longer, t := Extend(policy, longer, t, Release);
    longer, t := Extend(policy, longer, t, Take(r));
    if outcome.Broken? {
      longer, t := Extend(policy, longer, t, Rescue(r));
    }
  }
}
