/** Reverse DNS verification under concurrency: calls share the cache and one lookup per address, in every
    interleaving. */
module ReverseDnsProtocol {
  import opened Text
  import opened ReverseDns
  import Lru

  datatype Call =
    | Begun(ip: nat)
    | Missed(ip: nat)
    | Awaiting(ip: nat, flight: nat)
    | Done(ip: nat, at: nat, outcome: Outcome, cached: bool)

  /** A lookup that is over: what the resolver said, what was concluded, when it was recorded. */
  datatype Ended = Ended(ip: nat, dns: Dns, outcome: Outcome, at: nat)

  /** `flights` is the lookup in flight for each address, `subjects` the address of each lookup. */
  datatype State = State(
    limits: Limits, suffixes: seq<string>, items: Items, clock: nat, calls: map<nat, Call>,
    flights: map<nat, nat>, subjects: seq<nat>, ended: map<nat, Ended>)

  datatype Step =
    | Tick(passed: nat) | Begin(call: nat, ip: nat) | Get(call: nat) | Join(call: nat)
    | End(ip: nat, dns: Dns) | Release(ip: nat) | Take(call: nat)

  function Init(limits: Limits, suffixes: seq<string>): State {
    State(limits, suffixes, map[], 0, map[], map[], [], map[])
  }

  predicate Enabled(s: State, step: Step) {
    match step
    case Tick(_) => true
    case Begin(r, _) => r !in s.calls
    case Get(r) => r in s.calls && s.calls[r].Begun?
    case Join(r) => r in s.calls && s.calls[r].Missed?
    case End(ip, _) => ip in s.flights && s.flights[ip] !in s.ended
    case Release(ip) => ip in s.flights && s.flights[ip] in s.ended
    case Take(r) => r in s.calls && s.calls[r].Awaiting? && s.calls[r].flight in s.ended
  }

  function Got(s: State, r: nat): State
    requires r in s.calls
  {
    var ip := s.calls[r].ip;
    var hit := Hit(s.items, ip, s.clock);
    s.(items := AfterGet(s.items, ip, s.clock),
       calls := s.calls[r := if hit.Some? then Done(ip, s.clock, Answered(hit.value), true) else Missed(ip)])
  }

  function Joined(s: State, r: nat): State
    requires r in s.calls
  {
    var ip := s.calls[r].ip;
    if ip in s.flights then s.(calls := s.calls[r := Awaiting(ip, s.flights[ip])])
    else
      s.(flights := s.flights[ip := |s.subjects|], subjects := s.subjects + [ip],
         calls := s.calls[r := Awaiting(ip, |s.subjects|)])
  }

  ghost function Over(s: State, ip: nat, dns: Dns): State
    requires ip in s.flights
  {
    var outcome := Lookup(s.suffixes, dns, ip);
    s.(ended := s.ended[s.flights[ip] := Ended(ip, dns, outcome, s.clock)],
       items := if outcome.Answered? then AfterSet(s.limits, s.items, ip, outcome.verdict, s.clock) else s.items)
  }

  ghost function Apply(s: State, step: Step): State
    requires Enabled(s, step)
  {
    match step
    case Tick(passed) => s.(clock := s.clock + passed)
    case Begin(r, ip) => s.(calls := s.calls[r := Begun(ip)])
    case Get(r) => Got(s, r)
    case Join(r) => Joined(s, r)
    case End(ip, dns) => Over(s, ip, dns)
    case Release(ip) => s.(flights := s.flights - {ip})
    case Take(r) => s.(calls := s.calls[r := Done(s.calls[r].ip, s.clock, s.ended[s.calls[r].flight].outcome, false)])
  }

  /** The states of all runs. */
  ghost predicate Legal(s: State, steps: seq<Step>)
    decreases |steps|, 0
  {
    |steps| == 0 || (Legal(s, steps[..|steps| - 1]) && Enabled(After(s, steps[..|steps| - 1]), steps[|steps| - 1]))
  }

  ghost function After(s: State, steps: seq<Step>): State
    requires Legal(s, steps)
    decreases |steps|, 1
  {
    if |steps| == 0 then s else Apply(After(s, steps[..|steps| - 1]), steps[|steps| - 1])
  }

  // ---------------------------------------------------------------- invariant

  ghost predicate LookupsSound(s: State) {
    && (forall f :: f in s.ended ==>
          && f < |s.subjects| && s.ended[f].ip == s.subjects[f] && s.ended[f].at <= s.clock
          && s.ended[f].outcome == Lookup(s.suffixes, s.ended[f].dns, s.ended[f].ip))
    && (forall ip :: ip in s.flights ==> s.flights[ip] < |s.subjects| && s.subjects[s.flights[ip]] == ip)
    && (forall r :: r in s.calls && s.calls[r].Awaiting? ==>
          s.calls[r].flight < |s.subjects| && s.subjects[s.calls[r].flight] == s.calls[r].ip)
  }

  /** Lookup `f` concluded `verdict` about `ip`, error-free, at the latest at `by`. */
  ghost predicate Concluded(s: State, f: nat, ip: nat, verdict: Verdict) {
    f in s.ended && s.ended[f].ip == ip && s.ended[f].outcome == Answered(verdict)
  }

  ghost predicate EntrySound(s: State, ip: nat, e: Entry) {
    exists f :: Concluded(s, f, ip, e.verdict) && e.expiresAt == s.ended[f].at + s.limits.ttl
  }

  ghost predicate ItemsSound(s: State) {
    |s.items| <= s.limits.maxEntries && forall ip :: ip in s.items ==> EntrySound(s, ip, s.items[ip])
  }

  ghost predicate AnswerSound(s: State, c: Call)
    requires c.Done?
  {
    c.outcome.Answered? ==>
      exists f :: Concluded(s, f, c.ip, c.outcome.verdict) && (c.cached ==> c.at <= s.ended[f].at + s.limits.ttl)
  }

  ghost predicate AnswersSound(s: State) { forall r :: r in s.calls && s.calls[r].Done? ==> AnswerSound(s, s.calls[r]) }

  ghost predicate Invariant(s: State) { LookupsSound(s) && ItemsSound(s) && AnswersSound(s) }

  /** Lookups once over stay as they are. */
  ghost predicate Remembers(s: State, s': State) {
    s'.limits == s.limits && forall f :: f in s.ended ==> f in s'.ended && s'.ended[f] == s.ended[f]
  }

  lemma StepRemembers(s: State, step: Step)
    requires Enabled(s, step)
    ensures Remembers(s, Apply(s, step)) && Apply(s, step).suffixes == s.suffixes
  {
  }

  lemma StepKeepsLookups(s: State, step: Step)
    requires LookupsSound(s) && Enabled(s, step)
    ensures LookupsSound(Apply(s, step))
  {
  }

  lemma EntryLasts(s: State, s': State, ip: nat, e: Entry, e': Entry)
    requires EntrySound(s, ip, e) && Remembers(s, s') && e'.verdict == e.verdict && e'.expiresAt == e.expiresAt
    ensures EntrySound(s', ip, e')
  {
    var f :| Concluded(s, f, ip, e.verdict) && e.expiresAt == s.ended[f].at + s.limits.ttl;
    assert Concluded(s', f, ip, e.verdict);
  }

  lemma GetKeepsItems(s: State, r: nat)
    requires ItemsSound(s) && Enabled(s, Get(r))
    ensures ItemsSound(Got(s, r))
  {
    var s' := Got(s, r);
    var ip := s.calls[r].ip;
    assert s'.items.Keys <= s.items.Keys;
    Smaller(s'.items, s.items);
    forall k | k in s'.items ensures EntrySound(s', k, s'.items[k]) {
      EntryLasts(s, s', k, s.items[k], s'.items[k]);
    }
  }

  lemma Smaller(a: Items, b: Items)
    requires a.Keys <= b.Keys
    ensures |a| <= |b|
  {
    assert |a| == |a.Keys| && |b| == |b.Keys|;
    Lru.Subset(a.Keys, b.Keys);
  }

  lemma EndKeepsItems(s: State, ip: nat, dns: Dns)
    requires ItemsSound(s) && Enabled(s, End(ip, dns))
    ensures ItemsSound(Over(s, ip, dns))
  {
    var s', outcome := Over(s, ip, dns), Lookup(s.suffixes, dns, ip);
    if outcome.Answered? {
      SetKeeps(s.limits, s.items, ip, outcome.verdict, s.clock);
    }
    forall k | k in s'.items ensures EntrySound(s', k, s'.items[k]) {
      if outcome.Answered? && k == ip {
        assert Concluded(s', s.flights[ip], ip, outcome.verdict);
      } else {
        EntryLasts(s, s', k, s.items[k], s'.items[k]);
      }
    }
  }

  lemma StepKeepsItems(s: State, step: Step)
    requires ItemsSound(s) && Enabled(s, step)
    ensures ItemsSound(Apply(s, step))
  {
    match step
    case Get(r) => GetKeepsItems(s, r);
    case End(ip, dns) => EndKeepsItems(s, ip, dns);
    case _ =>
      var s' := Apply(s, step);
      forall k | k in s'.items ensures EntrySound(s', k, s'.items[k]) {
        EntryLasts(s, s', k, s.items[k], s'.items[k]);
      }
  }

  lemma AnswerLasts(s: State, s': State, c: Call)
    requires c.Done? && AnswerSound(s, c) && Remembers(s, s')
    ensures AnswerSound(s', c)
  {
    if c.outcome.Answered? {
      var f :| Concluded(s, f, c.ip, c.outcome.verdict) && (c.cached ==> c.at <= s.ended[f].at + s.limits.ttl);
      assert Concluded(s', f, c.ip, c.outcome.verdict);
    }
  }

  lemma NewAnswerIsSound(s: State, step: Step, r: nat)
    requires LookupsSound(s) && ItemsSound(s) && Enabled(s, step) && (step == Get(r) || step == Take(r))
    ensures Apply(s, step).calls[r].Done? ==> AnswerSound(Apply(s, step), Apply(s, step).calls[r])
  {
    var s', c := Apply(s, step), s.calls[r];
    if s'.calls[r].Done? && s'.calls[r].outcome.Answered? {
      if step.Get? {
        var e := s.items[c.ip];
        var f :| Concluded(s, f, c.ip, e.verdict) && e.expiresAt == s.ended[f].at + s.limits.ttl;
        assert Concluded(s', f, c.ip, e.verdict);
      } else {
        assert Concluded(s', c.flight, c.ip, s.ended[c.flight].outcome.verdict);
      }
    }
  }

  lemma StepKeepsAnswers(s: State, step: Step)
    requires Invariant(s) && Enabled(s, step)
    ensures AnswersSound(Apply(s, step))
  {
    var s' := Apply(s, step);
    StepRemembers(s, step);
    forall r | r in s'.calls && s'.calls[r].Done? ensures AnswerSound(s', s'.calls[r]) {
      if step == Get(r) || step == Take(r) {
        NewAnswerIsSound(s, step, r);
      } else {
        AnswerLasts(s, s', s.calls[r]);
      }
    }
  }

  lemma {:induction false} RunsKeepInvariant(s: State, steps: seq<Step>)
    requires Invariant(s) && Legal(s, steps)
    ensures Invariant(After(s, steps)) && After(s, steps).suffixes == s.suffixes && After(s, steps).limits == s.limits
  {
    if |steps| > 0 {
      var front, step := steps[..|steps| - 1], steps[|steps| - 1];
      RunsKeepInvariant(s, front);
      StepRemembers(After(s, front), step);
      StepKeepsLookups(After(s, front), step);
      StepKeepsItems(After(s, front), step);
      StepKeepsAnswers(After(s, front), step);
    }
  }

  // ---------------------------------------------------------------- what it comes to

  /** A verified answer, cached or shared or fresh, about an address comes from a lookup of that very address
      in which an allowed name of its own resolved back to it; a cached one is no older than the lifetime of
      entries; and the cache is never over its bound. */
  lemma VerifiedMeansRoundTrip(limits: Limits, suffixes: seq<string>, steps: seq<Step>, r: nat)
    returns (f: nat, at: nat)
    requires Legal(Init(limits, suffixes), steps) && r in After(Init(limits, suffixes), steps).calls
    requires var c := After(Init(limits, suffixes), steps).calls[r]; c.Done? && Verifies(c.outcome)
    ensures var s := After(Init(limits, suffixes), steps);
            && f in s.ended && s.ended[f].ip == s.calls[r].ip && s.ended[f].outcome == s.calls[r].outcome
            && s.ended[f].dns.ptr.Names? && at < |s.ended[f].dns.ptr.names|
            && RoundTrips(suffixes, s.ended[f].dns, s.calls[r].ip, s.ended[f].dns.ptr.names[at])
            && (s.calls[r].cached ==> s.calls[r].at <= s.ended[f].at + limits.ttl)
  {
    var start := Init(limits, suffixes);
    RunsKeepInvariant(start, steps);
    var s := After(start, steps);
    var c := s.calls[r];
    assert AnswerSound(s, c);
    f :| Concluded(s, f, c.ip, c.outcome.verdict) && (c.cached ==> c.at <= s.ended[f].at + s.limits.ttl);
    var dns := s.ended[f].dns;
    LookupVerifiesExactly(suffixes, dns, c.ip);
    var k :| Settles(suffixes, dns, c.ip, dns.ptr.names, k, true);
    at := k;
  }

  lemma Extend(start: State, steps: seq<Step>, s: State, step: Step) returns (longer: seq<Step>, next: State)
    requires Legal(start, steps) && After(start, steps) == s && Enabled(s, step)
    ensures longer == steps + [step] && Legal(start, longer)
    ensures next == Apply(s, step) && After(start, longer) == next
  {
    longer, next := steps + [step], Apply(s, step);
    assert longer[..|steps|] == steps;
  }

  /** Any time may pass. */
  lemma TimePasses(start: State, steps: seq<Step>, passed: nat) returns (longer: seq<Step>)
    requires Legal(start, steps)
    ensures steps <= longer && Legal(start, longer)
    ensures After(start, longer) == After(start, steps).(clock := After(start, steps).clock + passed)
  {
    var t;
    longer, t := Extend(start, steps, After(start, steps), Tick(passed));
  }

  /** Left alone, from any reachable state, a call is served from the cache or by one lookup, as the sequential code
      does it. */
  lemma UndisturbedCallVerifies(limits: Limits, suffixes: seq<string>, steps: seq<Step>, r: nat, ip: nat, dns: Dns)
    returns (longer: seq<Step>, t: State)
    requires Legal(Init(limits, suffixes), steps)
    requires r !in After(Init(limits, suffixes), steps).calls && ip !in After(Init(limits, suffixes), steps).flights
    ensures Legal(Init(limits, suffixes), longer) && steps <= longer && t == After(Init(limits, suffixes), longer)
    ensures var s := After(Init(limits, suffixes), steps);
            var hit, got := Hit(s.items, ip, s.clock), AfterGet(s.items, ip, s.clock);
            var outcome := if hit.Some? then Answered(hit.value) else Lookup(suffixes, dns, ip);
            && r in t.calls && t.calls[r] == Done(ip, s.clock, outcome, hit.Some?) && t.clock == s.clock
            && t.flights == s.flights
            && t.items == if hit.None? && outcome.Answered? then AfterSet(limits, got, ip, outcome.verdict, s.clock)
                          else got
  {
    var start := Init(limits, suffixes);
    RunsKeepInvariant(start, steps);
    var s := After(start, steps);
    var hit := Hit(s.items, ip, s.clock);
    longer, t := BeginAndGet(start, steps, s, r, ip);
    if hit.None? {
      longer, t := LookUpAlone(start, longer, t, r, dns);
    }
  }

  lemma BeginAndGet(start: State, steps: seq<Step>, s: State, r: nat, ip: nat) returns (longer: seq<Step>, t: State)
    requires Legal(start, steps) && After(start, steps) == s && r !in s.calls
    ensures Legal(start, longer) && steps <= longer && t == After(start, longer)
    ensures var hit := Hit(s.items, ip, s.clock);
            t == s.(items := AfterGet(s.items, ip, s.clock),
                    calls := s.calls[r := if hit.Some? then Done(ip, s.clock, Answered(hit.value), true)
                                          else Missed(ip)])
  {
    longer, t := Extend(start, steps, s, Begin(r, ip));
    longer, t := Extend(start, longer, t, Get(r));
    assert s.calls[r := Begun(ip)][r := t.calls[r]] == s.calls[r := t.calls[r]];
  }

  lemma LookUpAlone(start: State, steps: seq<Step>, s: State, r: nat, dns: Dns) returns (longer: seq<Step>, t: State)
    requires Invariant(start) && Legal(start, steps) && After(start, steps) == s && r in s.calls && s.calls[r].Missed?
    requires s.calls[r].ip !in s.flights && s.limits == start.limits && s.suffixes == start.suffixes
    ensures Legal(start, longer) && steps <= longer && t == After(start, longer) && r in t.calls && t.clock == s.clock
    ensures t.flights == s.flights
    ensures var ip := s.calls[r].ip;
            var outcome := Lookup(s.suffixes, dns, ip);
            && t.calls[r] == Done(ip, s.clock, outcome, false)
            && t.items == if outcome.Answered? then AfterSet(s.limits, s.items, ip, outcome.verdict, s.clock)
                          else s.items
  {
    RunsKeepInvariant(start, steps);
    longer, t := JoinAndEnd(start, steps, s, r, dns);
    longer, t := ReleaseAndTake(start, longer, t, r, s.calls[r].ip);
    assert t.flights == s.flights;
  }

  lemma JoinAndEnd(start: State, steps: seq<Step>, s: State, r: nat, dns: Dns) returns (longer: seq<Step>, t: State)
    requires Legal(start, steps) && After(start, steps) == s && LookupsSound(s) && r in s.calls && s.calls[r].Missed?
    requires s.calls[r].ip !in s.flights
    ensures Legal(start, longer) && steps <= longer && t == After(start, longer)
    ensures var ip, f := s.calls[r].ip, |s.subjects|;
            var outcome := Lookup(s.suffixes, dns, ip);
            && t.clock == s.clock && t.flights == s.flights[ip := f]
            && r in t.calls && t.calls[r] == Awaiting(ip, f) && f in t.ended && t.ended[f].outcome == outcome
            && t.items == if outcome.Answered? then AfterSet(s.limits, s.items, ip, outcome.verdict, s.clock)
                          else s.items
  {
    assert |s.subjects| !in s.ended;
    longer, t := Extend(start, steps, s, Join(r));
    longer, t := Extend(start, longer, t, End(s.calls[r].ip, dns));
  }

  lemma ReleaseAndTake(start: State, steps: seq<Step>, s: State, r: nat, ip: nat) returns (longer: seq<Step>, t: State)
    requires Legal(start, steps) && After(start, steps) == s && r in s.calls && s.calls[r].Awaiting?
    requires ip == s.calls[r].ip && ip in s.flights && s.flights[ip] == s.calls[r].flight && s.flights[ip] in s.ended
    ensures Legal(start, longer) && steps <= longer && t == After(start, longer)
    ensures t == s.(flights := s.flights - {ip},
                    calls := s.calls[r := Done(ip, s.clock, s.ended[s.flights[ip]].outcome, false)])
  {
    longer, t := Extend(start, steps, s, Release(ip));
    longer, t := Extend(start, longer, t, Take(r));
  }

  /** A call that comes while a lookup of its address is in flight waits for that one, makes none of its own, and is
      answered with its outcome. */
  lemma CallsShareLookups(limits: Limits, suffixes: seq<string>, steps: seq<Step>, r: nat, dns: Dns)
    returns (longer: seq<Step>, t: State)
    requires Legal(Init(limits, suffixes), steps)
    requires var s := After(Init(limits, suffixes), steps);
             && r in s.calls && s.calls[r].Missed? && s.calls[r].ip in s.flights && s.flights[s.calls[r].ip] !in s.ended
    ensures Legal(Init(limits, suffixes), longer) && steps <= longer && t == After(Init(limits, suffixes), longer)
    ensures var s := After(Init(limits, suffixes), steps);
            var ip := s.calls[r].ip;
            && t.subjects == s.subjects && r in t.calls
            && t.calls[r] == Done(ip, s.clock, Lookup(suffixes, dns, ip), false)
  {
    var start := Init(limits, suffixes);
    RunsKeepInvariant(start, steps);
    var s := After(start, steps);
    longer, t := Extend(start, steps, s, Join(r));
    longer, t := Extend(start, longer, t, End(s.calls[r].ip, dns));
    longer, t := Extend(start, longer, t, Take(r));
  }

  lemma CacheStaysBounded(limits: Limits, suffixes: seq<string>, steps: seq<Step>)
    requires Legal(Init(limits, suffixes), steps)
    ensures |After(Init(limits, suffixes), steps).items| <= limits.maxEntries
  {
    RunsKeepInvariant(Init(limits, suffixes), steps);
  }
}
