/** Token buckets per key, in a map bounded by idle eviction and a recency trim. Times and credit are
    exact integers in nanoseconds. */
module RateLimit {
  import opened Text
  import Lru

  const MINUTE: nat := 60_000_000_000
  const SECOND: nat := 1_000_000_000
  const DEFAULT_MAX_ENTRIES: nat := 16384
  const DEFAULT_TTL: nat := 600_000_000_000

  // ---------------------------------------------------------------- one bucket

  /** A bucket: credit as of `last`, an interval's worth of it per token, full at `cap`. */
  datatype Bucket = Bucket(interval: nat, cap: nat, credit: nat, last: int)

  /** What `n` tokens of a given credit are worth. */
  function Tokens(n: nat, each: nat): nat { if n == 0 then 0 else Tokens(n - 1, each) + each }

  lemma {:induction false} TokensMultiply(n: nat, each: nat)
    ensures Tokens(n, each) == n * each
  {
    if n > 0 {
      TokensMultiply(n - 1, each);
      assert n * each == (n - 1) * each + each;
    }
  }

  function Interval(rpm: int): nat
    requires rpm > 0
    ensures Interval(rpm) >= 1
  {
    if MINUTE / rpm <= 0 then 1 else MINUTE / rpm
  }

  /** A full bucket: one interval's worth of credit per token, rpm tokens. */
  function Cap(rpm: int): nat
    requires rpm > 0
    ensures Cap(rpm) >= Interval(rpm)
  {
    Tokens(rpm, Interval(rpm))
  }

  function NewBucket(rpm: int, now: int): Bucket
    requires rpm > 0
  {
    Bucket(Interval(rpm), Cap(rpm), Cap(rpm), now)
  }

  function Elapsed(b: Bucket, now: int): nat { if now > b.last then now - b.last else 0 }

  /** The credit at `now`. */
  function Credit(b: Bucket, now: int): nat {
    if b.credit + Elapsed(b, now) < b.cap then b.credit + Elapsed(b, now) else b.cap
  }

  predicate Admits(b: Bucket, now: int) { Credit(b, now) >= b.interval }

  /** A token is taken only when there is one; a denial leaves the bucket as it was. */
  function Take(b: Bucket, now: int): Bucket {
    if Admits(b, now) then b.(credit := Credit(b, now) - b.interval, last := now) else b
  }

  // ---------------------------------------------------------------- the map

  datatype Entry = Entry(bucket: Bucket, lastAccess: int)

  datatype Limits = Limits(maxEntries: nat, ttl: nat)

  datatype Request = Request(key: string, rpm: int, now: int)

  type Entries = map<string, Entry>

  function Key(key: string): string { if Trim(SPACES, key) == "" then "global" else key }

  function Accessed(e: Entry): int { e.lastAccess }

  function DropIdle(limits: Limits, entries: Entries, now: int): Entries {
    map k | k in entries && now - entries[k].lastAccess <= limits.ttl :: entries[k]
  }

  ghost function EvictIdle(limits: Limits, entries: Entries, now: int): Entries {
    Lru.Trimmed(DropIdle(limits, entries, now), limits.maxEntries, Accessed)
  }

  /** The bucket a request meets: the one kept for its key, or a new full one. */
  function Met(entries: Entries, req: Request): Bucket
    requires req.rpm > 0
  {
    if Key(req.key) in entries then entries[Key(req.key)].bucket else NewBucket(req.rpm, req.now)
  }

  /** The map once the request is entered and the bound enforced; the request's own entry may be gone. */
  ghost function Bounded(limits: Limits, entries: Entries, req: Request): Entries
    requires req.rpm > 0
  {
    var entered := entries[Key(req.key) := Entry(Met(entries, req), req.now)];
    if |entered| > limits.maxEntries then EvictIdle(limits, entered, req.now) else entered
  }

  ghost function After(limits: Limits, entries: Entries, req: Request): Entries {
    if req.rpm <= 0 then entries
    else
      var kept, k := Bounded(limits, entries, req), Key(req.key);
      if k in kept then kept[k := kept[k].(bucket := Take(Met(entries, req), req.now))] else kept
  }

  predicate Allowed(entries: Entries, req: Request) {
    req.rpm <= 0 || Admits(Met(entries, req), req.now)
  }

  class Limiter {
    var entries: Entries
    const limits: Limits

    constructor (limits: Limits)
      ensures this.limits == limits && entries == map[]
    {
      this.limits := limits;
      entries := map[];
    }

    /** Drops the idle entries, then trims the least recently used. */
    method Evict(now: int)
      modifies this
      ensures entries == EvictIdle(limits, old(entries), now)
    {
      var keys := entries.Keys;
      while keys != {}
        invariant keys <= old(entries).Keys
        invariant entries == map k | k in old(entries) && (k in keys || now - old(entries)[k].lastAccess <= limits.ttl)
                             :: old(entries)[k]
        decreases |keys|
      {
        var key :| key in keys;
        if now - entries[key].lastAccess > limits.ttl {
          entries := entries - {key};
        }
        keys := keys - {key};
      }
      assert entries == DropIdle(limits, old(entries), now);
      entries := Lru.Trim(entries, limits.maxEntries, Accessed);
    }

    method AllowAt(key: string, rpm: int, now: int) returns (ok: bool)
      modifies this
      ensures entries == After(limits, old(entries), Request(key, rpm, now))
      ensures ok == Allowed(old(entries), Request(key, rpm, now))
    {
      if rpm <= 0 {
        return true;
      }
      var k := Key(key);
      var bucket: Bucket;
      if k in entries {
        bucket := entries[k].bucket;
      } else {
        bucket := NewBucket(rpm, now);
      }
      entries := entries[k := Entry(bucket, now)];
      if |entries| > limits.maxEntries {
        Evict(now);
      }
      ok := Admits(bucket, now);
      if k in entries {
        entries := entries[k := entries[k].(bucket := Take(bucket, now))];
      }
    }
  }

  // ---------------------------------------------------------------- the bound

  /** After a counted request the map holds at most the maximum. */
  lemma MapStaysBounded(limits: Limits, entries: Entries, req: Request)
    requires |entries| <= limits.maxEntries
    ensures |After(limits, entries, req)| <= limits.maxEntries
  {
    if req.rpm > 0 {
      var entered := entries[Key(req.key) := Entry(Met(entries, req), req.now)];
      var kept := Bounded(limits, entries, req);
      if |entered| > limits.maxEntries {
        Lru.TrimLeaves(DropIdle(limits, entered, req.now), limits.maxEntries, Accessed);
      }
      if Key(req.key) in kept {
        SameKeys(kept, After(limits, entries, req));
      }
    }
  }

  lemma SameKeys(a: Entries, b: Entries)
    requires a.Keys == b.Keys
    ensures |a| == |b|
  {
    assert |a| == |a.Keys| && |b| == |b.Keys|;
  }

  // ---------------------------------------------------------------- one key at a time

  /** What the map holds for a key. */
  function View(entries: Entries, k: string): Option<Bucket> {
    if k in entries then Some(entries[k].bucket) else None
  }

  /** Every key has its own bucket, but for those of white space alone, which share one. */
  lemma KeysHaveBuckets(key: string)
    ensures Key(key) == if forall c :: c in key ==> c in SPACES then "global" else key
  {
    TrimLeavesNothing(SPACES, key);
  }

  /** The program's limiter: 16384 buckets and ten minutes. */
  lemma DefaultsAreThePrograms()
    ensures DEFAULT_MAX_ENTRIES == 16384 && DEFAULT_TTL == 10 * 60 * 1_000_000_000
  {
  }

  predicate Concerns(req: Request, k: string) { req.rpm > 0 && Key(req.key) == k }

  function MetBy(view: Option<Bucket>, req: Request): Bucket
    requires req.rpm > 0
  {
    if view.Some? then view.value else NewBucket(req.rpm, req.now)
  }

  /** Whatever eviction does, a key's bucket is kept, advanced by its own requests, or dropped. */
  ghost predicate ViewStep(before: Option<Bucket>, req: Request, k: string, after: Option<Bucket>) {
    if Concerns(req, k) then after == None || after == Some(Take(MetBy(before, req), req.now))
    else after == None || after == before
  }

  lemma BoundedKeeps(limits: Limits, entries: Entries, req: Request)
    requires req.rpm > 0
    ensures var entered := entries[Key(req.key) := Entry(Met(entries, req), req.now)];
            var kept := Bounded(limits, entries, req);
            kept.Keys <= entered.Keys && forall k :: k in kept ==> kept[k] == entered[k]
  {
    var entered := entries[Key(req.key) := Entry(Met(entries, req), req.now)];
    if |entered| > limits.maxEntries {
      Lru.TrimLeaves(DropIdle(limits, entered, req.now), limits.maxEntries, Accessed);
    }
  }

  lemma AfterSteps(limits: Limits, entries: Entries, req: Request, k: string)
    ensures ViewStep(View(entries, k), req, k, View(After(limits, entries, req), k))
    ensures Concerns(req, k) ==> (Allowed(entries, req) <==> Admits(MetBy(View(entries, k), req), req.now))
  {
    if req.rpm > 0 {
      BoundedKeeps(limits, entries, req);
    }
  }

  // ---------------------------------------------------------------- runs

  /** The map after a run from an empty limiter. */
  ghost function Run(limits: Limits, reqs: seq<Request>): Entries {
    if |reqs| == 0 then map[] else After(limits, Run(limits, reqs[..|reqs| - 1]), reqs[|reqs| - 1])
  }

  /** The answer to request `i` of a run. */
  ghost predicate Answer(limits: Limits, reqs: seq<Request>, i: nat)
    requires i < |reqs|
  {
    Allowed(Run(limits, reqs[..i]), reqs[i])
  }

  /** The yardstick: one bucket per key, kept for ever. */
  function IdealAfter(buckets: map<string, Bucket>, req: Request): map<string, Bucket> {
    if req.rpm <= 0 then buckets else buckets[Key(req.key) := Take(IdealMet(buckets, req), req.now)]
  }

  function IdealMet(buckets: map<string, Bucket>, req: Request): Bucket
    requires req.rpm > 0
  {
    if Key(req.key) in buckets then buckets[Key(req.key)] else NewBucket(req.rpm, req.now)
  }

  function IdealRun(reqs: seq<Request>): map<string, Bucket> {
    if |reqs| == 0 then map[] else IdealAfter(IdealRun(reqs[..|reqs| - 1]), reqs[|reqs| - 1])
  }

  predicate IdealAllowed(buckets: map<string, Bucket>, req: Request) {
    req.rpm <= 0 || Admits(IdealMet(buckets, req), req.now)
  }

  predicate IdealAnswer(reqs: seq<Request>, i: nat)
    requires i < |reqs|
  {
    IdealAllowed(IdealRun(reqs[..i]), reqs[i])
  }

  function IdealView(buckets: map<string, Bucket>, k: string): Option<Bucket> {
    if k in buckets then Some(buckets[k]) else None
  }

  /** Requests of key `k` admitted in a run. */
  ghost function Admitted(limits: Limits, reqs: seq<Request>, k: string): nat {
    if |reqs| == 0 then 0
    else
      var last := |reqs| - 1;
      Admitted(limits, reqs[..last], k) + if Concerns(reqs[last], k) && Answer(limits, reqs, last) then 1 else 0
  }

  function IdealAdmitted(reqs: seq<Request>, k: string): nat {
    if |reqs| == 0 then 0
    else
      var last := |reqs| - 1;
      IdealAdmitted(reqs[..last], k) + if Concerns(reqs[last], k) && IdealAnswer(reqs, last) then 1 else 0
  }

  ghost predicate ClockForward(reqs: seq<Request>) {
    forall i, j :: 0 <= i < j < |reqs| ==> reqs[i].now <= reqs[j].now
  }

  /** The key's limit does not change during the run. */
  ghost predicate FixedRate(reqs: seq<Request>, k: string, rpm: int) {
    rpm > 0 && forall i :: 0 <= i < |reqs| && Concerns(reqs[i], k) ==> reqs[i].rpm == rpm
  }

  /** A bucket as requests of one fixed rate leave it, at a clock not before its last use. */
  predicate Sound(view: Option<Bucket>, rpm: int, now: int)
    requires rpm > 0
  {
    view.Some? ==>
      && view.value.interval == Interval(rpm) && view.value.cap == Cap(rpm)
      && view.value.credit <= view.value.cap && view.value.last <= now
  }

  /** The credit a key has at `now`; a forgotten key has all of it. */
  function Purse(view: Option<Bucket>, rpm: int, now: int): nat
    requires rpm > 0
  {
    if view.Some? then Credit(view.value, now) else Cap(rpm)
  }

  /** The clock after a run. */
  function Clock(reqs: seq<Request>, start: int): int { if |reqs| == 0 then start else reqs[|reqs| - 1].now }

  /** So the map never outgrows its bound in any run. */
  lemma {:induction false} RunsStayBounded(limits: Limits, reqs: seq<Request>)
    ensures |Run(limits, reqs)| <= limits.maxEntries
  {
    if |reqs| > 0 {
      RunsStayBounded(limits, reqs[..|reqs| - 1]);
      MapStaysBounded(limits, Run(limits, reqs[..|reqs| - 1]), reqs[|reqs| - 1]);
    }
  }

  // ---------------------------------------------------------------- never stricter than the ideal

  /** The bounded machine's view has admitted `lead` more, and is behind by no more credit than that. */
  ghost predicate Leads(held: Option<Bucket>, ideal: Option<Bucket>, rpm: int, now: int, lead: int)
    requires rpm > 0
  {
    && lead >= 0 && Sound(held, rpm, now) && Sound(ideal, rpm, now)
    && Purse(held, rpm, now) + Tokens(lead, Interval(rpm)) >= Purse(ideal, rpm, now)
  }

  lemma PurseAges(view: Option<Bucket>, rpm: int, now: int, later: int)
    requires rpm > 0 && now <= later && Sound(view, rpm, now)
    ensures Sound(view, rpm, later)
    ensures Purse(view, rpm, later)
         == if Purse(view, rpm, now) + (later - now) < Cap(rpm) then Purse(view, rpm, now) + (later - now) else Cap(rpm)
  {
  }

  lemma LeadAges(held: Option<Bucket>, ideal: Option<Bucket>, rpm: int, now: int, later: int, lead: int)
    requires rpm > 0 && now <= later && Leads(held, ideal, rpm, now, lead)
    ensures Leads(held, ideal, rpm, later, lead)
  {
    PurseAges(held, rpm, now, later);
    PurseAges(ideal, rpm, now, later);
  }

  /** One request of the key, in both machines. */
  lemma LeadStep(held: Option<Bucket>, ideal: Option<Bucket>, req: Request, k: string, lead: int, after: Option<Bucket>)
    requires Concerns(req, k) && Leads(held, ideal, req.rpm, req.now, lead) && ViewStep(held, req, k, after)
    ensures Leads(after, Some(Take(MetBy(ideal, req), req.now)), req.rpm, req.now,
                  lead + (if Admits(MetBy(held, req), req.now) then 1 else 0)
                       - (if Admits(MetBy(ideal, req), req.now) then 1 else 0))
  {
  }

  lemma PrefixKeeps(reqs: seq<Request>, k: string, rpm: int)
    requires |reqs| > 0 && ClockForward(reqs) && FixedRate(reqs, k, rpm)
    ensures ClockForward(reqs[..|reqs| - 1]) && FixedRate(reqs[..|reqs| - 1], k, rpm)
    ensures Clock(reqs[..|reqs| - 1], reqs[0].now) <= reqs[|reqs| - 1].now
  {
  }

  lemma IdealSteps(buckets: map<string, Bucket>, req: Request, k: string)
    ensures IdealView(IdealAfter(buckets, req), k)
         == if Concerns(req, k) then Some(Take(MetBy(IdealView(buckets, k), req), req.now)) else IdealView(buckets, k)
    ensures Concerns(req, k) ==> (IdealAllowed(buckets, req) <==> Admits(MetBy(IdealView(buckets, k), req), req.now))
  {
  }

  /** The invariant of the comparison, over all prefixes of a run. */
  lemma {:induction false} LeadInvariant(limits: Limits, reqs: seq<Request>, k: string, rpm: int, start: int)
    returns (held: Option<Bucket>, ideal: Option<Bucket>, lead: int, now: int)
    requires ClockForward(reqs) && FixedRate(reqs, k, rpm) && (|reqs| > 0 ==> start <= reqs[0].now)
    ensures held == View(Run(limits, reqs), k) && ideal == IdealView(IdealRun(reqs), k)
    ensures lead == Admitted(limits, reqs, k) - IdealAdmitted(reqs, k) && now == Clock(reqs, start)
    ensures Leads(held, ideal, rpm, now, lead)
  {
    held, ideal := View(Run(limits, reqs), k), IdealView(IdealRun(reqs), k);
    lead, now := Admitted(limits, reqs, k) - IdealAdmitted(reqs, k), Clock(reqs, start);
    if |reqs| > 0 {
      PrefixKeeps(reqs, k, rpm);
      var before, idealBefore, had, was := LeadInvariant(limits, reqs[..|reqs| - 1], k, rpm, start);
      RunSteps(limits, reqs, k);
      IdealRunSteps(reqs, k);
      LeadMoves(before, idealBefore, reqs[|reqs| - 1], k, rpm, had, was, held, ideal, lead, now);
    }
  }

  /** One more request, in terms of the key's view alone. */
  lemma RunSteps(limits: Limits, reqs: seq<Request>, k: string)
    requires |reqs| > 0
    ensures var front, req := reqs[..|reqs| - 1], reqs[|reqs| - 1];
            var view := View(Run(limits, front), k);
            && ViewStep(view, req, k, View(Run(limits, reqs), k))
            && Admitted(limits, reqs, k)
               == Admitted(limits, front, k) + if Concerns(req, k) && Admits(MetBy(view, req), req.now) then 1 else 0
  {
    AfterSteps(limits, Run(limits, reqs[..|reqs| - 1]), reqs[|reqs| - 1], k);
  }

  lemma IdealRunSteps(reqs: seq<Request>, k: string)
    requires |reqs| > 0
    ensures var front, req := reqs[..|reqs| - 1], reqs[|reqs| - 1];
            var view := IdealView(IdealRun(front), k);
            && IdealView(IdealRun(reqs), k)
               == (if Concerns(req, k) then Some(Take(MetBy(view, req), req.now)) else view)
            && IdealAdmitted(reqs, k)
               == IdealAdmitted(front, k) + if Concerns(req, k) && Admits(MetBy(view, req), req.now) then 1 else 0
  {
    IdealSteps(IdealRun(reqs[..|reqs| - 1]), reqs[|reqs| - 1], k);
  }

  lemma LeadMoves(held: Option<Bucket>, ideal: Option<Bucket>, req: Request, k: string, rpm: int, lead: int, was: int,
                  after: Option<Bucket>, idealAfter: Option<Bucket>, next: int, now: int)
    requires was <= now == req.now && rpm > 0 && (Concerns(req, k) ==> req.rpm == rpm)
    requires Leads(held, ideal, rpm, was, lead) && ViewStep(held, req, k, after)
    requires idealAfter == if Concerns(req, k) then Some(Take(MetBy(ideal, req), req.now)) else ideal
    requires next == lead + (if Concerns(req, k) && Admits(MetBy(held, req), req.now) then 1 else 0)
                          - (if Concerns(req, k) && Admits(MetBy(ideal, req), req.now) then 1 else 0)
    ensures Leads(after, idealAfter, rpm, now, next)
  {
    LeadAges(held, ideal, rpm, was, now, lead);
    LeadAdvances(held, ideal, req, k, rpm, lead, after, idealAfter, next, now);
  }

  lemma LeadAdvances(held: Option<Bucket>, ideal: Option<Bucket>, req: Request, k: string, rpm: int, lead: int,
                     after: Option<Bucket>, idealAfter: Option<Bucket>, next: int, now: int)
    requires now == req.now && rpm > 0 && (Concerns(req, k) ==> req.rpm == rpm)
    requires Leads(held, ideal, rpm, req.now, lead) && ViewStep(held, req, k, after)
    requires idealAfter == if Concerns(req, k) then Some(Take(MetBy(ideal, req), req.now)) else ideal
    requires next == lead + (if Concerns(req, k) && Admits(MetBy(held, req), req.now) then 1 else 0)
                          - (if Concerns(req, k) && Admits(MetBy(ideal, req), req.now) then 1 else 0)
    ensures Leads(after, idealAfter, rpm, now, next)
  {
    if Concerns(req, k) {
      LeadStep(held, ideal, req, k, lead, after);
    }
  }

  /** Eviction is never at a client's expense: over any run the bounded limiter admits at least as many
      requests of a key as buckets kept for ever would. */
  lemma BoundedAdmitsAtLeastIdeal(limits: Limits, reqs: seq<Request>, k: string, rpm: int)
    requires ClockForward(reqs) && FixedRate(reqs, k, rpm)
    ensures Admitted(limits, reqs, k) >= IdealAdmitted(reqs, k)
  {
    var _, _, lead, _ := LeadInvariant(limits, reqs, k, rpm, if |reqs| > 0 then reqs[0].now else 0);
  }

  // ---------------------------------------------------------------- the rate

  /** The key was in play at step `i` of a run and its entry is gone after it. */
  ghost predicate DroppedAt(limits: Limits, reqs: seq<Request>, k: string, i: nat)
    requires i < |reqs|
  {
    (View(Run(limits, reqs[..i]), k).Some? || Concerns(reqs[i], k)) && View(Run(limits, reqs[..i + 1]), k) == None
  }

  ghost function Drops(limits: Limits, reqs: seq<Request>, k: string): nat {
    if |reqs| == 0 then 0
    else Drops(limits, reqs[..|reqs| - 1], k) + if DroppedAt(limits, reqs, k, |reqs| - 1) then 1 else 0
  }

  /** Credit spent and credit left never exceed a full bucket, one more for each drop, and the time passed. */
  ghost predicate Spends(view: Option<Bucket>, rpm: int, now: int, admitted: nat, drops: nat, time: int)
    requires rpm > 0
  {
    && Sound(view, rpm, now)
    && Tokens(admitted, Interval(rpm)) + Purse(view, rpm, now) <= Tokens(drops + 1, Cap(rpm)) + time
  }

  lemma {:induction false} SpendingInvariant(limits: Limits, reqs: seq<Request>, k: string, rpm: int, start: int)
    returns (view: Option<Bucket>, now: int, admitted: nat, drops: nat)
    requires ClockForward(reqs) && FixedRate(reqs, k, rpm) && (|reqs| > 0 ==> start <= reqs[0].now)
    ensures view == View(Run(limits, reqs), k) && now == Clock(reqs, start) >= start
    ensures admitted == Admitted(limits, reqs, k) && drops == Drops(limits, reqs, k)
    ensures Spends(view, rpm, now, admitted, drops, now - start)
  {
    view, now := View(Run(limits, reqs), k), Clock(reqs, start);
    admitted, drops := Admitted(limits, reqs, k), Drops(limits, reqs, k);
    if |reqs| > 0 {
      var last := |reqs| - 1;
      assert reqs[..last + 1] == reqs;
      PrefixKeeps(reqs, k, rpm);
      var before, was, spent, gone := SpendingInvariant(limits, reqs[..last], k, rpm, start);
      RunSteps(limits, reqs, k);
      SpendingAges(before, rpm, was, now, spent, gone, was - start);
      SpendingStep(before, reqs[last], k, rpm, view, spent, gone, admitted, drops, now - start);
    }
  }

  lemma SpendingAges(view: Option<Bucket>, rpm: int, now: int, later: int, admitted: nat, drops: nat, time: int)
    requires rpm > 0 && now <= later && Spends(view, rpm, now, admitted, drops, time)
    ensures Spends(view, rpm, later, admitted, drops, time + (later - now))
  {
    PurseAges(view, rpm, now, later);
  }

  lemma SpendingStep(view: Option<Bucket>, req: Request, k: string, rpm: int, after: Option<Bucket>,
                     admitted: nat, drops: nat, spent: nat, gone: nat, time: int)
    requires rpm > 0 && (Concerns(req, k) ==> req.rpm == rpm) && ViewStep(view, req, k, after)
    requires Spends(view, rpm, req.now, admitted, drops, time)
    requires spent == admitted + if Concerns(req, k) && Admits(MetBy(view, req), req.now) then 1 else 0
    requires gone == drops + if (view.Some? || Concerns(req, k)) && after == None then 1 else 0
    ensures Spends(after, rpm, req.now, spent, gone, time)
  {
    assert Tokens(drops + 2, Cap(rpm)) == Tokens(drops + 1, Cap(rpm)) + Cap(rpm);
  }

  lemma Distributes(a: int, b: int, d: int)
    ensures (a + b) * d == a * d + b * d
  {
  }

  lemma Gap(x: int, y: int, d: nat)
    ensures x < y ==> x * d + d <= y * d
  {
    if x < y {
      Distributes(x, y - x, d);
      Distributes(1, y - x - 1, d);
    }
  }

  /** Division, from its remainder. */
  lemma Quotient(n: int, d: int, q: int, r: int)
    requires d > 0 && n == q * d + r && 0 <= r < d
    ensures n / d == q
  {
    var x := n / d;
    assert n == x * d + n % d;
    Gap(x, q, d);
    Gap(q, x, d);
  }

  lemma DivideBound(admitted: nat, interval: nat, whole: nat, time: nat)
    requires interval > 0 && admitted * interval <= whole * interval + time
    ensures admitted <= whole + time / interval
  {
    var q := time / interval;
    assert time == q * interval + time % interval;
    assert (whole + q) * interval == whole * interval + q * interval;
    Gap(whole + q, admitted, interval);
  }

  lemma TokensBound(admitted: nat, buckets: nat, rpm: nat, interval: nat, time: nat)
    requires interval > 0 && Tokens(admitted, interval) <= Tokens(buckets, Tokens(rpm, interval)) + time
    ensures admitted <= buckets * rpm + time / interval
  {
    TokensMultiply(admitted, interval);
    TokensMultiply(rpm, interval);
    TokensMultiply(buckets, rpm * interval);
    Regroup(buckets, rpm, interval);
    DivideBound(admitted, interval, buckets * rpm, time);
  }

  /** A burst for the first bucket and one for each drop, and a token per interval. */
  function MostAdmitted(drops: nat, rpm: int, time: nat): nat
    requires rpm > 0
  {
    (drops + 1) * rpm + time / Interval(rpm)
  }

  /** A key whose entry was dropped `d` times is admitted at most (d + 1) * rpm times and once more per
      interval that passed. */
  lemma RateBound(limits: Limits, reqs: seq<Request>, k: string, rpm: int)
    requires |reqs| > 0 && ClockForward(reqs) && FixedRate(reqs, k, rpm)
    ensures reqs[0].now <= reqs[|reqs| - 1].now
    ensures Admitted(limits, reqs, k) <= MostAdmitted(Drops(limits, reqs, k), rpm, reqs[|reqs| - 1].now - reqs[0].now)
  {
    var admitted, drops, time := RunSpends(limits, reqs, k, rpm);
  }

  lemma RunSpends(limits: Limits, reqs: seq<Request>, k: string, rpm: int)
    returns (admitted: nat, drops: nat, time: nat)
    requires |reqs| > 0 && ClockForward(reqs) && FixedRate(reqs, k, rpm)
    ensures admitted == Admitted(limits, reqs, k) && drops == Drops(limits, reqs, k)
    ensures time == reqs[|reqs| - 1].now - reqs[0].now
    ensures admitted <= MostAdmitted(drops, rpm, time)
  {
    var view, now;
    view, now, admitted, drops := SpendingInvariant(limits, reqs, k, rpm, reqs[0].now);
    time := now - reqs[0].now;
    SpendsBound(view, rpm, now, admitted, drops, time);
  }

  lemma SpendsBound(view: Option<Bucket>, rpm: int, now: int, admitted: nat, drops: nat, time: nat)
    requires rpm > 0 && Spends(view, rpm, now, admitted, drops, time)
    ensures admitted <= MostAdmitted(drops, rpm, time)
  {
    TokensBound(admitted, drops + 1, rpm, Interval(rpm), time);
  }

  lemma Regroup(a: nat, b: nat, c: nat)
    ensures a * (b * c) == (a * b) * c
  {
  }

  lemma SlowRefill(rpm: int)
    requires 0 < rpm <= MINUTE
    ensures MINUTE / Interval(rpm) == rpm <==> MINUTE % rpm < MINUTE / rpm
    ensures rpm * rpm <= MINUTE ==> MINUTE / Interval(rpm) == rpm
  {
    var i, r := MINUTE / rpm, MINUTE % rpm;
    assert MINUTE == i * rpm + r;
    Gap(0, i, rpm);
    assert i >= 1 && Interval(rpm) == i;
    assert i * rpm == rpm * i;
    if r < i {
      Quotient(MINUTE, i, rpm, r);
    } else {
      LargeRemainder(MINUTE, i, rpm, r);
    }
    Gap(i, rpm, rpm);
  }

  lemma SmallDividend(n: int, d: int)
    requires 0 <= n < d
    ensures n / d == 0 && n % d == n
  {
  }

  lemma FastRefill(rpm: int)
    requires rpm > MINUTE
    ensures Interval(rpm) == 1 && MINUTE / 1 == MINUTE && MINUTE / rpm == 0 && MINUTE % rpm == MINUTE
    ensures rpm * rpm > MINUTE
  {
    SmallDividend(MINUTE, rpm);
    Gap(1, rpm, rpm);
  }

  /** The truncated interval refills exactly rpm tokens a minute when the remainder of the division is
      below the interval, in particular when rpm * rpm is at most a minute's nanoseconds. */
  lemma MinuteRefill(rpm: int)
    requires rpm > 0
    ensures MINUTE / Interval(rpm) == rpm <==> MINUTE % rpm < MINUTE / rpm
    ensures rpm * rpm <= MINUTE ==> MINUTE / Interval(rpm) == rpm
  {
    if rpm <= MINUTE {
      SlowRefill(rpm);
    } else {
      FastRefill(rpm);
    }
  }

  lemma LargeRemainder(n: int, d: int, q: int, r: int)
    requires d > 0 && n == q * d + r && r >= d
    ensures n / d > q
  {
    assert (q + 1) * d == q * d + d;
    assert n == (n / d) * d + n % d;
    Gap(n / d, q + 1, d);
  }
}
