/** The waits the program advises, Crawl-delay and Retry-After, against the limiter that enforces. */
module Waits {
  import opened Text
  import opened RateLimit
  import Lru
  import Robots

  /** The Retry-After value of a denial under a limit. */
  function RetryAfterSeconds(rpm: int): nat {
    if rpm > 0 && rpm < 60 then (60 + rpm - 1) / rpm else 1
  }

  /** Rounding up gives the least whole number that is enough. */
  lemma LeastWhole(rpm: int)
    requires 0 < rpm < 60
    ensures var n := (60 + rpm - 1) / rpm; n >= 1 && n * rpm >= 60 && (n - 1) * rpm < 60
  {
    var n := (60 + rpm - 1) / rpm;
    RoundedUp(rpm);
    assert 60 + rpm - 1 == n * rpm + (60 + rpm - 1) % rpm;
    assert (n - 1) * rpm == n * rpm - rpm;
  }

  lemma RoundedUp(rpm: int)
    requires 0 < rpm < 60
    ensures (60 + rpm - 1) / rpm * rpm >= 60 && (60 + rpm - 1) / rpm >= 1
  {
    var n := 60 + rpm - 1;
    assert n == n / rpm * rpm + n % rpm;
    Gap(n / rpm, 1, rpm);
  }

  lemma DivideAtMost(n: int, d: int, q: int)
    requires d > 0 && n <= q * d
    ensures n / d <= q
  {
    assert n == n / d * d + n % d;
    Gap(q, n / d, d);
  }

  /** Waiting a limit's Retry-After is at least one refill interval. */
  lemma RetryCoversInterval(rpm: int)
    requires rpm > 0
    ensures Interval(rpm) <= RetryAfterSeconds(rpm) * SECOND
  {
    if rpm < 60 {
      RoundedUp(rpm);
      var s := RetryAfterSeconds(rpm);
      assert MINUTE == 60 * SECOND;
      Scale(60, s * rpm, SECOND);
      assert (s * rpm) * SECOND == (s * SECOND) * rpm;
      DivideAtMost(MINUTE, rpm, s * SECOND);
    } else {
      Scale(60, rpm, SECOND);
      DivideAtMost(MINUTE, rpm, SECOND);
    }
  }

  lemma Scale(a: int, b: int, c: nat)
    requires a <= b
    ensures a * c <= b * c
  {
    if a < b {
      Gap(a, b, c);
    }
  }

  /** So is a positive advertised delay, if it is at least the delay the limit implies. */
  lemma DelayCoversInterval(rpm: int, delay: nat)
    requires rpm > 0 && delay >= 1 && Robots.CrawlDelaySeconds(rpm) <= delay
    ensures Interval(rpm) <= delay * SECOND
  {
    RetryCoversInterval(rpm);
    if rpm < 60 {
      RoundedUp(rpm);
    }
    assert RetryAfterSeconds(rpm) <= delay;
    Scale(RetryAfterSeconds(rpm), delay, SECOND);
  }

  // ---------------------------------------------------------------- Crawl-delay

  /** The key's requests keep `delay` seconds apart. */
  ghost predicate Spaced(reqs: seq<Request>, k: string, delay: nat) {
    forall i, j :: 0 <= i < j < |reqs| && Concerns(reqs[i], k) && Concerns(reqs[j], k) ==>
      reqs[j].now >= reqs[i].now + delay * SECOND
  }

  /** Every limit the key's requests carry implies at most the advertised delay. */
  ghost predicate Advertised(reqs: seq<Request>, k: string, delay: nat) {
    delay >= 1 && forall i :: 0 <= i < |reqs| && Concerns(reqs[i], k) ==> Robots.CrawlDelaySeconds(reqs[i].rpm) <= delay
  }

  /** A bucket that refills within the delay and was last used by one of the key's requests. */
  ghost predicate Patient(view: Option<Bucket>, reqs: seq<Request>, k: string, delay: nat) {
    view.Some? ==>
      && view.value.interval <= delay * SECOND && view.value.interval <= view.value.cap
      && exists i :: 0 <= i < |reqs| && Concerns(reqs[i], k) && reqs[i].now == view.value.last
  }

  lemma PatientAdmits(view: Option<Bucket>, reqs: seq<Request>, k: string, delay: nat)
    requires |reqs| > 0 && Concerns(reqs[|reqs| - 1], k) && Spaced(reqs, k, delay) && Advertised(reqs, k, delay)
    requires Patient(view, reqs[..|reqs| - 1], k, delay)
    ensures Admits(MetBy(view, reqs[|reqs| - 1]), reqs[|reqs| - 1].now)
    ensures Patient(Some(Take(MetBy(view, reqs[|reqs| - 1]), reqs[|reqs| - 1].now)), reqs, k, delay)
  {
    var req := reqs[|reqs| - 1];
    if view.Some? {
      var front := reqs[..|reqs| - 1];
      var i :| 0 <= i < |front| && Concerns(front[i], k) && front[i].now == view.value.last;
      assert front[i] == reqs[i];
    } else {
      DelayCoversInterval(req.rpm, delay);
    }
  }

  lemma {:induction false} StaysPatient(limits: Limits, reqs: seq<Request>, k: string, delay: nat)
    requires Spaced(reqs, k, delay) && Advertised(reqs, k, delay)
    ensures Patient(View(Run(limits, reqs), k), reqs, k, delay)
    ensures |reqs| > 0 && Concerns(reqs[|reqs| - 1], k) ==> Answer(limits, reqs, |reqs| - 1)
  {
    if |reqs| > 0 {
      var last := |reqs| - 1;
      var front, req := reqs[..last], reqs[last];
      StaysPatient(limits, front, k, delay);
      var view := View(Run(limits, front), k);
      AfterSteps(limits, Run(limits, front), req, k);
      if Concerns(req, k) {
        PatientAdmits(view, reqs, k, delay);
      } else if View(Run(limits, reqs), k).Some? {
        var i :| 0 <= i < last && Concerns(front[i], k) && front[i].now == view.value.last;
        assert reqs[i] == front[i];
      }
    }
  }

  /** A crawler alone on its bucket that keeps a positive advertised delay is never denied, whatever
      limits its paths mix and whatever eviction does. */
  lemma KeepingTheDelayIsNeverDenied(limits: Limits, reqs: seq<Request>, k: string, delay: nat, i: nat)
    requires Spaced(reqs, k, delay) && Advertised(reqs, k, delay)
    requires i < |reqs| && Concerns(reqs[i], k)
    ensures Answer(limits, reqs, i)
  {
    var front := reqs[..i + 1];
    StaysPatient(limits, front, k, delay);
    assert front[..i] == reqs[..i];
  }

  // ---------------------------------------------------------------- Retry-After

  /** The wait is enough for every denied bucket exactly when it covers the bucket's own interval. */
  ghost predicate WaitSuffices(bucketRpm: int, seconds: nat)
    requires bucketRpm > 0
  {
    forall b: Bucket, now: int ::
      b.interval == Interval(bucketRpm) && b.cap == Cap(bucketRpm) && b.last <= now && !Admits(b, now)
      ==> Admits(b, now + seconds * SECOND)
  }

  lemma WaitSufficesExactly(bucketRpm: int, seconds: nat)
    requires bucketRpm > 0
    ensures WaitSuffices(bucketRpm, seconds) <==> Interval(bucketRpm) <= seconds * SECOND
  {
    var wait := seconds * SECOND;
    if Interval(bucketRpm) > wait {
      var b := Bucket(Interval(bucketRpm), Cap(bucketRpm), 0, 0);
      assert !Admits(b, 0) && !Admits(b, 0 + wait);
    }
  }

  lemma {:induction false} QuietKey(limits: Limits, reqs: seq<Request>, k: string, lo: nat, hi: nat)
    requires lo <= hi <= |reqs| && forall i :: lo <= i < hi ==> !Concerns(reqs[i], k)
    ensures View(Run(limits, reqs[..hi]), k) == None
         || View(Run(limits, reqs[..hi]), k) == View(Run(limits, reqs[..lo]), k)
    decreases hi - lo
  {
    if lo < hi {
      QuietKey(limits, reqs, k, lo, hi - 1);
      assert reqs[..hi][..hi - 1] == reqs[..hi - 1];
      AfterSteps(limits, Run(limits, reqs[..hi - 1]), reqs[hi - 1], k);
    }
  }

  /** The bucket a request of a run meets. */
  ghost function MetAt(limits: Limits, reqs: seq<Request>, k: string, i: nat): Bucket
    requires i < |reqs| && Concerns(reqs[i], k)
  {
    MetBy(View(Run(limits, reqs[..i]), k), reqs[i])
  }

  /** A bucket as requests of the key leave it: made for one of their limits, and not used later than `now`. */
  ghost predicate MadeFor(b: Bucket, reqs: seq<Request>, k: string, n: int, now: int) {
    && 0 <= n < |reqs| && Concerns(reqs[n], k)
    && b.interval == Interval(reqs[n].rpm) && b.cap == Cap(reqs[n].rpm) && b.last <= now
  }

  ghost predicate Made(b: Bucket, reqs: seq<Request>, k: string, now: int) { exists n :: MadeFor(b, reqs, k, n, now) }

  lemma {:induction false} BucketsHaveMakers(limits: Limits, reqs: seq<Request>, k: string)
    requires ClockForward(reqs) && View(Run(limits, reqs), k).Some?
    ensures |reqs| > 0 && Made(View(Run(limits, reqs), k).value, reqs, k, reqs[|reqs| - 1].now)
  {
    if |reqs| > 0 {
      var last := |reqs| - 1;
      var front, view := reqs[..last], View(Run(limits, reqs[..last]), k);
      AfterSteps(limits, Run(limits, front), reqs[last], k);
      if view.Some? {
        BucketsHaveMakers(limits, front, k);
        var n :| MadeFor(view.value, front, k, n, front[|front| - 1].now);
        assert MadeFor(View(Run(limits, reqs), k).value, reqs, k, n, reqs[last].now);
      } else {
        assert MadeFor(View(Run(limits, reqs), k).value, reqs, k, last, reqs[last].now);
      }
    }
  }

  lemma MetHasMaker(limits: Limits, reqs: seq<Request>, k: string, i: nat) returns (n: nat)
    requires ClockForward(reqs) && i < |reqs| && Concerns(reqs[i], k)
    ensures n <= i && MadeFor(MetAt(limits, reqs, k, i), reqs, k, n, reqs[i].now)
  {
    var front := reqs[..i];
    if View(Run(limits, front), k).Some? {
      BucketsHaveMakers(limits, front, k);
      var m :| MadeFor(View(Run(limits, front), k).value, front, k, m, front[|front| - 1].now);
      n := m;
    } else {
      n := i;
    }
  }

  /** The next request after a denial is admitted exactly when the key's entry is gone, or what the bucket had then
      and what it gained since make up a token. */
  lemma WaitIsRewardedExactly(limits: Limits, reqs: seq<Request>, k: string, i: nat, j: nat)
    requires ClockForward(reqs) && i < j < |reqs|
    requires Concerns(reqs[i], k) && Concerns(reqs[j], k) && forall n :: i < n < j ==> !Concerns(reqs[n], k)
    requires !Answer(limits, reqs, i)
    ensures var b := MetAt(limits, reqs, k, i);
            Answer(limits, reqs, j)
            <==> View(Run(limits, reqs[..j]), k) == None
                 || Credit(b, reqs[i].now) + (reqs[j].now - reqs[i].now) >= b.interval
  {
    var n := MetHasMaker(limits, reqs, k, i);
    AfterSteps(limits, Run(limits, reqs[..i]), reqs[i], k);
    assert reqs[..i + 1][..i] == reqs[..i];
    QuietKey(limits, reqs, k, i + 1, j);
    AfterSteps(limits, Run(limits, reqs[..j]), reqs[j], k);
    DeniedThenAsked(MetAt(limits, reqs, k, i), reqs[i], reqs[j], View(Run(limits, reqs[..j]), k));
  }

  lemma DeniedThenAsked(b: Bucket, first: Request, second: Request, later: Option<Bucket>)
    requires !Admits(b, first.now) && b.last <= first.now <= second.now && b.interval <= b.cap && second.rpm > 0
    requires later == None || later == Some(b)
    ensures Admits(MetBy(later, second), second.now)
       <==> later == None || Credit(b, first.now) + (second.now - first.now) >= b.interval
  {
  }

  /** The advice given with a denial covers the interval of the bucket that denied it. */
  ghost predicate AdviceCovers(limits: Limits, reqs: seq<Request>, k: string, i: nat)
    requires i < |reqs| && Concerns(reqs[i], k)
  {
    MetAt(limits, reqs, k, i).interval <= RetryAfterSeconds(reqs[i].rpm) * SECOND
  }

  /** Then a client that waits it is admitted next. */
  lemma WaitingIsRewarded(limits: Limits, reqs: seq<Request>, k: string, i: nat, j: nat)
    requires ClockForward(reqs) && i < j < |reqs|
    requires Concerns(reqs[i], k) && Concerns(reqs[j], k) && forall n :: i < n < j ==> !Concerns(reqs[n], k)
    requires AdviceCovers(limits, reqs, k, i)
    requires !Answer(limits, reqs, i) && reqs[j].now >= reqs[i].now + RetryAfterSeconds(reqs[i].rpm) * SECOND
    ensures Answer(limits, reqs, j)
  {
    WaitIsRewardedExactly(limits, reqs, k, i, j);
  }

  /** No limit the key has had so far advises a longer wait. */
  ghost predicate SlowestSoFar(reqs: seq<Request>, k: string, i: nat)
    requires i < |reqs|
  {
    forall n :: 0 <= n <= i && Concerns(reqs[n], k) ==> RetryAfterSeconds(reqs[n].rpm) <= RetryAfterSeconds(reqs[i].rpm)
  }

  lemma SlowestAdviceCovers(limits: Limits, reqs: seq<Request>, k: string, i: nat)
    requires ClockForward(reqs) && i < |reqs| && Concerns(reqs[i], k) && SlowestSoFar(reqs, k, i)
    ensures AdviceCovers(limits, reqs, k, i)
  {
    var n := MetHasMaker(limits, reqs, k, i);
    RetryCoversInterval(reqs[n].rpm);
    Scale(RetryAfterSeconds(reqs[n].rpm), RetryAfterSeconds(reqs[i].rpm), SECOND);
  }

  // ---------------------------------------------------------------- runs that can be computed

  lemma PlainKey(key: string)
    requires key != "" && key[0] !in SPACES && key[|key| - 1] !in SPACES
    ensures Key(key) == key
  {
    assert TrimLeft(SPACES, key) == key && TrimRight(SPACES, key) == key;
  }

  lemma UnitLimit()
    ensures Interval(1) == MINUTE && Cap(1) == MINUTE
  {
    assert MINUTE / 1 == MINUTE;
    TokensMultiply(1, MINUTE);
  }

  /** A bucket of one token a minute, spent at `now`. */
  function Spent(now: int): Bucket { Bucket(MINUTE, MINUTE, 0, now) }

  lemma UnitTake(now: int)
    ensures Admits(NewBucket(1, now), now) && Take(NewBucket(1, now), now) == Spent(now)
  {
    UnitLimit();
  }

  /** With room for one more key nothing is evicted. */
  lemma RoomyStep(limits: Limits, entries: Entries, req: Request)
    requires req.rpm > 0 && |entries| + (if Key(req.key) in entries then 0 else 1) <= limits.maxEntries
    ensures After(limits, entries, req) == entries[Key(req.key) := Entry(Take(Met(entries, req), req.now), req.now)]
    ensures |After(limits, entries, req)| == |entries| + (if Key(req.key) in entries then 0 else 1)
  {
    var k := Key(req.key);
    var entered := entries[k := Entry(Met(entries, req), req.now)];
    assert entered.Keys == entries.Keys + {k};
    assert |entered| == |entered.Keys| && |entries| == |entries.Keys|;
    assert |entered| == |entries| + (if k in entries then 0 else 1);
    SameKeys(entered, After(limits, entries, req));
  }

  lemma RunGrows(limits: Limits, reqs: seq<Request>, req: Request)
    ensures Run(limits, reqs + [req]) == After(limits, Run(limits, reqs), req)
    ensures IdealRun(reqs + [req]) == IdealAfter(IdealRun(reqs), req)
    ensures Answer(limits, reqs + [req], |reqs|) <==> Allowed(Run(limits, reqs), req)
    ensures IdealAnswer(reqs + [req], |reqs|) <==> IdealAllowed(IdealRun(reqs), req)
  {
    assert (reqs + [req])[..|reqs|] == reqs;
  }

  lemma EarlierAnswers(limits: Limits, reqs: seq<Request>, more: seq<Request>, i: nat)
    requires i < |reqs|
    ensures Answer(limits, reqs + more, i) == Answer(limits, reqs, i)
    ensures IdealAnswer(reqs + more, i) == IdealAnswer(reqs, i)
  {
    assert (reqs + more)[..i] == reqs[..i];
  }

  /** Keys without white space, all different. */
  function Name(i: nat): string { seq(i + 1, _ => 'k') }

  lemma Names(i: nat, j: nat)
    ensures Key(Name(i)) == Name(i) && (Name(i) == Name(j) ==> i == j)
  {
    assert Name(i)[0] == 'k' && |Name(i)| == i + 1 && |Name(j)| == j + 1;
    PlainKey(Name(i));
  }

  // ---------------------------------------------------------------- two limits on one key

  /** A key limited to one a minute, then to `rpm`, then asked for again after the wait advised. */
  function Mixed(key: string, rpm: int): seq<Request> {
    [Request(key, 1, 0), Request(key, rpm, 0), Request(key, rpm, RetryAfterSeconds(rpm) * SECOND)]
  }

  lemma OneEntry(limits: Limits, key: string)
    requires limits.maxEntries >= 1 && Key(key) == key
    ensures After(limits, map[], Request(key, 1, 0)) == map[key := Entry(Spent(0), 0)]
    ensures Allowed(map[], Request(key, 1, 0))
  {
    UnitTake(0);
    RoomyStep(limits, map[], Request(key, 1, 0));
  }

  lemma DeniedKeeps(limits: Limits, key: string, b: Bucket, now: int, req: Request)
    requires limits.maxEntries >= 1 && req.rpm > 0 && Key(req.key) == key && !Admits(b, req.now)
    ensures After(limits, map[key := Entry(b, now)], req) == map[key := Entry(b, req.now)]
    ensures !Allowed(map[key := Entry(b, now)], req)
  {
    var entries: Entries := map[key := Entry(b, now)];
    assert |entries| == |entries.Keys| == 1;
    RoomyStep(limits, entries, req);
  }

  lemma HalfMinute(rpm: int)
    requires rpm >= 2
    ensures RetryAfterSeconds(rpm) * SECOND < MINUTE
  {
    if rpm < 60 {
      Scale(2, rpm, 30);
      var n := 60 + rpm - 1;
      assert n == n / rpm * rpm + n % rpm;
      Gap(30, n / rpm, rpm);
    }
  }

  lemma FirstRun(limits: Limits, req: Request) returns (entries: Entries)
    ensures entries == Run(limits, [req]) == After(limits, map[], req)
  {
    assert [req][..0] == [];
    entries := After(limits, map[], req);
  }

  lemma SecondRun(limits: Limits, reqs: seq<Request>, b: Bucket, key: string)
    requires limits.maxEntries >= 1 && |reqs| >= 2 && reqs[1].rpm > 0 && Key(reqs[1].key) == key
    requires Run(limits, reqs[..1]) == map[key := Entry(b, reqs[0].now)] && !Admits(b, reqs[1].now)
    ensures Run(limits, reqs[..2]) == map[key := Entry(b, reqs[1].now)]
  {
    assert reqs[..2] == reqs[..1] + [reqs[1]];
    RunGrows(limits, reqs[..1], reqs[1]);
    DeniedKeeps(limits, key, b, reqs[0].now, reqs[1]);
  }

  lemma DeniedAt(limits: Limits, reqs: seq<Request>, i: nat, key: string, b: Bucket, now: int)
    requires i < |reqs| && reqs[i].rpm > 0 && Key(reqs[i].key) == key && !Admits(b, reqs[i].now)
    requires Run(limits, reqs[..i]) == map[key := Entry(b, now)]
    ensures !Answer(limits, reqs, i)
  {
  }

  /** The first request leaves a bucket that is empty for a minute. */
  ghost predicate StartsEmpty(limits: Limits, reqs: seq<Request>, key: string, b: Bucket) {
    && |reqs| > 0 && Run(limits, reqs[..1]) == map[key := Entry(b, reqs[0].now)]
    && b.interval == MINUTE && forall now :: now < MINUTE ==> !Admits(b, now)
  }

  lemma FirstOfRun(limits: Limits, reqs: seq<Request>)
    requires |reqs| > 0
    ensures Run(limits, reqs[..1]) == After(limits, map[], reqs[0])
  {
    assert reqs[..1] == [reqs[0]];
    var entries := FirstRun(limits, reqs[0]);
  }

  lemma SpentAdmitsNone(now: int)
    requires now < MINUTE
    ensures !Admits(Spent(0), now)
  {
  }

  lemma UnitStartsEmpty(limits: Limits, reqs: seq<Request>, key: string) returns (b: Bucket)
    requires limits.maxEntries >= 1 && Key(key) == key && |reqs| > 0 && reqs[0] == Request(key, 1, 0)
    ensures StartsEmpty(limits, reqs, key, b)
  {
    b := Spent(0);
    FirstOfRun(limits, reqs);
    OneEntry(limits, key);
    forall now | now < MINUTE ensures !Admits(b, now) {
      SpentAdmitsNone(now);
    }
  }

  /** Two more requests of the key in the same minute are denied, and advice of less than a minute does not cover the
      bucket. */
  lemma TwoDenied(limits: Limits, reqs: seq<Request>, key: string, b: Bucket)
    requires limits.maxEntries >= 1 && |reqs| == 3 && StartsEmpty(limits, reqs, key, b)
    requires forall i :: 1 <= i < 3 ==> Concerns(reqs[i], key) && reqs[i].now < MINUTE
    requires RetryAfterSeconds(reqs[1].rpm) * SECOND < MINUTE
    ensures !Answer(limits, reqs, 1) && !Answer(limits, reqs, 2) && !AdviceCovers(limits, reqs, key, 1)
  {
    SecondRun(limits, reqs, b, key);
    DeniedAt(limits, reqs, 1, key, b, reqs[0].now);
    DeniedAt(limits, reqs, 2, key, b, reqs[1].now);
  }

  lemma FirstAdmitted(limits: Limits, reqs: seq<Request>, key: string)
    requires |reqs| > 0 && Key(key) == key && reqs[0] == Request(key, 1, 0)
    ensures Answer(limits, reqs, 0)
  {
    UnitTake(0);
    assert reqs[..0] == [];
  }

  /** A denial tells the wait of the rule's limit, but the bucket keeps the limit that made it: with every limit above
      one a minute the client waits as it was told and is denied again. */
  lemma MixedLimitsFallShort(limits: Limits, key: string, rpm: int)
    requires limits.maxEntries >= 1 && Key(key) == key && rpm >= 2
    ensures var reqs := Mixed(key, rpm);
            && ClockForward(reqs) && reqs[2].now == reqs[1].now + RetryAfterSeconds(rpm) * SECOND
            && Answer(limits, reqs, 0) && !Answer(limits, reqs, 1) && !Answer(limits, reqs, 2)
            && !AdviceCovers(limits, reqs, key, 1)
  {
    HalfMinute(rpm);
    FirstAdmitted(limits, Mixed(key, rpm), key);
    var b := UnitStartsEmpty(limits, Mixed(key, rpm), key);
    TwoDenied(limits, Mixed(key, rpm), key, b);
  }

  // ---------------------------------------------------------------- both directions

  /** The first key's entry and those of `n` others after it. */
  ghost predicate Flooded(entries: Entries, n: nat) {
    && |entries| == n + 1 && Name(0) in entries && entries[Name(0)] == Entry(Spent(0), 0)
    && (forall k :: k in entries ==> 0 <= entries[k].lastAccess <= 1)
    && forall i :: i > n ==> Name(i) !in entries
  }

  ghost predicate Calm(reqs: seq<Request>, latest: int) {
    ClockForward(reqs) && forall i :: 0 <= i < |reqs| ==> reqs[i].rpm == 1 && reqs[i].now <= latest
  }

  /** One request for the first key, then one for each of `n` others. */
  ghost predicate IsFlood(reqs: seq<Request>, n: nat) {
    && |reqs| == n + 1 && reqs[0] == Request(Name(0), 1, 0)
    && forall i :: 0 < i <= n ==> reqs[i] == Request(Name(i), 1, 1)
  }

  /** Another key's request leaves this key's bucket as it was. */
  lemma IdealGrows(reqs: seq<Request>, req: Request, k: string)
    requires !Concerns(req, k)
    ensures IdealView(IdealRun(reqs + [req]), k) == IdealView(IdealRun(reqs), k)
  {
    RunGrows(Limits(1, 0), reqs, req);
    IdealSteps(IdealRun(reqs), req, k);
  }

  lemma FloodStarts(limits: Limits, req: Request)
    requires limits.maxEntries >= 1 && req == Request(Name(0), 1, 0)
    ensures Flooded(Run(limits, [req]), 0)
  {
    Names(0, 0);
    OneEntry(limits, Name(0));
    var entries := FirstRun(limits, req);
    OnlyFirst(entries);
  }

  lemma OnlyFirst(entries: Entries)
    requires entries == map[Name(0) := Entry(Spent(0), 0)]
    ensures Flooded(entries, 0)
  {
    assert |entries| == |entries.Keys| == 1;
    forall i: nat | i > 0 ensures Name(i) !in entries { Names(i, 0); }
  }

  lemma FloodRises(limits: Limits, entries: Entries, n: nat)
    requires 0 < n < limits.maxEntries && Flooded(entries, n - 1)
    ensures Flooded(After(limits, entries, Request(Name(n), 1, 1)), n)
  {
    Names(n, 0);
    assert Name(n) !in entries;
    RoomyStep(limits, entries, Request(Name(n), 1, 1));
    forall i: nat | i > n ensures Name(i) != Name(n) { Names(i, n); }
  }

  lemma FloodGoesOn(limits: Limits, reqs: seq<Request>, req: Request, n: nat)
    requires 0 < n < limits.maxEntries && Flooded(Run(limits, reqs), n - 1) && req == Request(Name(n), 1, 1)
    ensures Flooded(Run(limits, reqs + [req]), n)
  {
    FloodRises(limits, Run(limits, reqs), n);
    RunGrows(limits, reqs, req);
  }

  lemma {:induction false} FloodFills(limits: Limits, reqs: seq<Request>, n: nat)
    requires n < limits.maxEntries && IsFlood(reqs, n)
    ensures Flooded(Run(limits, reqs), n)
  {
    if n == 0 {
      assert reqs == [reqs[0]];
      FloodStarts(limits, reqs[0]);
    } else {
      assert reqs == reqs[..n] + [reqs[n]];
      FloodFills(limits, reqs[..n], n - 1);
      FloodGoesOn(limits, reqs[..n], reqs[n], n);
    }
  }

  lemma {:induction false} FloodLeavesIdeal(reqs: seq<Request>, n: nat)
    requires IsFlood(reqs, n)
    ensures IdealView(IdealRun(reqs), Name(0)) == Some(Spent(0))
  {
    if n == 0 {
      Names(0, 0);
      UnitTake(0);
      assert reqs == [] + [reqs[0]];
      RunGrows(Limits(1, 0), [], reqs[0]);
    } else {
      assert reqs == reqs[..n] + [reqs[n]];
      FloodLeavesIdeal(reqs[..n], n - 1);
      Names(n, 0);
      IdealGrows(reqs[..n], reqs[n], Name(0));
    }
  }

  /** If the oldest of a map stays in a trim, everything does. */
  lemma SomethingGoes(kept: Entries, entered: Entries, oldest: string)
    requires |kept| < |entered| && Lru.KeepsRecent(kept, entered, Accessed)
    requires oldest in entered && forall k :: k in entered ==> entered[oldest].lastAccess <= entered[k].lastAccess
    ensures oldest !in kept
  {
    if oldest in kept {
      assert forall k :: k in entered ==> k in kept;
      assert kept.Keys == entered.Keys;
      SameKeys(kept, entered);
    }
  }

  /** Entries in use, none of them later than `latest`. */
  ghost predicate InUse(entries: Entries, latest: int) {
    forall k :: k in entries ==> 0 <= entries[k].lastAccess <= latest
  }

  lemma OldestIsTrimmed(limits: Limits, entered: Entries, oldest: string)
    requires |entered| > limits.maxEntries && limits.ttl >= 1 && InUse(entered, 1)
    requires oldest in entered && entered[oldest].lastAccess == 0
    ensures oldest !in EvictIdle(limits, entered, 1) && InUse(EvictIdle(limits, entered, 1), 1)
  {
    assert DropIdle(limits, entered, 1) == entered;
    Lru.TrimLeaves(entered, limits.maxEntries, Accessed);
    SomethingGoes(Lru.Trimmed(entered, limits.maxEntries, Accessed), entered, oldest);
  }

  /** The oldest entry goes when one key too many comes. */
  lemma OldestGoes(limits: Limits, entries: Entries, n: nat)
    requires limits.ttl >= 1 && n == limits.maxEntries > 0 && Flooded(entries, n - 1)
    ensures var after := After(limits, entries, Request(Name(n), 1, 1)); Name(0) !in after && InUse(after, 1)
  {
    var req := Request(Name(n), 1, 1);
    Names(n, 0);
    assert Name(n) !in entries;
    var entered := entries[Name(n) := Entry(Met(entries, req), 1)];
    assert entered.Keys == entries.Keys + {Name(n)};
    assert |entered| == |entered.Keys| && |entries| == |entries.Keys|;
    OldestIsTrimmed(limits, entered, Name(0));
  }

  /** The newest entry stays, whatever else goes. */
  lemma NewestStays(limits: Limits, entries: Entries, req: Request)
    requires limits.maxEntries >= 1 && limits.ttl >= 2 && req.rpm > 0 && req.now == 2 && InUse(entries, 1)
    ensures View(After(limits, entries, req), Key(req.key)) == Some(Take(Met(entries, req), req.now))
  {
    var k := Key(req.key);
    var entered := entries[k := Entry(Met(entries, req), 2)];
    assert DropIdle(limits, entered, 2) == entered;
    var alone: Entries := map[k := entered[k]];
    assert |alone| == |alone.Keys| == 1 && Lru.KeepsRecent(alone, entered, Accessed);
    Lru.TrimIsLargest(entered, limits.maxEntries, Accessed, alone);
    Lru.TrimLeaves(entered, limits.maxEntries, Accessed);
    assert k in Bounded(limits, entries, req) by { assert k in alone.Keys; }
  }

  /** One key too many. */
  lemma FloodOverflows(limits: Limits, reqs: seq<Request>, n: nat)
    requires limits.ttl >= 1 && n == limits.maxEntries > 0 && IsFlood(reqs, n)
    ensures Name(0) !in Run(limits, reqs) && InUse(Run(limits, reqs), 1)
  {
    assert reqs == reqs[..n] + [reqs[n]];
    FloodFills(limits, reqs[..n], n - 1);
    OldestGoes(limits, Run(limits, reqs[..n]), n);
    RunGrows(limits, reqs[..n], reqs[n]);
  }

  /** A run by the first key alone at two more moments. */
  function TwoMore(reqs: seq<Request>): seq<Request> { reqs + [Request(Name(0), 1, 2)] + [Request(Name(0), 1, MINUTE)] }

  lemma BoundedAnswers(limits: Limits, reqs: seq<Request>)
    requires limits.maxEntries >= 1 && limits.ttl >= 2 && Name(0) !in Run(limits, reqs) && InUse(Run(limits, reqs), 1)
    ensures Answer(limits, reqs + [Request(Name(0), 1, 2)], |reqs|)
    ensures !Answer(limits, TwoMore(reqs), |reqs| + 1)
  {
    var second, third := Request(Name(0), 1, 2), Request(Name(0), 1, MINUTE);
    Names(0, 0);
    UnitTake(2);
    RunGrows(limits, reqs, second);
    NewestStays(limits, Run(limits, reqs), second);
    RunGrows(limits, reqs + [second], third);
    AfterSteps(limits, Run(limits, reqs), second, Name(0));
    AfterSteps(limits, Run(limits, reqs + [second]), third, Name(0));
    assert !Admits(Spent(2), MINUTE);
  }

  lemma IdealAnswers(reqs: seq<Request>)
    requires IdealView(IdealRun(reqs), Name(0)) == Some(Spent(0))
    ensures !IdealAnswer(reqs + [Request(Name(0), 1, 2)], |reqs|)
    ensures IdealAnswer(TwoMore(reqs), |reqs| + 1)
  {
    var second, third := Request(Name(0), 1, 2), Request(Name(0), 1, MINUTE);
    Names(0, 0);
    RunGrows(Limits(1, 0), reqs, second);
    IdealSteps(IdealRun(reqs), second, Name(0));
    RunGrows(Limits(1, 0), reqs + [second], third);
    IdealSteps(IdealRun(reqs + [second]), third, Name(0));
    assert !Admits(Spent(0), 2) && Admits(Spent(0), MINUTE);
  }

  lemma TwoMoreIsCalm(reqs: seq<Request>)
    requires Calm(reqs, 1)
    ensures Calm(TwoMore(reqs), MINUTE)
  {
  }

  /** However large the limiter, a single answer can go either way: in one run of one rate a request is admitted only by
      the bounded limiter, and the next only by the ideal one. */
  lemma AnswersDifferBothWays(limits: Limits) returns (reqs: seq<Request>, i: nat)
    requires limits.maxEntries >= 1 && limits.ttl >= 2
    ensures Calm(reqs, MINUTE) && i + 1 < |reqs|
    ensures Answer(limits, reqs, i) && !IdealAnswer(reqs, i) && !Answer(limits, reqs, i + 1) && IdealAnswer(reqs, i + 1)
  {
    var flood := MakeFlood(limits.maxEntries);
    FloodOverflows(limits, flood, limits.maxEntries);
    FloodLeavesIdeal(flood, limits.maxEntries);
    FloodIsCalm(flood, limits.maxEntries);
    reqs, i := AfterOverflow(limits, flood);
  }

  lemma MakeFlood(n: nat) returns (reqs: seq<Request>)
    ensures IsFlood(reqs, n)
  {
    reqs := seq(n + 1, i requires 0 <= i <= n => Request(Name(i), 1, if i == 0 then 0 else 1));
  }

  lemma FloodIsCalm(reqs: seq<Request>, n: nat)
    requires IsFlood(reqs, n)
    ensures Calm(reqs, 1)
  {
  }

  lemma AfterOverflow(limits: Limits, flood: seq<Request>) returns (reqs: seq<Request>, i: nat)
    requires limits.maxEntries >= 1 && limits.ttl >= 2
    requires Name(0) !in Run(limits, flood) && InUse(Run(limits, flood), 1) && Calm(flood, 1)
    requires IdealView(IdealRun(flood), Name(0)) == Some(Spent(0))
    ensures Calm(reqs, MINUTE) && i + 1 < |reqs|
    ensures Answer(limits, reqs, i) && !IdealAnswer(reqs, i) && !Answer(limits, reqs, i + 1) && IdealAnswer(reqs, i + 1)
  {
    reqs, i := TwoMore(flood), |flood|;
    TwoMoreIsCalm(flood);
    BoundedAnswers(limits, flood);
    IdealAnswers(flood);
    EarlierAnswers(limits, flood + [Request(Name(0), 1, 2)], [Request(Name(0), 1, MINUTE)], i);
  }
}
