/** When forgetting idle buckets cannot be noticed. */
module IdleEviction {
  import opened Text
  import opened RateLimit
  import Lru

  // ---------------------------------------------------------------- one bucket

  predicate OfRate(b: Bucket, rpm: int)
    requires rpm > 0
  {
    b.interval == Interval(rpm) && b.cap == Cap(rpm) && b.credit <= b.cap
  }

  /** A bucket left alone for longer than the TTL is full again, so nothing is lost with it. */
  ghost predicate IdleMeansFull(rpm: int, ttl: nat)
    requires rpm > 0
  {
    forall b: Bucket, now: int :: OfRate(b, rpm) && now - b.last > ttl ==> Credit(b, now) == Cap(rpm)
  }

  lemma IdleMeansFullExactly(rpm: int, ttl: nat)
    requires rpm > 0
    ensures IdleMeansFull(rpm, ttl) <==> Cap(rpm) <= ttl + 1
  {
    var empty := Bucket(Interval(rpm), Cap(rpm), 0, 0);
    assert OfRate(empty, rpm) && Elapsed(empty, ttl + 1) == ttl + 1;
    if Cap(rpm) > ttl + 1 {
      assert Credit(empty, ttl + 1) == ttl + 1;
    }
  }

  lemma SlowCap(rpm: int)
    requires 0 < rpm <= MINUTE
    ensures Cap(rpm) <= MINUTE
  {
    var i := MINUTE / rpm;
    assert MINUTE == i * rpm + MINUTE % rpm;
    Gap(0, i, rpm);
    TokensMultiply(rpm, i);
  }

  lemma FastCap(rpm: int)
    requires rpm > MINUTE
    ensures Cap(rpm) == rpm
  {
    assert MINUTE / rpm == 0;
    TokensMultiply(rpm, 1);
  }

  /** With the program's TTL of ten minutes the condition is a bound on the rate. */
  lemma DefaultTtlCovers(rpm: int)
    requires rpm > 0
    ensures Cap(rpm) <= DEFAULT_TTL + 1 <==> rpm <= DEFAULT_TTL + 1
  {
    if rpm <= MINUTE {
      SlowCap(rpm);
    } else {
      FastCap(rpm);
    }
  }

  /** Requests of one instant admitted out of `n`. */
  function AtOnce(b: Bucket, now: int, n: nat): nat
    decreases n
  {
    if n == 0 then 0 else (if Admits(b, now) then 1 else 0) + AtOnce(Take(b, now), now, n - 1)
  }

  lemma {:induction false} AtOnceSpends(b: Bucket, now: int, n: nat)
    requires b.credit <= b.cap && b.last <= now
    ensures Tokens(AtOnce(b, now, n), b.interval) <= Credit(b, now)
    ensures Tokens(n, b.interval) <= Credit(b, now) ==> AtOnce(b, now, n) == n
    decreases n
  {
    if n > 0 {
      var next := Take(b, now);
      AtOnceSpends(next, now, n - 1);
      TokensGrow(n - 1, b.interval);
      if !Admits(b, now) {
        DeniedForGood(b, now, n);
      }
    }
  }

  lemma TokensGrow(n: nat, each: nat)
    ensures Tokens(n, each) >= 0 && Tokens(n + 1, each) == Tokens(n, each) + each >= each
  {
  }

  lemma {:induction false} DeniedForGood(b: Bucket, now: int, n: nat)
    requires !Admits(b, now)
    ensures AtOnce(b, now, n) == 0
  {
    if n > 0 {
      DeniedForGood(b, now, n - 1);
    }
  }

  /** Past the condition a client can tell: kept, an idle bucket admits fewer at once than forgotten. */
  lemma ForgettingShows(rpm: int, ttl: nat) returns (kept: Bucket, now: int)
    requires rpm > 0 && Cap(rpm) > ttl + 1
    ensures OfRate(kept, rpm) && now - kept.last > ttl
    ensures AtOnce(kept, now, rpm) < rpm == AtOnce(NewBucket(rpm, now), now, rpm)
  {
    kept, now := Bucket(Interval(rpm), Cap(rpm), 0, 0), ttl + 1;
    AtOnceSpends(kept, now, rpm);
    AtOnceSpends(NewBucket(rpm, now), now, rpm);
    AtOnceAtMost(kept, now, rpm);
  }

  lemma {:induction false} AtOnceAtMost(b: Bucket, now: int, n: nat)
    ensures AtOnce(b, now, n) <= n
    decreases n
  {
    if n > 0 {
      AtOnceAtMost(Take(b, now), now, n - 1);
    }
  }

  // ---------------------------------------------------------------- whole runs

  /** Every key keeps its rate, and the TTL covers that rate. */
  ghost predicate SteadyRates(limits: Limits, reqs: seq<Request>, rates: string -> int) {
    forall i :: 0 <= i < |reqs| && reqs[i].rpm > 0 ==>
      reqs[i].rpm == rates(Key(reqs[i].key)) && Cap(reqs[i].rpm) <= limits.ttl + 1
  }

  /** The keys with a request no longer ago than the TTL, as of the last request. */
  function ActiveKeys(reqs: seq<Request>, ttl: nat): set<string>
    requires |reqs| > 0
  {
    set i | 0 <= i < |reqs| && reqs[i].rpm > 0 && reqs[|reqs| - 1].now - reqs[i].now <= ttl :: Key(reqs[i].key)
  }

  /** At no time are more keys active than a trim keeps. */
  ghost predicate ActiveKeysFit(limits: Limits, reqs: seq<Request>) {
    forall n :: 0 < n <= |reqs| ==> |ActiveKeys(reqs[..n], limits.ttl)| <= Lru.Mark(limits.maxEntries)
  }

  /** What the bounded map knows of a key agrees with the bucket kept for ever, or that bucket is full. */
  ghost predicate Agrees(entries: Entries, buckets: map<string, Bucket>, k: string, now: int) {
    && (k in entries ==> k in buckets && entries[k].bucket == buckets[k]
                         && buckets[k].last <= entries[k].lastAccess <= now)
    && (k !in entries && k in buckets ==> buckets[k].last <= now && Credit(buckets[k], now) == buckets[k].cap)
  }

  ghost predicate AllAgree(entries: Entries, buckets: map<string, Bucket>, rates: string -> int, ttl: nat, now: int) {
    && (forall k :: Agrees(entries, buckets, k, now))
    && (forall k :: k in buckets ==> rates(k) > 0 && OfRate(buckets[k], rates(k)) && Cap(rates(k)) <= ttl + 1)
  }

  /** Each entry was last used by some request of the run. */
  ghost predicate UsedBySome(entries: Entries, reqs: seq<Request>) {
    forall k :: k in entries ==>
      exists i :: 0 <= i < |reqs| && Concerns(reqs[i], k) && reqs[i].now == entries[k].lastAccess
  }

  lemma AgreementAges(entries: Entries, buckets: map<string, Bucket>, k: string, now: int, later: int)
    requires Agrees(entries, buckets, k, now) && now <= later
    ensures Agrees(entries, buckets, k, later)
  {
  }

  /** Both machines answer a request of an agreeing key alike and leave equal buckets behind. */
  lemma AgreeingAnswers(entries: Entries, buckets: map<string, Bucket>, rates: string -> int, ttl: nat, req: Request)
    requires AllAgree(entries, buckets, rates, ttl, req.now) && req.rpm > 0 && req.rpm == rates(Key(req.key))
    ensures Admits(Met(entries, req), req.now) <==> Admits(IdealMet(buckets, req), req.now)
    ensures Take(Met(entries, req), req.now) == Take(IdealMet(buckets, req), req.now)
         || (!Admits(Met(entries, req), req.now) && Met(entries, req) == IdealMet(buckets, req))
    ensures OfRate(Take(IdealMet(buckets, req), req.now), req.rpm)
    ensures Take(IdealMet(buckets, req), req.now).last <= req.now
  {
    var k := Key(req.key);
    assert Agrees(entries, buckets, k, req.now);
  }

  lemma NotIdleIsActive(entries: Entries, reqs: seq<Request>, req: Request, ttl: nat, k: string)
    requires req.rpm > 0
    requires k == Key(req.key) || (k in entries && UsedBySome(entries, reqs) && req.now - entries[k].lastAccess <= ttl)
    ensures k in ActiveKeys(reqs + [req], ttl)
  {
    var all := reqs + [req];
    assert all[|reqs|] == req;
    if k != Key(req.key) {
      var i :| 0 <= i < |reqs| && Concerns(reqs[i], k) && reqs[i].now == entries[k].lastAccess;
      assert all[i] == reqs[i];
    }
  }

  /** With the active keys below the mark, exceeding the maximum only drops idle entries. */
  lemma OnlyIdleDrops(limits: Limits, entries: Entries, reqs: seq<Request>, req: Request)
    requires req.rpm > 0 && UsedBySome(entries, reqs)
    requires |ActiveKeys(reqs + [req], limits.ttl)| <= Lru.Mark(limits.maxEntries)
    ensures var entered := entries[Key(req.key) := Entry(Met(entries, req), req.now)];
            Bounded(limits, entries, req)
            == if |entered| > limits.maxEntries then DropIdle(limits, entered, req.now) else entered
  {
    var entered := entries[Key(req.key) := Entry(Met(entries, req), req.now)];
    ActiveEntriesFit(limits, entries, reqs, req);
    Lru.TrimLeaves(DropIdle(limits, entered, req.now), limits.maxEntries, Accessed);
  }

  lemma ActiveEntriesFit(limits: Limits, entries: Entries, reqs: seq<Request>, req: Request)
    requires req.rpm > 0 && UsedBySome(entries, reqs)
    requires |ActiveKeys(reqs + [req], limits.ttl)| <= Lru.Mark(limits.maxEntries)
    ensures var entered := entries[Key(req.key) := Entry(Met(entries, req), req.now)];
            |DropIdle(limits, entered, req.now)| <= Lru.Mark(limits.maxEntries)
  {
    var entered := entries[Key(req.key) := Entry(Met(entries, req), req.now)];
    var kept := DropIdle(limits, entered, req.now);
    var active := ActiveKeys(reqs + [req], limits.ttl);
    forall k | k in kept.Keys ensures k in active {
      NotIdleIsActive(entries, reqs, req, limits.ttl, k);
    }
    Lru.Subset(kept.Keys, active);
    assert |kept| == |kept.Keys|;
  }

  lemma StepKeepsUse(limits: Limits, entries: Entries, reqs: seq<Request>, req: Request)
    requires UsedBySome(entries, reqs)
    ensures UsedBySome(After(limits, entries, req), reqs + [req])
  {
    var all, next := reqs + [req], After(limits, entries, req);
    if req.rpm > 0 {
      BoundedKeeps(limits, entries, req);
    }
    forall k | k in next ensures exists i :: 0 <= i < |all| && Concerns(all[i], k) && all[i].now == next[k].lastAccess {
      if Concerns(req, k) {
        assert all[|reqs|] == req;
      } else {
        var i :| 0 <= i < |reqs| && Concerns(reqs[i], k) && reqs[i].now == entries[k].lastAccess;
        assert all[i] == reqs[i];
      }
    }
  }

  lemma StepKeepsKey(limits: Limits, entries: Entries, buckets: map<string, Bucket>, rates: string -> int,
                     req: Request, k: string)
    requires AllAgree(entries, buckets, rates, limits.ttl, req.now)
    requires req.rpm > 0 && req.rpm == rates(Key(req.key))
    requires var entered := entries[Key(req.key) := Entry(Met(entries, req), req.now)];
             var kept := Bounded(limits, entries, req);
             kept == entered || kept == DropIdle(limits, entered, req.now)
    ensures Agrees(After(limits, entries, req), IdealAfter(buckets, req), k, req.now)
  {
    AgreeingAnswers(entries, buckets, rates, limits.ttl, req);
    assert Agrees(entries, buckets, k, req.now);
  }

  lemma StepKeepsAgreement(limits: Limits, entries: Entries, buckets: map<string, Bucket>, rates: string -> int,
                           reqs: seq<Request>, req: Request)
    requires AllAgree(entries, buckets, rates, limits.ttl, req.now) && UsedBySome(entries, reqs)
    requires req.rpm > 0 ==> req.rpm == rates(Key(req.key)) && Cap(req.rpm) <= limits.ttl + 1
    requires |ActiveKeys(reqs + [req], limits.ttl)| <= Lru.Mark(limits.maxEntries)
    ensures AllAgree(After(limits, entries, req), IdealAfter(buckets, req), rates, limits.ttl, req.now)
  {
    if req.rpm > 0 {
      OnlyIdleDrops(limits, entries, reqs, req);
      AgreeingAnswers(entries, buckets, rates, limits.ttl, req);
      forall k ensures Agrees(After(limits, entries, req), IdealAfter(buckets, req), k, req.now) {
        StepKeepsKey(limits, entries, buckets, rates, req, k);
      }
    }
  }

  lemma AllAgreementAges(entries: Entries, buckets: map<string, Bucket>, rates: string -> int, ttl: nat,
                         now: int, later: int)
    requires AllAgree(entries, buckets, rates, ttl, now) && now <= later
    ensures AllAgree(entries, buckets, rates, ttl, later)
  {
    forall k ensures Agrees(entries, buckets, k, later) {
      AgreementAges(entries, buckets, k, now, later);
    }
  }

  /** What is asked of a run holds of its beginnings. */
  lemma FrontIsSteady(limits: Limits, reqs: seq<Request>, rates: string -> int, n: nat)
    requires ClockForward(reqs) && SteadyRates(limits, reqs, rates) && ActiveKeysFit(limits, reqs) && n <= |reqs|
    ensures ClockForward(reqs[..n]) && SteadyRates(limits, reqs[..n], rates) && ActiveKeysFit(limits, reqs[..n])
  {
    assert forall m :: 0 < m <= n ==> reqs[..n][..m] == reqs[..m];
  }

  lemma OneMoreAgrees(limits: Limits, front: seq<Request>, req: Request, rates: string -> int, start: int)
    requires AllAgree(Run(limits, front), IdealRun(front), rates, limits.ttl, Clock(front, start))
    requires UsedBySome(Run(limits, front), front) && Clock(front, start) <= req.now
    requires req.rpm > 0 ==> req.rpm == rates(Key(req.key)) && Cap(req.rpm) <= limits.ttl + 1
    requires |ActiveKeys(front + [req], limits.ttl)| <= Lru.Mark(limits.maxEntries)
    ensures var entries, buckets := After(limits, Run(limits, front), req), IdealAfter(IdealRun(front), req);
            AllAgree(entries, buckets, rates, limits.ttl, req.now) && UsedBySome(entries, front + [req])
  {
    AllAgreementAges(Run(limits, front), IdealRun(front), rates, limits.ttl, Clock(front, start), req.now);
    StepKeepsAgreement(limits, Run(limits, front), IdealRun(front), rates, front, req);
    StepKeepsUse(limits, Run(limits, front), front, req);
  }

  lemma {:induction false} RunKeepsAgreement(limits: Limits, reqs: seq<Request>, rates: string -> int, start: int)
    requires ClockForward(reqs) && SteadyRates(limits, reqs, rates) && ActiveKeysFit(limits, reqs)
    requires |reqs| > 0 ==> start <= reqs[0].now
    ensures AllAgree(Run(limits, reqs), IdealRun(reqs), rates, limits.ttl, Clock(reqs, start))
    ensures UsedBySome(Run(limits, reqs), reqs)
  {
    if |reqs| > 0 {
      var front, req := reqs[..|reqs| - 1], reqs[|reqs| - 1];
      assert reqs == front + [req] && reqs[..|reqs|] == reqs;
      FrontIsSteady(limits, reqs, rates, |front|);
      RunKeepsAgreement(limits, front, rates, start);
      OneMoreAgrees(limits, front, req, rates, start);
    }
  }

  /** As long as the active keys fit under the trim's mark, the bounded limiter answers every request
      exactly as buckets kept for ever would. */
  lemma BoundedAnswersAsIdeal(limits: Limits, reqs: seq<Request>, rates: string -> int, i: nat)
    requires ClockForward(reqs) && SteadyRates(limits, reqs, rates) && ActiveKeysFit(limits, reqs) && i < |reqs|
    ensures Answer(limits, reqs, i) <==> IdealAnswer(reqs, i)
  {
    var front, req := reqs[..i], reqs[i];
    FrontIsSteady(limits, reqs, rates, i);
    RunKeepsAgreement(limits, front, rates, reqs[0].now);
    var entries, buckets := Run(limits, front), IdealRun(front);
    AllAgreementAges(entries, buckets, rates, limits.ttl, Clock(front, reqs[0].now), req.now);
    if req.rpm > 0 {
      AgreeingAnswers(entries, buckets, rates, limits.ttl, req);
    }
  }
}
