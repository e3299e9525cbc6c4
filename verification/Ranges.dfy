/** The cache of published address ranges and the calls that read and refill it. */
module Ranges {
  import opened Text

  /** How long a failed fetch keeps the request path from trying again, in nanoseconds. */
  const FETCH_BACKOFF: nat := 30_000_000_000

  /** A network, as the addresses it contains. */
  type Network = set<nat>

  datatype Policy = Policy(refresh: int, useStale: bool, maxStale: int)

  datatype Cache = Cache(
    networks: seq<Network>, expiresAt: int, lastFetch: int, lastError: string, retryAfter: Option<int>)

  const EMPTY := Cache([], 0, 0, "", None)

  /** What fetching the sources ends in. */
  datatype Outcome = Fetched(networks: seq<Network>) | Broken(error: string)

  datatype Loaded = Loaded(networks: seq<Network>, stale: bool) | Unavailable(error: string)

  predicate Fresh(c: Cache, now: int) { |c.networks| > 0 && now <= c.expiresAt }

  predicate BackedOff(c: Cache, now: int) { c.retryAfter.Some? && now < c.retryAfter.value }

  predicate CanUseStale(p: Policy, c: Cache, now: int) {
    p.useStale && p.maxStale > 0 && |c.networks| > 0 && now <= c.expiresAt + p.maxStale
  }

  /** The cache once a fetch begun at `started` is over. */
  function Stored(p: Policy, c: Cache, outcome: Outcome, started: int): Cache {
    match outcome
    case Fetched(networks) => Cache(networks, started + p.refresh, started, "", None)
    case Broken(error) => c.(lastError := error, retryAfter := Some(started + FETCH_BACKOFF))
  }

  /** Expired networks if the policy allows them, the error otherwise. */
  function Fallback(p: Policy, c: Cache, now: int, error: string): Loaded {
    if CanUseStale(p, c, now) then Loaded(c.networks, true) else Unavailable(error)
  }

  function Refused(c: Cache): string { "ip range refresh failed: " + c.lastError }

  predicate Matches(networks: seq<Network>, ip: nat) { exists i :: 0 <= i < |networks| && ip in networks[i] }

  // ---------------------------------------------------------------- the code

  class RangeCache {
    var networks: seq<Network>
    var expiresAt: int
    var lastFetch: int
    var lastError: string
    var retryAfter: Option<int>

    constructor ()
      ensures Snapshot() == EMPTY
    {
      networks, expiresAt, lastFetch, lastError, retryAfter := [], 0, 0, "", None;
    }

    function Snapshot(): Cache
      reads this
    {
      Cache(networks, expiresAt, lastFetch, lastError, retryAfter)
    }

    method Get(now: int) returns (found: seq<Network>, ok: bool)
      ensures ok <==> Fresh(Snapshot(), now)
      ensures found == if ok then networks else []
    {
      if |networks| == 0 || now > expiresAt {
        return [], false;
      }
      return networks, true;
    }

    method Set(networks: seq<Network>, lastFetch: int, expiresAt: int)
      modifies this
      ensures Snapshot() == Cache(networks, expiresAt, lastFetch, "", None)
    {
      this.networks, this.lastFetch, this.expiresAt := networks, lastFetch, expiresAt;
      lastError, retryAfter := "", None;
    }

    method SetError(error: Option<string>, until: int)
      modifies this`lastError, this`retryAfter
      ensures lastError == if error.Some? then error.value else ""
      ensures retryAfter == if error.Some? then Some(until) else None
    {
      if error.None? {
        lastError, retryAfter := "", None;
        return;
      }
      lastError, retryAfter := error.value, Some(until);
    }
  }

  /** One undisturbed call: its result, the cache after it, and whether it fetched. */
  function Load(p: Policy, c: Cache, now: int, started: int, outcome: Outcome): (Loaded, Cache, bool) {
    if Fresh(c, now) then (Loaded(c.networks, false), c, false)
    else if BackedOff(c, now) then (Fallback(p, c, now, Refused(c)), c, false)
    else
      var c' := Stored(p, c, outcome, started);
      match outcome
      case Fetched(networks) => (Loaded(networks, false), c', true)
      case Broken(error) => (Fallback(p, c', now, error), c', true)
  }

  datatype Status = Status(count: nat, state: string)

  function StatusOf(p: Policy, c: Cache, now: int): Status {
    Status(|c.networks|,
      if |c.networks| > 0 && now < c.expiresAt then "fresh"
      else if |c.networks| > 0 && c.lastError != "" && !CanUseStale(p, c, now) then "error"
      else if |c.networks| > 0 then "stale"
      else if c.lastError != "" then "error"
      else "stale")
  }

  class IpRanges {
    const policy: Policy
    const cache: RangeCache

    constructor (policy: Policy)
      ensures this.policy == policy && fresh(cache) && cache.Snapshot() == EMPTY
    {
      this.policy := policy;
      cache := new RangeCache();
    }

    method FetchAndStore(started: int, outcome: Outcome) returns (r: Outcome)
      modifies cache
      ensures cache.Snapshot() == Stored(policy, old(cache.Snapshot()), outcome, started) && r == outcome
    {
      match outcome {
        case Broken(error) =>
          cache.SetError(Some(error), started + FETCH_BACKOFF);
        case Fetched(networks) =>
          cache.Set(networks, started, started + policy.refresh);
      }
      r := outcome;
    }

    method LoadNetworks(now: int, started: int, outcome: Outcome) returns (r: Loaded)
      modifies cache
      ensures var (loaded, after, _) := Load(policy, old(cache.Snapshot()), now, started, outcome);
              r == loaded && cache.Snapshot() == after
    {
      var found, ok := cache.Get(now);
      if ok {
        return Loaded(found, false);
      }
      var snapshot := cache.Snapshot();
      if BackedOff(snapshot, now) {
        if CanUseStale(policy, snapshot, now) {
          return Loaded(snapshot.networks, true);
        }
        return Unavailable(Refused(snapshot));
      }
      var fetched := FetchAndStore(started, outcome);
      if fetched.Broken? {
        var stale := cache.Snapshot();
        if CanUseStale(policy, stale, now) {
          return Loaded(stale.networks, true);
        }
        return Unavailable(fetched.error);
      }
      r := Loaded(fetched.networks, false);
    }

    /** Is the address in a loaded network? */
    method Verify(ip: nat, now: int, started: int, outcome: Outcome) returns (verified: bool, failed: bool)
      modifies cache
      ensures var (loaded, after, _) := Load(policy, old(cache.Snapshot()), now, started, outcome);
              && cache.Snapshot() == after && (failed <==> loaded.Unavailable?)
              && (verified <==> loaded.Loaded? && Matches(loaded.networks, ip))
    {
      var loaded := LoadNetworks(now, started, outcome);
      if loaded.Unavailable? {
        return false, true;
      }
      for i := 0 to |loaded.networks|
        invariant forall j :: 0 <= j < i ==> ip !in loaded.networks[j]
      {
        if ip in loaded.networks[i] {
          return true, false;
        }
      }
      return false, false;
    }

    /** The status loads first, then reads the clock again. */
    method CacheStatus(now: int, started: int, outcome: Outcome, later: int) returns (status: Status)
      modifies cache
      ensures cache.Snapshot() == Load(policy, old(cache.Snapshot()), now, started, outcome).1
      ensures status == StatusOf(policy, cache.Snapshot(), later)
    {
      var _ := LoadNetworks(now, started, outcome);
      var snapshot := cache.Snapshot();
      var state;
      if |snapshot.networks| > 0 && later < snapshot.expiresAt {
        state := "fresh";
      } else if |snapshot.networks| > 0 && snapshot.lastError != "" && !CanUseStale(policy, snapshot, later) {
        state := "error";
      } else if |snapshot.networks| > 0 {
        state := "stale";
      } else if snapshot.lastError != "" {
        state := "error";
      } else {
        state := "stale";
      }
      status := Status(|snapshot.networks|, state);
    }
  }

  /** The expiry is the one the last successful fetch gave the ranges. */
  predicate Timed(p: Policy, c: Cache) { |c.networks| > 0 ==> c.expiresAt == c.lastFetch + p.refresh }

  /** Expired ranges may be served: the policy says so, and not for longer than it says. */
  predicate MayServeStale(p: Policy, c: Cache, now: int) {
    |c.networks| > 0 && p.useStale && p.maxStale > 0 && now <= c.lastFetch + p.refresh + p.maxStale
  }

  /** What a call answers, counted from the last successful fetch: the ranges until they expire; then what a fetch
      brings; and where none is made, within thirty seconds of one that failed, or it fails, the expired ranges if
      they may be served and the error if not. */
  lemma LoadAnswersExactly(p: Policy, c: Cache, now: int, started: int, outcome: Outcome)
    requires Timed(p, c)
    ensures var (loaded, after, fetched) := Load(p, c, now, started, outcome);
            var current := |c.networks| > 0 && now <= c.lastFetch + p.refresh;
            var held := c.retryAfter.Some? && now < c.retryAfter.value;
            && (fetched <==> !current && !held)
            && (current ==> loaded == Loaded(c.networks, false))
            && (fetched && outcome.Fetched? ==> loaded == Loaded(outcome.networks, false))
            && (!current && (held || outcome.Broken?) ==>
                  loaded == if MayServeStale(p, c, now) then Loaded(c.networks, true)
                            else Unavailable(if held then "ip range refresh failed: " + c.lastError else outcome.error))
            && (!fetched ==> after == c)
            && (fetched ==> Timed(p, after) && after == match outcome
                  case Fetched(networks) => Cache(networks, started + p.refresh, started, "", None)
                  case Broken(error) => c.(lastError := error, retryAfter := Some(started + 30 * 1_000_000_000)))
  {
  }

  /** An address is verified exactly when a published range that is served has it. */
  lemma MatchesExactly(networks: seq<Network>, ip: nat)
    ensures Matches(networks, ip) <==> exists n :: n in networks && ip in n
  {
    if n :| n in networks && ip in n {
      var i :| 0 <= i < |networks| && networks[i] == n;
    }
  }

  /** What the reported state says about the next request at that moment, if its fetch fails: "fresh" and
      unmarked ranges go together except at the very instant of expiry; "error" means the request fails;
      "stale" with an error on record means it is answered from expired ranges. */
  lemma StatusForetells(p: Policy, c: Cache, now: int, error: string)
    ensures var state, loaded := StatusOf(p, c, now).state, Load(p, c, now, now, Broken(error)).0;
            && StatusOf(p, c, now).count == |c.networks| && (c.lastError == "" ==> state != "error")
            && (state == "fresh" <==> loaded == Loaded(c.networks, false) && now != c.expiresAt)
            && (state == "error" && now != c.expiresAt ==> loaded.Unavailable?)
            && (state == "stale" && c.lastError != "" && now != c.expiresAt ==> loaded == Loaded(c.networks, true))
  {
    assert "fresh"[0] != "error"[0] && "fresh"[0] != "stale"[0] && "error"[0] != "stale"[0];
  }
}
