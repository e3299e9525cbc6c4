/** Forward-confirmed reverse DNS: which host names count, what a lookup concludes, and the cache in front. */
module ReverseDns {
  import opened Text
  import Lru

  const TTL: nat := 300_000_000_000
  const MAX_ENTRIES: nat := 4096

  // ---------------------------------------------------------------- host names

  function TrimPrefix(s: string, prefix: string): string { if prefix <= s then s[|prefix|..] else s }

  function TrimSuffix(s: string, suffix: string): string {
    if EndsWith(s, suffix) then s[..|s| - |suffix|] else s
  }

  predicate EndsWith(s: string, suffix: string) { |suffix| <= |s| && s[|s| - |suffix|..] == suffix }

  /** A configured suffix as it is compared. */
  function Normal(suffix: string): string { TrimPrefix(Fold(Trim(SPACES, suffix)), ".") }

  function Normalize(suffixes: seq<string>): seq<string> {
    if |suffixes| == 0 then []
    else
      Normalize(suffixes[..|suffixes| - 1])
      + if Normal(suffixes[|suffixes| - 1]) != "" then [Normal(suffixes[|suffixes| - 1])] else []
  }

  method NormalizeSuffixes(suffixes: seq<string>) returns (normalized: seq<string>)
    ensures normalized == Normalize(suffixes)
  {
    normalized := [];
    for i := 0 to |suffixes|
      invariant normalized == Normalize(suffixes[..i])
    {
      assert suffixes[..i + 1][..i] == suffixes[..i];
      var suffix := Normal(suffixes[i]);
      if suffix != "" {
        normalized := normalized + [suffix];
      }
    }
    assert suffixes[..|suffixes|] == suffixes;
  }

  /** A PTR name as it is compared. */
  function Host(name: string): string { TrimSuffix(Fold(name), ".") }

  /** The program's test: the suffix itself, or something that ends in a dot and the suffix. */
  predicate Under(host: string, suffix: string) {
    host == suffix || (|host| > |suffix| && host[|host| - |suffix| - 1] == '.' && EndsWith(host, suffix))
  }

  predicate Allowed(suffixes: seq<string>, host: string) {
    exists i :: 0 <= i < |suffixes| && Under(host, suffixes[i])
  }

  method IsAllowed(suffixes: seq<string>, host: string) returns (ok: bool)
    ensures ok <==> Allowed(suffixes, host)
  {
    for i := 0 to |suffixes|
      invariant forall j :: 0 <= j < i ==> !Under(host, suffixes[j])
    {
      if host == suffixes[i] {
        return true;
      }
      if |host| > |suffixes[i]| && host[|host| - |suffixes[i]| - 1] == '.' && EndsWith(host, suffixes[i]) {
        return true;
      }
    }
    return false;
  }

  /** The labels of a name. */
  function Labels(s: string): (labels: seq<string>)
    ensures |labels| >= 1
  {
    if s == "" then [""]
    else if s[0] == '.' then [""] + Labels(s[1..])
    else [[s[0]] + Labels(s[1..])[0]] + Labels(s[1..])[1..]
  }

  lemma {:induction false} LabelsJoin(p: string, s: string)
    ensures Labels(p + "." + s) == Labels(p) + Labels(s)
  {
    var whole := p + "." + s;
    if p == "" {
      assert whole[1..] == s;
    } else {
      assert whole[0] == p[0] && whole[1..] == p[1..] + "." + s;
      LabelsJoin(p[1..], s);
    }
  }

  lemma {:induction false} JoinLabels(s: string)
    ensures Join(Labels(s), ".") == s
  {
    if s != "" {
      var rest := Labels(s[1..]);
      JoinLabels(s[1..]);
      if s[0] != '.' {
        assert Labels(s)[1..] == rest[1..];
      } else {
        assert Labels(s)[1..] == rest;
      }
    }
  }

  predicate LabelsEnd(host: string, suffix: string) {
    var h, s := Labels(host), Labels(suffix);
    |s| <= |h| && h[|h| - |s|..] == s
  }

  /** The byte comparison is the comparison of labels: no host is let in for the tail of a label. */
  lemma UnderMeansLabelsEnd(host: string, suffix: string)
    ensures Under(host, suffix) <==> LabelsEnd(host, suffix)
  {
    var h, s := Labels(host), Labels(suffix);
    if Under(host, suffix) && host != suffix {
      var p := host[..|host| - |suffix| - 1];
      assert host == p + "." + suffix;
      LabelsJoin(p, suffix);
    }
    if LabelsEnd(host, suffix) {
      JoinLabels(host);
      JoinLabels(suffix);
      var front := h[..|h| - |s|];
      assert h == front + s;
      if |front| >= 1 {
        JoinAppends(front, s, ".");
      }
    }
  }

  lemma {:induction false} NormalizeMembers(suffixes: seq<string>, n: string)
    ensures n in Normalize(suffixes) <==> n != "" && exists i :: 0 <= i < |suffixes| && Normal(suffixes[i]) == n
  {
    if |suffixes| > 0 {
      var front := suffixes[..|suffixes| - 1];
      NormalizeMembers(front, n);
      if n in Normalize(front) {
        var i :| 0 <= i < |front| && Normal(front[i]) == n;
        assert suffixes[i] == front[i];
      }
      if i :| 0 <= i < |suffixes| && Normal(suffixes[i]) == n {
        assert i < |front| ==> front[i] == suffixes[i];
      }
    }
  }

  /** Which hosts a configuration lets in. */
  lemma AllowedExactly(suffixes: seq<string>, host: string)
    ensures Allowed(Normalize(suffixes), host)
       <==> exists i :: 0 <= i < |suffixes| && Normal(suffixes[i]) != "" && LabelsEnd(host, Normal(suffixes[i]))
  {
    var normal := Normalize(suffixes);
    if Allowed(normal, host) {
      var k :| 0 <= k < |normal| && Under(host, normal[k]);
      NormalizeMembers(suffixes, normal[k]);
      UnderMeansLabelsEnd(host, normal[k]);
    }
    if i :| 0 <= i < |suffixes| && Normal(suffixes[i]) != "" && LabelsEnd(host, Normal(suffixes[i])) {
      NormalizeMembers(suffixes, Normal(suffixes[i]));
      UnderMeansLabelsEnd(host, Normal(suffixes[i]));
      var k :| 0 <= k < |normal| && normal[k] == Normal(suffixes[i]);
      assert Under(host, normal[k]);
    }
  }

  // ---------------------------------------------------------------- spellings

  lemma FoldJoins(a: string, b: string)
    ensures Fold(a + b) == Fold(a) + Fold(b)
  {
  }

  /** White space around a suffix, its case and one leading dot make no difference. */
  lemma SuffixIsSpelled(before: string, dot: string, s: string, after: string)
    requires AllIn(SPACES, before) && AllIn(SPACES, after) && (dot == "" || dot == ".")
    requires s != "" && Trimmed(SPACES, s) && s[0] != '.'
    ensures Normal(before + dot + s + after) == Fold(s)
  {
    assert before + dot + s + after == before + (dot + s) + after;
    TrimFinds(SPACES, before, dot + s, after);
    FoldJoins(dot, s);
    assert Fold(dot) == dot && Fold(s)[0] == FoldChar(s[0]) != '.';
    if dot == "." {
      assert (dot + Fold(s))[1..] == Fold(s);
    } else {
      assert dot + Fold(s) == Fold(s);
    }
  }

  /** A suffix of white space, and a lone dot in it, is none. */
  lemma BlankIsNoSuffix(before: string, dot: string, after: string)
    requires AllIn(SPACES, before) && AllIn(SPACES, after) && (dot == "" || dot == ".")
    ensures Normal(before + dot + after) == ""
  {
    TrimFinds(SPACES, before, dot, after);
  }

  /** A PTR name compares in lower case, with or without the final dot that resolvers give it. */
  lemma NameIsSpelled(name: string)
    requires name == "" || name[|name| - 1] != '.'
    ensures Host(name) == Fold(name) && Host(name + ".") == Fold(name)
  {
    FoldJoins(name, ".");
    assert Fold(".") == ".";
    if name != "" {
      assert Fold(name)[|name| - 1] == FoldChar(name[|name| - 1]) != '.';
      assert Fold(name)[|name| - 1..] == [Fold(name)[|name| - 1]];
    }
    var dotted := Fold(name) + ".";
    assert dotted[|dotted| - 1..] == "." && dotted[..|dotted| - 1] == Fold(name);
  }

  /** One name, but for its case and a final dot. */
  ghost predicate SpelledAlike(a: string, b: string) {
    exists n, m: string ::
      && (n == "" || n[|n| - 1] != '.') && (m == "" || m[|m| - 1] != '.') && Fold(n) == Fold(m)
      && (a == n || a == n + ".") && (b == m || b == m + ".")
  }

  lemma SpelledAlikeIsOneHost(a: string, b: string)
    requires SpelledAlike(a, b)
    ensures Host(a) == Host(b)
  {
    var n, m: string :| (n == "" || n[|n| - 1] != '.') && (m == "" || m[|m| - 1] != '.') && Fold(n) == Fold(m)
                        && (a == n || a == n + ".") && (b == m || b == m + ".");
    NameIsSpelled(n);
    NameIsSpelled(m);
  }

  // ---------------------------------------------------------------- lookups

  /** What the resolver answers: for the address, and for names. */
  datatype Ptr = Names(names: seq<string>) | NoPtr | PtrFailed

  datatype Forward = Addresses(addresses: seq<nat>) | NoHost | ForwardFailed

  datatype Dns = Dns(ptr: Ptr, hosts: map<string, Forward>)

  function Resolve(dns: Dns, host: string): Forward { if host in dns.hosts then dns.hosts[host] else NoHost }

  datatype Verdict = Verdict(verified: bool, reason: string)

  datatype Outcome = Answered(verdict: Verdict) | Failed(reason: string)

  const MATCH := Verdict(true, "reverse_dns_match")
  const NO_MATCH := Verdict(false, "reverse_dns_no_roundtrip_match")

  /** The names in order: the first that resolves back verifies, the first that cannot be resolved fails. */
  function Scan(suffixes: seq<string>, dns: Dns, ip: nat, names: seq<string>): Outcome {
    if |names| == 0 then Answered(NO_MATCH)
    else if !Allowed(suffixes, Host(names[0])) then Scan(suffixes, dns, ip, names[1..])
    else match Resolve(dns, Host(names[0]))
      case ForwardFailed => Failed("forward_lookup_failed")
      case NoHost => Scan(suffixes, dns, ip, names[1..])
      case Addresses(addresses) => if ip in addresses then Answered(MATCH) else Scan(suffixes, dns, ip, names[1..])
  }

  function Lookup(suffixes: seq<string>, dns: Dns, ip: nat): Outcome {
    match dns.ptr
    case NoPtr => Answered(Verdict(false, "reverse_dns_no_ptr"))
    case PtrFailed => Failed("ptr_lookup_failed")
    case Names(names) => Scan(suffixes, dns, ip, names)
  }

  method LookUp(suffixes: seq<string>, dns: Dns, ip: nat) returns (r: Outcome)
    ensures r == Lookup(suffixes, dns, ip)
  {
    if dns.ptr.NoPtr? {
      return Answered(Verdict(false, "reverse_dns_no_ptr"));
    }
    if dns.ptr.PtrFailed? {
      return Failed("ptr_lookup_failed");
    }
    var names := dns.ptr.names;
    for i := 0 to |names|
      invariant Scan(suffixes, dns, ip, names) == Scan(suffixes, dns, ip, names[i..])
    {
      assert names[i..][0] == names[i] && names[i..][1..] == names[i + 1..];
      var host := Host(names[i]);
      var ok := IsAllowed(suffixes, host);
      if !ok {
        continue;
      }
      var answer := Resolve(dns, host);
      if answer.ForwardFailed? {
        return Failed("forward_lookup_failed");
      }
      if answer.NoHost? {
        continue;
      }
      for j := 0 to |answer.addresses|
        invariant ip !in answer.addresses[..j]
      {
        if answer.addresses[j] == ip {
          return Answered(MATCH);
        }
      }
    }
    assert names[|names|..] == [];
    r := Answered(NO_MATCH);
  }

  /** An allowed PTR name that resolves back to the address. */
  predicate RoundTrips(suffixes: seq<string>, dns: Dns, ip: nat, name: string) {
    && Allowed(suffixes, Host(name))
    && Resolve(dns, Host(name)).Addresses? && ip in Resolve(dns, Host(name)).addresses
  }

  /** An allowed PTR name whose resolution fails. */
  predicate Breaks(suffixes: seq<string>, dns: Dns, name: string) {
    Allowed(suffixes, Host(name)) && Resolve(dns, Host(name)).ForwardFailed?
  }

  predicate Decides(suffixes: seq<string>, dns: Dns, ip: nat, name: string) {
    RoundTrips(suffixes, dns, ip, name) || Breaks(suffixes, dns, name)
  }

  /** The name at `at` is the first to decide, and it verifies or fails. */
  ghost predicate Settles(suffixes: seq<string>, dns: Dns, ip: nat, names: seq<string>, at: int, verified: bool) {
    && 0 <= at < |names|
    && (if verified then RoundTrips(suffixes, dns, ip, names[at]) else Breaks(suffixes, dns, names[at]))
    && forall j :: 0 <= j < at ==> !Decides(suffixes, dns, ip, names[j])
  }

  ghost predicate SettledAs(suffixes: seq<string>, dns: Dns, ip: nat, names: seq<string>, verified: bool) {
    exists at :: Settles(suffixes, dns, ip, names, at, verified)
  }

  lemma HeadSettles(suffixes: seq<string>, dns: Dns, ip: nat, names: seq<string>, verified: bool)
    requires |names| > 0 && Decides(suffixes, dns, ip, names[0])
    ensures SettledAs(suffixes, dns, ip, names, verified) <==> verified == RoundTrips(suffixes, dns, ip, names[0])
  {
    assert Settles(suffixes, dns, ip, names, 0, RoundTrips(suffixes, dns, ip, names[0]));
  }

  lemma TailSettles(suffixes: seq<string>, dns: Dns, ip: nat, names: seq<string>, verified: bool)
    requires |names| > 0 && !Decides(suffixes, dns, ip, names[0])
    ensures SettledAs(suffixes, dns, ip, names, verified) <==> SettledAs(suffixes, dns, ip, names[1..], verified)
  {
    var tail := names[1..];
    if at :| Settles(suffixes, dns, ip, names, at, verified) {
      assert Settles(suffixes, dns, ip, tail, at - 1, verified);
    }
    if at :| Settles(suffixes, dns, ip, tail, at, verified) {
      assert forall j :: 0 < j <= at ==> names[j] == tail[j - 1];
      assert Settles(suffixes, dns, ip, names, at + 1, verified);
    }
  }

  /** The first name that decides, if any, decides. */
  lemma {:induction false} ScanFindsFirst(suffixes: seq<string>, dns: Dns, ip: nat, names: seq<string>)
    ensures Scan(suffixes, dns, ip, names) == Answered(MATCH) <==> SettledAs(suffixes, dns, ip, names, true)
    ensures Scan(suffixes, dns, ip, names).Failed? <==> SettledAs(suffixes, dns, ip, names, false)
    ensures Scan(suffixes, dns, ip, names).Answered? ==> Scan(suffixes, dns, ip, names).verdict in {MATCH, NO_MATCH}
  {
    if |names| > 0 {
      if Decides(suffixes, dns, ip, names[0]) {
        HeadSettles(suffixes, dns, ip, names, true);
        HeadSettles(suffixes, dns, ip, names, false);
      } else {
        ScanFindsFirst(suffixes, dns, ip, names[1..]);
        TailSettles(suffixes, dns, ip, names, true);
        TailSettles(suffixes, dns, ip, names, false);
      }
    }
  }

  predicate Verifies(o: Outcome) { o.Answered? && o.verdict.verified }

  /** An address is verified exactly when some allowed name of its own resolves back to it and no allowed
      name before that fails to resolve; no record at all is an answer, not a failure. */
  lemma LookupVerifiesExactly(suffixes: seq<string>, dns: Dns, ip: nat)
    ensures Verifies(Lookup(suffixes, dns, ip)) <==> dns.ptr.Names? && SettledAs(suffixes, dns, ip, dns.ptr.names, true)
    ensures Lookup(suffixes, dns, ip).Failed?
       <==> dns.ptr.PtrFailed? || (dns.ptr.Names? && SettledAs(suffixes, dns, ip, dns.ptr.names, false))
  {
    if dns.ptr.Names? {
      ScanFindsFirst(suffixes, dns, ip, dns.ptr.names);
    }
  }

  lemma {:induction false} ScansAlike(suffixes: seq<string>, dns: Dns, ip: nat, a: seq<string>, b: seq<string>)
    requires |a| == |b| && forall i :: 0 <= i < |a| ==> SpelledAlike(a[i], b[i])
    ensures Scan(suffixes, dns, ip, a) == Scan(suffixes, dns, ip, b)
  {
    if |a| > 0 {
      SpelledAlikeIsOneHost(a[0], b[0]);
      ScansAlike(suffixes, dns, ip, a[1..], b[1..]);
    }
  }

  /** The spelling of the PTR names makes no difference to a lookup. */
  lemma SpellingIsIrrelevant(suffixes: seq<string>, dns: Dns, ip: nat, a: seq<string>, b: seq<string>)
    requires |a| == |b| && forall i :: 0 <= i < |a| ==> SpelledAlike(a[i], b[i])
    ensures Lookup(suffixes, dns.(ptr := Names(a)), ip) == Lookup(suffixes, dns.(ptr := Names(b)), ip)
  {
    ScansAlike(suffixes, dns, ip, a, b);
    SameHosts(suffixes, dns, Names(a), ip, a);
    SameHosts(suffixes, dns, Names(b), ip, b);
  }

  /** Scanning reads the forward answers alone. */
  lemma {:induction false} SameHosts(suffixes: seq<string>, dns: Dns, ptr: Ptr, ip: nat, names: seq<string>)
    ensures Scan(suffixes, dns.(ptr := ptr), ip, names) == Scan(suffixes, dns, ip, names)
  {
    if |names| > 0 {
      SameHosts(suffixes, dns, ptr, ip, names[1..]);
    }
  }

  lemma OneScan(suffixes: seq<string>, dns: Dns, ip: nat, name: string)
    ensures Scan(suffixes, dns, ip, [name]) == Answered(MATCH)
       <==> Allowed(suffixes, Host(name)) && Resolve(dns, Host(name)).Addresses?
            && ip in Resolve(dns, Host(name)).addresses
  {
    assert [name][1..] == [];
  }

  /** From configuration and DNS to the verdict, for a crawler with one PTR name and one configured suffix, however
      they are spelled: verified exactly when the labels of the suffix end the name's and the name resolves back. */
  lemma NameIsVerifiedExactly(before: string, dot: string, s: string, after: string, hosts: map<string, Forward>,
                              ip: nat, name: string)
    requires AllIn(SPACES, before) && AllIn(SPACES, after) && (dot == "" || dot == ".")
    requires s != "" && Trimmed(SPACES, s) && s[0] != '.' && (name == "" || name[|name| - 1] != '.')
    ensures var suffixes := Normalize([before + dot + s + after]);
            forall spelled :: spelled == name || spelled == name + "." ==>
              (Verifies(Lookup(suffixes, Dns(Names([spelled]), hosts), ip))
               <==> LabelsEnd(Fold(name), Fold(s))
                    && Fold(name) in hosts && hosts[Fold(name)].Addresses? && ip in hosts[Fold(name)].addresses)
  {
    var suffix := before + dot + s + after;
    SuffixIsSpelled(before, dot, s, after);
    NameIsSpelled(name);
    assert [suffix][..0] == [] && Normalize([]) == [];
    assert Normalize([suffix]) == [Fold(s)];
    UnderMeansLabelsEnd(Fold(name), Fold(s));
    forall spelled | spelled == name || spelled == name + "."
      ensures Verifies(Lookup([Fold(s)], Dns(Names([spelled]), hosts), ip))
              <==> Allowed([Fold(s)], Fold(name)) && Resolve(Dns(Names([spelled]), hosts), Fold(name)).Addresses?
                   && ip in Resolve(Dns(Names([spelled]), hosts), Fold(name)).addresses
    {
      OneNameVerifies([Fold(s)], Dns(Names([spelled]), hosts), ip, spelled);
    }
    OneAllows(Fold(s), Fold(name));
  }

  lemma OneAllows(suffix: string, host: string)
    ensures Allowed([suffix], host) <==> Under(host, suffix)
  {
    assert [suffix][0] == suffix;
  }

  lemma OneNameVerifies(suffixes: seq<string>, dns: Dns, ip: nat, name: string)
    requires dns.ptr == Names([name])
    ensures Verifies(Lookup(suffixes, dns, ip))
       <==> Allowed(suffixes, Host(name)) && Resolve(dns, Host(name)).Addresses?
            && ip in Resolve(dns, Host(name)).addresses
  {
    OneScan(suffixes, dns, ip, name);
    ScanFindsFirst(suffixes, dns, ip, [name]);
  }

  // ---------------------------------------------------------------- the cache

  datatype Entry = Entry(verdict: Verdict, expiresAt: int, lastAccess: int)

  type Items = map<nat, Entry>

  datatype Limits = Limits(maxEntries: nat, ttl: nat)

  const DEFAULT_LIMITS := Limits(MAX_ENTRIES, TTL)

  function Accessed(e: Entry): int { e.lastAccess }

  function Hit(items: Items, ip: nat, now: int): Option<Verdict> {
    if ip in items && now <= items[ip].expiresAt then Some(items[ip].verdict) else None
  }

  function AfterGet(items: Items, ip: nat, now: int): Items {
    if ip !in items then items
    else if now > items[ip].expiresAt then items - {ip}
    else items[ip := items[ip].(lastAccess := now)]
  }

  function Entered(limits: Limits, items: Items, ip: nat, verdict: Verdict, now: int): Items {
    items[ip := Entry(verdict, now + limits.ttl, now)]
  }

  function DropExpired(items: Items, now: int): Items {
    map k | k in items && now <= items[k].expiresAt :: items[k]
  }

  ghost function AfterSet(limits: Limits, items: Items, ip: nat, verdict: Verdict, now: int): Items {
    var entered := Entered(limits, items, ip, verdict, now);
    if |entered| > limits.maxEntries then Lru.Trimmed(DropExpired(entered, now), limits.maxEntries, Accessed)
    else entered
  }

  class Cache {
    const limits: Limits
    var items: Items

    constructor (limits: Limits)
      ensures this.limits == limits && items == map[]
    {
      this.limits := limits;
      items := map[];
    }

    method Get(ip: nat, now: int) returns (r: Option<Verdict>)
      modifies this
      ensures r == Hit(old(items), ip, now) && items == AfterGet(old(items), ip, now)
    {
      if ip !in items {
        return None;
      }
      var entry := items[ip];
      if now > entry.expiresAt {
        items := items - {ip};
        return None;
      }
      entry := entry.(lastAccess := now);
      items := items[ip := entry];
      r := Some(entry.verdict);
    }

    method Set(ip: nat, verdict: Verdict, now: int)
      modifies this
      ensures items == AfterSet(limits, old(items), ip, verdict, now)
    {
      items := items[ip := Entry(verdict, now + limits.ttl, now)];
      if |items| > limits.maxEntries {
        Evict(now);
      }
    }

    method Evict(now: int)
      modifies this
      ensures items == Lru.Trimmed(DropExpired(old(items), now), limits.maxEntries, Accessed)
    {
      var keys := items.Keys;
      while keys != {}
        invariant keys <= old(items).Keys
        invariant items == map k | k in old(items) && (k in keys || now <= old(items)[k].expiresAt) :: old(items)[k]
        decreases |keys|
      {
        var key :| key in keys;
        if now > items[key].expiresAt {
          items := items - {key};
        }
        keys := keys - {key};
      }
      assert items == DropExpired(old(items), now);
      items := Lru.Trim(items, limits.maxEntries, Accessed);
    }
  }

  /** A call with nobody else about. */
  class Verifier {
    const suffixes: seq<string>
    const cache: Cache

    constructor (suffixes: seq<string>)
      ensures this.suffixes == Normalize(suffixes)
      ensures fresh(cache) && cache.items == map[] && cache.limits == DEFAULT_LIMITS
    {
      var normalized := NormalizeSuffixes(suffixes);
      this.suffixes := normalized;
      cache := new Cache(DEFAULT_LIMITS);
    }

    /** `later` is the clock when the lookup is over. */
    method Verify(ip: nat, now: int, dns: Dns, later: int) returns (r: Outcome)
      modifies cache
      ensures var hit, got := Hit(old(cache.items), ip, now), AfterGet(old(cache.items), ip, now);
              && r == (if hit.Some? then Answered(hit.value) else Lookup(suffixes, dns, ip))
              && cache.items
                 == if hit.None? && r.Answered? then AfterSet(cache.limits, got, ip, r.verdict, later) else got
    {
      var cached := cache.Get(ip, now);
      if cached.Some? {
        return Answered(cached.value);
      }
      r := LookUp(suffixes, dns, ip);
      if r.Answered? {
        cache.Set(ip, r.verdict, later);
      }
    }
  }

  /** While there is room, an answer is served from the cache until its time to live is over, and not after; entering it
      takes nothing from the others. */
  lemma CachedUntilExactly(limits: Limits, items: Items, ip: nat, verdict: Verdict, at: int, now: int, other: nat)
    requires |items.Keys + {ip}| <= limits.maxEntries
    ensures var after := AfterSet(limits, items, ip, verdict, at);
            && Hit(after, ip, now) == (if now <= at + limits.ttl then Some(verdict) else None)
            && (other != ip ==> Hit(after, other, now) == Hit(items, other, now))
  {
    var entered := Entered(limits, items, ip, verdict, at);
    assert entered.Keys == items.Keys + {ip};
    assert |entered| == |entered.Keys|;
  }

  function Live(items: Items, ip: nat, now: int): set<nat> {
    set k | k in items && k != ip && now <= items[k].expiresAt
  }

  lemma LiveEntries(limits: Limits, items: Items, ip: nat, verdict: Verdict, now: int)
    ensures var kept := DropExpired(Entered(limits, items, ip, verdict, now), now);
            && kept.Keys == Live(items, ip, now) + {ip} && |kept| == |Live(items, ip, now)| + 1
            && forall k :: k in Live(items, ip, now) ==> kept[k] == items[k]
  {
    var kept := DropExpired(Entered(limits, items, ip, verdict, now), now);
    var live := Live(items, ip, now);
    assert kept.Keys == live + {ip};
    assert ip !in live && |live + {ip}| == |live| + 1;
    assert |kept| == |kept.Keys|;
  }

  /** Over the bound the expired go first, and nothing else goes if the others come down to seven eighths of it. */
  lemma ExpiredGoFirst(limits: Limits, items: Items, ip: nat, verdict: Verdict, now: int, other: nat)
    requires other in items && other != ip && |items.Keys + {ip}| > limits.maxEntries
    ensures var after := AfterSet(limits, items, ip, verdict, now);
            && (now > items[other].expiresAt ==> other !in after)
            && (now <= items[other].expiresAt
                && |Live(items, ip, now)| + 1 <= limits.maxEntries - limits.maxEntries / 8 ==>
                  other in after && after[other] == items[other])
  {
    var entered := Entered(limits, items, ip, verdict, now);
    assert entered.Keys == items.Keys + {ip} && |entered| == |entered.Keys|;
    LiveEntries(limits, items, ip, verdict, now);
    Lru.TrimLeaves(DropExpired(entered, now), limits.maxEntries, Accessed);
  }

  /** Of the others, those not used for longest go. */
  lemma LeastRecentGoFirst(limits: Limits, items: Items, ip: nat, verdict: Verdict, now: int, kept: nat, gone: nat)
    requires var after := AfterSet(limits, items, ip, verdict, now);
             && kept in after && kept != ip
             && gone in items && gone != ip && now <= items[gone].expiresAt && gone !in after
    ensures kept in items && items[kept].lastAccess > items[gone].lastAccess
  {
    var entered := Entered(limits, items, ip, verdict, now);
    Lru.TrimLeaves(DropExpired(entered, now), limits.maxEntries, Accessed);
  }

  /** Serving an answer makes it the last to be evicted, and otherwise takes nothing from the cache but the expired. */
  lemma ServingKeeps(items: Items, ip: nat, now: int, other: nat, later: int)
    requires now <= later
    ensures var after := AfterGet(items, ip, now);
            && Hit(after, other, later) == Hit(items, other, later)
            && (Hit(items, ip, now).Some? ==> ip in after && after[ip].lastAccess == now)
            && (Hit(items, ip, now).None? ==> ip !in after)
            && (other in after && other != ip ==> other in items && after[other] == items[other])
  {
  }

  /** The program's own limits: five minutes and 4096 entries. */
  lemma DefaultLimits()
    ensures DEFAULT_LIMITS.ttl == 5 * 60 * 1_000_000_000 && DEFAULT_LIMITS.maxEntries == 4096
  {
  }

  /** Setting keeps the bound, and every entry it leaves was there before or is the new one. */
  lemma SetKeeps(limits: Limits, items: Items, ip: nat, verdict: Verdict, now: int)
    ensures var after, entered := AfterSet(limits, items, ip, verdict, now), Entered(limits, items, ip, verdict, now);
            && |after| <= limits.maxEntries && after.Keys <= entered.Keys
            && forall k :: k in after ==> after[k] == entered[k]
  {
    var entered := Entered(limits, items, ip, verdict, now);
    if |entered| > limits.maxEntries {
      Lru.TrimLeaves(DropExpired(entered, now), limits.maxEntries, Accessed);
    }
  }
}
