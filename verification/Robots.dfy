/** The robots.txt generator: one group per bot, groups with equal directives merged, then text. */
module Robots {
  import opened Text
  import opened Policy
  import opened Config
  import opened Directives
  import opened Probe
  import Sorting

  datatype Group = Group(agents: seq<string>, lines: Lines, crawlDelay: nat, wildcard: bool)

  // ---------------------------------------------------------------- one group

  function TrimmedTokens(needles: seq<string>): seq<string> {
    if |needles| == 0 then []
    else
      var needle := Trim(SPACES, needles[|needles| - 1]);
      TrimmedTokens(needles[..|needles| - 1]) + if needle != "" then [needle] else []
  }

  function AgentsFor(bot: BotConfig): seq<string> {
    if bot.isDefault then ["*"] else TrimmedTokens(bot.userAgents)
  }

  method Agents(bot: BotConfig) returns (agents: seq<string>)
    ensures agents == AgentsFor(bot)
  {
    if bot.isDefault {
      return ["*"];
    }
    agents := [];
    for i := 0 to |bot.userAgents|
      invariant agents == TrimmedTokens(bot.userAgents[..i])
    {
      assert bot.userAgents[..i + 1][..i] == bot.userAgents[..i];
      var needle := Trim(SPACES, bot.userAgents[i]);
      if needle != "" {
        agents := agents + [needle];
      }
    }
    assert bot.userAgents[..|bot.userAgents|] == bot.userAgents;
  }

  /** Seconds between requests for a per-minute limit, rounded up; 0 where whole seconds cannot say it. */
  function CrawlDelaySeconds(rpm: int): nat {
    if rpm <= 0 || rpm >= 60 then 0 else (60 + rpm - 1) / rpm
  }

  /** The least whole number of seconds in which the limit gives a token, where it is more than one. */
  lemma CrawlDelayIsLeast(rpm: int)
    ensures var n := CrawlDelaySeconds(rpm);
            && (0 < rpm < 60 ==> n * rpm >= 60 && (n - 1) * rpm < 60)
            && (rpm <= 0 || rpm >= 60 ==> n == 0)
  {
    if 0 < rpm < 60 {
      var n := (60 + rpm - 1) / rpm;
      assert 60 + rpm - 1 == n * rpm + (60 + rpm - 1) % rpm;
      assert (n - 1) * rpm == n * rpm - rpm;
    }
  }

  function DelayOf(action: Action): nat {
    if action.RateLimit? then CrawlDelaySeconds(action.rpm) else 0
  }

  datatype Probed = Probed(blocked: map<string, bool>, delay: nat)

  /** The answers for the probed paths, or the first rule that fails. */
  function ProbeAll(cfg: Config, engine: Engine, bot: BotConfig, paths: seq<string>): Result<Probed, string> {
    if |paths| == 0 then Success(Probed(map[], 0))
    else
      var path := paths[|paths| - 1];
      match ProbeAll(cfg, engine, bot, paths[..|paths| - 1])
      case Failure(rule) => Failure(rule)
      case Success(sofar) =>
        match Decide(engine, ProbeInput(cfg, bot, path))
        case Failure(rule) => Failure(rule)
        case Success(decision) =>
          var delay := DelayOf(decision.action);
          Success(Probed(sofar.blocked[path := decision.action.Block?],
                         if delay > sofar.delay then delay else sofar.delay))
  }

  function Build(cfg: Config, engine: Engine, bot: BotConfig, paths: seq<string>): Result<Group, string> {
    var agents := AgentsFor(bot);
    if |agents| == 0 then Success(Group([], Lines([], []), 0, bot.isDefault))
    else match ProbeAll(cfg, engine, bot, paths)
      case Failure(rule) => Failure(rule)
      case Success(probed) => Success(Group(agents, Reduce(paths, probed.blocked), probed.delay, bot.isDefault))
  }

  method BuildGroup(cfg: Config, engine: Engine, bot: BotConfig, paths: seq<string>) returns (r: Result<Group, string>)
    ensures r == Build(cfg, engine, bot, paths)
  {
    var agents := Agents(bot);
    if |agents| == 0 {
      return Success(Group([], Lines([], []), 0, bot.isDefault));
    }
    var blocked: map<string, bool>, crawlDelay: nat := map[], 0;
    for i := 0 to |paths|
      invariant ProbeAll(cfg, engine, bot, paths[..i]) == Success(Probed(blocked, crawlDelay))
    {
      assert paths[..i + 1][..i] == paths[..i];
      var path := paths[i];
      var decision := Evaluate(engine, ProbeInput(cfg, bot, path));
      if decision.Failure? {
        ProbeAllFails(cfg, engine, bot, paths, i + 1);
        return Failure(decision.error);
      }
      blocked := blocked[path := decision.value.action.Block?];
      if decision.value.action.RateLimit? {
        var delay := CrawlDelaySeconds(decision.value.action.rpm);
        if delay > crawlDelay {
          crawlDelay := delay;
        }
      }
    }
    assert paths[..|paths|] == paths;
    var disallow, allow := Directives.Directives(paths, blocked);
    r := Success(Group(agents, Lines(disallow, allow), crawlDelay, bot.isDefault));
  }

  lemma {:induction false} ProbeAllFails(cfg: Config, engine: Engine, bot: BotConfig, paths: seq<string>, i: nat)
    requires i <= |paths| && ProbeAll(cfg, engine, bot, paths[..i]).Failure?
    ensures ProbeAll(cfg, engine, bot, paths) == ProbeAll(cfg, engine, bot, paths[..i])
  {
    if i < |paths| {
      assert paths[..|paths| - 1][..i] == paths[..i];
      ProbeAllFails(cfg, engine, bot, paths[..|paths| - 1], i);
    } else {
      assert paths[..i] == paths;
    }
  }

  ghost predicate Implies(cfg: Config, engine: Engine, bot: BotConfig, path: string, delay: nat) {
    var r := Decide(engine, ProbeInput(cfg, bot, path));
    r.Success? && DelayOf(r.value.action) == delay
  }

  /** The recorded answers are the engine's; the delay is the largest any probed path implies. */
  lemma {:induction false} ProbeAllAnswers(cfg: Config, engine: Engine, bot: BotConfig, paths: seq<string>)
    ensures match ProbeAll(cfg, engine, bot, paths)
      case Failure(rule) => exists p :: p in paths && Decide(engine, ProbeInput(cfg, bot, p)) == Failure(rule)
      case Success(probed) =>
        && (forall p :: p in paths ==>
              match Decide(engine, ProbeInput(cfg, bot, p))
              case Failure(_) => false
              case Success(d) => Denied(probed.blocked, p) == d.action.Block? && DelayOf(d.action) <= probed.delay)
        && (probed.delay > 0 ==> exists p :: p in paths && Implies(cfg, engine, bot, p, probed.delay))
  {
    if |paths| > 0 {
      var front, path := paths[..|paths| - 1], paths[|paths| - 1];
      assert paths == front + [path];
      ProbeAllAnswers(cfg, engine, bot, front);
      if ProbeAll(cfg, engine, bot, paths).Failure? {
        if ProbeAll(cfg, engine, bot, front).Failure? {
          var p :| p in front && Decide(engine, ProbeInput(cfg, bot, p)) == ProbeAllError(cfg, engine, bot, front);
          assert p in paths;
        } else {
          assert path in paths;
        }
      } else {
        assert path in paths;
        assert forall p :: p in front ==> p in paths;
      }
    }
  }

  function ProbeAllError(cfg: Config, engine: Engine, bot: BotConfig, paths: seq<string>): Result<Decision, string>
    requires ProbeAll(cfg, engine, bot, paths).Failure?
  {
    Failure(ProbeAll(cfg, engine, bot, paths).error)
  }

  // ---------------------------------------------------------------- merging

  function LinesText(lines: Lines): string { Join(lines.disallow, ",") + "|" + Join(lines.allow, ",") }

  function Signature(g: Group): string { Digits(g.crawlDelay) + "|" + LinesText(g.lines) }

  /** Position of the first group with the key, -1 for none. */
  function FindKey(key: Group -> string, merged: seq<Group>, k: string): (at: int)
    ensures -1 <= at < |merged|
    ensures at >= 0 ==> key(merged[at]) == k
    ensures forall i :: 0 <= i < (if at >= 0 then at else |merged|) ==> key(merged[i]) != k
  {
    if |merged| == 0 then -1
    else
      var at := FindKey(key, merged[..|merged| - 1], k);
      if at >= 0 then at
      else if key(merged[|merged| - 1]) == k then |merged| - 1
      else -1
  }

  /** One group joins the first with its key, or stands by itself; wildcard groups stay apart. */
  function Enter(key: Group -> string, merged: seq<Group>, g: Group): seq<Group> {
    if g.wildcard then merged
    else
      var at := FindKey(key, merged, key(g));
      if at >= 0 then merged[at := merged[at].(agents := merged[at].agents + g.agents)] else merged + [g]
  }

  function MergeNamed(key: Group -> string, groups: seq<Group>): seq<Group> {
    if |groups| == 0 then [] else Enter(key, MergeNamed(key, groups[..|groups| - 1]), groups[|groups| - 1])
  }

  function LastWildcard(groups: seq<Group>): Option<Group> {
    if |groups| == 0 then None
    else if groups[|groups| - 1].wildcard then Some(groups[|groups| - 1])
    else LastWildcard(groups[..|groups| - 1])
  }

  function FirstAgent(g: Group): string { if |g.agents| > 0 then g.agents[0] else "" }

  predicate ByFirstAgent(a: Group, b: Group) { Less(FirstAgent(a), FirstAgent(b)) }

  /** Named groups by first agent, the wildcard group last. */
  function Arrange(named: seq<Group>, wildcard: Option<Group>): seq<Group> {
    Sorting.Sort(ByFirstAgent, named) + if wildcard.Some? then [wildcard.value] else []
  }

  function Merge(groups: seq<Group>): seq<Group> {
    Arrange(MergeNamed(Signature, groups), LastWildcard(groups))
  }

  /** A named group takes its place: beside the group of its signature, or by itself. */
  method Place(ghost key: Group -> string, signature: string, merged: seq<Group>, index: map<string, int>, g: Group)
    returns (longer: seq<Group>, grown: map<string, int>)
    requires Indexes(key, index, merged) && signature == key(g) && !g.wildcard && IgnoresAgents(key)
    ensures longer == Enter(key, merged, g) && Indexes(key, grown, longer)
  {
    if signature in index {
      var at := index[signature];
      var joined := merged[at].(agents := merged[at].agents + g.agents);
      KeysUnchanged(key, merged, at, joined);
      return merged[at := joined], index;
    }
    assert (merged + [g])[..|merged|] == merged;
    return merged + [g], index[signature := |merged|];
  }

  method MergeGroups(groups: seq<Group>) returns (merged: seq<Group>)
    ensures merged == Merge(groups)
  {
    ghost var sig := Signature;
    SignatureIgnoresAgents();
    merged := [];
    var index: map<string, int> := map[];
    var wildcard: Option<Group> := None;
    for i := 0 to |groups|
      invariant merged == MergeNamed(sig, groups[..i])
      invariant wildcard == LastWildcard(groups[..i])
      invariant Indexes(sig, index, merged)
    {
      assert groups[..i + 1][..i] == groups[..i];
      var candidate := groups[i];
      if candidate.wildcard {
        wildcard := Some(candidate);
        continue;
      }
      merged, index := Place(sig, Signature(candidate), merged, index, candidate);
    }
    assert groups[..|groups|] == groups;
    merged := Sorting.Sort(ByFirstAgent, merged);
    if wildcard.Some? {
      merged := merged + [wildcard.value];
    }
  }

  lemma FirstAgentOrders()
    ensures Sorting.Orders(ByFirstAgent)
  {
    forall a, b | ByFirstAgent(a, b) ensures !ByFirstAgent(b, a) {
      LessIsTotal(FirstAgent(a), FirstAgent(b));
    }
    forall a, b, c | ByFirstAgent(a, c) ensures ByFirstAgent(a, b) || ByFirstAgent(b, c) {
      LessSplits(FirstAgent(a), FirstAgent(b), FirstAgent(c));
    }
  }

  /** In the file the named groups stand in the order of their first agents, groups that share theirs as they were
      merged, and the group for everybody stands last. */
  lemma FileOrder(groups: seq<Group>)
    ensures var named, all := MergeNamed(Signature, groups), Merge(groups);
            && |all| == |named| + (if LastWildcard(groups).Some? then 1 else 0)
            && multiset(all[..|named|]) == multiset(named)
            && (forall i, j :: 0 <= i < j < |named| && |all[i].agents| > 0 && |all[j].agents| > 0 ==>
                  Less(all[i].agents[0], all[j].agents[0]) || all[i].agents[0] == all[j].agents[0])
            && (forall x :: Sorting.Tied(ByFirstAgent, all[..|named|], x) == Sorting.Tied(ByFirstAgent, named, x))
            && (LastWildcard(groups).Some? ==> all[|named|] == LastWildcard(groups).value)
  {
    var named, all := MergeNamed(Signature, groups), Merge(groups);
    var sorted := Sorting.Sort(ByFirstAgent, named);
    FirstAgentOrders();
    Sorting.SortSorts(ByFirstAgent, named);
    Sorting.SameLength(sorted, named);
    assert all[..|named|] == sorted;
    forall i, j | 0 <= i < j < |named| && |all[i].agents| > 0 && |all[j].agents| > 0
      ensures Less(all[i].agents[0], all[j].agents[0]) || all[i].agents[0] == all[j].agents[0]
    {
      assert !ByFirstAgent(sorted[j], sorted[i]);
      LessIsTotal(all[i].agents[0], all[j].agents[0]);
    }
    forall x ensures Sorting.Tied(ByFirstAgent, all[..|named|], x) == Sorting.Tied(ByFirstAgent, named, x) {
      Sorting.SortIsStable(ByFirstAgent, named, x);
    }
  }

  lemma SignatureIgnoresAgents()
    ensures IgnoresAgents(Signature)
  {
  }

  ghost predicate Indexes(key: Group -> string, index: map<string, int>, merged: seq<Group>) {
    && (forall k :: k in index <==> FindKey(key, merged, k) >= 0)
    && (forall k :: k in index ==> index[k] == FindKey(key, merged, k))
  }

  lemma KeysUnchanged(key: Group -> string, merged: seq<Group>, at: nat, g: Group)
    requires at < |merged| && key(g) == key(merged[at])
    ensures forall k :: FindKey(key, merged[at := g], k) == FindKey(key, merged, k)
  {
    forall k ensures FindKey(key, merged[at := g], k) == FindKey(key, merged, k) {
      var a, b := FindKey(key, merged[at := g], k), FindKey(key, merged, k);
      assert forall i :: 0 <= i < |merged| ==> key(merged[at := g][i]) == key(merged[i]);
    }
  }

  /** A bot's group with the directives of the merged group. */
  predicate Represents(g: Group, m: Group) {
    !g.wildcard && !m.wildcard && g.lines == m.lines && g.crawlDelay == m.crawlDelay && |g.agents| <= |m.agents|
  }

  ghost predicate Represented(m: Group, groups: seq<Group>) { exists g :: g in groups && Represents(g, m) }

  ghost predicate Brings(key: Group -> string, g: Group, m: Group, a: string) {
    !g.wildcard && key(g) == key(m) && a in g.agents
  }

  ghost predicate Brought(key: Group -> string, m: Group, a: string, groups: seq<Group>) {
    exists g :: g in groups && Brings(key, g, m, a)
  }

  ghost predicate Houses(key: Group -> string, m: Group, g: Group) {
    key(m) == key(g) && forall a :: a in g.agents ==> a in m.agents
  }

  ghost predicate Housed(key: Group -> string, g: Group, merged: seq<Group>) {
    exists m :: m in merged && Houses(key, m, g)
  }

  ghost predicate IgnoresAgents(key: Group -> string) {
    forall g: Group, agents :: key(g.(agents := agents)) == key(g)
  }

  /** What merging keeps: one group per key, the directives of a member, every agent beside its own. */
  ghost predicate Merged(key: Group -> string, merged: seq<Group>, groups: seq<Group>) {
    && Sorting.KeysApart(key, merged)
    && (forall m :: m in merged ==> Represented(m, groups))
    && (forall m, a :: m in merged && a in m.agents ==> Brought(key, m, a, groups))
    && (forall g :: g in groups && !g.wildcard ==> Housed(key, g, merged))
  }

  /** The three ways a group comes about. */
  lemma EnterMembers(key: Group -> string, merged: seq<Group>, g: Group, m: Group)
    requires m in Enter(key, merged, g)
    ensures m in merged
         || (m == g && !g.wildcard)
         || (!g.wildcard && exists w :: w in merged && key(w) == key(g) && m == w.(agents := w.agents + g.agents))
  {
    var at := FindKey(key, merged, key(g));
    if m !in merged && m != g {
      assert at >= 0 && m == merged[at].(agents := merged[at].agents + g.agents);
      assert merged[at] in merged;
    }
  }

  lemma EnterKeepsRepresented(key: Group -> string, merged: seq<Group>, groups: seq<Group>, g: Group, m: Group)
    requires Merged(key, merged, groups) && m in Enter(key, merged, g)
    ensures Represented(m, groups + [g])
  {
    EnterMembers(key, merged, g, m);
    if m in merged {
      var x :| x in groups && Represents(x, m);
      assert x in groups + [g];
    } else if m == g && !g.wildcard {
      assert g in groups + [g];
    } else {
      var w :| w in merged && key(w) == key(g) && m == w.(agents := w.agents + g.agents);
      assert Represented(w, groups);
      var x :| x in groups && Represents(x, w);
      assert x in groups + [g] && Represents(x, m);
    }
  }

  lemma EnterKeepsBrought(key: Group -> string, merged: seq<Group>, groups: seq<Group>, g: Group, m: Group, a: string)
    requires Merged(key, merged, groups) && IgnoresAgents(key) && m in Enter(key, merged, g) && a in m.agents
    ensures Brought(key, m, a, groups + [g])
  {
    EnterMembers(key, merged, g, m);
    if m in merged {
      assert Brought(key, m, a, groups);
      var x :| x in groups && Brings(key, x, m, a);
      assert x in groups + [g];
    } else if m == g && !g.wildcard {
      assert g in groups + [g] && Brings(key, g, m, a);
    } else {
      var w :| w in merged && key(w) == key(g) && m == w.(agents := w.agents + g.agents);
      if a in w.agents {
        assert Brought(key, w, a, groups);
        var x :| x in groups && Brings(key, x, w, a);
        assert x in groups + [g] && Brings(key, x, m, a);
      } else {
        assert g in groups + [g] && Brings(key, g, m, a);
      }
    }
  }

  /** Entering a group takes nothing from the groups there. */
  lemma EnterGrows(key: Group -> string, merged: seq<Group>, g: Group, i: nat, x: Group)
    requires IgnoresAgents(key) && i < |merged| && Houses(key, merged[i], x)
    ensures i < |Enter(key, merged, g)| && Houses(key, Enter(key, merged, g)[i], x)
  {
  }

  /** And finds a place for the group itself. */
  lemma EnterHouses(key: Group -> string, merged: seq<Group>, g: Group) returns (i: nat)
    requires IgnoresAgents(key) && !g.wildcard
    ensures i < |Enter(key, merged, g)| && Houses(key, Enter(key, merged, g)[i], g)
  {
    var at := FindKey(key, merged, key(g));
    i := if at >= 0 then at else |merged|;
  }

  lemma EnterKeepsHoused(key: Group -> string, merged: seq<Group>, groups: seq<Group>, g: Group, x: Group)
    requires Merged(key, merged, groups) && IgnoresAgents(key) && x in groups + [g] && !x.wildcard
    ensures Housed(key, x, Enter(key, merged, g))
  {
    var i;
    if x in groups {
      assert Housed(key, x, merged);
      i :| 0 <= i < |merged| && Houses(key, merged[i], x);
      EnterGrows(key, merged, g, i, x);
    } else {
      i := EnterHouses(key, merged, g);
    }
    assert Enter(key, merged, g)[i] in Enter(key, merged, g);
  }

  lemma EnterKeepsKeysApart(key: Group -> string, merged: seq<Group>, g: Group)
    requires IgnoresAgents(key) && Sorting.KeysApart(key, merged)
    ensures Sorting.KeysApart(key, Enter(key, merged, g))
  {
    var at := FindKey(key, merged, key(g));
    var next := Enter(key, merged, g);
    assert forall i :: 0 <= i < |merged| ==> key(next[i]) == key(merged[i]);
  }

  lemma {:induction false} MergeNamedMerges(key: Group -> string, groups: seq<Group>)
    requires IgnoresAgents(key)
    ensures Merged(key, MergeNamed(key, groups), groups)
  {
    if |groups| > 0 {
      var front, g := groups[..|groups| - 1], groups[|groups| - 1];
      var merged := MergeNamed(key, front);
      MergeNamedMerges(key, front);
      assert groups == front + [g];
      var next := Enter(key, merged, g);
      EnterKeepsKeysApart(key, merged, g);
      forall m | m in next ensures Represented(m, groups) {
        EnterKeepsRepresented(key, merged, front, g, m);
      }
      forall m, a | m in next && a in m.agents ensures Brought(key, m, a, groups) {
        EnterKeepsBrought(key, merged, front, g, m, a);
      }
      forall x | x in groups && !x.wildcard ensures Housed(key, x, next) {
        EnterKeepsHoused(key, merged, front, g, x);
      }
    }
  }

  // ---------------------------------------------------------------- signatures

  /** No separator of the signature can be mistaken inside or behind the path. */
  predicate SafePath(p: string) {
    && (forall i :: 0 <= i < |p| - 1 && (p[i] == ',' || p[i] == '|') ==> p[i + 1] != '/')
    && (p != "" ==> p[|p| - 1] != '|')
  }

  ghost predicate SafePaths(paths: seq<string>) {
    forall p :: p in paths ==> Slashed(p) && SafePath(p)
  }

  /** What may follow a path and its separator `c` in a signature. */
  predicate Follows(c: char, rest: string) {
    (rest != "" && rest[0] == '/') || (c == '|' && (rest == "" || rest == "|"))
  }

  lemma Overlap(d: string, c: char, rest: string, e: string, c': char, rest': string)
    requires d + [c] + rest == e + [c'] + rest' && |d| < |e|
    ensures e[|d|] == c && rest != ""
    ensures rest[0] == if |d| + 1 < |e| then e[|d| + 1] else c'
    ensures |d| + 1 + |rest| > |e|
  {
    var x := d + [c] + rest;
    assert x[|d|] == c && x[|e|] == c' && x[|d| + 1] == rest[0];
    assert e == x[..|e|];
  }

  lemma HeadNotShorter(d: string, c: char, rest: string, e: string, c': char, rest': string)
    requires SafePath(e) && (c == ',' || c == '|') && (c' == ',' || c' == '|') && Follows(c, rest)
    requires d + [c] + rest == e + [c'] + rest'
    ensures |d| >= |e|
  {
    if |d| < |e| {
      Overlap(d, c, rest, e, c', rest');
    }
  }

  lemma HeadsAgree(d: string, c: char, rest: string, e: string, c': char, rest': string)
    requires SafePath(d) && SafePath(e) && (c == ',' || c == '|') && (c' == ',' || c' == '|')
    requires Follows(c, rest) && Follows(c', rest')
    requires d + [c] + rest == e + [c'] + rest'
    ensures d == e && c == c' && rest == rest'
  {
    HeadNotShorter(d, c, rest, e, c', rest');
    HeadNotShorter(e, c', rest', d, c, rest);
    var x, y := d + [c] + rest, e + [c'] + rest';
    assert d == x[..|d|] && e == y[..|e|];
    assert x[|d|] == c && y[|d|] == c';
    assert rest == x[|d| + 1..] && rest' == y[|d| + 1..];
  }

  lemma JoinedHead(paths: seq<string>, tail: string) returns (c: char, rest: string)
    requires SafePaths(paths) && |paths| > 0 && (tail == "" || tail == "|" || tail[0] == '/')
    ensures Join(paths, ",") + "|" + tail == paths[0] + [c] + rest
    ensures c == (if |paths| > 1 then ',' else '|') && Follows(c, rest)
    ensures |paths| > 1 ==> rest == Join(paths[1..], ",") + "|" + tail
    ensures |paths| == 1 ==> rest == tail
  {
    if |paths| == 1 {
      c, rest := '|', tail;
      assert [c] == "|";
    } else {
      c, rest := ',', Join(paths[1..], ",") + "|" + tail;
      assert paths[1] in paths && paths[1..][0] == paths[1];
      assert Slashed(paths[1]) && rest[0] == '/';
      assert [c] == ",";
    }
  }

  /** A list of safe slash-led paths is recovered from its join. */
  lemma {:induction false} JoinIsInjective(a: seq<string>, b: seq<string>, s: string, t: string)
    requires SafePaths(a) && SafePaths(b)
    requires (s == "" || s == "|" || s[0] == '/') && (t == "" || t == "|" || t[0] == '/')
    requires Join(a, ",") + "|" + s == Join(b, ",") + "|" + t
    ensures a == b && s == t
    decreases |a|
  {
    if |a| == 0 || |b| == 0 {
      JoinEmpty(a, b, s, t);
    } else {
      var c, rest := JoinedHead(a, s);
      var c', rest' := JoinedHead(b, t);
      assert SafePath(a[0]) && SafePath(b[0]);
      HeadsAgree(a[0], c, rest, b[0], c', rest');
      assert a == [a[0]] + a[1..] && b == [b[0]] + b[1..];
      if |a| > 1 {
        JoinIsInjective(a[1..], b[1..], s, t);
      }
    }
  }

  lemma JoinEmpty(a: seq<string>, b: seq<string>, s: string, t: string)
    requires SafePaths(a) && SafePaths(b) && (|a| == 0 || |b| == 0)
    requires Join(a, ",") + "|" + s == Join(b, ",") + "|" + t
    ensures a == b && s == t
  {
    JoinFirst(a, s);
    JoinFirst(b, t);
    assert s == (Join([], ",") + "|" + s)[1..] && t == (Join([], ",") + "|" + t)[1..];
  }

  lemma JoinFirst(paths: seq<string>, tail: string)
    requires SafePaths(paths)
    ensures (Join(paths, ",") + "|" + tail)[0] == if |paths| == 0 then '|' else '/'
  {
    JoinHead(paths);
  }

  lemma JoinHead(paths: seq<string>)
    requires SafePaths(paths)
    ensures Join(paths, ",") == "" <==> |paths| == 0
    ensures |paths| > 0 ==> Join(paths, ",")[0] == '/'
  {
    if |paths| > 0 {
      assert paths[0] in paths && Slashed(paths[0]);
    }
  }

  lemma BarInLonger(a: string, s: string, b: string, t: string)
    requires a + "|" + s == b + "|" + t && |a| < |b|
    ensures '|' in b
  {
    var x := a + "|" + s;
    assert x[|a|] == '|' && b == x[..|b|];
    assert b[|a|] == '|';
  }

  lemma BarSplits(a: string, s: string, b: string, t: string)
    requires '|' !in a && '|' !in b && a + "|" + s == b + "|" + t
    ensures a == b && s == t
  {
    if |a| < |b| {
      BarInLonger(a, s, b, t);
    } else if |b| < |a| {
      BarInLonger(b, t, a, s);
    } else {
      var x, y := a + "|" + s, b + "|" + t;
      assert a == x[..|a|] && b == y[..|b|];
      assert s == x[|a| + 1..] && t == y[|b| + 1..];
    }
  }

  lemma DigitsAreInjective(m: nat, n: nat)
    requires Digits(m) == Digits(n)
    ensures m == n
  {
    DigitsRoundTrip(m);
    DigitsRoundTrip(n);
  }

  /** A signature is the delay and the text of the lines. */
  lemma SignatureParts(g: Group, h: Group)
    ensures Signature(g) == Signature(h) <==> g.crawlDelay == h.crawlDelay && LinesText(g.lines) == LinesText(h.lines)
  {
    if Signature(g) == Signature(h) {
      DigitsRoundTrip(g.crawlDelay);
      DigitsRoundTrip(h.crawlDelay);
      BarSplits(Digits(g.crawlDelay), LinesText(g.lines), Digits(h.crawlDelay), LinesText(h.lines));
      DigitsAreInjective(g.crawlDelay, h.crawlDelay);
    }
  }

  /** Lists of safe paths are recovered from the text of their lines. */
  lemma LinesTextSeparates(l: Lines, m: Lines)
    requires SafePaths(l.disallow) && SafePaths(l.allow) && SafePaths(m.disallow) && SafePaths(m.allow)
    requires LinesText(l) == LinesText(m)
    ensures l == m
  {
    var s, t := Join(l.allow, ","), Join(m.allow, ",");
    JoinHead(l.allow);
    JoinHead(m.allow);
    JoinIsInjective(l.disallow, m.disallow, s, t);
    assert s + "|" + "" == t + "|" + "";
    JoinIsInjective(l.allow, m.allow, "", "");
  }

  /** Groups of safe paths share a signature only when they share every directive. */
  lemma SignatureSeparates(g: Group, h: Group)
    requires SafePaths(g.lines.disallow) && SafePaths(g.lines.allow)
    requires SafePaths(h.lines.disallow) && SafePaths(h.lines.allow)
    requires Signature(g) == Signature(h)
    ensures g.lines == h.lines && g.crawlDelay == h.crawlDelay
  {
    SignatureParts(g, h);
    LinesTextSeparates(g.lines, h.lines);
  }
}
