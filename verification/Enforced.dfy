/** "The published file is the enforced answer": from configuration through text to the crawler's verdict. */
module Enforced {
  import opened Text
  import opened Policy
  import opened Config
  import opened Directives
  import opened Probe
  import opened Robots
  import opened Render
  import opened Reader
  import Published
  import Separators
  import Sorting

  // ---------------------------------------------------------------- conditions

  /** What a path must be like to be written as a directive and mean itself. */
  predicate PublishablePath(p: string) {
    Published.Clean(p) && OneLine(p) && Plain(p)
  }

  predicate PublishableAgents(bot: BotConfig) {
    forall a :: a in AgentsFor(bot) ==> '#' !in a && OneLine(a)
  }

  ghost predicate TokenOf(bot: BotConfig, token: string) {
    if bot.isDefault then token == "*"
    else exists u :: u in bot.userAgents && Trim(SPACES, u) != "" && Fold(Trim(SPACES, u)) == Fold(token)
  }

  /** No crawler token belongs to two bots. */
  ghost predicate TokensApart(bots: seq<BotConfig>) {
    forall i, j, token ::
      0 <= i < |bots| && 0 <= j < |bots| && TokenOf(bots[i], token) && TokenOf(bots[j], token) ==> i == j
  }

  ghost predicate Publishable(cfg: Config) {
    && Valid(cfg) && AllWellQuoted(cfg)
    && (forall p :: p in Found(cfg) ==> PublishablePath(p)) && !Separators.Collides(CandidatePaths(cfg))
    && (forall b :: b in cfg.bots ==> PublishableAgents(b))
    && TokensApart(cfg.bots)
    && Published.AllOneLine(cfg.sitemaps)
  }

  // ---------------------------------------------------------------- the groups of the bots

  lemma {:induction false} TokensAreTrimmed(needles: seq<string>)
    ensures forall a :: a in TrimmedTokens(needles) ==> a != "" && Trimmed(BLANKS, a)
  {
    if |needles| > 0 {
      TokensAreTrimmed(needles[..|needles| - 1]);
      TrimTrims(SPACES, needles[|needles| - 1]);
    }
  }

  lemma {:induction false} TokensExactly(needles: seq<string>, a: string)
    ensures a in TrimmedTokens(needles) <==> a != "" && exists u :: u in needles && Trim(SPACES, u) == a
  {
    if |needles| > 0 {
      var front, last := needles[..|needles| - 1], needles[|needles| - 1];
      assert needles == front + [last];
      TokensExactly(front, a);
    }
  }

  lemma StarFoldsAlone(token: string)
    ensures Fold(token) == Fold("*") <==> token == "*"
  {
    if Fold(token) == Fold("*") {
      assert |token| == |Fold(token)| == 1 && FoldChar(token[0]) == Fold(token)[0] == '*';
    }
  }

  /** The tokens a bot's group is named by are its own. */
  lemma TokensAreAgents(bot: BotConfig, token: string)
    ensures TokenOf(bot, token) <==> exists a :: a in AgentsFor(bot) && Fold(a) == Fold(token)
  {
    if bot.isDefault {
      StarFoldsAlone(token);
      assert AgentsFor(bot) == ["*"] && "*" in ["*"];
    } else {
      forall a ensures a in AgentsFor(bot) <==> a != "" && exists u :: u in bot.userAgents && Trim(SPACES, u) == a {
        TokensExactly(bot.userAgents, a);
      }
    }
  }

  lemma AgentsAreClean(bot: BotConfig)
    requires PublishableAgents(bot)
    ensures forall a :: a in AgentsFor(bot) ==> Published.Clean(a) && a != "" && OneLine(a)
  {
    TokensAreTrimmed(bot.userAgents);
  }

  ghost predicate BuiltFrom(cfg: Config, engine: Engine, paths: seq<string>, i: nat, g: Group) {
    i < |cfg.bots| && Build(cfg, engine, cfg.bots[i], paths) == Success(g)
  }

  ghost predicate SomeBotBuilds(cfg: Config, engine: Engine, paths: seq<string>, n: nat, g: Group) {
    exists i :: 0 <= i < n && BuiltFrom(cfg, engine, paths, i, g)
  }

  ghost predicate BotHasGroup(cfg: Config, engine: Engine, paths: seq<string>, i: nat, groups: seq<Group>) {
    exists g :: g in groups && BuiltFrom(cfg, engine, paths, i, g)
  }

  lemma BuildAllStep(cfg: Config, engine: Engine, paths: seq<string>, n: nat)
    requires 0 < n <= |cfg.bots| && BuildAll(cfg, engine, cfg.bots[..n], paths).Success?
    ensures var front := BuildAll(cfg, engine, cfg.bots[..n - 1], paths);
            && front.Success?
            && exists g :: BuiltFrom(cfg, engine, paths, n - 1, g)
                 && BuildAll(cfg, engine, cfg.bots[..n], paths).value
                    == if |g.agents| > 0 then front.value + [g] else front.value
  {
    assert cfg.bots[..n][..n - 1] == cfg.bots[..n - 1];
    var r := Build(cfg, engine, cfg.bots[n - 1], paths);
    assert r.Success?;
    assert BuiltFrom(cfg, engine, paths, n - 1, r.value);
  }

  lemma BuildNamesAgents(cfg: Config, engine: Engine, bot: BotConfig, paths: seq<string>)
    requires Build(cfg, engine, bot, paths).Success?
    ensures Build(cfg, engine, bot, paths).value.agents == AgentsFor(bot)
    ensures Build(cfg, engine, bot, paths).value.wildcard == bot.isDefault
  {
  }

  lemma StillHasGroup(cfg: Config, engine: Engine, paths: seq<string>, i: nat, before: seq<Group>, after: seq<Group>)
    requires BotHasGroup(cfg, engine, paths, i, before) && before <= after
    ensures BotHasGroup(cfg, engine, paths, i, after)
  {
    var k :| 0 <= k < |before| && BuiltFrom(cfg, engine, paths, i, before[k]);
    assert after[k] == before[k] && after[k] in after;
  }

  /** Every bot with agents has its group. */
  lemma {:induction false} BotsHaveGroups(cfg: Config, engine: Engine, paths: seq<string>, n: nat, groups: seq<Group>)
    requires n <= |cfg.bots| && BuildAll(cfg, engine, cfg.bots[..n], paths) == Success(groups)
    ensures forall i :: 0 <= i < n && |AgentsFor(cfg.bots[i])| > 0 ==> BotHasGroup(cfg, engine, paths, i, groups)
  {
    if n > 0 {
      BuildAllStep(cfg, engine, paths, n);
      var before := BuildAll(cfg, engine, cfg.bots[..n - 1], paths).value;
      var g :| BuiltFrom(cfg, engine, paths, n - 1, g) && groups == if |g.agents| > 0 then before + [g] else before;
      BotsHaveGroups(cfg, engine, paths, n - 1, before);
      BuildNamesAgents(cfg, engine, cfg.bots[n - 1], paths);
      forall i | 0 <= i < n && |AgentsFor(cfg.bots[i])| > 0 ensures BotHasGroup(cfg, engine, paths, i, groups) {
        if i < n - 1 {
          StillHasGroup(cfg, engine, paths, i, before, groups);
        } else {
          assert g in groups;
        }
      }
    }
  }

  lemma StillBuilt(cfg: Config, engine: Engine, paths: seq<string>, n: nat, m: nat, g: Group)
    requires SomeBotBuilds(cfg, engine, paths, n, g) && n <= m
    ensures SomeBotBuilds(cfg, engine, paths, m, g)
  {
    var i :| 0 <= i < n && BuiltFrom(cfg, engine, paths, i, g);
  }

  /** Every group is some bot's. */
  lemma {:induction false} GroupsAreBuilt(cfg: Config, engine: Engine, paths: seq<string>, n: nat, groups: seq<Group>)
    requires n <= |cfg.bots| && BuildAll(cfg, engine, cfg.bots[..n], paths) == Success(groups)
    ensures forall g :: g in groups ==> |g.agents| > 0 && SomeBotBuilds(cfg, engine, paths, n, g)
  {
    if n > 0 {
      BuildAllStep(cfg, engine, paths, n);
      var before := BuildAll(cfg, engine, cfg.bots[..n - 1], paths).value;
      var g :| BuiltFrom(cfg, engine, paths, n - 1, g) && groups == if |g.agents| > 0 then before + [g] else before;
      GroupsAreBuilt(cfg, engine, paths, n - 1, before);
      forall x | x in groups ensures |x.agents| > 0 && SomeBotBuilds(cfg, engine, paths, n, x) {
        if x in before {
          StillBuilt(cfg, engine, paths, n - 1, n, x);
        }
      }
    }
  }

  /** The lines of a bot's group are candidates; so is their shape. */
  lemma BuiltGroupShape(cfg: Config, i: nat, g: Group)
    requires BuiltFrom(cfg, NewEngine(cfg), CandidatePaths(cfg), i, g)
    ensures g.agents == AgentsFor(cfg.bots[i]) && g.wildcard == cfg.bots[i].isDefault
    ensures forall p :: p in g.lines.disallow || p in g.lines.allow ==> p in Found(cfg) && Slashed(p)
  {
    var paths := CandidatePaths(cfg);
    CandidatePathsShape(cfg);
    if |g.agents| > 0 {
      ReduceMembers(paths, ProbeAll(cfg, NewEngine(cfg), cfg.bots[i], paths).value.blocked);
    }
  }

  lemma {:induction false} LastWildcardIsLast(groups: seq<Group>)
    ensures match LastWildcard(groups)
            case None => forall g :: g in groups ==> !g.wildcard
            case Some(w) => w in groups && w.wildcard
  {
    if |groups| > 0 {
      LastWildcardIsLast(groups[..|groups| - 1]);
    }
  }

  // ---------------------------------------------------------------- which record a crawler obeys

  lemma NamedAgent(g: Group, token: string)
    ensures Named(Published.RecordOf(g), token) <==> exists a :: a in g.agents && Fold(a) == Fold(token)
  {
    if exists a :: a in g.agents && Fold(a) == Fold(token) {
      var a :| a in g.agents && Fold(a) == Fold(token);
      var i :| 0 <= i < |g.agents| && g.agents[i] == a;
    }
  }

  /** A merged group carries the token only if some member group does. */
  lemma TokenHasBringer(key: Group -> string, m: Group, named: seq<Group>, groups: seq<Group>, token: string)
    returns (g: Group)
    requires Merged(key, named, groups) && m in named && Named(Published.RecordOf(m), token)
    ensures g in groups && !g.wildcard && key(g) == key(m) && Named(Published.RecordOf(g), token)
  {
    NamedAgent(m, token);
    var a :| a in m.agents && Fold(a) == Fold(token);
    assert Brought(key, m, a, groups);
    g :| g in groups && Brings(key, g, m, a);
    NamedAgent(g, token);
  }

  lemma ArrangedMembers(named: seq<Group>, wildcard: Option<Group>)
    ensures var sorted := Sorting.Sort(ByFirstAgent, named);
            && |sorted| == |named| && (forall g :: g in sorted <==> g in named)
            && Arrange(named, wildcard)[..|named|] == sorted
            && |Arrange(named, wildcard)| == |named| + (if wildcard.Some? then 1 else 0)
            && (wildcard.Some? ==> Arrange(named, wildcard)[|named|] == wildcard.value)
  {
    Sorting.SortKeepsMembers(ByFirstAgent, named);
  }

  /** The merged group of a bot carries its token. */
  lemma HousedToken(key: Group -> string, named: seq<Group>, groups: seq<Group>, g: Group, token: string)
    returns (m: Group)
    requires Merged(key, named, groups) && g in groups && !g.wildcard && Named(Published.RecordOf(g), token)
    ensures m in named && key(m) == key(g) && Named(Published.RecordOf(m), token)
  {
    assert Housed(key, g, named);
    m :| m in named && Houses(key, m, g);
    NamedAgent(g, token);
    NamedAgent(m, token);
  }

  /** Where one member alone passes a test, sorting leaves one position that does. */
  lemma SortedHoldsOnce(key: Group -> string, named: seq<Group>, m: Group, test: Group -> bool) returns (k: nat)
    requires Sorting.KeysApart(key, named) && m in named && test(m)
    requires forall x :: x in named && key(x) != key(m) ==> !test(x)
    ensures var sorted := Sorting.Sort(ByFirstAgent, named);
            && k < |sorted| == |named| && sorted[k] == m
            && forall j :: 0 <= j < |sorted| && j != k ==> sorted[j] in named && !test(sorted[j])
  {
    var sorted := Sorting.Sort(ByFirstAgent, named);
    Sorting.SortKeepsMembers(ByFirstAgent, named);
    Sorting.KeysApartPermutes(key, named, sorted);
    assert m in sorted;
    k :| 0 <= k < |sorted| && sorted[k] == m;
    forall j | 0 <= j < |sorted| && j != k ensures sorted[j] in named && !test(sorted[j]) {
      assert sorted[j] in sorted;
    }
  }

  lemma SortedHoldsToken(key: Group -> string, named: seq<Group>, groups: seq<Group>, g: Group, token: string)
    returns (k: nat)
    requires Merged(key, named, groups) && g in groups && !g.wildcard && Named(Published.RecordOf(g), token)
    requires forall x :: x in groups && Named(Published.RecordOf(x), token) ==> x == g
    ensures var sorted := Sorting.Sort(ByFirstAgent, named);
            && k < |sorted| == |named| && sorted[k] in named && key(sorted[k]) == key(g)
            && Named(Published.RecordOf(sorted[k]), token)
            && forall j :: 0 <= j < |sorted| && j != k ==> !Named(Published.RecordOf(sorted[j]), token)
  {
    var m := HousedToken(key, named, groups, g, token);
    var test := (x: Group) => Named(Published.RecordOf(x), token);
    forall x | x in named && key(x) != key(m) ensures !test(x) {
      OtherKeyHasNoToken(key, named, groups, g, token, x);
    }
    k := SortedHoldsOnce(key, named, m, test);
    var sorted := Sorting.Sort(ByFirstAgent, named);
    forall j | 0 <= j < |sorted| && j != k ensures !Named(Published.RecordOf(sorted[j]), token) {
      assert !test(sorted[j]);
    }
  }

  lemma OtherKeyHasNoToken(key: Group -> string, named: seq<Group>, groups: seq<Group>, g: Group, token: string,
                           m: Group)
    requires Merged(key, named, groups) && m in named && key(m) != key(g)
    requires forall x :: x in groups && Named(Published.RecordOf(x), token) ==> x == g
    ensures !Named(Published.RecordOf(m), token)
  {
    if Named(Published.RecordOf(m), token) {
      var x := TokenHasBringer(key, m, named, groups, token);
    }
  }

  /** One token, one group: what a named bot's crawler obeys. */
  lemma NamedTokenObeys(key: Group -> string, named: seq<Group>, wildcard: Option<Group>, groups: seq<Group>,
                        g: Group, token: string)
    returns (m: Group)
    requires Merged(key, named, groups)
    requires g in groups && !g.wildcard && Named(Published.RecordOf(g), token)
    requires forall x :: x in groups && Named(Published.RecordOf(x), token) ==> x == g
    requires wildcard.Some? ==> wildcard.value in groups && wildcard.value.wildcard
    ensures m in named && key(m) == key(g)
    ensures Obeyed(Published.Records(Arrange(named, wildcard)), token) == Published.RecordOf(m)
  {
    var all := Arrange(named, wildcard);
    var records := Published.Records(all);
    ArrangedMembers(named, wildcard);
    var k := SortedHoldsToken(key, named, groups, g, token);
    m := Sorting.Sort(ByFirstAgent, named)[k];
    assert all[k] == m && records[k] == Published.RecordOf(m);
    forall j | 0 <= j < |records| && j != k ensures !Named(records[j], token) {
      if j < |named| {
        assert all[j] == Sorting.Sort(ByFirstAgent, named)[j];
      } else {
        assert all[j] == wildcard.value;
      }
    }
    OnlyOneNamed(records, token, k);
  }

  /** The group for everyone else. */
  lemma WildcardObeyed(key: Group -> string, named: seq<Group>, w: Group, groups: seq<Group>, token: string)
    requires Merged(key, named, groups) && w in groups && w.wildcard && w.agents == ["*"]
    requires forall x :: x in groups && x != w ==>
               !Named(Published.RecordOf(x), token) && !Named(Published.RecordOf(x), "*")
    ensures Obeyed(Published.Records(Arrange(named, Some(w))), token) == Published.RecordOf(w)
  {
    var all := Arrange(named, Some(w));
    var records := Published.Records(all);
    ArrangedMembers(named, Some(w));
    var k := |named|;
    NamedAgent(w, "*");
    assert w.agents[0] in w.agents;
    assert records[k] == Published.RecordOf(w);
    forall j | 0 <= j < |records| && j != k ensures !Named(records[j], token) && !Named(records[j], "*") {
      var m := Sorting.Sort(ByFirstAgent, named)[j];
      assert all[j] == m && m in named;
      if Named(records[j], token) {
        var x := TokenHasBringer(key, m, named, groups, token);
      }
      if Named(records[j], "*") {
        var x := TokenHasBringer(key, m, named, groups, "*");
      }
    }
    if Named(records[k], token) {
      OnlyOneNamed(records, token, k);
    } else {
      OnlyOneNamed(records, "*", k);
    }
  }

  // ---------------------------------------------------------------- what each crawler is told

  /** The bot a crawler's token stands for: the one naming it, else the default bot. */
  ghost predicate Addresses(cfg: Config, i: nat, token: string) {
    i < |cfg.bots|
    && (TokenOf(cfg.bots[i], token)
        || (cfg.bots[i].isDefault && forall j :: 0 <= j < |cfg.bots| ==> !TokenOf(cfg.bots[j], token)))
  }

  /** The groups generation works with, and that they come from the bots. */
  ghost predicate GroupsOf(cfg: Config, groups: seq<Group>) {
    BuildAll(cfg, NewEngine(cfg), cfg.bots, CandidatePaths(cfg)) == Success(groups)
  }

  ghost predicate FromBot(cfg: Config, i: nat, g: Group) {
    && i < |cfg.bots| && BuiltFrom(cfg, NewEngine(cfg), CandidatePaths(cfg), i, g)
    && g.agents == AgentsFor(cfg.bots[i]) && |g.agents| > 0 && g.wildcard == cfg.bots[i].isDefault
    && (forall p :: p in g.lines.disallow || p in g.lines.allow ==> p in Found(cfg) && Slashed(p))
  }

  ghost predicate FromSomeBot(cfg: Config, g: Group) { exists i :: 0 <= i < |cfg.bots| && FromBot(cfg, i, g) }

  lemma GroupsComeFromBots(cfg: Config, groups: seq<Group>)
    requires GroupsOf(cfg, groups)
    ensures forall g :: g in groups ==> FromSomeBot(cfg, g)
    ensures forall i :: 0 <= i < |cfg.bots| && |AgentsFor(cfg.bots[i])| > 0 ==>
              exists g :: g in groups && FromBot(cfg, i, g)
  {
    assert cfg.bots[..|cfg.bots|] == cfg.bots;
    GroupsHaveBots(cfg, groups);
    forall i | 0 <= i < |cfg.bots| && |AgentsFor(cfg.bots[i])| > 0
      ensures exists g :: g in groups && FromBot(cfg, i, g)
    {
      var g := GroupOfBot(cfg, groups, i);
    }
  }

  lemma GroupsHaveBots(cfg: Config, groups: seq<Group>)
    requires GroupsOf(cfg, groups)
    ensures forall g :: g in groups ==> FromSomeBot(cfg, g)
  {
    var engine, paths, n := NewEngine(cfg), CandidatePaths(cfg), |cfg.bots|;
    assert cfg.bots[..n] == cfg.bots;
    GroupsAreBuilt(cfg, engine, paths, n, groups);
    forall g | g in groups ensures FromSomeBot(cfg, g) {
      assert SomeBotBuilds(cfg, engine, paths, n, g);
      var i :| 0 <= i < n && BuiltFrom(cfg, engine, paths, i, g);
      BuiltGroupShape(cfg, i, g);
      assert FromBot(cfg, i, g);
    }
  }

  lemma GroupOfBot(cfg: Config, groups: seq<Group>, i: nat) returns (g: Group)
    requires GroupsOf(cfg, groups) && i < |cfg.bots| && |AgentsFor(cfg.bots[i])| > 0
    ensures g in groups && FromBot(cfg, i, g)
  {
    assert cfg.bots[..|cfg.bots|] == cfg.bots;
    BotsHaveGroups(cfg, NewEngine(cfg), CandidatePaths(cfg), |cfg.bots|, groups);
    g :| g in groups && BuiltFrom(cfg, NewEngine(cfg), CandidatePaths(cfg), i, g);
    BuiltGroupShape(cfg, i, g);
  }

  ghost predicate FoundPaths(cfg: Config, paths: seq<string>) {
    forall p :: p in paths ==> p in Found(cfg) && Slashed(p)
  }

  lemma FoundPathsArePublishable(cfg: Config, paths: seq<string>)
    requires Publishable(cfg) && FoundPaths(cfg, paths)
    ensures forall p :: p in paths ==> PublishablePath(p) && p != ""
  {
    forall p | p in paths ensures PublishablePath(p) && p != "" {
      assert p in Found(cfg) && Slashed(p);
    }
  }

  lemma GroupIsReadable(cfg: Config, g: Group)
    requires Publishable(cfg) && FromSomeBot(cfg, g)
    ensures Published.Readable(g)
    ensures forall p :: p in g.lines.disallow || p in g.lines.allow ==> Plain(p)
  {
    var i :| 0 <= i < |cfg.bots| && FromBot(cfg, i, g);
    assert PublishableAgents(cfg.bots[i]);
    AgentsAreClean(cfg.bots[i]);
    FoundPathsArePublishable(cfg, g.lines.disallow);
    FoundPathsArePublishable(cfg, g.lines.allow);
  }

  lemma MergedIsReadable(cfg: Config, key: Group -> string, named: seq<Group>, groups: seq<Group>, m: Group)
    requires Publishable(cfg) && Merged(key, named, groups) && m in named
    requires forall g :: g in groups ==> FromSomeBot(cfg, g)
    ensures Published.Readable(m)
  {
    assert Represented(m, groups);
    var g :| g in groups && Represents(g, m);
    GroupIsReadable(cfg, g);
    forall a | a in m.agents ensures Published.Clean(a) && a != "" && OneLine(a) {
      assert Brought(key, m, a, groups);
      var x :| x in groups && Brings(key, x, m, a);
      GroupIsReadable(cfg, x);
    }
  }

  lemma ArrangedAt(named: seq<Group>, wildcard: Option<Group>, g: Group)
    requires g in Arrange(named, wildcard)
    ensures g in named || wildcard == Some(g)
  {
    Sorting.SortKeepsMembers(ByFirstAgent, named);
  }

  lemma AllReadable(cfg: Config, groups: seq<Group>)
    requires Publishable(cfg) && GroupsOf(cfg, groups)
    ensures forall g :: g in Merge(groups) ==> Published.Readable(g)
  {
    var key, wildcard := Signature, LastWildcard(groups);
    var named := MergeNamed(key, groups);
    GroupsComeFromBots(cfg, groups);
    SignatureIgnoresAgents();
    MergeNamedMerges(key, groups);
    LastWildcardIsLast(groups);
    forall g | g in Merge(groups) ensures Published.Readable(g) {
      ArrangedAt(named, wildcard, g);
      if g in named {
        MergedIsReadable(cfg, key, named, groups, g);
      } else {
        GroupIsReadable(cfg, g);
      }
    }
  }

  lemma FileReadsAsGroups(cfg: Config, text: string) returns (groups: seq<Group>)
    requires Publishable(cfg) && Generated(cfg) == Success(text)
    ensures GroupsOf(cfg, groups) && Read(text) == Published.Records(Merge(groups))
  {
    groups := BuildAll(cfg, NewEngine(cfg), cfg.bots, CandidatePaths(cfg)).value;
    AllReadable(cfg, groups);
    Published.ReadInvertsRender(cfg, Merge(groups));
  }

  lemma GroupTokens(cfg: Config, i: nat, g: Group, token: string)
    requires FromBot(cfg, i, g)
    ensures Named(Published.RecordOf(g), token) <==> TokenOf(cfg.bots[i], token)
  {
    TokensAreAgents(cfg.bots[i], token);
    NamedAgent(g, token);
  }

  /** With tokens apart, a token in a bot's group is in no other bot's group. */
  lemma TokenInOneGroup(cfg: Config, groups: seq<Group>, i: nat, g: Group, token: string)
    requires TokensApart(cfg.bots) && FromBot(cfg, i, g) && TokenOf(cfg.bots[i], token)
    requires forall x :: x in groups ==> FromSomeBot(cfg, x)
    ensures forall x :: x in groups && Named(Published.RecordOf(x), token) ==> x == g
  {
    forall x | x in groups && Named(Published.RecordOf(x), token) ensures x == g {
      var j :| 0 <= j < |cfg.bots| && FromBot(cfg, j, x);
      GroupTokens(cfg, j, x, token);
    }
  }

  lemma LinesAreReduced(cfg: Config, g: Group) returns (blocked: map<string, bool>)
    requires FromSomeBot(cfg, g)
    ensures g.lines == Reduce(CandidatePaths(cfg), blocked)
  {
    var i :| 0 <= i < |cfg.bots| && FromBot(cfg, i, g);
    blocked := ProbeAll(cfg, NewEngine(cfg), cfg.bots[i], CandidatePaths(cfg)).value.blocked;
  }

  /** Where no verdicts collide, a merged group has the directives of every group of its signature. */
  lemma MergedSpeaksForMember(cfg: Config, named: seq<Group>, groups: seq<Group>, m: Group, g: Group)
    requires !Separators.Collides(CandidatePaths(cfg)) && forall x :: x in groups ==> FromSomeBot(cfg, x)
    requires Merged(Signature, named, groups) && m in named && g in groups && Signature(m) == Signature(g)
    ensures m.lines == g.lines && m.crawlDelay == g.crawlDelay
  {
    assert Represented(m, groups);
    var x :| x in groups && Represents(x, m);
    var a := LinesAreReduced(cfg, x);
    var b := LinesAreReduced(cfg, g);
    SignatureParts(m, g);
  }

  lemma NamedBotObeyed(cfg: Config, groups: seq<Group>, i: nat, g: Group, token: string)
    requires Publishable(cfg) && GroupsOf(cfg, groups) && g in groups && FromBot(cfg, i, g)
    requires !cfg.bots[i].isDefault && TokenOf(cfg.bots[i], token)
    ensures var r := Obeyed(Published.Records(Merge(groups)), token); r.lines == g.lines && r.delay == g.crawlDelay
  {
    var key := Signature;
    var named := MergeNamed(key, groups);
    GroupsComeFromBots(cfg, groups);
    SignatureIgnoresAgents();
    MergeNamedMerges(key, groups);
    LastWildcardIsLast(groups);
    GroupTokens(cfg, i, g, token);
    TokenInOneGroup(cfg, groups, i, g, token);
    var m := NamedTokenObeys(key, named, LastWildcard(groups), groups, g, token);
    MergedSpeaksForMember(cfg, named, groups, m, g);
  }

  lemma OneGroupPerBot(cfg: Config, i: nat, g: Group, h: Group)
    requires FromBot(cfg, i, g) && FromBot(cfg, i, h)
    ensures g == h
  {
  }

  lemma OneDefaultBot(cfg: Config, i: nat, j: nat)
    requires Valid(cfg) && i < |cfg.bots| && j < |cfg.bots| && cfg.bots[i].isDefault && cfg.bots[j].isDefault
    ensures i == j
  {
  }

  lemma DefaultGroupIsWildcard(cfg: Config, groups: seq<Group>, i: nat, g: Group)
    requires Valid(cfg) && g in groups && FromBot(cfg, i, g) && cfg.bots[i].isDefault
    requires forall x :: x in groups ==> FromSomeBot(cfg, x)
    ensures LastWildcard(groups) == Some(g) && g.agents == ["*"] && TokenOf(cfg.bots[i], "*")
  {
    LastWildcardIsLast(groups);
    assert g.wildcard;
    var w := LastWildcard(groups).value;
    assert FromSomeBot(cfg, w);
    var j :| 0 <= j < |cfg.bots| && FromBot(cfg, j, w);
    OneDefaultBot(cfg, i, j);
    OneGroupPerBot(cfg, i, g, w);
    assert "*" in AgentsFor(cfg.bots[i]);
  }

  lemma OthersLackToken(cfg: Config, groups: seq<Group>, i: nat, g: Group, token: string)
    requires TokensApart(cfg.bots) && FromBot(cfg, i, g) && Addresses(cfg, i, token)
    requires forall x :: x in groups ==> FromSomeBot(cfg, x)
    ensures forall x :: x in groups && x != g ==> !Named(Published.RecordOf(x), token)
  {
    forall x | x in groups && x != g ensures !Named(Published.RecordOf(x), token) {
      var k :| 0 <= k < |cfg.bots| && FromBot(cfg, k, x);
      GroupTokens(cfg, k, x, token);
    }
  }

  lemma DefaultBotObeyed(cfg: Config, groups: seq<Group>, i: nat, g: Group, token: string)
    requires Publishable(cfg) && GroupsOf(cfg, groups) && g in groups && FromBot(cfg, i, g)
    requires cfg.bots[i].isDefault && Addresses(cfg, i, token)
    ensures Obeyed(Published.Records(Merge(groups)), token) == Published.RecordOf(g)
  {
    var key := Signature;
    GroupsComeFromBots(cfg, groups);
    SignatureIgnoresAgents();
    MergeNamedMerges(key, groups);
    DefaultGroupIsWildcard(cfg, groups, i, g);
    OthersLackToken(cfg, groups, i, g, token);
    OthersLackToken(cfg, groups, i, g, "*");
    WildcardObeyed(key, MergeNamed(key, groups), g, groups, token);
  }

  lemma AddressedHasAgents(cfg: Config, i: nat, token: string)
    requires Addresses(cfg, i, token)
    ensures |AgentsFor(cfg.bots[i])| > 0
  {
    TokensAreAgents(cfg.bots[i], token);
  }

  /** Reading the file gives every crawler exactly the directives built for the bot it stands for. */
  lemma EveryTokenGetsItsGroup(cfg: Config, text: string, i: nat, token: string) returns (g: Group)
    requires Publishable(cfg) && Generated(cfg) == Success(text) && Addresses(cfg, i, token)
    ensures FromBot(cfg, i, g) && FromSomeBot(cfg, g)
    ensures Obeyed(Read(text), token).lines == g.lines
    ensures Obeyed(Read(text), token).delay == g.crawlDelay
  {
    var groups := FileReadsAsGroups(cfg, text);
    GroupsComeFromBots(cfg, groups);
    AddressedHasAgents(cfg, i, token);
    g :| g in groups && FromBot(cfg, i, g);
    if cfg.bots[i].isDefault {
      DefaultBotObeyed(cfg, groups, i, g, token);
    } else {
      NamedBotObeyed(cfg, groups, i, g, token);
    }
  }

  /** The engine's verdict on a request is what the lines say of its path, and the delay covers its limit. */
  ghost predicate SaysSo(cfg: Config, probed: Probed, input: Input) {
    match Decide(NewEngine(cfg), input)
    case Failure(_) => false
    case Success(d) =>
      && (Blocks(Reduce(CandidatePaths(cfg), probed.blocked), input.request.path) <==> d.action.Block?)
      && DelayOf(d.action) <= probed.delay
  }

  /** The answers at the candidates say what the engine decides everywhere. */
  lemma ProbesSpeakForEngine(cfg: Config, bot: BotConfig, probed: Probed, input: Input)
    requires AllWellQuoted(cfg) && KeysReachable(cfg.sets)
    requires ProbeAll(cfg, NewEngine(cfg), bot, CandidatePaths(cfg)) == Success(probed) && SpokenFor(cfg, bot, input)
    ensures SaysSo(cfg, probed, input)
  {
    CandidatePathsShape(cfg);
    CoverDecidesAlike(cfg, bot, input);
    ProbeAllAnswers(cfg, NewEngine(cfg), bot, CandidatePaths(cfg));
    LinesGiveCoverVerdict(CandidatePaths(cfg), probed.blocked, input.request.path);
  }

  lemma BuiltGroupSpeaksForEngine(cfg: Config, i: nat, g: Group, input: Input)
    requires AllWellQuoted(cfg) && KeysReachable(cfg.sets)
    requires FromBot(cfg, i, g) && SpokenFor(cfg, cfg.bots[i], input)
    ensures match Decide(NewEngine(cfg), input)
            case Failure(_) => false
            case Success(d) =>
              (Blocks(g.lines, input.request.path) <==> d.action.Block?) && DelayOf(d.action) <= g.crawlDelay
  {
    var probed := ProbeAll(cfg, NewEngine(cfg), cfg.bots[i], CandidatePaths(cfg)).value;
    ProbesSpeakForEngine(cfg, cfg.bots[i], probed, input);
  }

  /** The claim, for every crawler and every request the generator speaks for: the file disallows the path exactly
      when the engine blocks the request (the path of the file itself aside), no limit is slower than
      the advertised delay, and the engine does not fail. */
  lemma PublishedFileIsTheEnforcedAnswer(cfg: Config, text: string, i: nat, token: string, input: Input)
    requires Publishable(cfg) && KeysReachable(cfg.sets)
    requires Generated(cfg) == Success(text)
    requires Addresses(cfg, i, token) && SpokenFor(cfg, cfg.bots[i], input)
    ensures var r, path := Obeyed(Read(text), token), input.request.path;
            match Decide(NewEngine(cfg), input)
            case Failure(_) => false
            case Success(d) =>
              && (Disallowed(r, path) <==> path != "/robots.txt" && d.action.Block?)
              && DelayOf(d.action) <= r.delay
  {
    var g := EveryTokenGetsItsGroup(cfg, text, i, token);
    GroupIsReadable(cfg, g);
    BuiltGroupSpeaksForEngine(cfg, i, g, input);
    PlainLinesReadAsBlocks(Obeyed(Read(text), token), input.request.path);
  }

  /** Under a policy without a warning, without a rule on the user agent and with prefixes of the path only, for every
      request of the crawler's. */
  lemma UnwarnedFileIsTheEnforcedAnswer(cfg: Config, text: string, i: nat, token: string, input: Input)
    requires Publishable(cfg) && KeysReachable(cfg.sets)
    requires NoWarnings(cfg) && NoUserAgentRules(cfg) && PrefixRulesOnly(cfg)
    requires Generated(cfg) == Success(text)
    requires Addresses(cfg, i, token) && Honest(cfg, cfg.bots[i], input)
    ensures var r, path := Obeyed(Read(text), token), input.request.path;
            match Decide(NewEngine(cfg), input)
            case Failure(_) => false
            case Success(d) =>
              && (Disallowed(r, path) <==> path != "/robots.txt" && d.action.Block?)
              && DelayOf(d.action) <= r.delay
  {
    UnwarnedSpeakForAll(cfg, cfg.bots[i], input);
    PublishedFileIsTheEnforcedAnswer(cfg, text, i, token, input);
  }
}
