/** Two crawlers refused under two lists of paths: when the file tells the second one the first one's list. */
module Misled {
  import opened Text
  import opened Policy
  import opened Config
  import opened Directives
  import opened Probe
  import opened Robots
  import opened Render
  import opened Reader
  import opened Separators
  import Divergence
  import Enforced
  import Published
  import Sorting

  // ---------------------------------------------------------------- the site

  function Crawler(id: string): BotConfig { BotConfig(id, id, "crawler", "", [id], false, NoVerify) }

  function Texts(paths: seq<string>): SetValue { Items(seq(|paths|, i requires 0 <= i < |paths| => Item(paths[i]))) }

  /** The bot asks for a path that starts with one in its own set. */
  function InItsSet(id: string): Expr { And(Ask(OfBot(BotId), Equals, Literal(id, '"')), SetCovers(id)) }

  function Lists(ps: seq<string>, qs: seq<string>): map<string, SetValue> { map["a" := Texts(ps), "b" := Texts(qs)] }

  const BOTS := [Crawler("a"), Crawler("b"), Divergence.ANYBODY]

  function NoRules(sets: map<string, SetValue>): Config {
    Config("", Enforce, FailAllow, Allow, true, [], BOTS, sets, [])
  }

  /** Two crawlers and everybody else, of which the crawlers are refused what is in their sets. */
  function Site(ps: seq<string>, qs: seq<string>): Config {
    Divergence.Single(NoRules(Lists(ps, qs)), Or(InItsSet("a"), InItsSet("b")))
  }

  function ListFor(ps: seq<string>, qs: seq<string>, bot: BotConfig): seq<string> {
    if bot.id == "a" then ps else if bot.id == "b" then qs else []
  }

  /** Paths that can be written, none under another, in increasing order. */
  ghost predicate Listable(paths: seq<string>) {
    Apart(paths) && AllSlashed(paths) && forall p :: p in paths ==> Enforced.PublishablePath(p)
  }

  // ---------------------------------------------------------------- what its rule decides

  lemma TextsCover(sets: map<string, SetValue>, id: string, paths: seq<string>, input: Input)
    requires id in sets && sets[id] == Texts(paths)
    ensures Eval(SetCovers(id), sets, input) == Bool(StartsOne(paths, input.request.path))
  {
    var elements := Ranged(sets[id]).value;
    assert |elements| == |paths| && forall i :: 0 <= i < |paths| ==> elements[i] == Some(paths[i]);
    if i :| 0 <= i < |paths| && paths[i] <= input.request.path {
      assert elements[i].value <= input.request.path;
    }
  }

  lemma InItsSetHolds(sets: map<string, SetValue>, id: string, paths: seq<string>, input: Input)
    requires id in sets && sets[id] == Texts(paths)
    ensures Eval(InItsSet(id), sets, input) == Bool(input.bot.id == id && StartsOne(paths, input.request.path))
  {
    TextsCover(sets, id, paths, input);
  }

  lemma RuleHolds(ps: seq<string>, qs: seq<string>, bot: BotConfig, input: Input)
    requires input.bot.id == bot.id
    ensures Eval(Or(InItsSet("a"), InItsSet("b")), Lists(ps, qs), input)
         == Bool(StartsOne(ListFor(ps, qs, bot), input.request.path))
  {
    InItsSetHolds(Lists(ps, qs), "a", ps, input);
    InItsSetHolds(Lists(ps, qs), "b", qs, input);
  }

  lemma OneRuleDecides(rule: Rule, sets: map<string, SetValue>, input: Input, b: bool)
    requires Eval(rule.when, sets, input) == Bool(b)
    ensures Decide(Engine(Compile([rule]), sets, Allow), input)
         == Success(if b then Decision(rule.id, rule.action) else Decision("runtime.default_action", Allow))
  {
    var engine := Engine([rule], sets, Allow);
    assert Compile([rule]) == [rule];
    assert [rule][1..] == [];
    assert Decide(engine.(rules := []), input) == Success(DefaultDecision(engine.(rules := [])));
  }

  /** Each crawler is refused what its own list starts, and nobody is slowed down. */
  lemma SiteDecides(ps: seq<string>, qs: seq<string>, bot: BotConfig, input: Input) returns (d: Decision)
    requires input.bot.id == bot.id
    ensures Decide(NewEngine(Site(ps, qs)), input) == Success(d) && DelayOf(d.action) == 0
    ensures d.action.Block? <==> StartsOne(ListFor(ps, qs, bot), input.request.path)
  {
    RuleHolds(ps, qs, bot, input);
    OneRuleDecides(Site(ps, qs).rules[0], Lists(ps, qs), input, StartsOne(ListFor(ps, qs, bot), input.request.path));
    d := Decide(NewEngine(Site(ps, qs)), input).value;
  }

  // ---------------------------------------------------------------- its groups

  lemma {:induction false} TextsHold(items: seq<SetValue>, p: string)
    requires Item(p) in items && Slashed(p)
    ensures p in ListPaths(items)
  {
    var i :| 0 <= i < |items| && items[i] == Item(p);
    ListPathsHold(items, i);
  }

  lemma InSetIsFound(cfg: Config, id: string, paths: seq<string>, p: string)
    requires id in cfg.sets && cfg.sets[id] == Texts(paths) && p in paths && Slashed(p)
    ensures p in Found(cfg)
  {
    var i :| 0 <= i < |paths| && paths[i] == p;
    assert cfg.sets[id].items[i] == Item(p);
    TextsHold(cfg.sets[id].items, p);
    assert p in SetPaths(cfg.sets[id]);
  }

  lemma SetIsCandidate(cfg: Config, id: string, paths: seq<string>)
    requires id in cfg.sets && cfg.sets[id] == Texts(paths) && AllSlashed(paths)
    ensures forall p :: p in paths ==> p in CandidatePaths(cfg)
  {
    CandidatePathsShape(cfg);
    forall p | p in paths ensures p in Found(cfg) {
      InSetIsFound(cfg, id, paths, p);
    }
  }

  lemma ListedAreCandidates(ps: seq<string>, qs: seq<string>, bot: BotConfig)
    requires AllSlashed(ps) && AllSlashed(qs)
    ensures forall p :: p in ListFor(ps, qs, bot) ==> p in CandidatePaths(Site(ps, qs))
  {
    SetIsCandidate(Site(ps, qs), "a", ps);
    SetIsCandidate(Site(ps, qs), "b", qs);
  }

  ghost predicate RefusesAt(cfg: Config, bot: BotConfig, qs: seq<string>, path: string) {
    var r := Decide(NewEngine(cfg), ProbeInput(cfg, bot, path));
    r.Success? && DelayOf(r.value.action) == 0 && (r.value.action.Block? <==> StartsOne(qs, path))
  }

  lemma RefusalProbes(cfg: Config, bot: BotConfig, qs: seq<string>, paths: seq<string>) returns (probed: Probed)
    requires forall path :: RefusesAt(cfg, bot, qs, path)
    ensures ProbeAll(cfg, NewEngine(cfg), bot, paths) == Success(probed) && probed.delay == 0
    ensures forall p :: p in paths ==> (Denied(probed.blocked, p) <==> StartsOne(qs, p))
  {
    ProbeAllAnswers(cfg, NewEngine(cfg), bot, paths);
    forall p ensures
      var r := Decide(NewEngine(cfg), ProbeInput(cfg, bot, p));
      r.Success? && DelayOf(r.value.action) == 0 && (r.value.action.Block? <==> StartsOne(qs, p))
    {
      assert RefusesAt(cfg, bot, qs, p);
    }
    probed := ProbeAll(cfg, NewEngine(cfg), bot, paths).value;
  }

  /** The group of a bot that is refused what some candidates start. */
  lemma RefusalBuilds(cfg: Config, bot: BotConfig, qs: seq<string>)
    requires forall path :: RefusesAt(cfg, bot, qs, path)
    requires Apart(qs) && (forall q :: q in qs ==> q in CandidatePaths(cfg)) && |AgentsFor(bot)| > 0
    ensures Build(cfg, NewEngine(cfg), bot, CandidatePaths(cfg))
         == Success(Group(AgentsFor(bot), Lines(qs, []), 0, bot.isDefault))
  {
    CandidatePathsShape(cfg);
    var probed := RefusalProbes(cfg, bot, qs, CandidatePaths(cfg));
    StartedLines(CandidatePaths(cfg), qs, probed.blocked);
  }

  function GroupFor(ps: seq<string>, qs: seq<string>, bot: BotConfig, agents: seq<string>): Group {
    Group(agents, Lines(ListFor(ps, qs, bot), []), 0, bot.isDefault)
  }

  lemma NoneAreApart()
    ensures Listable([])
  {
  }

  /** The group of a bot disallows its list. */
  lemma SiteBuilds(ps: seq<string>, qs: seq<string>, bot: BotConfig)
    requires Listable(ps) && Listable(qs) && |AgentsFor(bot)| > 0
    ensures Build(Site(ps, qs), NewEngine(Site(ps, qs)), bot, CandidatePaths(Site(ps, qs)))
         == Success(GroupFor(ps, qs, bot, AgentsFor(bot)))
  {
    ListedAreCandidates(ps, qs, bot);
    NoneAreApart();
    forall path ensures RefusesAt(Site(ps, qs), bot, ListFor(ps, qs, bot), path) {
      var d := SiteDecides(ps, qs, bot, ProbeInput(Site(ps, qs), bot, path));
    }
    RefusalBuilds(Site(ps, qs), bot, ListFor(ps, qs, bot));
  }

  lemma LetterIsToken(c: char)
    requires c !in SPACES
    ensures Trim(SPACES, [c]) == [c] && AgentsFor(Crawler([c])) == [[c]]
  {
    assert TrimmedTokens([]) == [];
    assert [[c]][..0] == [];
  }

  ghost predicate BuildsTo(cfg: Config, engine: Engine, paths: seq<string>, bot: BotConfig, g: Group) {
    Build(cfg, engine, bot, paths) == Success(g) && |g.agents| > 0
  }

  lemma BuildsOneMore(cfg: Config, engine: Engine, paths: seq<string>, bots: seq<BotConfig>, bot: BotConfig,
                      groups: seq<Group>, g: Group)
    requires BuildAll(cfg, engine, bots, paths) == Success(groups) && BuildsTo(cfg, engine, paths, bot, g)
    ensures BuildAll(cfg, engine, bots + [bot], paths) == Success(groups + [g])
  {
    assert (bots + [bot])[..|bots|] == bots;
  }

  lemma {:induction false} EachBuilds(cfg: Config, engine: Engine, paths: seq<string>, bots: seq<BotConfig>,
                                      groups: seq<Group>)
    requires |bots| == |groups| && forall i :: 0 <= i < |bots| ==> BuildsTo(cfg, engine, paths, bots[i], groups[i])
    ensures BuildAll(cfg, engine, bots, paths) == Success(groups)
  {
    if |bots| > 0 {
      var n := |bots| - 1;
      EachBuilds(cfg, engine, paths, bots[..n], groups[..n]);
      BuildsOneMore(cfg, engine, paths, bots[..n], bots[n], groups[..n], groups[n]);
      LastRejoins(bots);
      LastRejoins(groups);
    }
  }

  lemma LastRejoins<T>(s: seq<T>)
    requires |s| > 0
    ensures s[..|s| - 1] + [s[|s| - 1]] == s
  {
  }

  lemma MergesOneMore(key: Group -> string, groups: seq<Group>, g: Group)
    ensures MergeNamed(key, groups + [g]) == Enter(key, MergeNamed(key, groups), g)
  {
    assert (groups + [g])[..|groups|] == groups;
  }

  lemma EnterNone(key: Group -> string, g: Group)
    requires !g.wildcard
    ensures Enter(key, [], g) == [g]
  {
  }

  lemma FindInOne(key: Group -> string, g: Group, k: string)
    ensures FindKey(key, [g], k) == if key(g) == k then 0 else -1
  {
    var at := FindKey(key, [g], k);
    assert at == 0 || at == -1;
    assert [g][0] == g;
  }

  lemma EnterOne(key: Group -> string, g: Group, h: Group)
    requires !h.wildcard
    ensures Enter(key, [g], h) == if key(g) == key(h) then [g.(agents := g.agents + h.agents)] else [g, h]
  {
    FindInOne(key, g, key(h));
  }

  /** Two named groups become one if their keys agree, and stay two if not. */
  lemma TwoMerge(key: Group -> string, g: Group, h: Group, w: Group)
    requires !g.wildcard && !h.wildcard && w.wildcard
    ensures MergeNamed(key, [g] + [h] + [w]) == Enter(key, [g], h)
  {
    MergesOneMore(key, [g] + [h], w);
    MergesOneMore(key, [g], h);
    MergesOneMore(key, [], g);
    EnterNone(key, g);
    assert [] + [g] == [g];
  }

  lemma MergeIsArranged(g: Group, h: Group, w: Group)
    requires !g.wildcard && !h.wildcard && w.wildcard
    ensures Merge([g] + [h] + [w]) == Sorting.Sort(ByFirstAgent, Enter(Signature, [g], h)) + [w]
  {
    TwoMerge(Signature, g, h, w);
    assert LastWildcard([g] + [h] + [w]) == Some(w);
  }

  lemma ThreeMerge(g: Group, h: Group, w: Group)
    requires !g.wildcard && !h.wildcard && w.wildcard && !ByFirstAgent(h, g)
    ensures Merge([g, h, w])
         == if Signature(g) == Signature(h) then [g.(agents := g.agents + h.agents), w] else [g, h, w]
  {
    MergeIsArranged(g, h, w);
    assert [g] + [h] + [w] == [g, h, w];
    EnterOne(Signature, g, h);
    if Signature(g) == Signature(h) {
      OneSorts(g.(agents := g.agents + h.agents));
    } else {
      TwoSort(g, h);
    }
  }

  lemma OneSorts(g: Group)
    ensures Sorting.Sort(ByFirstAgent, [g]) == [g]
  {
    assert [g][..0] == [];
    assert Sorting.Sort(ByFirstAgent, []) == [];
  }

  lemma TwoSort(g: Group, h: Group)
    requires !ByFirstAgent(h, g)
    ensures Sorting.Sort(ByFirstAgent, [g, h]) == [g, h]
  {
    assert [g, h][..1] == [g];
    OneSorts(g);
  }

  // ---------------------------------------------------------------- its file

  function Told(text: string, token: string): Record { Obeyed(Read(text), token) }

  function GroupA(ps: seq<string>): Group { Group(["a"], Lines(ps, []), 0, false) }

  function GroupB(qs: seq<string>): Group { Group(["b"], Lines(qs, []), 0, false) }

  const REST := Group(["*"], Lines([], []), 0, true)

  function BotGroups(ps: seq<string>, qs: seq<string>): seq<Group> { [GroupA(ps), GroupB(qs), REST] }

  function SiteGroups(ps: seq<string>, qs: seq<string>): seq<Group> {
    if LinesText(Lines(ps, [])) == LinesText(Lines(qs, [])) then [GroupA(ps).(agents := ["a", "b"]), REST]
    else [GroupA(ps), GroupB(qs), REST]
  }

  lemma SiteMerges(ps: seq<string>, qs: seq<string>)
    ensures Merge(BotGroups(ps, qs)) == SiteGroups(ps, qs)
  {
    var g, h := GroupA(ps), GroupB(qs);
    ThreeMerge(g, h, REST);
    SignatureParts(g, h);
    assert ["a"] + ["b"] == ["a", "b"];
  }

  ghost predicate BuiltAs(cfg: Config, i: nat, g: Group) {
    i < |cfg.bots| && BuildsTo(cfg, NewEngine(cfg), CandidatePaths(cfg), cfg.bots[i], g)
  }

  lemma TokensOfBots()
    ensures AgentsFor(BOTS[0]) == ["a"] && AgentsFor(BOTS[1]) == ["b"] && AgentsFor(BOTS[2]) == ["*"]
  {
    LetterIsToken('a');
    LetterIsToken('b');
  }

  lemma BotBuilds(ps: seq<string>, qs: seq<string>, i: nat)
    requires Listable(ps) && Listable(qs) && i < 3
    ensures BuiltAs(Site(ps, qs), i, BotGroups(ps, qs)[i])
  {
    TokensOfBots();
    SiteBuilds(ps, qs, BOTS[i]);
  }

  lemma BotsBuild(cfg: Config, groups: seq<Group>)
    requires |cfg.bots| == |groups| == 3 && forall i :: 0 <= i < 3 ==> BuiltAs(cfg, i, groups[i])
    ensures Enforced.GroupsOf(cfg, groups)
  {
    forall i | 0 <= i < 3 ensures BuildsTo(cfg, NewEngine(cfg), CandidatePaths(cfg), cfg.bots[i], groups[i]) {
      assert BuiltAs(cfg, i, groups[i]);
    }
    EachBuilds(cfg, NewEngine(cfg), CandidatePaths(cfg), cfg.bots, groups);
  }

  lemma SiteGroupsBuilt(ps: seq<string>, qs: seq<string>)
    requires Listable(ps) && Listable(qs)
    ensures Enforced.GroupsOf(Site(ps, qs), BotGroups(ps, qs))
  {
    forall i | 0 <= i < 3 ensures BuiltAs(Site(ps, qs), i, BotGroups(ps, qs)[i]) {
      BotBuilds(ps, qs, i);
    }
    BotsBuild(Site(ps, qs), BotGroups(ps, qs));
  }

  lemma GroupsAreRead(cfg: Config, groups: seq<Group>) returns (text: string)
    requires Enforced.GroupsOf(cfg, groups)
    requires (forall g :: g in Merge(groups) ==> Published.Readable(g)) && Published.AllOneLine(cfg.sitemaps)
    ensures Generated(cfg) == Success(text) && Read(text) == Published.Records(Merge(groups))
  {
    Published.ReadInvertsRender(cfg, Merge(groups));
    text := Generated(cfg).value;
  }

  lemma ListableIsReadable(g: Group, paths: seq<string>)
    requires Listable(paths) && g.lines == Lines(paths, []) && |g.agents| > 0
    requires forall a :: a in g.agents ==> a == "a" || a == "b" || a == "*"
    ensures Published.Readable(g)
  {
    forall p | p in paths ensures Published.Clean(p) && p != "" && OneLine(p) {
      assert Enforced.PublishablePath(p) && Slashed(p);
    }
  }

  lemma SiteGroupsReadable(ps: seq<string>, qs: seq<string>)
    requires Listable(ps) && Listable(qs)
    ensures forall g :: g in SiteGroups(ps, qs) ==> Published.Readable(g)
  {
    NoneAreApart();
    ListableIsReadable(GroupA(ps), ps);
    ListableIsReadable(GroupA(ps).(agents := ["a", "b"]), ps);
    ListableIsReadable(GroupB(qs), qs);
    ListableIsReadable(REST, []);
  }

  lemma SiteReads(ps: seq<string>, qs: seq<string>) returns (text: string)
    requires Listable(ps) && Listable(qs)
    ensures Generated(Site(ps, qs)) == Success(text) && Read(text) == Published.Records(SiteGroups(ps, qs))
  {
    SiteGroupsBuilt(ps, qs);
    SiteMerges(ps, qs);
    SiteGroupsReadable(ps, qs);
    text := GroupsAreRead(Site(ps, qs), BotGroups(ps, qs));
  }

  predicate Avoids(g: Group, c: char) { forall a :: a in g.agents ==> a != "" && FoldChar(a[0]) != FoldChar(c) }

  /** Where the token is in one group alone, that is the one to obey. */
  lemma OnlyGroupObeyed(groups: seq<Group>, at: nat, c: char)
    requires at < |groups| && [c] in groups[at].agents
    requires forall i :: 0 <= i < |groups| && i != at ==> Avoids(groups[i], c)
    ensures Obeyed(Published.Records(groups), [c]) == Published.RecordOf(groups[at])
  {
    var records := Published.Records(groups);
    Enforced.NamedAgent(groups[at], [c]);
    forall i | 0 <= i < |records| && i != at ensures !Named(records[i], [c]) {
      NotNamed(groups[i], c);
    }
    OnlyOneNamed(records, [c], at);
  }

  lemma NotNamed(g: Group, c: char)
    requires Avoids(g, c)
    ensures !Named(Published.RecordOf(g), [c])
  {
    Enforced.NamedAgent(g, [c]);
    forall a | a in g.agents ensures Fold(a) != Fold([c]) {
      assert Fold(a)[0] == FoldChar(a[0]) && Fold([c])[0] == FoldChar(c);
    }
  }

  /** The second crawler is told its own list, unless the two lists are written alike. */
  lemma SecondIsTold(ps: seq<string>, qs: seq<string>) returns (text: string)
    requires Listable(ps) && Listable(qs)
    ensures Generated(Site(ps, qs)) == Success(text)
    ensures Told(text, "b").lines == Lines(if Join(ps, ",") == Join(qs, ",") then ps else qs, [])
  {
    text := SiteReads(ps, qs);
    TextsOfDisallows(ps, qs);
    GroupOfSecond(ps, qs);
  }

  lemma GroupOfSecond(ps: seq<string>, qs: seq<string>)
    ensures Obeyed(Published.Records(SiteGroups(ps, qs)), "b").lines
         == Lines(if LinesText(Lines(ps, [])) == LinesText(Lines(qs, [])) then ps else qs, [])
  {
    if LinesText(Lines(ps, [])) == LinesText(Lines(qs, [])) {
      assert ["a", "b"][1] == "b";
      OnlyGroupObeyed(SiteGroups(ps, qs), 0, 'b');
    } else {
      OnlyGroupObeyed(SiteGroups(ps, qs), 1, 'b');
    }
  }

  lemma TextsOfDisallows(ps: seq<string>, qs: seq<string>)
    ensures LinesText(Lines(ps, [])) == LinesText(Lines(qs, [])) <==> Join(ps, ",") == Join(qs, ",")
  {
    if LinesText(Lines(ps, [])) == LinesText(Lines(qs, [])) {
      BarredEqual(Join(ps, ","), Join(qs, ","));
    }
  }

  // ---------------------------------------------------------------- what it does

  /** The file and the engine agree on every request of the second crawler's. */
  ghost predicate SecondIsRight(ps: seq<string>, qs: seq<string>, text: string) {
    var cfg := Site(ps, qs);
    forall input :: Honest(cfg, Crawler("b"), input) ==> Agree(cfg, Told(text, "b"), input)
  }

  ghost predicate Agree(cfg: Config, r: Record, input: Input) {
    match Decide(NewEngine(cfg), input)
    case Failure(_) => false
    case Success(d) => Disallowed(r, input.request.path) <==> input.request.path != "/robots.txt" && d.action.Block?
  }

  lemma DisallowsWhatItStarts(r: Record, paths: seq<string>, url: string)
    requires Listable(paths) && r.lines == Lines(paths, [])
    ensures Disallowed(r, url) <==> url != "/robots.txt" && StartsOne(paths, url)
  {
    forall p | p in paths ensures Plain(p) {
      assert Enforced.PublishablePath(p);
    }
    PlainLinesReadAsBlocks(r, url);
    if StartsOne(paths, url) {
      var i :| 0 <= i < |paths| && paths[i] <= url;
      assert paths[i] in r.lines.disallow;
    }
  }

  lemma AgreesExactly(ps: seq<string>, qs: seq<string>, r: Record, told: seq<string>, input: Input)
    requires Listable(told) && r.lines == Lines(told, []) && Honest(Site(ps, qs), Crawler("b"), input)
    ensures var url := input.request.path;
            Agree(Site(ps, qs), r, input) <==> url == "/robots.txt" || (StartsOne(told, url) <==> StartsOne(qs, url))
  {
    var d := SiteDecides(ps, qs, Crawler("b"), input);
    DisallowsWhatItStarts(r, told, input.request.path);
  }

  /** A path of one list that starts with none of the other's. */
  lemma ListsDiffer(ps: seq<string>, qs: seq<string>) returns (x: string)
    requires Listable(ps) && Listable(qs) && ps != qs
    ensures (x in ps && !StartsOne(qs, x)) || (x in qs && !StartsOne(ps, x))
  {
    if x' :| x' in qs && !StartsOne(ps, x') {
      x := x';
    } else if x' :| x' in ps && !StartsOne(qs, x') {
      x := x';
    } else {
      forall y ensures y in ps <==> y in qs {
        if y in ps {
          CoveredIsMember(ps, qs, y);
        }
        if y in qs {
          CoveredIsMember(qs, ps, y);
        }
      }
      RisingIsUnique(ps, qs);
      x := "";
    }
  }

  lemma CoveredIsMember(ps: seq<string>, qs: seq<string>, y: string)
    requires Apart(ps) && y in ps
    requires (forall x :: x in ps ==> StartsOne(qs, x)) && forall x :: x in qs ==> StartsOne(ps, x)
    ensures y in qs
  {
    assert StartsOne(qs, y);
    var i :| 0 <= i < |qs| && qs[i] <= y;
    assert qs[i] in qs && StartsOne(ps, qs[i]);
    var j :| 0 <= j < |ps| && ps[j] <= qs[i];
    var k :| 0 <= k < |ps| && ps[k] == y;
    assert ps[j] <= y;
    PrefixIsWholeOrShorter(ps[j], y);
    assert ps[j] == y;
    PrefixIsWholeOrShorter(qs[i], y);
  }

  lemma PrefixOfMarked(p: string, x: string)
    requires p <= x + "#"
    ensures p <= x || '#' in p
  {
    var marked := x + "#";
    if |p| <= |x| {
      assert x == marked[..|x|];
    } else {
      assert p[|x|] == marked[|x|] == '#';
    }
  }

  /** A list treats a path with a '#' behind it like the path. */
  lemma MarkedStartsAlike(paths: seq<string>, x: string)
    requires Listable(paths)
    ensures StartsOne(paths, x + "#") <==> StartsOne(paths, x)
  {
    if i :| 0 <= i < |paths| && paths[i] <= x + "#" {
      assert paths[i] in paths && Enforced.PublishablePath(paths[i]);
      PrefixOfMarked(paths[i], x);
    }
    if i :| 0 <= i < |paths| && paths[i] <= x {
      assert paths[i] <= x + "#";
    }
  }

  /** A request of the second crawler's on which two lists differ. */
  lemma TellingRequest(ps: seq<string>, qs: seq<string>) returns (input: Input)
    requires Listable(ps) && Listable(qs) && ps != qs
    ensures Honest(Site(ps, qs), Crawler("b"), input) && input.request.path != "/robots.txt"
    ensures StartsOne(ps, input.request.path) != StartsOne(qs, input.request.path)
  {
    var x := ListsDiffer(ps, qs);
    MarkedStartsAlike(ps, x);
    MarkedStartsAlike(qs, x);
    input := ProbeInput(Site(ps, qs), Crawler("b"), x + "#");
    assert (x + "#")[|x|] == '#';
    assert x in ps ==> Slashed(x);
    assert x in qs ==> Slashed(x);
    StartsOneOf(ps, x);
    StartsOneOf(qs, x);
  }

  lemma StartsOneOf(paths: seq<string>, x: string)
    ensures x in paths ==> StartsOne(paths, x)
  {
    if x in paths {
      var i :| 0 <= i < |paths| && paths[i] == x;
      assert paths[i] <= x;
    }
  }

  lemma RightIfTold(ps: seq<string>, qs: seq<string>, text: string)
    requires Listable(qs) && Told(text, "b").lines == Lines(qs, [])
    ensures SecondIsRight(ps, qs, text)
  {
    forall input | Honest(Site(ps, qs), Crawler("b"), input) ensures Agree(Site(ps, qs), Told(text, "b"), input) {
      AgreesExactly(ps, qs, Told(text, "b"), qs, input);
    }
  }

  lemma WrongIfToldOther(ps: seq<string>, qs: seq<string>, text: string)
    requires Listable(ps) && Listable(qs) && ps != qs && Told(text, "b").lines == Lines(ps, [])
    ensures !SecondIsRight(ps, qs, text)
  {
    var input := TellingRequest(ps, qs);
    AgreesExactly(ps, qs, Told(text, "b"), ps, input);
  }

  /** For two crawlers refused under two lists, the second reads what is enforced exactly when the lists are equal or
      their texts differ. */
  lemma SecondIsRightExactly(ps: seq<string>, qs: seq<string>) returns (text: string)
    requires Listable(ps) && Listable(qs)
    ensures Generated(Site(ps, qs)) == Success(text)
    ensures SecondIsRight(ps, qs, text) <==> ps == qs || Join(ps, ",") != Join(qs, ",")
  {
    text := SecondIsTold(ps, qs);
    if ps == qs || Join(ps, ",") != Join(qs, ",") {
      RightIfTold(ps, qs, text);
    } else {
      WrongIfToldOther(ps, qs, text);
    }
  }

  lemma NoRulesIsValid(sets: map<string, SetValue>)
    ensures Valid(NoRules(sets))
  {
    LetterIsToken('a');
    LetterIsToken('b');
    assert BOTS[2].isDefault;
  }

  lemma SiteIsValid(ps: seq<string>, qs: seq<string>)
    ensures Valid(Site(ps, qs)) && AllWellQuoted(Site(ps, qs))
  {
    NoRulesIsValid(Lists(ps, qs));
    Divergence.SingleIsAdopted(NoRules(Lists(ps, qs)), Or(InItsSet("a"), InItsSet("b")));
  }

  /** A path that is the comma-joined list of other candidates misleads: refused to one crawler, and the list to
      another, the file tells the second what holds for the first. */
  lemma DividedPathMisleads(p: string) returns (text: string)
    requires Listable([p]) && Listable(Pieces(p)) && |Pieces(p)| >= 2
    ensures Valid(Site([p], Pieces(p))) && Generated(Site([p], Pieces(p))) == Success(text)
    ensures Told(text, "b").lines == Lines([p], []) && !SecondIsRight([p], Pieces(p), text)
  {
    JoinPieces(p);
    assert |[p]| != |Pieces(p)|;
    SiteIsValid([p], Pieces(p));
    text := SecondIsTold([p], Pieces(p));
    WrongIfToldOther([p], Pieces(p), text);
  }
}
