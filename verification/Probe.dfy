/** Which paths the robots.txt generator asks the engine about, and what it asks. */
module Probe {
  import opened Text
  import opened Policy
  import opened Config
  import opened Directives
  import Sorting
  import RuleText

  // ---------------------------------------------------------------- candidate paths

  /** The path-like strings inside a set value; the keys of a table are not looked at. */
  function SetPaths(value: SetValue): set<string> {
    match value
    case Item(text) => if Slashed(text) then {text} else {}
    case Scalar => {}
    case Items(items) => ListPaths(items)
    case Table(_, values) => ListPaths(values)
  }

  /** The paths of the first values of a list. */
  function ListPaths(values: seq<SetValue>): set<string> {
    if |values| == 0 then {}
    else
      var last := |values| - 1;
      ListPaths(values[..last]) + SetPaths(values[last])
  }

  method CollectPaths(value: SetValue, found: set<string>) returns (all: set<string>)
    ensures all == found + SetPaths(value)
    decreases value, 1
  {
    match value {
      case Item(text) =>
        all := if Slashed(text) then found + {text} else found;
      case Scalar =>
        all := found;
      case Items(items) =>
        all := CollectEach(value, items, found);
      case Table(_, values) =>
        all := CollectEach(value, values, found);
    }
  }

  method CollectEach(owner: SetValue, values: seq<SetValue>, found: set<string>) returns (all: set<string>)
    requires forall i :: 0 <= i < |values| ==> values[i] < owner
    ensures all == found + ListPaths(values)
    decreases owner, 0
  {
    all := found;
    for i := 0 to |values|
      invariant all == found + ListPaths(values[..i])
    {
      all := CollectPaths(values[i], all);
      assert values[..i + 1][..i] == values[..i];
    }
    assert values[..|values|] == values;
  }

  function RulePaths(rule: Rule): set<string> {
    set p | p in RuleText.Scan(RuleText.Print(rule.when)) && Slashed(p)
  }

  function PathsOfSets(sets: map<string, SetValue>, names: set<string>): set<string>
    requires names <= sets.Keys
  {
    set name, p | name in names && p in SetPaths(sets[name]) :: p
  }

  function AllRulePaths(rules: seq<Rule>): set<string> {
    set r, p | r in rules && p in RulePaths(r) :: p
  }

  /** Every path worth probing: the root, the set strings, the rule literals. */
  function Found(cfg: Config): set<string> {
    {"/"} + PathsOfSets(cfg.sets, cfg.sets.Keys) + AllRulePaths(cfg.rules)
  }

  predicate ShortFirst(a: string, b: string) {
    |a| < |b| || (|a| == |b| && Less(a, b))
  }

  ghost function CandidatePaths(cfg: Config): seq<string> {
    Sorting.Sort(ShortFirst, Sorting.SomeOrder(Found(cfg)))
  }

  lemma ShortFirstOrders()
    ensures Sorting.Orders(ShortFirst)
  {
    forall a, b | ShortFirst(a, b) ensures !ShortFirst(b, a) {
      LessIsTotal(a, b);
    }
    forall a, b, c | ShortFirst(a, c) ensures ShortFirst(a, b) || ShortFirst(b, c) {
      if Less(a, c) {
        LessSplits(a, b, c);
      }
    }
  }

  lemma ShortFirstTellsApart(m: multiset<string>)
    ensures Sorting.TellsApart(ShortFirst, m)
  {
    forall a, b | a in m && b in m ensures ShortFirst(a, b) || ShortFirst(b, a) || a == b {
      LessIsTotal(a, b);
    }
  }

  lemma OnceEach<T>(s: seq<T>, members: set<T>)
    requires multiset(s) == multiset(members)
    ensures Sorting.NoDuplicates(s)
    ensures forall x :: x in s <==> x in members
  {
    forall x ensures x in s <==> x in members {
      assert x in s <==> x in multiset(s);
    }
    forall i, j | 0 <= i < j < |s| ensures s[i] != s[j] {
      var rest := s[..j] + s[j + 1..];
      assert s == s[..j] + [s[j]] + s[j + 1..];
      assert multiset(s)[s[j]] == multiset(rest)[s[j]] + 1;
      assert multiset(members)[s[j]] <= 1;
      assert rest[i] == s[i];
      assert s[i] in multiset(rest);
    }
  }

  /** The candidates are the found paths, each once, shortest first and alphabetical within a length. */
  lemma CandidatePathsShape(cfg: Config)
    ensures var paths := CandidatePaths(cfg);
            && (forall i, j :: 0 <= i < j < |paths| ==>
                  |paths[i]| < |paths[j]| || (|paths[i]| == |paths[j]| && Less(paths[i], paths[j])))
            && Sorting.NoDuplicates(paths)
            && (forall p :: p in paths <==> p in Found(cfg))
            && AllSlashed(paths)
            && |paths| > 0 && paths[0] == "/"
  {
    var paths := CandidatePaths(cfg);
    ShortFirstOrders();
    Sorting.SortSorts(ShortFirst, Sorting.SomeOrder(Found(cfg)));
    OnceEach(paths, Found(cfg));
    FoundIsSlashed(cfg);
    assert "/" in paths;
    var i :| 0 <= i < |paths| && paths[i] == "/";
    assert Slashed(paths[0]);
    assert paths[0] == "/" || ShortFirst("/", paths[0]);
    forall i, j | 0 <= i < j < |paths| ensures ShortFirst(paths[i], paths[j]) {
      LessIsTotal(paths[i], paths[j]);
    }
  }

  lemma {:induction false} SetPathsAreSlashed(value: SetValue)
    ensures forall p :: p in SetPaths(value) ==> Slashed(p)
  {
    match value
    case Items(items) => ListPathsAreSlashed(items);
    case Table(_, values) => ListPathsAreSlashed(values);
    case _ =>
  }

  lemma {:induction false} ListPathsAreSlashed(values: seq<SetValue>)
    ensures forall p :: p in ListPaths(values) ==> Slashed(p)
  {
    if |values| > 0 {
      ListPathsAreSlashed(values[..|values| - 1]);
      SetPathsAreSlashed(values[|values| - 1]);
    }
  }

  lemma {:induction false} ListPathsHold(values: seq<SetValue>, i: nat)
    requires i < |values|
    ensures SetPaths(values[i]) <= ListPaths(values)
  {
    if i < |values| - 1 {
      ListPathsHold(values[..|values| - 1], i);
    }
  }

  lemma FoundIsSlashed(cfg: Config)
    ensures forall p :: p in Found(cfg) ==> Slashed(p)
  {
    forall name | name in cfg.sets ensures forall p :: p in SetPaths(cfg.sets[name]) ==> Slashed(p) {
      SetPathsAreSlashed(cfg.sets[name]);
    }
  }

  /** The string that a route through lists and the values of tables leads to. */
  predicate Leaf(value: SetValue, route: seq<nat>, text: string)
    decreases |route|
  {
    if |route| == 0 then value == Item(text)
    else match value
      case Items(items) => route[0] < |items| && Leaf(items[route[0]], route[1..], text)
      case Table(_, values) => route[0] < |values| && Leaf(values[route[0]], route[1..], text)
      case _ => false
  }

  ghost predicate Holds(value: SetValue, text: string) { exists route :: Leaf(value, route, text) }

  /** The paths of a set are the slash-led strings in it, however deep; keys do not count. */
  lemma {:induction false} SetPathsExactly(value: SetValue, p: string)
    ensures p in SetPaths(value) <==> Slashed(p) && Holds(value, p)
    decreases value, 1
  {
    match value
    case Item(text) =>
      assert Leaf(value, [], p) <==> text == p;
      assert forall route: seq<nat> :: Leaf(value, route, p) ==> text == p;
    case Scalar =>
    case Items(items) => ListPathsExactly(value, items, p);
    case Table(_, values) => ListPathsExactly(value, values, p);
  }

  lemma {:induction false} ListPathsExactly(value: SetValue, values: seq<SetValue>, p: string)
    requires value.Items? || value.Table?
    requires values == if value.Items? then value.items else value.values
    ensures p in ListPaths(values) <==> Slashed(p) && Holds(value, p)
    decreases value, 0
  {
    ListPathsUnite(values, p);
    forall i | 0 <= i < |values| ensures p in SetPaths(values[i]) <==> Slashed(p) && Holds(values[i], p) {
      SetPathsExactly(values[i], p);
    }
    if i :| 0 <= i < |values| && Holds(values[i], p) {
      var route :| Leaf(values[i], route, p);
      assert ([i] + route)[1..] == route;
      assert Leaf(value, [i] + route, p);
    }
    if Holds(value, p) {
      var route :| Leaf(value, route, p);
      assert Leaf(values[route[0]], route[1..], p);
    }
  }

  lemma {:induction false} ListPathsUnite(values: seq<SetValue>, p: string)
    ensures p in ListPaths(values) <==> exists i :: 0 <= i < |values| && p in SetPaths(values[i])
  {
    if |values| > 0 {
      var last := |values| - 1;
      ListPathsUnite(values[..last], p);
      if i :| 0 <= i < |values| && p in SetPaths(values[i]) && i < last {
        assert values[..last][i] == values[i];
      }
    }
  }

  /** What is probed: the root, the slash-led strings of the sets and the slash-led literals of the rules. */
  lemma FoundExactly(cfg: Config, p: string)
    requires AllWellQuoted(cfg)
    ensures p in Found(cfg)
       <==> p == "/"
            || (Slashed(p) && exists name :: name in cfg.sets && Holds(cfg.sets[name], p))
            || (Slashed(p) && exists r :: r in cfg.rules && p in RuleText.LiteralsOf(r.when))
  {
    forall name | name in cfg.sets ensures p in SetPaths(cfg.sets[name]) <==> Slashed(p) && Holds(cfg.sets[name], p) {
      SetPathsExactly(cfg.sets[name], p);
    }
    forall r | r in cfg.rules ensures p in RulePaths(r) <==> p in RuleText.LiteralsOf(r.when) && Slashed(p) {
      RuleText.ScanFindsLiterals(r.when);
    }
  }

  method CollectSets(sets: map<string, SetValue>, found: set<string>) returns (all: set<string>)
    ensures all == found + PathsOfSets(sets, sets.Keys)
  {
    all := found;
    var names := sets.Keys;
    while names != {}
      invariant names <= sets.Keys
      invariant all == found + PathsOfSets(sets, sets.Keys - names)
      decreases |names|
    {
      var name :| name in names;
      all := CollectPaths(sets[name], all);
      assert sets.Keys - (names - {name}) == (sets.Keys - names) + {name};
      names := names - {name};
    }
    assert sets.Keys - names == sets.Keys;
  }

  method CollectLiterals(rule: Rule, found: set<string>) returns (all: set<string>)
    ensures all == found + RulePaths(rule)
  {
    all := found;
    var literals := RuleText.StringLiterals(RuleText.Print(rule.when));
    for k := 0 to |literals|
      invariant all == found + set p | p in literals[..k] && Slashed(p)
    {
      assert literals[..k + 1] == literals[..k] + [literals[k]];
      if Slashed(literals[k]) {
        all := all + {literals[k]};
      }
    }
    assert literals[..|literals|] == literals;
  }

  method CollectRules(rules: seq<Rule>, found: set<string>) returns (all: set<string>)
    ensures all == found + AllRulePaths(rules)
  {
    all := found;
    for i := 0 to |rules|
      invariant all == found + set r, p | r in rules[..i] && p in RulePaths(r) :: p
    {
      all := CollectLiterals(rules[i], all);
      assert rules[..i + 1] == rules[..i] + [rules[i]];
    }
    assert rules[..|rules|] == rules;
  }

  method Listing(found: set<string>) returns (paths: seq<string>)
    ensures multiset(paths) == multiset(found)
  {
    paths := [];
    var rest := found;
    while rest != {}
      invariant rest <= found && multiset(paths) == multiset(found - rest)
      decreases |rest|
    {
      var path :| path in rest;
      assert found - (rest - {path}) == (found - rest) + {path};
      paths := paths + [path];
      rest := rest - {path};
    }
    assert found - rest == found;
  }

  method Candidates(cfg: Config) returns (paths: seq<string>)
    ensures paths == CandidatePaths(cfg)
  {
    var found := CollectSets(cfg.sets, {"/"});
    found := CollectRules(cfg.rules, found);
    assert found == Found(cfg);
    paths := Listing(found);
    ListingOrderIsIrrelevant(paths, Sorting.SomeOrder(Found(cfg)));
    paths := Sorting.Sort(ShortFirst, paths);
  }

  lemma ListingOrderIsIrrelevant(a: seq<string>, b: seq<string>)
    requires multiset(a) == multiset(b)
    ensures Sorting.Sort(ShortFirst, a) == Sorting.Sort(ShortFirst, b)
  {
    ShortFirstOrders();
    Sorting.SortSorts(ShortFirst, a);
    Sorting.SortSorts(ShortFirst, b);
    ShortFirstTellsApart(multiset(a));
    Sorting.SortedIsUnique(ShortFirst, Sorting.Sort(ShortFirst, a), Sorting.Sort(ShortFirst, b));
  }

  // ---------------------------------------------------------------- coverage

  ghost predicate AllWellQuoted(cfg: Config) {
    forall r :: r in cfg.rules ==> RuleText.WellQuoted(r.when)
  }

  /** A string every slash-led path starts with, or one the generator probes whatever the rules. */
  predicate Anchored(sets: map<string, SetValue>, k: string) {
    k == "" || k == "/" || k in PathsOfSets(sets, sets.Keys)
  }

  ghost predicate KeyReachable(sets: map<string, SetValue>, keys: seq<string>, p: string) {
    exists k :: k in keys && k <= p && Anchored(sets, k)
  }

  /** CEL's `exists` over a map ranges over its keys, which path collection skips: harmless as long as each
      slash-led key of a set that rules can name starts with a key of the same table that is probed anyway. */
  ghost predicate KeysReachable(sets: map<string, SetValue>) {
    forall name, p ::
      name in sets && RuleText.NoQuotes(name) && sets[name].Table? && p in sets[name].keys && Slashed(p) ==>
        KeyReachable(sets, sets[name].keys, p)
  }

  lemma LiteralIsFound(cfg: Config, r: Rule, p: string)
    requires r in cfg.rules && RuleText.WellQuoted(r.when) && p in RuleText.LiteralsOf(r.when) && Slashed(p)
    ensures p in Found(cfg)
  {
    RuleText.ScanFindsLiterals(r.when);
    assert p in RulePaths(r);
  }

  lemma ListStringsAreFound(cfg: Config, name: string, p: string)
    requires name in cfg.sets && cfg.sets[name].Items? && Some(p) in Ranged(cfg.sets[name]).value && Slashed(p)
    ensures p in Found(cfg)
  {
    var items := cfg.sets[name].items;
    var i :| 0 <= i < |items| && Ranged(cfg.sets[name]).value[i] == Some(p);
    assert items[i] == Item(p);
    ListPathsHold(items, i);
    assert p in SetPaths(cfg.sets[name]);
  }

  // ---------------------------------------------------------------- the probing request

  function BotInput(bot: BotConfig): Bot {
    Bot(bot.id, bot.name, bot.kind, bot.operator, !bot.isDefault, bot.verify != NoVerify)
  }

  function ProbeInput(cfg: Config, bot: BotConfig, path: string): Input {
    var userAgent := if |bot.userAgents| > 0 then bot.userAgents[0] else bot.name;
    Input(BotInput(bot), Request(path, "GET", "", "", cfg.host, userAgent), cfg.mode)
  }

  /** How the engine sees a bot that is what it says: as configured, claimed unless it is the default, and verified
      exactly when there is a way to verify it. */
  predicate AsConfigured(bot: BotConfig, seen: Bot) {
    && seen.id == bot.id && seen.name == bot.name && seen.kind == bot.kind && seen.operator == bot.operator
    && (seen.claimed <==> !bot.isDefault)
    && (seen.verified <==> bot.verify == ReverseDns || bot.verify == IpRanges)
  }

  /** A request of the honest crawler's at this site, whatever its verb, query, address, host or user agent. */
  ghost predicate Honest(cfg: Config, bot: BotConfig, input: Input) {
    AsConfigured(bot, input.bot) && input.mode == cfg.mode && Slashed(input.request.path)
  }

  /** No comparison of the rules, prefixes of the path aside, tells one input from the other. */
  ghost predicate ComparedAlike(rules: seq<Rule>, a: Input, b: Input) {
    forall r, s, test, t :: r in rules && Compares(r.when, s, test, t) && !(s.OfPath? && test.Begins?) ==>
      SameAnswer(s, test, t, a, b)
  }

  /** The probe that stands for a path: that of the longest candidate before it. */
  ghost function StandIn(cfg: Config, bot: BotConfig, path: string): Input {
    ProbeInput(cfg, bot, Cover(CandidatePaths(cfg), path))
  }

  /** A request the generator speaks for: the rules' comparisons do not tell it from the probe that stands for it. */
  ghost predicate SpokenFor(cfg: Config, bot: BotConfig, input: Input) {
    Honest(cfg, bot, input) && ComparedAlike(cfg.rules, input, StandIn(cfg, bot, input.request.path))
  }

  ghost predicate NoWarnings(cfg: Config) {
    forall r :: r in cfg.rules ==> !RuleText.Warned(RuleText.Print(r.when))
  }

  ghost predicate NoUserAgentRules(cfg: Config) {
    forall r :: r in cfg.rules ==> !Reads(r.when, OfRequest(UserAgent))
  }

  /** Rules look at the path through `startsWith` alone. */
  ghost predicate PrefixRulesOnly(cfg: Config) {
    forall r, test, t :: r in cfg.rules && Compares(r.when, OfPath, test, t) ==> test.Begins?
  }

  /** Without a warning, without a rule on the user agent and with prefixes of the path only, that is every request of
      an honest crawler. */
  lemma UnwarnedSpeakForAll(cfg: Config, bot: BotConfig, input: Input)
    requires NoWarnings(cfg) && NoUserAgentRules(cfg) && PrefixRulesOnly(cfg) && Honest(cfg, bot, input)
    ensures SpokenFor(cfg, bot, input)
  {
    var probe := StandIn(cfg, bot, input.request.path);
    forall r, s, test, t | r in cfg.rules && Compares(r.when, s, test, t) && !(s.OfPath? && test.Begins?)
      ensures SameAnswer(s, test, t, input, probe)
    {
      if s.OfRequest? {
        ComparingReads(r.when, s, test, t);
        RuleText.UnwarnedReads(r.when, s.requestField);
      }
    }
  }

  predicate SamePrefix(p: string, s: string, t: string) { p <= s <==> p <= t }

  /** The request robots.txt is about: a GET without a query of the site's host, by the bot's first configured user
      agent, or its name where it has none. */
  ghost predicate PlainFetch(cfg: Config, bot: BotConfig, request: Request) {
    && request.verb == "GET" && request.query == "" && request.host == cfg.host
    && (|bot.userAgents| > 0 ==> request.userAgent == bot.userAgents[0])
    && (|bot.userAgents| == 0 ==> request.userAgent == bot.name)
  }

  lemma PlainTextsAgree(cfg: Config, bot: BotConfig, input: Input, path: string, s: Subject)
    requires Honest(cfg, bot, input) && PlainFetch(cfg, bot, input.request)
    ensures s.OfPath? || (s == OfRequest(Ip) && input.request.ip != "")
         || TextOf(s, input) == TextOf(s, ProbeInput(cfg, bot, path))
  {
  }

  /** Whatever the rules compare, but for the address and for the path otherwise than by a prefix, plain fetches of an
      honest crawler are spoken for. */
  lemma PlainFetchIsSpokenFor(cfg: Config, bot: BotConfig, input: Input)
    requires Honest(cfg, bot, input) && PlainFetch(cfg, bot, input.request) && PrefixRulesOnly(cfg)
    requires input.request.ip == "" || forall r :: r in cfg.rules ==> !Reads(r.when, OfRequest(Ip))
    ensures SpokenFor(cfg, bot, input)
  {
    var c := Cover(CandidatePaths(cfg), input.request.path);
    forall r, s, test, t | r in cfg.rules && Compares(r.when, s, test, t) && !(s.OfPath? && test.Begins?)
      ensures SameAnswer(s, test, t, input, ProbeInput(cfg, bot, c))
    {
      ComparingReads(r.when, s, test, t);
      PlainTextsAgree(cfg, bot, input, c, s);
    }
  }

  /** What a probed path does for the paths it covers. */
  ghost predicate Covers(cfg: Config, url: string, c: string) {
    Slashed(url) && Slashed(c) && c <= url && forall p :: p in Found(cfg) ==> SamePrefix(p, url, c)
  }

  lemma CoverCovers(cfg: Config, url: string)
    requires Slashed(url)
    ensures Cover(CandidatePaths(cfg), url) in CandidatePaths(cfg) && Covers(cfg, url, Cover(CandidatePaths(cfg), url))
  {
    var paths := CandidatePaths(cfg);
    CandidatePathsShape(cfg);
    var c := Cover(paths, url);
    assert "/" in paths && "/" <= c;
    forall p | p in Found(cfg) ensures SamePrefix(p, url, c) {
      assert p in paths;
    }
  }

  /** The longest found path before a URL. */
  lemma CoverIsLongest(cfg: Config, url: string)
    requires Slashed(url)
    ensures var c := Cover(CandidatePaths(cfg), url);
            Slashed(c) && c <= url && c in Found(cfg) && forall p :: p in Found(cfg) && p <= url ==> p <= c
  {
    CandidatePathsShape(cfg);
    CoverCovers(cfg, url);
  }

  /** Strings that lead with no slash start no path. */
  lemma UnslashedStartsNothing(p: string, url: string, c: string)
    requires Slashed(url) && Slashed(c) && !Slashed(p)
    ensures SamePrefix(p, url, c)
  {
    if p != "" {
      assert p[0] != '/' && url[0] == '/' && c[0] == '/';
    }
  }

  lemma ListCoversAlike(cfg: Config, name: string, a: Input, b: Input)
    requires name in cfg.sets && cfg.sets[name].Items? && Covers(cfg, a.request.path, b.request.path)
    ensures SameCover(name, cfg.sets, a, b)
  {
    var elements, url, c := Ranged(cfg.sets[name]).value, a.request.path, b.request.path;
    forall i | 0 <= i < |elements| && elements[i].Some? ensures elements[i].value <= url <==> elements[i].value <= c {
      var p := elements[i].value;
      if Slashed(p) {
        ListStringsAreFound(cfg, name, p);
      } else {
        UnslashedStartsNothing(p, url, c);
      }
      assert SamePrefix(p, url, c);
    }
  }

  lemma TableCoversAlike(cfg: Config, name: string, a: Input, b: Input)
    requires name in cfg.sets && cfg.sets[name].Table? && RuleText.NoQuotes(name)
    requires KeysReachable(cfg.sets) && Covers(cfg, a.request.path, b.request.path)
    ensures SameCover(name, cfg.sets, a, b)
  {
    var keys, url, c := cfg.sets[name].keys, a.request.path, b.request.path;
    var elements := Ranged(cfg.sets[name]).value;
    if i :| 0 <= i < |elements| && elements[i].value <= url {
      assert keys[i] in keys;
      var k := AnchorCovers(cfg, name, keys[i], url, c);
      var j :| 0 <= j < |keys| && keys[j] == k;
      assert elements[j] == Some(k);
    }
  }

  lemma AnchorCovers(cfg: Config, name: string, p: string, url: string, c: string) returns (k: string)
    requires name in cfg.sets && cfg.sets[name].Table? && p in cfg.sets[name].keys
    requires RuleText.NoQuotes(name) && KeysReachable(cfg.sets) && Covers(cfg, url, c) && p <= url
    ensures k in cfg.sets[name].keys && k <= c
  {
    if Slashed(p) {
      assert KeyReachable(cfg.sets, cfg.sets[name].keys, p);
      k :| k in cfg.sets[name].keys && k <= p && Anchored(cfg.sets, k);
      assert k != "" ==> k in Found(cfg) && SamePrefix(k, url, c);
    } else {
      UnslashedStartsNothing(p, url, c);
      k := p;
    }
  }

  /** The engine decides any such request as it decided the probe of the covering candidate. */
  lemma CoverDecidesAlike(cfg: Config, bot: BotConfig, input: Input)
    requires AllWellQuoted(cfg) && KeysReachable(cfg.sets) && SpokenFor(cfg, bot, input)
    ensures var c := Cover(CandidatePaths(cfg), input.request.path);
            c in CandidatePaths(cfg)
            && Decide(NewEngine(cfg), input) == Decide(NewEngine(cfg), ProbeInput(cfg, bot, c))
  {
    var c := Cover(CandidatePaths(cfg), input.request.path);
    CoverCovers(cfg, input.request.path);
    var probe := ProbeInput(cfg, bot, c);
    var engine := NewEngine(cfg);
    Sorting.SortKeepsMembers(Before, cfg.rules);
    forall r | r in engine.rules ensures Alike(r.when, engine.sets, input, probe) {
      assert r in cfg.rules;
      RuleCannotTell(cfg, r, input, probe);
    }
    AlikeInputsDecideAlike(engine, input, probe);
  }

  lemma PrefixCannotTell(cfg: Config, r: Rule, t: string, a: Input, b: Input)
    requires r in cfg.rules && RuleText.WellQuoted(r.when) && Compares(r.when, OfPath, Begins, t)
    requires Covers(cfg, a.request.path, b.request.path)
    ensures SameAnswer(OfPath, Begins, t, a, b)
  {
    if Slashed(t) {
      RuleText.ComparedTextsAreSpellable(r.when, OfPath, Begins, t);
      LiteralIsFound(cfg, r, t);
      assert SamePrefix(t, a.request.path, b.request.path);
    } else {
      UnslashedStartsNothing(t, a.request.path, b.request.path);
    }
  }

  lemma RuleCannotTell(cfg: Config, r: Rule, a: Input, b: Input)
    requires AllWellQuoted(cfg) && KeysReachable(cfg.sets) && r in cfg.rules
    requires ComparedAlike(cfg.rules, a, b)
    requires a.bot == b.bot && a.mode == b.mode && Covers(cfg, a.request.path, b.request.path)
    ensures Alike(r.when, cfg.sets, a, b)
  {
    forall s, test, t | Compares(r.when, s, test, t) ensures SameAnswer(s, test, t, a, b) {
      if s.OfPath? && test.Begins? {
        PrefixCannotTell(cfg, r, t, a, b);
      }
    }
    forall name | RangesOver(r.when, name) ensures SameCover(name, cfg.sets, a, b) {
      if name in cfg.sets && cfg.sets[name].Items? {
        ListCoversAlike(cfg, name, a, b);
      } else if name in cfg.sets && cfg.sets[name].Table? {
        RuleText.WellQuotedNames(r.when, name);
        TableCoversAlike(cfg, name, a, b);
      }
    }
  }
}
