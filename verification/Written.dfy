/** Which paths and which tokens survive being written in a file and read from it: for one rule on a path, and for one
    bot with a token, the exact conditions under which file and engine agree. */
module Written {
  import opened Text
  import opened Policy
  import opened Config
  import opened Directives
  import opened Probe
  import opened Robots
  import opened Render
  import opened Reader
  import opened Misled
  import Divergence
  import Enforced
  import Published
  import Separators
  import Sorting

  /** What the file tells the crawler of a token is right for every request of its bot. */
  ghost predicate ToldRight(cfg: Config, text: string, bot: BotConfig, token: string) {
    forall input :: Honest(cfg, bot, input) ==> Agree(cfg, Told(text, token), input)
  }

  // ---------------------------------------------------------------- one path

  /** A site that refuses everybody what starts with the one path in its set. */
  function PathSite(p: string): Config {
    Divergence.Single(
      Config("", Enforce, FailAllow, Allow, true, [], [Divergence.ANYBODY], map["paths" := Texts([p])], []),
      SetCovers("paths"))
  }

  lemma StartsWithOne(p: string, url: string)
    ensures Separators.StartsOne([p], url) <==> p <= url
  {
    if p <= url {
      assert [p][0] <= url;
    }
  }

  lemma PathSiteDecides(p: string, input: Input) returns (d: Decision)
    ensures Decide(NewEngine(PathSite(p)), input) == Success(d) && DelayOf(d.action) == 0
    ensures d.action.Block? <==> p <= input.request.path
  {
    TextsCover(PathSite(p).sets, "paths", [p], input);
    StartsWithOne(p, input.request.path);
    OneRuleDecides(PathSite(p).rules[0], PathSite(p).sets, input, p <= input.request.path);
    d := Decide(NewEngine(PathSite(p)), input).value;
  }

  function PathGroup(p: string): Group { Group(["*"], Lines([p], []), 0, true) }

  lemma PathSiteBuilds(p: string)
    requires Slashed(p)
    ensures BuildsTo(PathSite(p), NewEngine(PathSite(p)), CandidatePaths(PathSite(p)), Divergence.ANYBODY, PathGroup(p))
  {
    var cfg := PathSite(p);
    forall path ensures RefusesAt(cfg, Divergence.ANYBODY, [p], path) {
      var d := PathSiteDecides(p, ProbeInput(cfg, Divergence.ANYBODY, path));
      StartsWithOne(p, path);
    }
    SetIsCandidate(cfg, "paths", [p]);
    RefusalBuilds(cfg, Divergence.ANYBODY, [p]);
  }

  lemma OneWildcardMerges(w: Group)
    requires w.wildcard
    ensures Merge([w]) == [w]
  {
    MergesOneMore(Signature, [], w);
    assert [] + [w] == [w];
    assert MergeNamed(Signature, []) == [] && Sorting.Sort(ByFirstAgent, []) == [];
    assert LastWildcard([w]) == Some(w);
  }

  lemma OneBuilds(cfg: Config, bot: BotConfig, g: Group)
    requires cfg.bots == [bot] && BuildsTo(cfg, NewEngine(cfg), CandidatePaths(cfg), bot, g)
    ensures Enforced.GroupsOf(cfg, [g])
  {
    BuildsOneMore(cfg, NewEngine(cfg), CandidatePaths(cfg), [], bot, [], g);
    assert [] + [bot] == [bot] && [] + [g] == [g];
  }

  /** The file, whatever the path. */
  lemma PathSiteGenerates(p: string)
    requires Slashed(p)
    ensures Generated(PathSite(p)) == Success(Unlines(FileLines(PathSite(p), [PathGroup(p)])))
  {
    PathSiteBuilds(p);
    OneBuilds(PathSite(p), Divergence.ANYBODY, PathGroup(p));
    OneWildcardMerges(PathGroup(p));
  }

  // ---------------------------------------------------------------- how it reads

  lemma RunsAlike(st: State, pre: seq<string>, x: string, y: string, post: seq<string>)
    requires ParseLine(x) == ParseLine(y)
    ensures Run(st, pre + [x] + post) == Run(st, pre + [y] + post)
  {
    RunAppends(st, pre + [x], post);
    RunAppends(st, pre + [y], post);
    RunAppends(st, pre, [x]);
    RunAppends(st, pre, [y]);
    Published.RunOne(Run(st, pre), x);
    Published.RunOne(Run(st, pre), y);
  }

  lemma EachOne(prefix: string, value: string)
    ensures Each(prefix, [value]) == [prefix + value]
  {
    assert [value][..0] == [];
  }

  lemma PathGroupLines(p: string)
    ensures GroupLines(PathGroup(p)) == ["", "User-agent: *"] + ["Disallow: " + p]
  {
    EachOne("User-agent: ", "*");
    EachOne("Disallow: ", p);
    assert "User-agent: " + "*" == "User-agent: *";
  }

  lemma PathSiteLines(cfg: Config, p: string)
    requires cfg.sitemaps == []
    ensures FileLines(cfg, [PathGroup(p)]) == Prelude(cfg) + ["Disallow: " + p]
  {
    PathGroupLines(p);
    AllGroupLinesGrow([PathGroup(p)], 0);
    assert [PathGroup(p)][..0] == [] && [PathGroup(p)][..1] == [PathGroup(p)];
    assert AllGroupLines([]) == [];
    Appended([Header()] + ModeNote(cfg.mode), ["", "User-agent: *"], ["Disallow: " + p]);
  }

  /** A path without marks reads as what is left of it when blanks at its end are cut. */
  lemma UnmarkedParses(p: string)
    requires Slashed(p) && '#' !in p
    ensures ParseLine("Disallow: " + p) == Deny(Trim(BLANKS, p))
  {
    Published.ParseKeyed("Disallow", p);
    DisallowIsKey();
    assert "Disallow" + ": " + p == "Disallow: " + p;
    assert (" " + p)[1..] == p;
  }

  lemma DisallowIsKey()
    ensures Fold(Trim(BLANKS, "Disallow")) == "disallow"
  {
    Published.KeyFolds("Disallow", "disallow");
  }

  lemma TrimmedPath(p: string)
    requires Slashed(p)
    ensures var q := Trim(BLANKS, p); q <= p && Slashed(q) && Trimmed(BLANKS, q)
    ensures var q := Trim(BLANKS, p); q != p ==> p[|q|] in BLANKS
    ensures Trimmed(BLANKS, p) ==> Trim(BLANKS, p) == p
  {
    assert p[0] == '/' && TrimLeft(BLANKS, p) == p;
    TrimRightTrims(BLANKS, p);
    TrimTrims(BLANKS, p);
    CutIsBlank(p);
  }

  lemma {:induction false} CutIsBlank(s: string)
    ensures var q := TrimRight(BLANKS, s);
            q <= s && (q != s ==> s[|q|] in BLANKS) && ((s != "" && s[0] !in BLANKS) ==> q != "")
  {
    if s != "" && s[|s| - 1] in BLANKS {
      CutIsBlank(s[..|s| - 1]);
    }
  }

  function Prelude(cfg: Config): seq<string> { [Header()] + ModeNote(cfg.mode) + ["", "User-agent: *"] }

  lemma FileRuns(cfg: Config, p: string)
    requires cfg.sitemaps == [] && OneLine(p)
    ensures Read(Unlines(FileLines(cfg, [PathGroup(p)])))
         == Run(State([], false), Prelude(cfg) + ["Disallow: " + p] + [""]).records
  {
    PathSiteLines(cfg, p);
    PreludeIsOneLine(cfg);
    Published.OneLineJoins("Disallow: ", p);
    LinesOfUnlines(Prelude(cfg) + ["Disallow: " + p]);
  }

  lemma FileParsesAlike(cfg: Config, p: string, q: string)
    requires cfg.sitemaps == [] && OneLine(p) && OneLine(q)
    requires ParseLine("Disallow: " + p) == ParseLine("Disallow: " + q)
    ensures Read(Unlines(FileLines(cfg, [PathGroup(p)]))) == Read(Unlines(FileLines(cfg, [PathGroup(q)])))
  {
    FileRuns(cfg, p);
    FileRuns(cfg, q);
    RunsAlike(State([], false), Prelude(cfg), "Disallow: " + p, "Disallow: " + q, [""]);
  }

  lemma PreludeIsOneLine(cfg: Config)
    ensures Published.AllOneLine(Prelude(cfg))
  {
    Published.IntroIsOneLine(cfg.mode);
  }

  /** Everybody reads the path without the blanks at its end. */
  lemma PathSiteReads(p: string) returns (text: string)
    requires Slashed(p) && Unmarked(p)
    ensures Generated(PathSite(p)) == Success(text) && Told(text, "*").lines == Lines([Trim(BLANKS, p)], [])
  {
    PathSiteGenerates(p);
    text := Generated(PathSite(p)).value;
    FileReadsTrimmed(PathSite(p), p);
  }

  lemma FileReadsTrimmed(cfg: Config, p: string)
    requires cfg.sitemaps == [] && Slashed(p) && Unmarked(p)
    ensures Told(Unlines(FileLines(cfg, [PathGroup(p)])), "*").lines == Lines([Trim(BLANKS, p)], [])
  {
    var q := Trim(BLANKS, p);
    TrimTrims(BLANKS, p);
    TrimmedPath(p);
    TrimmedPath(q);
    UnmarkedParses(p);
    UnmarkedParses(q);
    UnmarkedIsOneLine(p);
    UnmarkedIsOneLine(q);
    FileParsesAlike(cfg, p, q);
    CleanPathIsRead(cfg, q);
  }

  lemma CleanPathIsRead(cfg: Config, q: string)
    requires cfg.sitemaps == [] && Slashed(q) && Unmarked(q) && Trimmed(BLANKS, q)
    ensures Told(Unlines(FileLines(cfg, [PathGroup(q)])), "*") == Published.RecordOf(PathGroup(q))
  {
    UnmarkedIsOneLine(q);
    Published.ReadInvertsRender(cfg, [PathGroup(q)]);
    OnlyGroupObeyed([PathGroup(q)], 0, '*');
  }

  lemma UnmarkedIsOneLine(s: string)
    requires Unmarked(s)
    ensures OneLine(s) && '#' !in s
  {
    forall i | 0 <= i < |s| ensures !Break(s[i]) {
      assert s[i] in s;
    }
  }

  lemma MarkedUnlessOneLine(s: string)
    requires OneLine(s) && '#' !in s
    ensures Unmarked(s)
  {
  }

  // ---------------------------------------------------------------- paths that are not published

  function OtherMark(c: char): char { if c == '#' then '\n' else '#' }

  /** No group read from any file disallows just what starts with a path that has a mark. */
  lemma MarkedPathIsUnsayable(r: Record, p: string) returns (url: string)
    requires UnmarkedRecord(r) && Slashed(p) && !Unmarked(p)
    ensures Slashed(url) && !(p <= url) && url != "/robots.txt" && p != "/robots.txt"
    ensures Disallowed(r, p) <==> Disallowed(r, url)
  {
    var c :| c in p && Mark(c);
    var i :| 0 <= i < |p| && p[i] == c;
    url := p[i := OtherMark(c)];
    assert url[i] == OtherMark(c) != p[i] && Mark(url[i]);
    assert "/robots.txt"[0] == '/' && Unmarked("/robots.txt");
    assert url[i] in url;
    MarksDisallowAlike(r, p, url);
  }

  function AskFor(cfg: Config, path: string): Input { ProbeInput(cfg, Divergence.ANYBODY, path) }

  lemma PathAgreesExactly(p: string, r: Record, url: string)
    requires Slashed(url)
    ensures Honest(PathSite(p), Divergence.ANYBODY, AskFor(PathSite(p), url))
    ensures Agree(PathSite(p), r, AskFor(PathSite(p), url))
            <==> (Disallowed(r, url) <==> url != "/robots.txt" && p <= url)
  {
    var d := PathSiteDecides(p, AskFor(PathSite(p), url));
  }

  lemma MarkedPathIsWrong(p: string, text: string)
    requires Slashed(p) && !Unmarked(p)
    ensures !ToldRight(PathSite(p), text, Divergence.ANYBODY, "*")
  {
    ObeyedIsUnmarked(text, "*");
    var url := MarkedPathIsUnsayable(Told(text, "*"), p);
    PathAgreesExactly(p, Told(text, "*"), p);
    PathAgreesExactly(p, Told(text, "*"), url);
  }

  /** The pattern with a '#' for every star, and without a final '$'. */
  function Filled(pattern: string): string {
    if pattern == "" || pattern == "$" then ""
    else [if pattern[0] == '*' then '#' else pattern[0]] + Filled(pattern[1..])
  }

  lemma {:induction false} MatchesFilled(pattern: string)
    ensures Matches(pattern, Filled(pattern)) && |Filled(pattern)| <= |pattern|
    ensures '*' in pattern ==> '#' in Filled(pattern) && Filled(pattern) != pattern
  {
    if pattern != "" && pattern != "$" {
      var rest := Filled(pattern[1..]);
      MatchesFilled(pattern[1..]);
      assert pattern == [pattern[0]] + pattern[1..];
      assert Filled(pattern)[1..] == rest && Filled(pattern)[0] in Filled(pattern);
    }
  }

  lemma {:induction false} EndedMatchesItself(pattern: string, url: string)
    requires '*' !in pattern && pattern != "" && pattern[|pattern| - 1] == '$'
    ensures Matches(pattern, url) <==> url == pattern[..|pattern| - 1]
    decreases |pattern|
  {
    if pattern != "$" {
      assert pattern[0] in pattern && pattern == [pattern[0]] + pattern[1..];
      assert pattern[..|pattern| - 1] == [pattern[0]] + pattern[1..][..|pattern| - 2];
      if url != "" {
        assert url == [url[0]] + url[1..];
        EndedMatchesItself(pattern[1..], url[1..]);
      }
    }
  }

  lemma OneLineDisallows(r: Record, q: string, url: string)
    requires r.lines == Lines([q], []) && url != "/robots.txt"
    ensures Disallowed(r, url) <==> Matches(q, url)
  {
    if Matches(q, url) {
      assert q in r.lines.disallow;
    }
  }

  /** A request on which a path read as `q` goes wrong. */
  function Misread(p: string, q: string): string {
    if Plain(q) then q + "#" else if '*' in q then Filled(q) else p
  }

  lemma FilledIsSlashed(q: string)
    requires Slashed(q)
    ensures Slashed(Filled(q))
  {
    assert q[0] == '/' && Filled(q)[0] == '/';
  }

  lemma RobotsIsUnmarked(url: string)
    requires '#' in url || '$' in url
    ensures url != "/robots.txt"
  {
  }

  lemma MisreadTells(p: string, q: string)
    requires Slashed(p) && Slashed(q) && q <= p && (q != p ==> p[|q|] != '#') && (q != p || !Plain(q))
    ensures var url := Misread(p, q);
            Slashed(url) && url != "/robots.txt" && (Matches(q, url) <==> !(p <= url))
  {
    var url := Misread(p, q);
    if Plain(q) {
      PlainMatchesPrefix(q, url);
      assert url[|q|] == '#' && '#' in url;
      RobotsIsUnmarked(url);
    } else if '*' in q {
      MatchesFilled(q);
      FilledIsSlashed(q);
      RobotsIsUnmarked(url);
      SameLengthPrefix(p, q, url);
    } else {
      EndedMatchesItself(q, p);
      assert p[|q| - 1] == '$' && '$' in p;
      RobotsIsUnmarked(p);
    }
  }

  lemma SameLengthPrefix(p: string, q: string, url: string)
    requires q <= p && |url| <= |q| && url != q
    ensures !(p <= url)
  {
    TightPrefix(p, url);
    TightPrefix(q, p);
  }

  lemma TightPrefix(a: string, b: string)
    ensures a <= b && |b| <= |a| ==> a == b
  {
    assert a <= b ==> b[..|a|] == a;
    assert |b| <= |a| && a <= b ==> b[..|a|] == b;
  }

  lemma MisreadPathIsWrong(p: string, text: string)
    requires Slashed(p) && Unmarked(p) && !Enforced.PublishablePath(p)
    requires Told(text, "*").lines == Lines([Trim(BLANKS, p)], [])
    ensures !ToldRight(PathSite(p), text, Divergence.ANYBODY, "*")
  {
    var q := Trim(BLANKS, p);
    TrimmedPath(p);
    UnmarkedIsOneLine(p);
    MisreadTells(p, q);
    OneLineDisallows(Told(text, "*"), q, Misread(p, q));
    PathAgreesExactly(p, Told(text, "*"), Misread(p, q));
  }

  // ---------------------------------------------------------------- paths that are

  lemma PublishablePathIsRight(p: string, text: string)
    requires Slashed(p) && Enforced.PublishablePath(p) && Told(text, "*").lines == Lines([p], [])
    ensures ToldRight(PathSite(p), text, Divergence.ANYBODY, "*")
  {
    forall input | Honest(PathSite(p), Divergence.ANYBODY, input) ensures Agree(PathSite(p), Told(text, "*"), input) {
      var d := PathSiteDecides(p, input);
      DisallowsWhatItStarts(Told(text, "*"), [p], input.request.path);
      StartsWithOne(p, input.request.path);
    }
  }

  /** For every path: one rule on it is published right if and only if the path holds no '#', no line break and no '*',
      and ends in no blank and in no '$'. */
  lemma PathIsPublishedExactly(p: string) returns (text: string)
    requires Slashed(p)
    ensures Valid(PathSite(p)) && Generated(PathSite(p)) == Success(text)
    ensures ToldRight(PathSite(p), text, Divergence.ANYBODY, "*") <==> Enforced.PublishablePath(p)
  {
    PathSiteIsValid(p);
    if Unmarked(p) {
      text := PathSiteReads(p);
      TrimmedPath(p);
      if Enforced.PublishablePath(p) {
        PublishablePathIsRight(p, text);
      } else {
        MisreadPathIsWrong(p, text);
      }
    } else {
      PathSiteGenerates(p);
      text := Generated(PathSite(p)).value;
      MarkedPathIsWrong(p, text);
      if Enforced.PublishablePath(p) {
        MarkedUnlessOneLine(p);
      }
    }
  }

  lemma PathSiteIsValid(p: string)
    ensures Valid(PathSite(p))
  {
    assert PathSite(p).bots[0].isDefault;
  }

  // ---------------------------------------------------------------- tokens

  /** The engine blocks just one of two requests for one path. */
  ghost predicate DecidedApart(cfg: Config, a: Input, b: Input) {
    var x, y := Decide(NewEngine(cfg), a), Decide(NewEngine(cfg), b);
    && a.request.path == b.request.path != "/robots.txt"
    && x.Success? && y.Success? && x.value.action.Block? != y.value.action.Block?
  }

  /** Two crawlers told the same and decided differently on one path: whatever the site and the file, one of them is
      told wrong. */
  lemma ToldAlikeIsWrong(cfg: Config, text: string, bot: BotConfig, other: BotConfig, s: string, t: string,
                         a: Input, b: Input)
    requires Told(text, s) == Told(text, t) && DecidedApart(cfg, a, b)
    requires Honest(cfg, bot, a) && Honest(cfg, other, b)
    ensures !(ToldRight(cfg, text, bot, s) && ToldRight(cfg, text, other, t))
  {
    assert !(Agree(cfg, Told(text, s), a) && Agree(cfg, Told(text, t), b));
  }

  /** So no site may give one token, cases aside, to two bots between which it makes a difference. */
  lemma SharedTokenMisleads(cfg: Config, text: string, bot: BotConfig, other: BotConfig, s: string, t: string,
                            a: Input, b: Input)
    requires Fold(s) == Fold(t) && DecidedApart(cfg, a, b) && Honest(cfg, bot, a) && Honest(cfg, other, b)
    ensures !(ToldRight(cfg, text, bot, s) && ToldRight(cfg, text, other, t))
  {
    ObeysAlike(Read(text), s, t);
    ToldAlikeIsWrong(cfg, text, bot, other, s, t, a, b);
  }

  /** Nor may a token with a mark be given to a bot that is not treated as everybody is. */
  lemma MarkedTokenMisleads(cfg: Config, text: string, bot: BotConfig, other: BotConfig, token: string,
                            a: Input, b: Input)
    requires !Unmarked(token) && DecidedApart(cfg, a, b) && Honest(cfg, bot, a) && Honest(cfg, other, b)
    ensures !(ToldRight(cfg, text, bot, token) && ToldRight(cfg, text, other, "*"))
  {
    MarkedTokenIsUnread(text, token);
    ToldAlikeIsWrong(cfg, text, bot, other, token, "*", a, b);
  }

  function Needled(needle: string): BotConfig { Crawler("a").(userAgents := [needle]) }

  function Unruled(needle: string): Config {
    Config("", Enforce, FailAllow, Allow, true, [], [Needled(needle), Divergence.ANYBODY], map[], [])
  }

  /** One crawler, refused everything, and everybody else, refused nothing. */
  function TokenSite(needle: string): Config {
    Divergence.Single(Unruled(needle), Ask(OfBot(BotId), Equals, Literal("a", '"')))
  }

  lemma TokenSiteDecides(needle: string, input: Input) returns (d: Decision)
    ensures Decide(NewEngine(TokenSite(needle)), input) == Success(d) && DelayOf(d.action) == 0
    ensures d.action.Block? <==> input.bot.id == "a"
  {
    OneRuleDecides(TokenSite(needle).rules[0], map[], input, input.bot.id == "a");
    d := Decide(NewEngine(TokenSite(needle)), input).value;
  }

  lemma TokenOfNeedle(needle: string)
    requires Trim(SPACES, needle) != ""
    ensures AgentsFor(Needled(needle)) == [Trim(SPACES, needle)]
  {
    assert TrimmedTokens([]) == [];
    assert [needle][..0] == [];
  }

  lemma TokenSiteIsAdopted(needle: string)
    requires Trim(SPACES, needle) != ""
    ensures Valid(TokenSite(needle)) && AllWellQuoted(TokenSite(needle))
  {
    assert TokenSite(needle).bots[1].isDefault;
  }

  lemma TokenSiteFinds(needle: string)
    ensures Found(TokenSite(needle)) == {"/"}
  {
    var l := Literal("a", '"');
    Divergence.ComparisonFinds(Unruled(needle), OfBot(BotId), Equals, l);
    NotSlashed(l);
    JustRoot(Found(TokenSite(needle)));
  }

  lemma NotSlashed(l: Literal)
    requires l.text == "a"
    ensures !Slashed(l.text) && PathsOfSets(map[], {}) == {}
  {
    assert l.text[0] != '/';
  }

  lemma JustRoot(paths: set<string>)
    requires forall p :: p in paths <==> p == "/"
    ensures paths == {"/"}
  {
  }

  lemma TokenSiteGenerates(needle: string) returns (text: string)
    requires Trim(SPACES, needle) != ""
    ensures Generated(TokenSite(needle)) == Success(text)
  {
    var cfg := TokenSite(needle);
    forall bot ensures ProbeAll(cfg, NewEngine(cfg), bot, CandidatePaths(cfg)).Success? {
      ProbesSucceed(needle, bot, CandidatePaths(cfg));
    }
    BotsBuildIfProbed(cfg, NewEngine(cfg), cfg.bots, CandidatePaths(cfg));
    text := Generated(cfg).value;
  }

  lemma ProbesSucceed(needle: string, bot: BotConfig, paths: seq<string>)
    ensures ProbeAll(TokenSite(needle), NewEngine(TokenSite(needle)), bot, paths).Success?
  {
    var cfg := TokenSite(needle);
    ProbeAllAnswers(cfg, NewEngine(cfg), bot, paths);
    forall p ensures Decide(NewEngine(cfg), ProbeInput(cfg, bot, p)).Success? {
      var d := TokenSiteDecides(needle, ProbeInput(cfg, bot, p));
    }
  }

  lemma BuildsIfProbed(cfg: Config, engine: Engine, bot: BotConfig, paths: seq<string>)
    requires ProbeAll(cfg, engine, bot, paths).Success?
    ensures Build(cfg, engine, bot, paths).Success?
  {
  }

  lemma {:induction false} BotsBuildIfProbed(cfg: Config, engine: Engine, bots: seq<BotConfig>, paths: seq<string>)
    requires forall bot :: ProbeAll(cfg, engine, bot, paths).Success?
    ensures BuildAll(cfg, engine, bots, paths).Success?
  {
    if |bots| > 0 {
      BotsBuildIfProbed(cfg, engine, bots[..|bots| - 1], paths);
      BuildsIfProbed(cfg, engine, bots[|bots| - 1], paths);
    }
  }

  lemma TokensOfSite(needle: string, token: string)
    requires Trim(SPACES, needle) != ""
    ensures Enforced.TokenOf(Needled(needle), token) <==> Fold(Trim(SPACES, needle)) == Fold(token)
    ensures Enforced.TokenOf(Divergence.ANYBODY, token) <==> Fold(token) == Fold("*")
  {
    Enforced.StarFoldsAlone(token);
    assert Needled(needle).userAgents == [needle] && [needle][0] in [needle];
  }

  lemma TokenSiteIsPublishable(needle: string)
    requires var token := Trim(SPACES, needle); token != "" && Unmarked(token) && token != "*"
    ensures Enforced.Publishable(TokenSite(needle))
  {
    var cfg := TokenSite(needle);
    TokenSiteIsAdopted(needle);
    TokenSiteFinds(needle);
    TokenOfNeedle(needle);
    UnmarkedIsOneLine(Trim(SPACES, needle));
    Divergence.OnlyRootIsSafe(cfg);
    Divergence.RootIsPublishable();
    Divergence.AnybodyIsPublishable();
    TokensAreApart(needle);
  }

  lemma TokensAreApart(needle: string)
    requires Trim(SPACES, needle) != "" && Trim(SPACES, needle) != "*"
    ensures Enforced.TokensApart(TokenSite(needle).bots)
  {
    Enforced.StarFoldsAlone(Trim(SPACES, needle));
    forall token ensures !(Enforced.TokenOf(Needled(needle), token) && Enforced.TokenOf(Divergence.ANYBODY, token)) {
      TokensOfSite(needle, token);
    }
    TwoApart(Needled(needle), Divergence.ANYBODY);
  }

  lemma TwoApart(a: BotConfig, b: BotConfig)
    requires forall token :: !(Enforced.TokenOf(a, token) && Enforced.TokenOf(b, token))
    ensures Enforced.TokensApart([a, b])
  {
  }

  lemma TokenSiteSpeaks(needle: string, bot: BotConfig, input: Input)
    requires Honest(TokenSite(needle), bot, input)
    ensures SpokenFor(TokenSite(needle), bot, input)
  {
  }

  lemma TokenSiteIsRight(needle: string, text: string, i: nat, token: string)
    requires Enforced.Publishable(TokenSite(needle)) && Generated(TokenSite(needle)) == Success(text)
    requires i < 2 && Enforced.Addresses(TokenSite(needle), i, token)
    ensures ToldRight(TokenSite(needle), text, TokenSite(needle).bots[i], token)
  {
    var cfg := TokenSite(needle);
    forall input | Honest(cfg, cfg.bots[i], input) ensures Agree(cfg, Told(text, token), input) {
      TokenSiteSpeaks(needle, cfg.bots[i], input);
      Enforced.PublishedFileIsTheEnforcedAnswer(cfg, text, i, token, input);
    }
  }

  /** What the crawler is told, everybody is. */
  lemma UnreadTokenIsWrong(needle: string, text: string, token: string)
    requires Told(text, token) == Told(text, "*")
    ensures !(ToldRight(TokenSite(needle), text, Needled(needle), token)
              && ToldRight(TokenSite(needle), text, Divergence.ANYBODY, "*"))
  {
    var a, b := TokenSiteDiffers(needle);
    ToldAlikeIsWrong(TokenSite(needle), text, Needled(needle), Divergence.ANYBODY, token, "*", a, b);
  }

  lemma TokenSiteDiffers(needle: string) returns (a: Input, b: Input)
    ensures Honest(TokenSite(needle), Needled(needle), a) && Honest(TokenSite(needle), Divergence.ANYBODY, b)
    ensures DecidedApart(TokenSite(needle), a, b)
  {
    a := ProbeInput(TokenSite(needle), Needled(needle), "/");
    b := ProbeInput(TokenSite(needle), Divergence.ANYBODY, "/");
    var d := TokenSiteDecides(needle, a);
    var e := TokenSiteDecides(needle, b);
  }

  lemma TokenSiteAddresses(needle: string)
    requires var token := Trim(SPACES, needle); token != "" && token != "*"
    ensures Enforced.Addresses(TokenSite(needle), 0, Trim(SPACES, needle))
    ensures Enforced.Addresses(TokenSite(needle), 1, "*")
  {
    TokensOfSite(needle, Trim(SPACES, needle));
    TokensOfSite(needle, "*");
  }

  /** For every user agent a bot can be configured with: its crawler and everybody else are told right if and only if
      the token holds no '#' and no line break and is not '*'. */
  lemma TokenIsReadExactly(needle: string) returns (text: string)
    requires Trim(SPACES, needle) != ""
    ensures var cfg, token := TokenSite(needle), Trim(SPACES, needle);
            && Valid(cfg) && Generated(cfg) == Success(text)
            && (ToldRight(cfg, text, cfg.bots[0], token) && ToldRight(cfg, text, cfg.bots[1], "*")
                <==> Unmarked(token) && token != "*")
  {
    var token := Trim(SPACES, needle);
    TokenSiteIsAdopted(needle);
    text := TokenSiteGenerates(needle);
    if Unmarked(token) && token != "*" {
      TokenSiteIsPublishable(needle);
      TokenSiteAddresses(needle);
      TokenSiteIsRight(needle, text, 0, token);
      TokenSiteIsRight(needle, text, 1, "*");
    } else {
      if !Unmarked(token) {
        MarkedTokenIsUnread(text, token);
      }
      UnreadTokenIsWrong(needle, text, token);
    }
  }
}
