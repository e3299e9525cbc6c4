/** The text of the generated file, and the whole of generation. */
module Render {
  import opened Text
  import opened Policy
  import opened Config
  import opened Directives
  import opened Probe
  import opened Robots

  function Header(): string {
    "# Generated by crawlwall " + "from the enforced policy. " + "Do not edit by hand."
  }

  function ModeNote(mode: Mode): seq<string> {
    if mode == Enforce then []
    else ["# Site mode is \"" + ModeText(mode) + "\", so these rules are not " + "currently enforced at the edge."]
  }

  function Each(prefix: string, values: seq<string>): seq<string> {
    if |values| == 0 then [] else Each(prefix, values[..|values| - 1]) + [prefix + values[|values| - 1]]
  }

  function GroupHead(g: Group): seq<string> {
    [""] + Each("User-agent: ", g.agents) + Each("Disallow: ", g.lines.disallow) + Each("Allow: ", g.lines.allow)
  }

  /** The canonical way to say that nothing is off limits. */
  function NoneLine(g: Group): seq<string> { if |g.lines.disallow| == 0 then ["Disallow:"] else [] }

  function DelayLine(g: Group): seq<string> {
    if g.crawlDelay > 0 then ["Crawl-delay: " + Digits(g.crawlDelay)] else []
  }

  function GroupTail(g: Group): seq<string> { NoneLine(g) + DelayLine(g) }

  function GroupLines(g: Group): seq<string> { GroupHead(g) + GroupTail(g) }

  function AllGroupLines(groups: seq<Group>): seq<string> {
    if |groups| == 0 then [] else AllGroupLines(groups[..|groups| - 1]) + GroupLines(groups[|groups| - 1])
  }

  function SitemapLines(sitemaps: seq<string>): seq<string> {
    if |sitemaps| == 0 then []
    else
      var sitemap := Trim(SPACES, sitemaps[|sitemaps| - 1]);
      SitemapLines(sitemaps[..|sitemaps| - 1]) + if sitemap != "" then ["", "Sitemap: " + sitemap] else []
  }

  function FileLines(cfg: Config, groups: seq<Group>): seq<string> {
    [Header()] + ModeNote(cfg.mode) + AllGroupLines(groups) + SitemapLines(cfg.sitemaps)
  }

  lemma {:induction false} EachMembers(prefix: string, values: seq<string>, line: string)
    ensures line in Each(prefix, values) <==> exists v :: v in values && line == prefix + v
  {
    if |values| > 0 {
      var front, last := values[..|values| - 1], values[|values| - 1];
      assert values == front + [last];
      EachMembers(prefix, front, line);
    }
  }

  /** A line with a comment or a site map in it. */
  predicate Aside(line: string) { line != "" && (line[0] == '#' || line[0] == 'S') }

  lemma {:induction false} GroupsSayNothingAside(groups: seq<Group>, line: string)
    requires Aside(line)
    ensures line !in AllGroupLines(groups)
  {
    if |groups| > 0 {
      var front, g := groups[..|groups| - 1], groups[|groups| - 1];
      GroupsSayNothingAside(front, line);
      EachMembers("User-agent: ", g.agents, line);
      EachMembers("Disallow: ", g.lines.disallow, line);
      EachMembers("Allow: ", g.lines.allow, line);
      GroupSaysNothingAside(g, line);
    }
  }

  lemma GroupSaysNothingAside(g: Group, line: string)
    requires Aside(line)
    requires line in Each("User-agent: ", g.agents) ==> exists v :: line == "User-agent: " + v
    requires line in Each("Disallow: ", g.lines.disallow) ==> exists v :: line == "Disallow: " + v
    requires line in Each("Allow: ", g.lines.allow) ==> exists v :: line == "Allow: " + v
    ensures line !in GroupLines(g)
  {
    forall v ensures ("User-agent: " + v)[0] == 'U' && ("Disallow: " + v)[0] == 'D' && ("Allow: " + v)[0] == 'A' {}
    assert "Disallow:"[0] == 'D' && ("Crawl-delay: " + Digits(g.crawlDelay))[0] == 'C';
  }

  lemma {:induction false} SitemapMembers(sitemaps: seq<string>, line: string)
    ensures line in SitemapLines(sitemaps)
       <==> exists s :: s in sitemaps && Trim(SPACES, s) != "" && (line == "" || line == "Sitemap: " + Trim(SPACES, s))
  {
    if |sitemaps| > 0 {
      var front, last := sitemaps[..|sitemaps| - 1], sitemaps[|sitemaps| - 1];
      assert sitemaps == front + [last];
      SitemapMembers(front, line);
    }
  }

  /** The file names every configured site map that is not blank, and no other. */
  lemma SitemapsAreListed(cfg: Config, groups: seq<Group>, url: string)
    requires url != ""
    ensures "Sitemap: " + url in FileLines(cfg, groups) <==> exists s :: s in cfg.sitemaps && Trim(SPACES, s) == url
  {
    var line := "Sitemap: " + url;
    assert line[0] == 'S';
    GroupsSayNothingAside(groups, line);
    SitemapMembers(cfg.sitemaps, line);
    assert Header()[0] == '#' && forall l :: l in ModeNote(cfg.mode) ==> l[0] == '#';
    forall s: string ensures line == "Sitemap: " + s <==> s == url {
      assert line[9..] == url && ("Sitemap: " + s)[9..] == s;
    }
  }

  /** The file carries the remark that it is not enforced exactly when the site does not enforce. */
  lemma RemarkIsExact(cfg: Config, groups: seq<Group>)
    ensures (exists line :: line in FileLines(cfg, groups) && "# Site mode is " <= line) <==> cfg.mode != Enforce
  {
    forall line | line in FileLines(cfg, groups) && "# Site mode is " <= line ensures line in ModeNote(cfg.mode) {
      RemarkIsTheNote(cfg, groups, line);
    }
    if cfg.mode != Enforce {
      NoteStartsLikeThat(ModeText(cfg.mode));
      assert ModeNote(cfg.mode)[0] in FileLines(cfg, groups);
    }
  }

  lemma NoteStartsLikeThat(name: string)
    ensures "# Site mode is "
         <= "# Site mode is \"" + name + "\", so these rules are not " + "currently enforced at the edge."
  {
    var rest := "\"" + name + "\", so these rules are not " + "currently enforced at the edge.";
    assert "# Site mode is \"" + name + "\", so these rules are not " + "currently enforced at the edge."
        == "# Site mode is " + rest;
  }

  lemma RemarkIsTheNote(cfg: Config, groups: seq<Group>, line: string)
    requires line in FileLines(cfg, groups) && "# Site mode is " <= line
    ensures line in ModeNote(cfg.mode)
  {
    assert line[0] == "# Site mode is "[0] == '#' && line[2] == "# Site mode is "[2] == 'S';
    GroupsSayNothingAside(groups, line);
    SitemapMembers(cfg.sitemaps, line);
    forall s: string ensures ("Sitemap: " + s)[0] == 'S' {}
    assert Header()[2] == 'G';
  }

  lemma WritesLine(lines: seq<string>, line: string)
    ensures Unlines(lines + [line]) == Unlines(lines) + line + "\n"
  {
    UnlinesAppends(lines, [line]);
    assert Unlines([line]) == line + "\n";
  }

  /** The writers extend the text of the lines written so far. */
  method WriteEach(out: string, ghost lines: seq<string>, prefix: string, values: seq<string>) returns (longer: string)
    requires out == Unlines(lines)
    ensures longer == Unlines(lines + Each(prefix, values))
  {
    longer := out;
    assert lines + Each(prefix, values[..0]) == lines;
    for i := 0 to |values|
      invariant longer == Unlines(lines + Each(prefix, values[..i]))
    {
      assert values[..i + 1][..i] == values[..i];
      WritesLine(lines + Each(prefix, values[..i]), prefix + values[i]);
      assert lines + Each(prefix, values[..i]) + [prefix + values[i]] == lines + Each(prefix, values[..i + 1]);
      longer := longer + (prefix + values[i]) + "\n";
    }
    assert values[..|values|] == values;
  }

  lemma HeadInSteps(lines: seq<string>, g: Group)
    ensures lines + [""] + Each("User-agent: ", g.agents) + Each("Disallow: ", g.lines.disallow)
            + Each("Allow: ", g.lines.allow)
         == lines + GroupHead(g)
  {
    var a, d, p := Each("User-agent: ", g.agents), Each("Disallow: ", g.lines.disallow), Each("Allow: ", g.lines.allow);
    Regroups(lines, [""], a, d, p);
  }

  lemma Regroups<T>(x: seq<T>, a: seq<T>, b: seq<T>, c: seq<T>, d: seq<T>)
    ensures x + a + b + c + d == x + (a + b + c + d)
  {
  }

  method WriteHead(out: string, ghost lines: seq<string>, g: Group) returns (longer: string)
    requires out == Unlines(lines)
    ensures longer == Unlines(lines + GroupHead(g))
  {
    ghost var agents, denies := Each("User-agent: ", g.agents), Each("Disallow: ", g.lines.disallow);
    WritesLine(lines, "");
    assert out + "" + "\n" == out + "\n";
    longer := out + "\n";
    longer := WriteEach(longer, lines + [""], "User-agent: ", g.agents);
    longer := WriteEach(longer, lines + [""] + agents, "Disallow: ", g.lines.disallow);
    longer := WriteEach(longer, lines + [""] + agents + denies, "Allow: ", g.lines.allow);
    HeadInSteps(lines, g);
  }

  method WriteTail(out: string, ghost lines: seq<string>, g: Group) returns (longer: string)
    requires out == Unlines(lines)
    ensures longer == Unlines(lines + GroupTail(g))
  {
    longer := out;
    ghost var written := lines;
    if |g.lines.disallow| == 0 {
      WritesLine(written, "Disallow:");
      longer := longer + "Disallow:" + "\n";
      written := written + ["Disallow:"];
    }
    if g.crawlDelay > 0 {
      var line := "Crawl-delay: " + Digits(g.crawlDelay);
      WritesLine(written, line);
      longer := longer + line + "\n";
      written := written + [line];
    }
    assert written == lines + GroupTail(g);
  }

  method WriteGroup(out: string, ghost lines: seq<string>, g: Group) returns (longer: string)
    requires out == Unlines(lines)
    ensures longer == Unlines(lines + GroupLines(g))
  {
    longer := WriteHead(out, lines, g);
    longer := WriteTail(longer, lines + GroupHead(g), g);
    assert lines + GroupHead(g) + GroupTail(g) == lines + GroupLines(g);
  }

  method WriteSitemaps(out: string, ghost lines: seq<string>, sitemaps: seq<string>) returns (longer: string)
    requires out == Unlines(lines)
    ensures longer == Unlines(lines + SitemapLines(sitemaps))
  {
    longer := out;
    ghost var written := lines;
    for i := 0 to |sitemaps|
      invariant longer == Unlines(written) && written == lines + SitemapLines(sitemaps[..i])
    {
      assert sitemaps[..i + 1][..i] == sitemaps[..i];
      var sitemap := Trim(SPACES, sitemaps[i]);
      if sitemap != "" {
        WritesLine(written, "");
        WritesLine(written + [""], "Sitemap: " + sitemap);
        longer := longer + "" + "\n" + ("Sitemap: " + sitemap) + "\n";
        written := written + [""] + ["Sitemap: " + sitemap];
      }
    }
    assert sitemaps[..|sitemaps|] == sitemaps;
  }

  method WriteIntro(mode: Mode) returns (out: string)
    ensures out == Unlines([Header()] + ModeNote(mode))
  {
    WritesLine([], Header());
    assert [] + [Header()] == [Header()];
    assert "" + Header() == Header();
    out := Header() + "\n";
    if mode != Enforce {
      WritesLine([Header()], ModeNote(mode)[0]);
      out := out + ModeNote(mode)[0] + "\n";
    } else {
      assert [Header()] + ModeNote(mode) == [Header()];
    }
  }

  lemma AllGroupLinesGrow(groups: seq<Group>, i: nat)
    requires i < |groups|
    ensures AllGroupLines(groups[..i + 1]) == AllGroupLines(groups[..i]) + GroupLines(groups[i])
  {
    assert groups[..i + 1][..i] == groups[..i];
  }

  lemma Appended(lines: seq<string>, a: seq<string>, b: seq<string>)
    ensures lines + (a + b) == (lines + a) + b
  {
  }

  method WriteGroups(out: string, ghost lines: seq<string>, groups: seq<Group>) returns (longer: string)
    requires out == Unlines(lines)
    ensures longer == Unlines(lines + AllGroupLines(groups))
  {
    longer := out;
    ghost var written := lines;
    for i := 0 to |groups|
      invariant longer == Unlines(written) && written == lines + AllGroupLines(groups[..i])
    {
      longer := WriteGroup(longer, written, groups[i]);
      AllGroupLinesGrow(groups, i);
      Appended(lines, AllGroupLines(groups[..i]), GroupLines(groups[i]));
      written := written + GroupLines(groups[i]);
    }
    assert groups[..|groups|] == groups;
  }

  method RenderFile(cfg: Config, groups: seq<Group>) returns (out: string)
    ensures out == Unlines(FileLines(cfg, groups))
  {
    out := WriteIntro(cfg.mode);
    ghost var intro := [Header()] + ModeNote(cfg.mode);
    out := WriteGroups(out, intro, groups);
    out := WriteSitemaps(out, intro + AllGroupLines(groups), cfg.sitemaps);
  }

  // ---------------------------------------------------------------- generation

  /** The groups of the bots that have an agent to be named by, in configuration order. */
  function BuildAll(cfg: Config, engine: Engine, bots: seq<BotConfig>, paths: seq<string>): Result<seq<Group>, string> {
    if |bots| == 0 then Success([])
    else match BuildAll(cfg, engine, bots[..|bots| - 1], paths)
      case Failure(rule) => Failure(rule)
      case Success(groups) =>
        match Build(cfg, engine, bots[|bots| - 1], paths)
        case Failure(rule) => Failure(rule)
        case Success(g) => Success(if |g.agents| > 0 then groups + [g] else groups)
  }

  ghost function Generated(cfg: Config): Result<string, string> {
    match BuildAll(cfg, NewEngine(cfg), cfg.bots, CandidatePaths(cfg))
    case Failure(rule) => Failure(rule)
    case Success(groups) => Success(Unlines(FileLines(cfg, Merge(groups))))
  }

  lemma {:induction false} BuildAllFails(cfg: Config, engine: Engine, bots: seq<BotConfig>, paths: seq<string>, i: nat)
    requires i <= |bots| && BuildAll(cfg, engine, bots[..i], paths).Failure?
    ensures BuildAll(cfg, engine, bots, paths) == BuildAll(cfg, engine, bots[..i], paths)
  {
    if i < |bots| {
      assert bots[..|bots| - 1][..i] == bots[..i];
      BuildAllFails(cfg, engine, bots[..|bots| - 1], paths, i);
    } else {
      assert bots[..i] == bots;
    }
  }

  lemma BuildAllNext(cfg: Config, engine: Engine, bots: seq<BotConfig>, paths: seq<string>, i: nat, groups: seq<Group>)
    requires i < |bots| && BuildAll(cfg, engine, bots[..i], paths) == Success(groups)
    ensures BuildAll(cfg, engine, bots[..i + 1], paths) ==
            match Build(cfg, engine, bots[i], paths)
            case Failure(rule) => Failure(rule)
            case Success(g) => Success(if |g.agents| > 0 then groups + [g] else groups)
  {
    assert bots[..i + 1][..i] == bots[..i];
  }

  method BuildGroups(cfg: Config, engine: Engine, paths: seq<string>) returns (r: Result<seq<Group>, string>)
    ensures r == BuildAll(cfg, engine, cfg.bots, paths)
  {
    var groups: seq<Group> := [];
    for i := 0 to |cfg.bots|
      invariant BuildAll(cfg, engine, cfg.bots[..i], paths) == Success(groups)
    {
      BuildAllNext(cfg, engine, cfg.bots, paths, i, groups);
      var built := BuildGroup(cfg, engine, cfg.bots[i], paths);
      if built.Failure? {
        BuildAllFails(cfg, engine, cfg.bots, paths, i + 1);
        return Failure(built.error);
      }
      if |built.value.agents| > 0 {
        groups := groups + [built.value];
      }
    }
    assert cfg.bots[..|cfg.bots|] == cfg.bots;
    r := Success(groups);
  }

  method Generate(cfg: Config) returns (r: Result<string, string>)
    ensures r == Generated(cfg)
  {
    var rules := CompileRules(cfg.rules);
    var paths := Candidates(cfg);
    var built := BuildGroups(cfg, Engine(rules, cfg.sets, cfg.defaultAction), paths);
    if built.Failure? {
      return Failure(built.error);
    }
    var merged := MergeGroups(built.value);
    var text := RenderFile(cfg, merged);
    r := Success(text);
  }
}
