/** The README's claim for the generated file: read as a crawler reads it, it is the enforced answer. */
module Published {
  import opened Text
  import opened Policy
  import opened Config
  import opened Directives
  import opened Probe
  import opened Robots
  import opened Render
  import opened Reader

  // ---------------------------------------------------------------- one line

  /** A value that survives being written on a line and read back. */
  predicate Clean(value: string) { '#' !in value && Trimmed(BLANKS, value) }

  lemma PositionIs(s: string, c: char, at: nat)
    requires at <= |s| && (at < |s| ==> s[at] == c)
    requires forall i :: 0 <= i < at ==> s[i] != c
    ensures Position(s, c) == at
  {
  }

  lemma TrimLeftKeeps(value: string)
    requires value != "" ==> value[0] !in BLANKS
    ensures TrimLeft(BLANKS, value) == value
    ensures TrimLeft(BLANKS, " " + value) == value
  {
    assert (" " + value)[1..] == value;
  }

  lemma TrimKeeps(value: string)
    requires Trimmed(BLANKS, value)
    ensures Trim(BLANKS, value) == value
    ensures Trim(BLANKS, " " + value) == value
  {
    TrimLeftKeeps(value);
  }

  lemma ParseKeyed(key: string, value: string)
    requires '#' !in key && ':' !in key && '#' !in value
    ensures ParseLine(key + ": " + value) == ParsePair(Text.Fold(Trim(BLANKS, key)), Trim(BLANKS, " " + value))
  {
    var raw := key + ": " + value;
    assert forall i :: 0 <= i < |raw| ==> raw[i] in key || raw[i] in value || raw[i] == ':' || raw[i] == ' ';
    PositionIs(raw, '#', |raw|);
    assert raw[..|raw|] == raw;
    assert raw[..|key|] == key;
    assert forall i :: 0 <= i < |key| ==> raw[i] == key[i];
    PositionIs(raw, ':', |key|);
    assert raw[|key| + 1..] == " " + value;
  }

  lemma KeyFolds(key: string, folded: string)
    requires key != "" && Trimmed(BLANKS, key) && |folded| == |key|
    requires forall i :: 0 <= i < |key| ==> FoldChar(key[i]) == folded[i]
    ensures Text.Fold(Trim(BLANKS, key)) == folded
  {
    TrimKeeps(key);
  }

  /** A clean value behind a key comes back as the value of the folded key. */
  lemma ParseClean(key: string, folded: string, value: string)
    requires key != "" && '#' !in key && ':' !in key && Trimmed(BLANKS, key) && |folded| == |key|
    requires forall i :: 0 <= i < |key| ==> FoldChar(key[i]) == folded[i]
    requires Clean(value)
    ensures ParseLine(key + ": " + value) == ParsePair(folded, value)
  {
    ParseKeyed(key, value);
    KeyFolds(key, folded);
    TrimKeeps(value);
  }

  lemma ParseAgent(value: string)
    requires Clean(value) && value != ""
    ensures ParseLine("User-agent: " + value) == Agent(value)
  {
    ParseClean("User-agent", "user-agent", value);
    assert "User-agent" + ": " + value == "User-agent: " + value;
  }

  lemma ParsePermit(value: string)
    requires Clean(value)
    ensures ParseLine("Allow: " + value) == Permit(value)
  {
    ParseClean("Allow", "allow", value);
    assert "Allow" + ": " + value == "Allow: " + value;
  }

  lemma ParseDeny(value: string)
    requires Clean(value)
    ensures ParseLine("Disallow: " + value) == Deny(value)
  {
    ParseClean("Disallow", "disallow", value);
    assert "Disallow" + ": " + value == "Disallow: " + value;
  }

  lemma DigitsAreClean(n: nat)
    ensures Clean(Digits(n)) && OneLine(Digits(n))
  {
    DigitsRoundTrip(n);
    var d := Digits(n);
    forall i | 0 <= i < |d| ensures IsDigit(d[i]) {
      assert d[i] in d;
    }
  }

  lemma ParseDelayValue(value: string, n: nat)
    requires Clean(value) && ParseNat(value) == Some(n)
    ensures ParseLine("Crawl-delay: " + value) == Delay(n)
  {
    ParseClean("Crawl-delay", "crawl-delay", value);
    assert "Crawl-delay" + ": " + value == "Crawl-delay: " + value;
  }

  lemma ParseDelay(n: nat)
    ensures ParseLine("Crawl-delay: " + Digits(n)) == Delay(n)
  {
    DigitsAreClean(n);
    DigitsRoundTrip(n);
    ParseDelayValue(Digits(n), n);
  }

  lemma ParseBare(key: string, folded: string)
    requires key != "" && '#' !in key && ':' !in key && Trimmed(BLANKS, key) && |folded| == |key|
    requires forall i :: 0 <= i < |key| ==> FoldChar(key[i]) == folded[i]
    ensures ParseLine(key + ":") == ParsePair(folded, "")
  {
    var raw := key + ":";
    assert forall i :: 0 <= i < |raw| ==> raw[i] in key || raw[i] == ':';
    PositionIs(raw, '#', |raw|);
    assert raw[..|raw|] == raw;
    assert raw[..|key|] == key && raw[|key| + 1..] == "";
    assert forall i :: 0 <= i < |key| ==> raw[i] == key[i];
    PositionIs(raw, ':', |key|);
    KeyFolds(key, folded);
  }

  lemma ParseEmptyDeny()
    ensures ParseLine("Disallow:") == Deny("")
  {
    ParseBare("Disallow", "disallow");
    assert "Disallow" + ":" == "Disallow:";
  }

  lemma ParseEmptyLine()
    ensures ParseLine("") == Skip
  {
  }

  lemma ParseComment(raw: string)
    requires raw != "" && raw[0] == '#'
    ensures ParseLine(raw) == Skip
  {
    PositionIs(raw, '#', 0);
  }

  lemma ParseSitemap(value: string)
    ensures ParseLine("Sitemap: " + value) == Skip
  {
    var raw := "Sitemap: " + value;
    var cut := Position(raw, '#');
    assert raw[..9] == "Sitemap: ";
    assert forall i :: 0 <= i < 9 ==> raw[i] == "Sitemap: "[i];
    var line := raw[..cut];
    assert line[..7] == "Sitemap" && line[7] == ':';
    PositionIs(line, ':', 7);
    TrimKeeps("Sitemap");
  }

  lemma ReadValueIsClean(raw: string, value: string)
    requires ParseLine(raw) == Deny(value)
    ensures Clean(value)
  {
    var line := raw[..Position(raw, '#')];
    var rest := line[Position(line, ':') + 1..];
    assert value == Trim(BLANKS, rest);
    TrimTrims(BLANKS, rest);
    assert forall c :: c in rest ==> c in line;
  }

  /** What a reader makes of a text, line by line. */
  function Parsed(text: string): seq<Directive> {
    var lines := Text.Lines(text);
    seq(|lines|, i requires 0 <= i < |lines| => ParseLine(lines[i]))
  }

  lemma WrittenLineParses(line: string)
    requires OneLine(line)
    ensures Parsed(line + "\n") == [ParseLine(line), Skip]
  {
    LinesFromLine("", line, "");
    assert "" + line == line && line + "\n" + "" == line + "\n";
    ParseEmptyLine();
  }

  lemma ParsedDenyIsOneLine(text: string, i: nat, path: string)
    requires i < |Parsed(text)| && Parsed(text)[i] == Deny(path)
    ensures OneLine(path) && Clean(path)
  {
    LinesAreOneLine("", text);
    var raw := Text.Lines(text)[i];
    assert raw in Text.Lines(text);
    LineIsUnmarked(raw);
    ReadValueIsClean(raw, path);
    forall k | 0 <= k < |path| ensures !Break(path[k]) {
      assert path[k] in path;
    }
  }

  /** A path comes back from its line of the file exactly when it holds no '#' and no line break and ends in no
      blank. */
  lemma DenyRoundTripIsExact(path: string)
    requires Slashed(path)
    ensures Parsed("Disallow: " + path + "\n") == [Deny(path), Skip] <==> Clean(path) && OneLine(path)
  {
    if Clean(path) && OneLine(path) {
      ParseDeny(path);
      OneLineJoins("Disallow: ", path);
      WrittenLineParses("Disallow: " + path);
    } else if Parsed("Disallow: " + path + "\n") == [Deny(path), Skip] {
      ParsedDenyIsOneLine("Disallow: " + path + "\n", 0, path);
    }
  }

  // ---------------------------------------------------------------- one group

  function RecordOf(g: Group): Record { Record(g.agents, g.lines, g.crawlDelay) }

  ghost predicate Readable(g: Group) {
    && |g.agents| > 0
    && (forall a :: a in g.agents ==> Clean(a) && a != "" && OneLine(a))
    && (forall p :: p in g.lines.disallow || p in g.lines.allow ==> Clean(p) && p != "" && OneLine(p))
  }

  lemma OneMoreAgent(records: seq<Record>, agents: seq<string>, a: string, st: State)
    requires st == if |agents| == 0 then State(records, false)
                   else State(records + [Record(agents, Lines([], []), 0)], true)
    ensures Step(st, Agent(a)) == State(records + [Record(agents + [a], Lines([], []), 0)], true)
  {
    if |agents| == 0 {
      assert agents + [a] == [a];
    } else {
      assert (records + [Record(agents, Lines([], []), 0)])[..|records|] == records;
    }
  }

  lemma EachGrows(prefix: string, values: seq<string>, value: string)
    ensures Each(prefix, values + [value]) == Each(prefix, values) + [prefix + value]
  {
    assert (values + [value])[..|values|] == values;
  }

  lemma RunGrows(st: State, lines: seq<string>, line: string)
    ensures Run(st, lines + [line]) == Step(Run(st, lines), ParseLine(line))
  {
    assert (lines + [line])[..|lines|] == lines;
  }

  lemma {:induction false} RunAgents(records: seq<Record>, agents: seq<string>)
    requires |agents| > 0 && forall a :: a in agents ==> Clean(a) && a != ""
    ensures Run(State(records, false), Each("User-agent: ", agents))
         == State(records + [Record(agents, Lines([], []), 0)], true)
  {
    var front, a := agents[..|agents| - 1], agents[|agents| - 1];
    assert agents == front + [a] && a in agents && forall x :: x in front ==> x in agents;
    var lines := Each("User-agent: ", front);
    if |front| > 0 {
      RunAgents(records, front);
    }
    ParseAgent(a);
    EachGrows("User-agent: ", front, a);
    RunGrows(State(records, false), lines, "User-agent: " + a);
    OneMoreAgent(records, front, a, Run(State(records, false), lines));
  }

  /** A list of parsed lines, taken one after the other. */
  function Steps(st: State, ds: seq<Directive>): State {
    if |ds| == 0 then st else Step(Steps(st, ds[..|ds| - 1]), ds[|ds| - 1])
  }

  lemma {:induction false} RunIsSteps(st: State, lines: seq<string>, ds: seq<Directive>)
    requires |lines| == |ds| && forall i :: 0 <= i < |lines| ==> ParseLine(lines[i]) == ds[i]
    ensures Run(st, lines) == Steps(st, ds)
  {
    if |lines| > 0 {
      RunIsSteps(st, lines[..|lines| - 1], ds[..|ds| - 1]);
    }
  }

  lemma {:induction false} EachLine(prefix: string, values: seq<string>)
    ensures |Each(prefix, values)| == |values|
    ensures forall i :: 0 <= i < |values| ==> Each(prefix, values)[i] == prefix + values[i]
  {
    if |values| > 0 {
      EachLine(prefix, values[..|values| - 1]);
    }
  }

  lemma {:induction false} StepsDenies(records: seq<Record>, r: Record, open: bool, paths: seq<string>)
    requires forall p :: p in paths ==> p != ""
    ensures Steps(State(records + [r], open), seq(|paths|, i requires 0 <= i < |paths| => Deny(paths[i])))
         == State(records + [r.(lines := r.lines.(disallow := r.lines.disallow + paths))], open && |paths| == 0)
  {
    if |paths| > 0 {
      var front, p := paths[..|paths| - 1], paths[|paths| - 1];
      var sofar := r.(lines := r.lines.(disallow := r.lines.disallow + front));
      assert p in paths && forall x :: x in front ==> x in paths;
      StepsDenies(records, r, open, front);
      assert seq(|paths|, i requires 0 <= i < |paths| => Deny(paths[i]))[..|front|]
          == seq(|front|, i requires 0 <= i < |front| => Deny(front[i]));
      assert (records + [sofar])[..|records|] == records;
      assert r.lines.disallow + front + [p] == r.lines.disallow + paths;
    } else {
      assert r.lines.disallow + paths == r.lines.disallow;
    }
  }

  lemma RunDenies(records: seq<Record>, r: Record, open: bool, paths: seq<string>)
    requires forall p :: p in paths ==> Clean(p) && p != ""
    ensures Run(State(records + [r], open), Each("Disallow: ", paths))
         == State(records + [r.(lines := r.lines.(disallow := r.lines.disallow + paths))], open && |paths| == 0)
  {
    var ds := seq(|paths|, i requires 0 <= i < |paths| => Deny(paths[i]));
    EachLine("Disallow: ", paths);
    forall i | 0 <= i < |paths| ensures ParseLine("Disallow: " + paths[i]) == Deny(paths[i]) {
      assert paths[i] in paths;
      ParseDeny(paths[i]);
    }
    RunIsSteps(State(records + [r], open), Each("Disallow: ", paths), ds);
    StepsDenies(records, r, open, paths);
  }

  lemma {:induction false} StepsPermits(records: seq<Record>, r: Record, open: bool, paths: seq<string>)
    requires forall p :: p in paths ==> p != ""
    ensures Steps(State(records + [r], open), seq(|paths|, i requires 0 <= i < |paths| => Permit(paths[i])))
         == State(records + [r.(lines := r.lines.(allow := r.lines.allow + paths))], open && |paths| == 0)
  {
    if |paths| > 0 {
      var front, p := paths[..|paths| - 1], paths[|paths| - 1];
      var sofar := r.(lines := r.lines.(allow := r.lines.allow + front));
      assert p in paths && forall x :: x in front ==> x in paths;
      StepsPermits(records, r, open, front);
      assert seq(|paths|, i requires 0 <= i < |paths| => Permit(paths[i]))[..|front|]
          == seq(|front|, i requires 0 <= i < |front| => Permit(front[i]));
      assert (records + [sofar])[..|records|] == records;
      assert r.lines.allow + front + [p] == r.lines.allow + paths;
    } else {
      assert r.lines.allow + paths == r.lines.allow;
    }
  }

  lemma RunPermits(records: seq<Record>, r: Record, open: bool, paths: seq<string>)
    requires forall p :: p in paths ==> Clean(p) && p != ""
    ensures Run(State(records + [r], open), Each("Allow: ", paths))
         == State(records + [r.(lines := r.lines.(allow := r.lines.allow + paths))], open && |paths| == 0)
  {
    var ds := seq(|paths|, i requires 0 <= i < |paths| => Permit(paths[i]));
    EachLine("Allow: ", paths);
    forall i | 0 <= i < |paths| ensures ParseLine("Allow: " + paths[i]) == Permit(paths[i]) {
      assert paths[i] in paths;
      ParsePermit(paths[i]);
    }
    RunIsSteps(State(records + [r], open), Each("Allow: ", paths), ds);
    StepsPermits(records, r, open, paths);
  }

  lemma RunHead(records: seq<Record>, g: Group)
    requires Readable(g)
    ensures Run(State(records, false), GroupHead(g))
         == State(records + [Record(g.agents, g.lines, 0)], |g.lines.disallow| == 0 && |g.lines.allow| == 0)
  {
    var st := State(records, false);
    var agents, denies := Each("User-agent: ", g.agents), Each("Disallow: ", g.lines.disallow);
    var permits := Each("Allow: ", g.lines.allow);
    ParseEmptyLine();
    assert Run(st, [""]) == Step(Run(st, []), ParseLine(""));
    RunAppends(st, [""], agents);
    RunAgents(records, g.agents);
    var r := Record(g.agents, Lines([], []), 0);
    RunAppends(st, [""] + agents, denies);
    RunDenies(records, r, true, g.lines.disallow);
    assert [] + g.lines.disallow == g.lines.disallow && [] + g.lines.allow == g.lines.allow;
    RunAppends(st, [""] + agents + denies, permits);
    RunPermits(records, Record(g.agents, Lines(g.lines.disallow, []), 0), |g.lines.disallow| == 0, g.lines.allow);
  }

  lemma RunOne(st: State, line: string)
    ensures Run(st, [line]) == Step(st, ParseLine(line))
  {
    assert [line][..0] == [];
  }

  lemma RunNone(records: seq<Record>, g: Group, r: Record, open: bool)
    requires open ==> |g.lines.disallow| == 0
    ensures Run(State(records + [r], open), NoneLine(g)) == State(records + [r], false)
  {
    ParseEmptyDeny();
    RunOne(State(records + [r], open), "Disallow:");
  }

  lemma RunDelay(records: seq<Record>, g: Group, r: Record)
    requires r.delay == 0
    ensures Run(State(records + [r], false), DelayLine(g)) == State(records + [r.(delay := g.crawlDelay)], false)
  {
    ParseDelay(g.crawlDelay);
    RunOne(State(records + [r], false), "Crawl-delay: " + Digits(g.crawlDelay));
  }

  lemma RunTail(records: seq<Record>, g: Group, open: bool)
    requires open ==> |g.lines.disallow| == 0
    ensures Run(State(records + [Record(g.agents, g.lines, 0)], open), GroupTail(g))
         == State(records + [RecordOf(g)], false)
  {
    var r := Record(g.agents, g.lines, 0);
    RunAppends(State(records + [r], open), NoneLine(g), DelayLine(g));
    RunNone(records, g, r, open);
    RunDelay(records, g, r);
  }

  /** Reading the lines of a group adds that group, whole and closed. */
  lemma RunGroup(records: seq<Record>, g: Group)
    requires Readable(g)
    ensures Run(State(records, false), GroupLines(g)) == State(records + [RecordOf(g)], false)
  {
    RunHead(records, g);
    RunAppends(State(records, false), GroupHead(g), GroupTail(g));
    RunTail(records, g, |g.lines.disallow| == 0 && |g.lines.allow| == 0);
  }

  // ---------------------------------------------------------------- the file

  function Records(groups: seq<Group>): seq<Record> {
    seq(|groups|, i requires 0 <= i < |groups| => RecordOf(groups[i]))
  }

  lemma RecordsGrow(front: seq<Group>, g: Group)
    ensures Records(front + [g]) == Records(front) + [RecordOf(g)]
  {
  }

  lemma RunNext(st: State, lines: seq<string>, front: seq<Group>, g: Group)
    requires Readable(g) && Run(st, lines) == State(Records(front), false)
    ensures Run(st, lines + GroupLines(g)) == State(Records(front + [g]), false)
  {
    RunAppends(st, lines, GroupLines(g));
    RunGroup(Records(front), g);
    RecordsGrow(front, g);
  }

  lemma {:induction false} RunGroups(groups: seq<Group>)
    requires forall g :: g in groups ==> Readable(g)
    ensures Run(State([], false), AllGroupLines(groups)) == State(Records(groups), false)
  {
    if |groups| > 0 {
      var front, g := groups[..|groups| - 1], groups[|groups| - 1];
      assert groups == front + [g];
      assert g in groups && forall x :: x in front ==> x in groups;
      RunGroups(front);
      RunNext(State([], false), AllGroupLines(front), front, g);
    }
  }

  lemma RunSitemap(st: State, value: string)
    ensures Run(st, ["", "Sitemap: " + value]) == st
  {
    ParseSitemap(value);
    ParseEmptyLine();
    assert ["", "Sitemap: " + value] == [""] + ["Sitemap: " + value];
    RunAppends(st, [""], ["Sitemap: " + value]);
    RunOne(st, "");
    RunOne(st, "Sitemap: " + value);
  }

  lemma {:induction false} RunSitemaps(st: State, sitemaps: seq<string>)
    ensures Run(st, SitemapLines(sitemaps)) == st
  {
    if |sitemaps| > 0 {
      var front, sitemap := sitemaps[..|sitemaps| - 1], Trim(SPACES, sitemaps[|sitemaps| - 1]);
      RunSitemaps(st, front);
      RunAppends(st, SitemapLines(front), ["", "Sitemap: " + sitemap]);
      RunSitemap(st, sitemap);
      assert SitemapLines(front) + [] == SitemapLines(front);
    }
  }

  lemma RunIntro(mode: Mode)
    ensures Run(State([], false), [Header()] + ModeNote(mode)) == State([], false)
  {
    var st := State([], false);
    ParseComment(Header());
    RunOne(st, Header());
    RunAppends(st, [Header()], ModeNote(mode));
    if mode != Enforce {
      ParseComment(ModeNote(mode)[0]);
      RunOne(st, ModeNote(mode)[0]);
    }
  }

  // ---------------------------------------------------------------- lines stay lines

  ghost predicate AllOneLine(lines: seq<string>) { forall l :: l in lines ==> OneLine(l) }

  lemma OneLineJoins(a: string, b: string)
    requires OneLine(a) && OneLine(b)
    ensures OneLine(a + b)
  {
  }

  lemma {:induction false} EachIsOneLine(prefix: string, values: seq<string>)
    requires OneLine(prefix) && AllOneLine(values)
    ensures AllOneLine(Each(prefix, values))
  {
    if |values| > 0 {
      assert values[|values| - 1] in values && forall v :: v in values[..|values| - 1] ==> v in values;
      EachIsOneLine(prefix, values[..|values| - 1]);
      OneLineJoins(prefix, values[|values| - 1]);
    }
  }

  lemma HeaderIsOneLine()
    ensures OneLine(Header())
  {
    var a, b, c := "# Generated by crawlwall ", "from the enforced policy. ", "Do not edit by hand.";
    OneLineJoins(a, b);
    OneLineJoins(a + b, c);
  }

  lemma NoteIsOneLine(name: string)
    requires OneLine(name)
    ensures OneLine("# Site mode is \"" + name + "\", so these rules are not " + "currently enforced at the edge.")
  {
    var a, b, c := "# Site mode is \"", "\", so these rules are not ", "currently enforced at the edge.";
    OneLineJoins(a, name);
    OneLineJoins(a + name, b);
    OneLineJoins(a + name + b, c);
  }

  lemma IntroIsOneLine(mode: Mode)
    ensures AllOneLine([Header()] + ModeNote(mode))
  {
    HeaderIsOneLine();
    NoteIsOneLine(ModeText(mode));
  }

  lemma GroupIsOneLine(g: Group)
    requires Readable(g)
    ensures AllOneLine(GroupLines(g))
  {
    EachIsOneLine("User-agent: ", g.agents);
    EachIsOneLine("Disallow: ", g.lines.disallow);
    EachIsOneLine("Allow: ", g.lines.allow);
    DigitsAreClean(g.crawlDelay);
    OneLineJoins("Crawl-delay: ", Digits(g.crawlDelay));
  }

  lemma {:induction false} GroupsAreOneLine(groups: seq<Group>)
    requires forall g :: g in groups ==> Readable(g)
    ensures AllOneLine(AllGroupLines(groups))
  {
    if |groups| > 0 {
      assert groups[|groups| - 1] in groups && forall g :: g in groups[..|groups| - 1] ==> g in groups;
      GroupsAreOneLine(groups[..|groups| - 1]);
      GroupIsOneLine(groups[|groups| - 1]);
    }
  }

  lemma {:induction false} SitemapsAreOneLine(sitemaps: seq<string>)
    requires AllOneLine(sitemaps)
    ensures AllOneLine(SitemapLines(sitemaps))
  {
    if |sitemaps| > 0 {
      var s := sitemaps[|sitemaps| - 1];
      assert s in sitemaps && forall x :: x in sitemaps[..|sitemaps| - 1] ==> x in sitemaps;
      SitemapsAreOneLine(sitemaps[..|sitemaps| - 1]);
      TrimTrims(SPACES, s);
      var t := Trim(SPACES, s);
      forall i | 0 <= i < |t| ensures !Break(t[i]) {
        assert t[i] in t && t[i] in s;
      }
      OneLineJoins("Sitemap: ", t);
    }
  }

  /** Parsing the rendered text gives back the groups it was rendered from. */
  lemma ReadInvertsRender(cfg: Config, groups: seq<Group>)
    requires forall g :: g in groups ==> Readable(g)
    requires AllOneLine(cfg.sitemaps)
    ensures Read(Unlines(FileLines(cfg, groups))) == Records(groups)
  {
    var intro, body, sitemaps := [Header()] + ModeNote(cfg.mode), AllGroupLines(groups), SitemapLines(cfg.sitemaps);
    var lines := FileLines(cfg, groups);
    assert lines == intro + body + sitemaps;
    IntroIsOneLine(cfg.mode);
    GroupsAreOneLine(groups);
    SitemapsAreOneLine(cfg.sitemaps);
    assert AllOneLine(lines);
    LinesOfUnlines(lines);
    var st := State([], false);
    RunAppends(st, lines, [""]);
    RunAppends(st, intro + body, sitemaps);
    RunAppends(st, intro, body);
    RunIntro(cfg.mode);
    RunGroups(groups);
    RunSitemaps(State(Records(groups), false), cfg.sitemaps);
    ParseEmptyDeny();
    RunOne(State(Records(groups), false), "");
  }
}
