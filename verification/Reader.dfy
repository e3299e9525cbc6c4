/** A crawler's reading of a robots.txt file by sections 2.2.1 to 2.2.3 of RFC 9309. */
module Reader {
  import opened Text
  import opened Directives

  datatype Directive =
    | Agent(token: string) | Deny(pattern: string) | Permit(pattern: string) | Delay(seconds: nat) | Skip

  datatype Record = Record(agents: seq<string>, lines: Directives.Lines, delay: nat)

  /** `open`: the last group is still collecting user-agent lines. */
  datatype State = State(records: seq<Record>, open: bool)

  const NOTHING := Record([], Lines([], []), 0)

  function Position(s: string, c: char): (at: nat)
    ensures at <= |s| && (at < |s| ==> s[at] == c)
    ensures forall i :: 0 <= i < at ==> s[i] != c
  {
    if s == "" || s[0] == c then 0
    else
      assert forall i :: 0 < i < |s| ==> s[i] == s[1..][i - 1];
      1 + Position(s[1..], c)
  }

  /** Comments are cut, the key ends at the first colon and is compared without case. */
  function ParseLine(raw: string): Directive {
    var line := raw[..Position(raw, '#')];
    var colon := Position(line, ':');
    if colon == |line| then Skip
    else ParsePair(Fold(Trim(BLANKS, line[..colon])), Trim(BLANKS, line[colon + 1..]))
  }

  function ParsePair(key: string, value: string): Directive {
    if key == "user-agent" then (if value == "" then Skip else Agent(value))
    else if key == "disallow" then Deny(value)
    else if key == "allow" then Permit(value)
    else if key == "crawl-delay" then
      match ParseNat(value)
      case None => Skip
      case Some(n) => Delay(n)
    else Skip
  }

  function AddRule(st: State, d: Directive): Record
    requires |st.records| > 0
  {
    var last := st.records[|st.records| - 1];
    match d
    case Deny(p) => if p == "" then last else last.(lines := last.lines.(disallow := last.lines.disallow + [p]))
    case Permit(p) => if p == "" then last else last.(lines := last.lines.(allow := last.lines.allow + [p]))
    case Delay(n) => last.(delay := n)
    case Agent(a) => last.(agents := last.agents + [a])
    case Skip => last
  }

  /** A user-agent line after a rule starts a new group; rules before any group are ignored. */
  function Step(st: State, d: Directive): State {
    if d.Skip? then st
    else if d.Agent? && !st.open then State(st.records + [Record([d.token], Lines([], []), 0)], true)
    else if |st.records| == 0 then st
    else State(st.records[..|st.records| - 1] + [AddRule(st, d)], d.Agent?)
  }

  function Run(st: State, lines: seq<string>): State {
    if |lines| == 0 then st else Step(Run(st, lines[..|lines| - 1]), ParseLine(lines[|lines| - 1]))
  }

  function Read(text: string): seq<Record> {
    Run(State([], false), Text.Lines(text)).records
  }

  lemma {:induction false} RunAppends(st: State, a: seq<string>, b: seq<string>)
    ensures Run(st, a + b) == Run(Run(st, a), b)
  {
    if |b| == 0 {
      assert a + b == a;
    } else {
      assert (a + b)[..|a + b| - 1] == a + b[..|b| - 1];
      RunAppends(st, a, b[..|b| - 1]);
    }
  }

  // ---------------------------------------------------------------- what cannot be read

  /** What ends a line or starts a comment. */
  predicate Mark(c: char) { c == '#' || Break(c) }

  predicate Unmarked(s: string) { forall c :: c in s ==> !Mark(c) }

  predicate AllUnmarked(texts: seq<string>) { forall t :: t in texts ==> Unmarked(t) }

  predicate UnmarkedRecord(r: Record) {
    AllUnmarked(r.agents) && AllUnmarked(r.lines.disallow) && AllUnmarked(r.lines.allow)
  }

  predicate UnmarkedDirective(d: Directive) {
    match d
    case Agent(token) => Unmarked(token)
    case Deny(pattern) => Unmarked(pattern)
    case Permit(pattern) => Unmarked(pattern)
    case _ => true
  }

  lemma LineIsUnmarked(raw: string)
    requires OneLine(raw)
    ensures UnmarkedDirective(ParseLine(raw))
  {
    var line := raw[..Position(raw, '#')];
    var colon := Position(line, ':');
    if colon < |line| {
      TrimTrims(BLANKS, line[colon + 1..]);
      forall c | c in Trim(BLANKS, line[colon + 1..]) ensures !Mark(c) {
        var i :| 0 <= i < |line| && line[i] == c;
        assert raw[i] == c;
      }
    }
  }

  lemma AddedRuleIsUnmarked(st: State, d: Directive)
    requires |st.records| > 0 && UnmarkedRecord(st.records[|st.records| - 1]) && UnmarkedDirective(d)
    ensures UnmarkedRecord(AddRule(st, d))
  {
  }

  lemma StepIsUnmarked(st: State, d: Directive)
    requires (forall r :: r in st.records ==> UnmarkedRecord(r)) && UnmarkedDirective(d)
    ensures forall r :: r in Step(st, d).records ==> UnmarkedRecord(r)
  {
    if |st.records| > 0 {
      assert st.records[|st.records| - 1] in st.records;
      AddedRuleIsUnmarked(st, d);
    }
  }

  lemma {:induction false} RunIsUnmarked(st: State, lines: seq<string>)
    requires (forall r :: r in st.records ==> UnmarkedRecord(r)) && forall l :: l in lines ==> OneLine(l)
    ensures forall r :: r in Run(st, lines).records ==> UnmarkedRecord(r)
  {
    if |lines| > 0 {
      var front, last := lines[..|lines| - 1], lines[|lines| - 1];
      RunIsUnmarked(st, front);
      LineIsUnmarked(last);
      StepIsUnmarked(Run(st, front), ParseLine(last));
    }
  }

  /** No file names an agent or a pattern with such a character. */
  lemma ReadIsUnmarked(text: string)
    ensures forall r :: r in Read(text) ==> UnmarkedRecord(r)
  {
    LinesAreOneLine("", text);
    RunIsUnmarked(State([], false), Text.Lines(text));
  }

  // ---------------------------------------------------------------- which group a crawler obeys

  predicate Named(r: Record, token: string) {
    exists i :: 0 <= i < |r.agents| && Fold(r.agents[i]) == Fold(token)
  }

  /** All groups naming the token, combined into one. */
  function Combine(records: seq<Record>, token: string): Record {
    if |records| == 0 then NOTHING
    else
      var sofar, last := Combine(records[..|records| - 1], token), records[|records| - 1];
      if !Named(last, token) then sofar
      else Record(sofar.agents + last.agents,
                  Lines(sofar.lines.disallow + last.lines.disallow, sofar.lines.allow + last.lines.allow),
                  if last.delay > sofar.delay then last.delay else sofar.delay)
  }

  /** The group for the crawler's token, else the one for `*`, else no rules. */
  function Obeyed(records: seq<Record>, token: string): Record {
    if exists i :: 0 <= i < |records| && Named(records[i], token) then Combine(records, token)
    else Combine(records, "*")
  }

  lemma {:induction false} NoneNamed(records: seq<Record>, token: string)
    requires forall i :: 0 <= i < |records| ==> !Named(records[i], token)
    ensures Combine(records, token) == NOTHING
  {
    if |records| > 0 {
      NoneNamed(records[..|records| - 1], token);
    }
  }

  lemma {:induction false} OnlyOneNamed(records: seq<Record>, token: string, i: nat)
    requires i < |records| && Named(records[i], token)
    requires forall j :: 0 <= j < |records| && j != i ==> !Named(records[j], token)
    ensures Combine(records, token) == records[i]
  {
    var front := records[..|records| - 1];
    if i == |records| - 1 {
      NoneNamed(front, token);
      var r := records[i];
      assert [] + r.agents == r.agents;
      assert [] + r.lines.disallow == r.lines.disallow && [] + r.lines.allow == r.lines.allow;
    } else {
      OnlyOneNamed(front, token, i);
    }
  }

  lemma {:induction false} CombineIsUnmarked(records: seq<Record>, token: string)
    requires forall r :: r in records ==> UnmarkedRecord(r)
    ensures UnmarkedRecord(Combine(records, token))
  {
    if |records| > 0 {
      CombineIsUnmarked(records[..|records| - 1], token);
      assert records[|records| - 1] in records;
    }
  }

  lemma ObeyedIsUnmarked(text: string, token: string)
    ensures UnmarkedRecord(Obeyed(Read(text), token))
  {
    ReadIsUnmarked(text);
    CombineIsUnmarked(Read(text), token);
    CombineIsUnmarked(Read(text), "*");
  }

  lemma {:induction false} CombinesAlike(records: seq<Record>, a: string, b: string)
    requires Fold(a) == Fold(b)
    ensures Combine(records, a) == Combine(records, b)
  {
    if |records| > 0 {
      CombinesAlike(records[..|records| - 1], a, b);
      assert Named(records[|records| - 1], a) <==> Named(records[|records| - 1], b);
    }
  }

  /** Tokens that differ in case at most obey one group. */
  lemma ObeysAlike(records: seq<Record>, a: string, b: string)
    requires Fold(a) == Fold(b)
    ensures Obeyed(records, a) == Obeyed(records, b)
  {
    CombinesAlike(records, a, b);
    assert forall i :: 0 <= i < |records| ==> (Named(records[i], a) <==> Named(records[i], b));
  }

  lemma FoldKeepsMarks(a: string, token: string)
    requires Fold(a) == Fold(token) && Unmarked(a)
    ensures Unmarked(token)
  {
    forall c | c in token ensures !Mark(c) {
      var i :| 0 <= i < |token| && token[i] == c;
      assert |Fold(a)| == |Fold(token)| && Fold(a)[i] == Fold(token)[i] && a[i] in a;
    }
  }

  /** A token with such a character is named in no file: its crawler obeys the group for everybody. */
  lemma MarkedTokenIsUnread(text: string, token: string)
    requires !Unmarked(token)
    ensures Obeyed(Read(text), token) == Obeyed(Read(text), "*")
  {
    ReadIsUnmarked(text);
    forall i | 0 <= i < |Read(text)| ensures !Named(Read(text)[i], token) {
      var r := Read(text)[i];
      if k :| 0 <= k < |r.agents| && Fold(r.agents[k]) == Fold(token) {
        assert r in Read(text) && r.agents[k] in r.agents;
        FoldKeepsMarks(r.agents[k], token);
      }
    }
  }

  // ---------------------------------------------------------------- matching

  /** Patterns match from the start of the path; `*` stands for any text, a final `$` for its end. */
  predicate Matches(pattern: string, url: string)
    decreases |pattern| + |url|
  {
    if pattern == "" then true
    else if pattern == "$" then url == ""
    else if pattern[0] == '*' then Matches(pattern[1..], url) || (url != "" && Matches(pattern, url[1..]))
    else url != "" && url[0] == pattern[0] && Matches(pattern[1..], url[1..])
  }

  predicate Plain(pattern: string) {
    '*' !in pattern && (pattern != "" ==> pattern[|pattern| - 1] != '$')
  }

  lemma {:induction false} PlainMatchesPrefix(pattern: string, url: string)
    requires Plain(pattern)
    ensures Matches(pattern, url) <==> pattern <= url
  {
    if pattern != "" {
      assert pattern[0] in pattern;
      assert pattern == [pattern[0]] + pattern[1..];
      if url != "" && url[0] == pattern[0] {
        assert url == [url[0]] + url[1..];
        PlainMatchesPrefix(pattern[1..], url[1..]);
        assert pattern <= url <==> pattern[1..] <= url[1..];
      }
    }
  }

  /** The same path but for which marks it has. */
  predicate SameButMarks(a: string, b: string) {
    |a| == |b| && forall i :: 0 <= i < |a| ==> a[i] == b[i] || (Mark(a[i]) && Mark(b[i]))
  }

  lemma {:induction false} MarksMatchAlike(pattern: string, a: string, b: string)
    requires Unmarked(pattern) && SameButMarks(a, b)
    ensures Matches(pattern, a) <==> Matches(pattern, b)
    decreases |pattern| + |a|
  {
    if pattern != "" && pattern != "$" {
      assert pattern[0] in pattern && Unmarked(pattern[1..]);
      if a != "" {
        assert SameButMarks(a[1..], b[1..]);
        MarksMatchAlike(pattern[1..], a[1..], b[1..]);
        if pattern[0] == '*' {
          MarksMatchAlike(pattern, a[1..], b[1..]);
        }
      }
      if pattern[0] == '*' {
        MarksMatchAlike(pattern[1..], a, b);
      }
    }
  }

  /** The pattern with its special characters taken out, which it always matches. */
  function Stripped(pattern: string): string {
    if pattern == "" || pattern == "$" then ""
    else if pattern[0] == '*' then Stripped(pattern[1..])
    else [pattern[0]] + Stripped(pattern[1..])
  }

  lemma {:induction false} MatchesStripped(pattern: string)
    ensures Matches(pattern, Stripped(pattern))
    ensures |Stripped(pattern)| <= |pattern|
    ensures !Plain(pattern) ==> |Stripped(pattern)| < |pattern|
  {
    if pattern != "" && pattern != "$" {
      MatchesStripped(pattern[1..]);
      assert pattern == [pattern[0]] + pattern[1..];
      if pattern[0] != '*' {
        assert Stripped(pattern)[1..] == Stripped(pattern[1..]);
      }
    }
  }

  predicate ReadsAsPrefix(pattern: string, url: string) { Matches(pattern, url) <==> pattern <= url }

  /** Exactly the patterns without `*` and final `$` mean to a crawler what `startsWith` means to a rule. */
  lemma PrefixReadingIsExact(pattern: string)
    ensures Plain(pattern) <==> forall url :: ReadsAsPrefix(pattern, url)
  {
    if Plain(pattern) {
      forall url ensures ReadsAsPrefix(pattern, url) {
        PlainMatchesPrefix(pattern, url);
      }
    } else {
      MatchesStripped(pattern);
      assert !ReadsAsPrefix(pattern, Stripped(pattern));
    }
  }

  /** Longest match wins, allow wins a tie, no match allows; /robots.txt itself is always allowed. */
  ghost predicate Disallowed(r: Record, url: string) {
    url != "/robots.txt"
    && exists d :: d in r.lines.disallow && Matches(d, url)
                && forall a :: a in r.lines.allow && Matches(a, url) ==> |a| < |d|
  }

  /** No group tells such paths apart. */
  lemma MarksDisallowAlike(r: Record, a: string, b: string)
    requires UnmarkedRecord(r) && SameButMarks(a, b) && a != "/robots.txt" && b != "/robots.txt"
    ensures Disallowed(r, a) <==> Disallowed(r, b)
  {
    forall p | p in r.lines.disallow || p in r.lines.allow ensures Matches(p, a) <==> Matches(p, b) {
      MarksMatchAlike(p, a, b);
    }
  }

  /** Where an allow and a disallow line of the same length match, the allow line counts. */
  lemma AllowWinsTies(r: Record, url: string)
    requires exists a :: a in r.lines.allow && Matches(a, url)
                         && forall d :: d in r.lines.disallow && Matches(d, url) ==> |d| <= |a|
    ensures !Disallowed(r, url)
  {
  }

  lemma PlainLinesReadAsBlocks(r: Record, url: string)
    requires forall p :: p in r.lines.disallow || p in r.lines.allow ==> Plain(p)
    ensures Disallowed(r, url) <==> url != "/robots.txt" && Blocks(r.lines, url)
  {
    forall p | p in r.lines.disallow || p in r.lines.allow ensures Matches(p, url) <==> p <= url {
      PlainMatchesPrefix(p, url);
    }
    if Blocks(r.lines, url) {
      var d :| d in r.lines.disallow && d <= url && forall a :: a in r.lines.allow && a <= url ==> |a| < |d|;
      assert Matches(d, url) && forall a :: a in r.lines.allow && Matches(a, url) ==> |a| < |d|;
    }
    if Disallowed(r, url) {
      var d :| d in r.lines.disallow && Matches(d, url)
               && forall a :: a in r.lines.allow && Matches(a, url) ==> |a| < |d|;
      assert d <= url && forall a :: a in r.lines.allow && a <= url ==> |a| < |d|;
    }
  }
}
