/** Strings as the program handles them: a `char` stands for one octet. */
module Text {

  datatype Option<+T> = None | Some(value: T)

  datatype Result<+T, +E> = Success(value: T) | Failure(error: E)

  /** Go's `<` on strings: the first differing octet decides, a proper prefix comes first. */
  predicate Less(a: string, b: string) {
    b != "" && (a == "" || a[0] < b[0] || (a[0] == b[0] && Less(a[1..], b[1..])))
  }

  lemma {:induction false} LessIsTotal(a: string, b: string)
    ensures Less(a, b) || Less(b, a) || a == b
    ensures !(Less(a, b) && Less(b, a))
    ensures Less(a, b) ==> a != b
  {
    if a != "" && b != "" && a[0] == b[0] {
      LessIsTotal(a[1..], b[1..]);
      assert a == [a[0]] + a[1..] && b == [b[0]] + b[1..];
    }
  }

  lemma {:induction false} LessIsTransitive(a: string, b: string, c: string)
    requires Less(a, b) && Less(b, c)
    ensures Less(a, c)
  {
    if a != "" && a[0] == b[0] == c[0] {
      LessIsTransitive(a[1..], b[1..], c[1..]);
    }
  }

  /** The first difference decides; a proper prefix comes first. */
  lemma {:induction false} LessAtDifference(a: string, b: string, i: nat)
    requires i <= |a| && i < |b| && a[..i] == b[..i] && (i < |a| ==> a[i] != b[i])
    ensures Less(a, b) <==> i == |a| || a[i] < b[i]
  {
    if i > 0 {
      assert a[0] == a[..i][0] == b[..i][0] == b[0];
      assert a[1..][..i - 1] == a[..i][1..] && b[1..][..i - 1] == b[..i][1..];
      LessAtDifference(a[1..], b[1..], i - 1);
    }
  }

  lemma LessSplits(a: string, b: string, c: string)
    requires Less(a, c)
    ensures Less(a, b) || Less(b, c)
  {
    LessIsTotal(a, b);
    LessIsTotal(b, c);
    if Less(b, a) {
      LessIsTransitive(b, a, c);
    }
  }

  /** Two prefixes of one string are comparable. */
  lemma PrefixesNest(a: string, b: string, s: string)
    requires a <= s && b <= s && |a| <= |b|
    ensures a <= b
  {
    assert a == s[..|a|] && b == s[..|b|];
  }

  predicate Contains(s: string, part: string) { exists i :: 0 <= i <= |s| && part <= s[i..] }

  lemma ContainsExactly(s: string, part: string)
    ensures Contains(s, part) <==> exists before, after :: s == before + part + after
  {
    if i :| 0 <= i <= |s| && part <= s[i..] {
      assert s == s[..i] + part + s[i..][|part|..];
    }
    if before, after :| s == before + part + after {
      assert s[|before|..] == part + after;
    }
  }

  lemma ContainsInside(before: string, s: string, after: string, part: string)
    requires Contains(s, part)
    ensures Contains(before + s + after, part)
  {
    var i :| 0 <= i <= |s| && part <= s[i..];
    var all := before + s + after;
    assert all[|before| + i..] == s[i..] + after;
  }

  // ---------------------------------------------------------------- trimming

  const SPACES: set<char> := {' ', '\t', '\n', '\U{000B}', '\U{000C}', '\r'}

  const BLANKS: set<char> := {' ', '\t'}

  function TrimLeft(cut: set<char>, s: string): string {
    if s != "" && s[0] in cut then TrimLeft(cut, s[1..]) else s
  }

  function TrimRight(cut: set<char>, s: string): string {
    if s != "" && s[|s| - 1] in cut then TrimRight(cut, s[..|s| - 1]) else s
  }

  function Trim(cut: set<char>, s: string): string {
    TrimRight(cut, TrimLeft(cut, s))
  }

  /** No character of `cut` at either end. */
  predicate Trimmed(cut: set<char>, s: string) {
    s != "" ==> s[0] !in cut && s[|s| - 1] !in cut
  }

  lemma {:induction false} TrimLeftTrims(cut: set<char>, s: string)
    ensures var r := TrimLeft(cut, s); r != "" ==> r[0] !in cut
    ensures multiset(TrimLeft(cut, s)) <= multiset(s)
  {
    if s != "" && s[0] in cut {
      TrimLeftTrims(cut, s[1..]);
      assert s == [s[0]] + s[1..];
    }
  }

  lemma {:induction false} TrimRightTrims(cut: set<char>, s: string)
    ensures var r := TrimRight(cut, s); r <= s && (r != "" ==> r[|r| - 1] !in cut)
  {
    if s != "" && s[|s| - 1] in cut {
      TrimRightTrims(cut, s[..|s| - 1]);
    }
  }

  lemma TrimTrims(cut: set<char>, s: string)
    ensures Trimmed(cut, Trim(cut, s))
    ensures forall c :: c in Trim(cut, s) ==> c in s
  {
    var l := TrimLeft(cut, s);
    TrimLeftTrims(cut, s);
    TrimRightTrims(cut, l);
    forall c | c in Trim(cut, s) ensures c in s {
      assert c in l;
      assert c in multiset(l);
    }
  }

  predicate AllIn(cut: set<char>, s: string) { forall c :: c in s ==> c in cut }

  lemma {:induction false} TrimLeftSkips(cut: set<char>, w: string, s: string)
    requires AllIn(cut, w)
    ensures TrimLeft(cut, w + s) == TrimLeft(cut, s)
  {
    if w == "" {
      assert w + s == s;
    } else {
      assert w[0] in w && (w + s)[1..] == w[1..] + s;
      TrimLeftSkips(cut, w[1..], s);
    }
  }

  lemma {:induction false} TrimRightSkips(cut: set<char>, s: string, w: string)
    requires AllIn(cut, w)
    ensures TrimRight(cut, s + w) == TrimRight(cut, s)
  {
    if w == "" {
      assert s + w == s;
    } else {
      assert w[|w| - 1] in w && (s + w)[..|s + w| - 1] == s + w[..|w| - 1];
      TrimRightSkips(cut, s, w[..|w| - 1]);
    }
  }

  /** Trimming finds the text between what is to be cut. */
  lemma TrimFinds(cut: set<char>, before: string, s: string, after: string)
    requires AllIn(cut, before) && AllIn(cut, after) && Trimmed(cut, s)
    ensures Trim(cut, before + s + after) == s
  {
    assert before + s + after == before + (s + after);
    TrimLeftSkips(cut, before, s + after);
    if s == "" {
      assert s + after == after + "";
      TrimLeftSkips(cut, after, "");
    } else {
      TrimRightSkips(cut, s, after);
    }
  }

  lemma {:induction false} TrimmedAway(cut: set<char>, s: string)
    ensures TrimLeft(cut, s) == "" <==> AllIn(cut, s)
    ensures TrimRight(cut, s) == "" <==> AllIn(cut, s)
    decreases |s|
  {
    if s != "" {
      assert s == [s[0]] + s[1..] && s == s[..|s| - 1] + [s[|s| - 1]];
      TrimmedAway(cut, s[1..]);
      TrimmedAway(cut, s[..|s| - 1]);
    }
  }

  /** Nothing is left by trimming exactly when there was nothing else. */
  lemma TrimLeavesNothing(cut: set<char>, s: string)
    ensures Trim(cut, s) == "" <==> AllIn(cut, s)
  {
    TrimmedAway(cut, s);
    TrimmedAway(cut, TrimLeft(cut, s));
    TrimLeftTrims(cut, s);
    var left := TrimLeft(cut, s);
    assert left != "" ==> left[0] in left;
  }

  /** ASCII case folding, as product tokens are compared. */
  function FoldChar(c: char): char {
    if 'A' <= c <= 'Z' then ((c as int) + 32) as char else c
  }

  /** The twenty-six capital letters, and nothing else, have a lower case. */
  lemma FoldsLetters(c: char)
    ensures var upper, lower := "ABCDEFGHIJKLMNOPQRSTUVWXYZ", "abcdefghijklmnopqrstuvwxyz";
            && (forall i :: 0 <= i < 26 ==> FoldChar(upper[i]) == lower[i])
            && (c !in upper ==> FoldChar(c) == c)
  {
    var upper := "ABCDEFGHIJKLMNOPQRSTUVWXYZ";
    assert forall i :: 0 <= i < 26 ==> upper[i] as int == 'A' as int + i;
    assert 'A' <= c <= 'Z' ==> upper[c as int - 'A' as int] == c;
  }

  function Fold(s: string): string {
    seq(|s|, i requires 0 <= i < |s| => FoldChar(s[i]))
  }

  // ---------------------------------------------------------------- numbers

  function Digit(d: nat): char
    requires d < 10
  {
    ((d + '0' as int)) as char
  }

  predicate IsDigit(c: char) { '0' <= c <= '9' }

  function Digits(n: nat): string {
    if n < 10 then [Digit(n)] else Digits(n / 10) + [Digit(n % 10)]
  }

  /** The reader's decimal numbers; anything else is no number. */
  function ParseNat(s: string): Option<nat> {
    if s == "" || !IsDigit(s[|s| - 1]) then None
    else
      var d := s[|s| - 1] as int - '0' as int;
      if |s| == 1 then Some(d)
      else match ParseNat(s[..|s| - 1])
        case None => None
        case Some(n) => Some(10 * n + d)
  }

  lemma {:induction false} DigitsRoundTrip(n: nat)
    ensures ParseNat(Digits(n)) == Some(n)
    ensures Digits(n) != "" && forall c :: c in Digits(n) ==> IsDigit(c)
  {
    if n >= 10 {
      DigitsRoundTrip(n / 10);
      assert Digits(n)[..|Digits(n)| - 1] == Digits(n / 10);
    }
  }

  // ---------------------------------------------------------------- joining and lines

  function Join(parts: seq<string>, sep: string): string {
    if |parts| == 0 then ""
    else if |parts| == 1 then parts[0]
    else parts[0] + sep + Join(parts[1..], sep)
  }

  lemma {:induction false} JoinAppends(a: seq<string>, b: seq<string>, sep: string)
    requires |a| >= 1 && |b| >= 1
    ensures Join(a + b, sep) == Join(a, sep) + sep + Join(b, sep)
  {
    assert (a + b)[1..] == a[1..] + b;
    if |a| == 1 {
      assert a[1..] + b == b;
    } else {
      JoinAppends(a[1..], b, sep);
    }
  }

  /** Every line followed by a line feed, as the renderer writes them. */
  function Unlines(lines: seq<string>): string {
    if |lines| == 0 then "" else lines[0] + "\n" + Unlines(lines[1..])
  }

  lemma {:induction false} UnlinesAppends(a: seq<string>, b: seq<string>)
    ensures Unlines(a + b) == Unlines(a) + Unlines(b)
  {
    if |a| == 0 {
      assert a + b == b;
    } else {
      assert (a + b)[1..] == a[1..] + b;
      UnlinesAppends(a[1..], b);
    }
  }

  predicate Break(c: char) { c == '\n' || c == '\r' }

  predicate OneLine(s: string) { forall i :: 0 <= i < |s| ==> !Break(s[i]) }

  /** The reader's lines: both CR and LF end a line (section 2.2 of RFC 9309). */
  function Lines(s: string): seq<string> {
    LinesFrom("", s)
  }

  function LinesFrom(current: string, s: string): seq<string>
    decreases |s|
  {
    if s == "" then [current]
    else if Break(s[0]) then [current] + LinesFrom("", s[1..])
    else LinesFrom(current + [s[0]], s[1..])
  }

  lemma {:induction false} LinesAreOneLine(current: string, s: string)
    requires OneLine(current)
    ensures forall l :: l in LinesFrom(current, s) ==> OneLine(l)
    decreases |s|
  {
    if s != "" {
      LinesAreOneLine(if Break(s[0]) then "" else current + [s[0]], s[1..]);
    }
  }

  lemma {:induction false} LinesFromLine(current: string, line: string, rest: string)
    requires OneLine(line)
    ensures LinesFrom(current, line + "\n" + rest) == [current + line] + LinesFrom("", rest)
    decreases |line|
  {
    var s := line + "\n" + rest;
    if line == "" {
      assert s[1..] == rest;
      assert current + line == current;
    } else {
      assert s[1..] == line[1..] + "\n" + rest;
      LinesFromLine(current + [line[0]], line[1..], rest);
      assert current + [line[0]] + line[1..] == current + line;
    }
  }

  lemma {:induction false} LinesOfUnlines(lines: seq<string>)
    requires forall i :: 0 <= i < |lines| ==> OneLine(lines[i])
    ensures Lines(Unlines(lines)) == lines + [""]
  {
    if |lines| > 0 {
      LinesFromLine("", lines[0], Unlines(lines[1..]));
      LinesOfUnlines(lines[1..]);
      assert "" + lines[0] == lines[0];
      assert lines + [""] == [lines[0]] + (lines[1..] + [""]);
    }
  }
}
