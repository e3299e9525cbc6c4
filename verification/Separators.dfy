/** When two bots' lines can share a signature: lists of candidate paths with one path in which a separator stands
    before a slash. */
module Separators {
  import opened Text
  import opened Directives
  import opened Robots
  import Sorting

  /** Two verdicts over the candidates whose lines differ and are written alike. */
  ghost predicate Collides(paths: seq<string>) {
    exists a, b :: Reduce(paths, a) != Reduce(paths, b) && LinesText(Reduce(paths, a)) == LinesText(Reduce(paths, b))
  }

  /** Safe candidates never collide. */
  lemma SafeListsDoNotCollide(paths: seq<string>)
    requires SafePaths(paths)
    ensures !Collides(paths)
  {
    forall a, b | LinesText(Reduce(paths, a)) == LinesText(Reduce(paths, b))
      ensures Reduce(paths, a) == Reduce(paths, b)
    {
      ReduceMembers(paths, a);
      ReduceMembers(paths, b);
      LinesTextSeparates(Reduce(paths, a), Reduce(paths, b));
    }
  }

  /** Candidates as the generator lists them, of which only `p` may have a separator in a bad place. */
  ghost predicate OnlyUnsafe(paths: seq<string>, p: string) {
    && AllSlashed(paths) && Sorting.NoDuplicates(paths) && p in paths
    && forall x :: x in paths && x != p ==> SafePath(x)
  }

  // ---------------------------------------------------------------- pieces

  /** A path cut at every comma before a slash. */
  function Pieces(s: string): (pieces: seq<string>)
    ensures |pieces| >= 1
  {
    if s == "" then [""]
    else if s[0] == ',' && Slashed(s[1..]) then [""] + Pieces(s[1..])
    else [[s[0]] + Pieces(s[1..])[0]] + Pieces(s[1..])[1..]
  }

  lemma FirstIsSlash(s: string)
    ensures Slashed(s) <==> s != "" && s[0] == '/'
  {
  }

  lemma {:induction false} PiecesOfTwo(x: string, y: string)
    requires Slashed(y)
    ensures Pieces(x + "," + y) == Pieces(x) + Pieces(y)
  {
    var s := x + "," + y;
    if x == "" {
      assert s[1..] == y;
    } else {
      assert s[0] == x[0] && s[1..] == x[1..] + "," + y;
      FirstIsSlash(s[1..]);
      FirstIsSlash(x[1..]);
      PiecesOfTwo(x[1..], y);
    }
  }

  lemma {:induction false} JoinPieces(s: string)
    ensures Join(Pieces(s), ",") == s
  {
    if s != "" {
      JoinPieces(s[1..]);
      var rest := Pieces(s[1..]);
      if s[0] == ',' && Slashed(s[1..]) {
        assert Pieces(s)[1..] == rest;
      } else {
        assert Pieces(s)[1..] == rest[1..];
      }
    }
  }

  lemma {:induction false} UncutIsOnePiece(s: string)
    requires forall i :: 0 <= i < |s| - 1 && s[i] == ',' ==> s[i + 1] != '/'
    ensures Pieces(s) == [s]
  {
    if s != "" {
      UncutIsOnePiece(s[1..]);
      assert s == [s[0]] + s[1..];
    }
  }

  lemma {:induction false} PiecesAreSlashed(s: string)
    ensures forall i :: 0 < i < |Pieces(s)| ==> Slashed(Pieces(s)[i])
    ensures Slashed(s) ==> Slashed(Pieces(s)[0])
  {
    if s != "" {
      PiecesAreSlashed(s[1..]);
    }
  }

  // ---------------------------------------------------------------- bars

  predicate BarAt(s: string, i: int) { 0 <= i < |s| - 1 && s[i] == '|' && s[i + 1] == '/' }

  /** How many bars stand before a slash. */
  function Bars(s: string): nat {
    if |s| < 2 then 0 else (if BarAt(s, 0) then 1 else 0) + Bars(s[1..])
  }

  lemma {:induction false} BarsAppend(x: string, y: string)
    ensures Bars(x + y) == Bars(x) + Bars(y) + if x != "" && x[|x| - 1] == '|' && Slashed(y) then 1 else 0
  {
    if x == "" {
      assert x + y == y;
    } else {
      assert (x + y)[1..] == x[1..] + y;
      BarsAppend(x[1..], y);
    }
  }

  lemma {:induction false} BarCounts(s: string, i: int)
    requires BarAt(s, i)
    ensures Bars(s) > 0
  {
    if i > 0 {
      BarCounts(s[1..], i - 1);
    }
  }

  lemma {:induction false} NoBars(s: string)
    requires forall i :: !BarAt(s, i)
    ensures Bars(s) == 0
  {
    if |s| >= 2 {
      forall i ensures !BarAt(s[1..], i) {
        assert !BarAt(s, i + 1);
      }
      NoBars(s[1..]);
    }
  }

  /** Every bar before a slash turned into a comma. */
  function Level(s: string): string {
    seq(|s|, i requires 0 <= i < |s| => if BarAt(s, i) then ',' else s[i])
  }

  lemma LevelJoins(x: string, c: char, y: string)
    requires Slashed(y) && (c == ',' || c == '|')
    ensures Level(x + [c] + y) == Level(x) + "," + Level(y) && Slashed(Level(y))
  {
    var s := x + [c] + y;
    forall i | 0 <= i < |s| ensures Level(s)[i] == (Level(x) + "," + Level(y))[i] {
      if i < |x| {
        assert BarAt(s, i) <==> BarAt(x, i);
      } else if i > |x| {
        assert BarAt(s, i) <==> BarAt(y, i - |x| - 1);
      }
    }
  }

  lemma LevelKeeps(s: string)
    requires Bars(s) == 0
    ensures Level(s) == s
  {
    forall i | 0 <= i < |s| ensures !BarAt(s, i) {
      if BarAt(s, i) {
        BarCounts(s, i);
      }
    }
  }

  // ---------------------------------------------------------------- lists of paths

  /** The pieces of a path, whichever separator parts them. */
  function Cells(s: string): seq<string> { Pieces(Level(s)) }

  function CellsAll(tokens: seq<string>): seq<string> {
    if |tokens| == 0 then [] else CellsAll(tokens[..|tokens| - 1]) + Cells(tokens[|tokens| - 1])
  }

  function BarsAll(tokens: seq<string>): nat {
    if |tokens| == 0 then 0 else BarsAll(tokens[..|tokens| - 1]) + Bars(tokens[|tokens| - 1])
  }

  lemma {:induction false} CellsAppend(a: seq<string>, b: seq<string>)
    ensures CellsAll(a + b) == CellsAll(a) + CellsAll(b)
  {
    if |b| == 0 {
      assert a + b == a;
    } else {
      assert (a + b)[..|a + b| - 1] == a + b[..|b| - 1];
      CellsAppend(a, b[..|b| - 1]);
    }
  }

  lemma {:induction false} BarsAppendAll(a: seq<string>, b: seq<string>)
    ensures BarsAll(a + b) == BarsAll(a) + BarsAll(b)
  {
    if |b| > 0 {
      assert (a + b)[..|a + b| - 1] == a + b[..|b| - 1];
      BarsAppendAll(a, b[..|b| - 1]);
    } else {
      assert a + b == a;
    }
  }

  lemma OneMore(front: seq<string>, last: string)
    ensures CellsAll(front + [last]) == CellsAll(front) + Cells(last)
    ensures BarsAll(front + [last]) == BarsAll(front) + Bars(last)
  {
    assert (front + [last])[..|front|] == front;
  }

  lemma JoinLast(tokens: seq<string>)
    requires |tokens| > 1
    ensures Join(tokens, ",") == Join(tokens[..|tokens| - 1], ",") + "," + tokens[|tokens| - 1]
  {
    JoinAppends(tokens[..|tokens| - 1], [tokens[|tokens| - 1]], ",");
    assert tokens == tokens[..|tokens| - 1] + [tokens[|tokens| - 1]];
  }

  /** The cells of a joined list are those of its members, and so are the bars. */
  lemma {:induction false} JoinedCells(tokens: seq<string>)
    requires |tokens| > 0 && AllSlashed(tokens)
    ensures Cells(Join(tokens, ",")) == CellsAll(tokens) && Bars(Join(tokens, ",")) == BarsAll(tokens)
    ensures Slashed(Join(tokens, ","))
  {
    var front, last := tokens[..|tokens| - 1], tokens[|tokens| - 1];
    assert last in tokens && forall t :: t in front ==> t in tokens;
    if |front| == 0 {
      assert tokens == [last];
      assert CellsAll(front) + Cells(last) == Cells(last);
    } else {
      JoinLast(tokens);
      JoinedCells(front);
      var x := Join(front, ",");
      LevelJoins(x, ',', last);
      PiecesOfTwo(Level(x), Level(last));
      assert x + "," + last == (x + ",") + last;
      BarsAppend(x + ",", last);
      BarsAppend(x, ",");
    }
  }

  /** The same of a whole text with lines of both kinds. */
  lemma TextCells(lines: Lines)
    requires AllSlashed(lines.disallow) && AllSlashed(lines.allow) && |lines.disallow| > 0
    ensures Bars(LinesText(lines)) == BarsAll(lines.disallow + lines.allow) + (if |lines.allow| > 0 then 1 else 0)
    ensures |lines.allow| > 0 ==> Cells(LinesText(lines)) == CellsAll(lines.disallow + lines.allow)
  {
    var x, y := Join(lines.disallow, ","), Join(lines.allow, ",");
    JoinedCells(lines.disallow);
    CellsAppend(lines.disallow, lines.allow);
    BarsAppendAll(lines.disallow, lines.allow);
    BarsAppend(x, "|");
    BarsAppend(x + "|", y);
    if |lines.allow| > 0 {
      JoinedCells(lines.allow);
      LevelJoins(x, '|', y);
      PiecesOfTwo(Level(x), Level(y));
      assert x + "|" + y == x + ['|'] + y;
    }
  }

  lemma SafeIsOneCell(p: string)
    requires SafePath(p)
    ensures Bars(p) == 0 && Level(p) == p && Cells(p) == [p] && Pieces(p) == [p]
  {
    forall i ensures !BarAt(p, i) {}
    NoBars(p);
    LevelKeeps(p);
    UncutIsOnePiece(p);
  }

  /** The cells of different tokens, the safe ones being cells themselves. */
  function CellBag(tokens: seq<string>, p: string): multiset<string> {
    if p in tokens then multiset(tokens) - multiset{p} + multiset(Cells(p)) else multiset(tokens)
  }

  lemma CellBagGrows(front: seq<string>, last: string, p: string)
    requires p !in front || last != p
    ensures CellBag(front + [last], p) == CellBag(front, p) + if last == p then multiset(Cells(p)) else multiset{last}
  {
    assert multiset(front + [last]) == multiset(front) + multiset{last};
    if p in front {
      assert p in multiset(front);
    }
  }

  lemma TokenCells(last: string, p: string)
    requires last != p ==> SafePath(last)
    ensures Bars(last) == if last == p then Bars(p) else 0
    ensures multiset(Cells(last)) == if last == p then multiset(Cells(p)) else multiset{last}
  {
    if last != p {
      SafeIsOneCell(last);
    }
  }

  lemma {:induction false} CellsOfTokens(tokens: seq<string>, p: string)
    requires Sorting.NoDuplicates(tokens) && forall x :: x in tokens && x != p ==> SafePath(x)
    ensures BarsAll(tokens) == if p in tokens then Bars(p) else 0
    ensures multiset(CellsAll(tokens)) == CellBag(tokens, p)
  {
    if |tokens| > 0 {
      var front, last := tokens[..|tokens| - 1], tokens[|tokens| - 1];
      assert tokens == front + [last] && last in tokens && forall t :: t in front ==> t in tokens;
      CellsOfTokens(front, p);
      OneMore(front, last);
      TokenCells(last, p);
      assert last == p ==> p !in front;
      CellBagGrows(front, last, p);
    }
  }

  lemma {:induction false} SafeTokensAreCells(tokens: seq<string>)
    requires forall x :: x in tokens ==> SafePath(x)
    ensures CellsAll(tokens) == tokens && BarsAll(tokens) == 0
  {
    if |tokens| > 0 {
      var front, last := tokens[..|tokens| - 1], tokens[|tokens| - 1];
      assert tokens == front + [last] && last in tokens && forall t :: t in front ==> t in tokens;
      SafeTokensAreCells(front);
      SafeIsOneCell(last);
    }
  }

  // ---------------------------------------------------------------- what is emitted

  /** Members in strictly increasing order. */
  ghost predicate Rising(s: seq<string>) { forall i, j :: 0 <= i < j < |s| ==> Less(s[i], s[j]) }

  lemma LessOrders()
    ensures Sorting.Orders(Less)
  {
    forall a, b | Less(a, b) ensures !Less(b, a) {
      LessIsTotal(a, b);
    }
    forall a, b, c | Less(a, c) ensures Less(a, b) || Less(b, c) {
      LessSplits(a, b, c);
    }
  }

  lemma {:induction false} FilterKeepsApart(test: string -> bool, probed: seq<string>)
    requires Sorting.NoDuplicates(probed)
    ensures Sorting.NoDuplicates(Filter(test, probed))
  {
    if |probed| > 0 {
      var front, last := probed[..|probed| - 1], probed[|probed| - 1];
      FilterKeepsApart(test, front);
      var kept := Filter(test, front);
      forall i | 0 <= i < |kept| ensures kept[i] != last {
        assert kept[i] in kept;
      }
    }
  }

  /** Different members, sorted. */
  lemma SortedRises(s: seq<string>)
    requires Sorting.NoDuplicates(s)
    ensures Rising(Sorting.Sort(Less, s)) && Sorting.NoDuplicates(Sorting.Sort(Less, s))
  {
    var sorted := Sorting.Sort(Less, s);
    LessOrders();
    Sorting.SortSorts(Less, s);
    Sorting.KeysApartPermutes((x: string) => x, s, sorted);
    forall i, j | 0 <= i < j < |sorted| ensures Less(sorted[i], sorted[j]) && sorted[i] != sorted[j] {
      LessIsTotal(sorted[i], sorted[j]);
      assert ((x: string) => x)(sorted[i]) != ((x: string) => x)(sorted[j]);
    }
  }

  ghost predicate Listed(lines: Lines, x: string) { x in lines.disallow || x in lines.allow }

  /** What holds of the lines for any verdicts. */
  lemma OutputShape(paths: seq<string>, blocked: map<string, bool>) returns (lines: Lines)
    requires AllSlashed(paths) && Sorting.NoDuplicates(paths)
    ensures lines == Reduce(paths, blocked) && Rising(lines.disallow) && Rising(lines.allow)
    ensures Sorting.NoDuplicates(lines.disallow + lines.allow) && AllSlashed(lines.disallow) && AllSlashed(lines.allow)
    ensures forall x :: Listed(lines, x) ==> x in paths
    ensures |lines.allow| > 0 ==> |lines.disallow| > 0
  {
    lines := Reduce(paths, blocked);
    ReduceMembers(paths, blocked);
    FilterKeepsApart(x => NeedsDisallow(paths, blocked, x), paths);
    FilterKeepsApart(x => NeedsAllow(paths, blocked, x), paths);
    SortedRises(Filter(x => NeedsDisallow(paths, blocked, x), paths));
    SortedRises(Filter(x => NeedsAllow(paths, blocked, x), paths));
    var all := lines.disallow + lines.allow;
    forall i, j | 0 <= i < j < |all| ensures all[i] != all[j] {
      assert i < |lines.disallow| ==> all[i] in lines.disallow;
      assert j >= |lines.disallow| ==> all[j] in lines.allow;
    }
    if |lines.allow| > 0 {
      AllowHasDisallow(paths, blocked, lines.allow[0]);
    }
  }

  /** Which paths are listed tells the verdicts. */
  lemma {:induction false} ListedTellsVerdict(paths: seq<string>, a: map<string, bool>, b: map<string, bool>, x: string)
    requires AllSlashed(paths) && x in paths
    requires forall y :: y in paths ==> (Listed(Reduce(paths, a), y) <==> Listed(Reduce(paths, b), y))
    ensures Denied(a, x) == Denied(b, x)
    decreases |x|
  {
    var parent := Closest(paths, x);
    ReduceMembers(paths, a);
    ReduceMembers(paths, b);
    assert Listed(Reduce(paths, a), x) <==> Listed(Reduce(paths, b), x);
    if parent != "" {
      ListedTellsVerdict(paths, a, b, parent);
    }
  }

  lemma {:induction false} FilterAgrees(s: string -> bool, t: string -> bool, probed: seq<string>)
    requires forall x :: x in probed ==> s(x) == t(x)
    ensures Filter(s, probed) == Filter(t, probed)
  {
    if |probed| > 0 {
      assert probed == probed[..|probed| - 1] + [probed[|probed| - 1]];
      FilterAgrees(s, t, probed[..|probed| - 1]);
    }
  }

  lemma VerdictsTellLines(paths: seq<string>, a: map<string, bool>, b: map<string, bool>)
    requires forall x :: x in paths ==> Denied(a, x) == Denied(b, x)
    ensures Reduce(paths, a) == Reduce(paths, b)
  {
    FilterAgrees(x => NeedsDisallow(paths, a, x), x => NeedsDisallow(paths, b, x), paths);
    FilterAgrees(x => NeedsAllow(paths, a, x), x => NeedsAllow(paths, b, x), paths);
  }

  /** Two outputs that list the same paths are the same. */
  lemma ListedTellsLines(paths: seq<string>, a: map<string, bool>, b: map<string, bool>)
    requires AllSlashed(paths)
    requires forall y :: y in paths ==> (Listed(Reduce(paths, a), y) <==> Listed(Reduce(paths, b), y))
    ensures Reduce(paths, a) == Reduce(paths, b)
  {
    forall x | x in paths ensures Denied(a, x) == Denied(b, x) {
      ListedTellsVerdict(paths, a, b, x);
    }
    VerdictsTellLines(paths, a, b);
  }

  // ---------------------------------------------------------------- lines of one text

  /** Lines as candidates with one unsafe path give them. */
  ghost predicate Drawn(lines: Lines, p: string) {
    && Rising(lines.disallow) && Rising(lines.allow) && Sorting.NoDuplicates(lines.disallow + lines.allow)
    && AllSlashed(lines.disallow) && AllSlashed(lines.allow) && (|lines.allow| > 0 ==> |lines.disallow| > 0)
    && forall x :: x in lines.disallow + lines.allow && x != p ==> SafePath(x)
  }

  /** Two texts that are equal without allow lines are equal lists. */
  lemma BarredEqual(x: string, y: string)
    requires x + "|" + "" == y + "|" + ""
    ensures x == y
  {
    assert x == (x + "|" + "")[..|x|] && y == (y + "|" + "")[..|y|];
  }

  /** As many bars before slashes: allow lines on both sides or on none, and the same cells. */
  lemma SameCells(l: Lines, m: Lines, p: string)
    requires Drawn(l, p) && Drawn(m, p) && LinesText(l) == LinesText(m)
    requires p in l.disallow + l.allow <==> p in m.disallow + m.allow
    ensures CellBag(l.disallow + l.allow, p) == CellBag(m.disallow + m.allow, p)
  {
    var s, t := l.disallow + l.allow, m.disallow + m.allow;
    CellsOfTokens(s, p);
    CellsOfTokens(t, p);
    if |l.disallow| == 0 || |m.disallow| == 0 {
      StartsWithBar(l);
      StartsWithBar(m);
    } else {
      TextCells(l);
      TextCells(m);
      if |l.allow| == 0 {
        BarredEqual(Join(l.disallow, ","), Join(m.disallow, ","));
        JoinedCells(l.disallow);
        JoinedCells(m.disallow);
        assert s == l.disallow && t == m.disallow;
      }
    }
  }

  lemma StartsWithBar(l: Lines)
    requires AllSlashed(l.disallow)
    ensures |l.disallow| == 0 <==> LinesText(l)[0] == '|'
  {
    FirstOfJoin(l.disallow);
  }

  lemma FirstOfJoin(paths: seq<string>)
    requires AllSlashed(paths)
    ensures if |paths| == 0 then Join(paths, ",") == "" else Join(paths, ",") != "" && Join(paths, ",")[0] == '/'
  {
    if |paths| > 0 {
      assert paths[0] in paths;
    }
  }

  lemma Cancels(a: multiset<string>, b: multiset<string>, c: multiset<string>)
    requires a + c == b + c
    ensures a == b
  {
    forall x ensures a[x] == b[x] {
      assert (a + c)[x] == (b + c)[x];
    }
  }

  lemma BagTellsTokens(s: seq<string>, t: seq<string>, p: string, x: string)
    requires CellBag(s, p) == CellBag(t, p) && (p in s <==> p in t)
    ensures x in s <==> x in t
  {
    assert x in s <==> x in multiset(s);
    assert x in t <==> x in multiset(t);
    if p in s {
      Cancels(multiset(s) - multiset{p}, multiset(t) - multiset{p}, multiset(Cells(p)));
      assert p in multiset(s) && p in multiset(t);
      assert multiset(s) == multiset(s) - multiset{p} + multiset{p};
      assert multiset(t) == multiset(t) - multiset{p} + multiset{p};
    }
  }

  /** If both texts use the unsafe path, or neither does, equal texts are equal lines. */
  lemma SameUseSameLines(paths: seq<string>, p: string, a: map<string, bool>, b: map<string, bool>)
    requires OnlyUnsafe(paths, p) && LinesText(Reduce(paths, a)) == LinesText(Reduce(paths, b))
    requires Listed(Reduce(paths, a), p) <==> Listed(Reduce(paths, b), p)
    ensures Reduce(paths, a) == Reduce(paths, b)
  {
    var l := OutputShape(paths, a);
    var m := OutputShape(paths, b);
    SameCells(l, m, p);
    forall y | y in paths ensures Listed(l, y) <==> Listed(m, y) {
      BagTellsTokens(l.disallow + l.allow, m.disallow + m.allow, p, y);
    }
    ListedTellsLines(paths, a, b);
  }

  // ---------------------------------------------------------------- one text uses the unsafe path, the other does not

  lemma BarSplitsClean(x: string, y: string, u: string, v: string)
    requires x + "|" + y == u + "|" + v && Slashed(y) && Slashed(v) && Bars(x) == 0 && Bars(u) == 0
    ensures x == u && y == v
  {
    var s, t := x + "|" + y, u + "|" + v;
    if |x| < |u| {
      CleanIsNoShorter(x, y, u, v);
    } else if |u| < |x| {
      CleanIsNoShorter(u, v, x, y);
    } else {
      assert x == s[..|x|] && u == t[..|u|] && y == s[|x| + 1..] && v == t[|u| + 1..];
    }
  }

  lemma CleanIsNoShorter(x: string, y: string, u: string, v: string)
    requires x + "|" + y == u + "|" + v && Slashed(y) && Slashed(v) && Bars(u) == 0
    ensures |x| >= |u|
  {
    var s, t := x + "|" + y, u + "|" + v;
    assert s[|x|] == '|' && s[|x| + 1] == '/' && t[|u|] == '|';
    if |x| < |u| {
      assert |x| + 1 != |u|;
      assert u[|x|] == t[|x|] && u[|x| + 1] == t[|x| + 1];
      BarCounts(u, |x|);
    }
  }

  lemma {:induction false} LastOfJoin(paths: seq<string>)
    requires |paths| > 0 && paths[|paths| - 1] != ""
    ensures var s, last := Join(paths, ","), paths[|paths| - 1]; s != "" && s[|s| - 1] == last[|last| - 1]
  {
    if |paths| > 1 {
      JoinLast(paths);
    }
  }

  /** Without the unsafe path a text with allow lines ends in no bar. */
  lemma SafeTextEnds(m: Lines, p: string)
    requires Drawn(m, p) && p !in m.disallow + m.allow && |m.allow| > 0
    ensures LinesText(m)[|LinesText(m)| - 1] != '|'
  {
    var last := m.allow[|m.allow| - 1];
    assert last in m.allow && last in m.disallow + m.allow;
    LastOfJoin(m.allow);
  }

  /** If one text uses the unsafe path and the other does not, the path has no bar before a slash, and the two texts
      agree kind by kind. */
  lemma OneUseSplits(l: Lines, m: Lines, p: string)
    requires Drawn(l, p) && Drawn(m, p) && LinesText(l) == LinesText(m)
    requires p in l.disallow + l.allow && p !in m.disallow + m.allow
    ensures Join(l.disallow, ",") == Join(m.disallow, ",") && Join(l.allow, ",") == Join(m.allow, ",") && Bars(p) == 0
    ensures (|l.disallow| > 0 <==> |m.disallow| > 0) && (|l.allow| > 0 <==> |m.allow| > 0)
  {
    StartsWithBar(l);
    StartsWithBar(m);
    assert |l.disallow| > 0;
    TextCells(l);
    TextCells(m);
    CellsOfTokens(l.disallow + l.allow, p);
    CellsOfTokens(m.disallow + m.allow, p);
    if |l.allow| == 0 && |m.allow| > 0 {
      SafeTextEnds(m, p);
    }
    BarsAppendAll(l.disallow, l.allow);
    BarsAppendAll(m.disallow, m.allow);
    JoinedCells(l.disallow);
    JoinedCells(m.disallow);
    if |l.allow| == 0 {
      BarredEqual(Join(l.disallow, ","), Join(m.disallow, ","));
    } else {
      JoinedCells(l.allow);
      JoinedCells(m.allow);
      BarSplitsClean(Join(l.disallow, ","), Join(l.allow, ","), Join(m.disallow, ","), Join(m.allow, ","));
    }
  }

  /** A list without the unsafe path is cut where the list with it is. */
  lemma CutList(s: seq<string>, t: seq<string>)
    requires AllSlashed(s) && AllSlashed(t) && (|s| > 0 <==> |t| > 0) && Join(s, ",") == Join(t, ",")
    requires forall x :: x in t ==> SafePath(x)
    ensures t == CellsAll(s)
  {
    SafeTokensAreCells(t);
    if |s| > 0 {
      JoinedCells(s);
      JoinedCells(t);
    }
  }

  /** The list around one of its members. */
  lemma Around(s: seq<string>, p: string) returns (x: seq<string>, r: seq<string>)
    requires p in s && Sorting.NoDuplicates(s)
    ensures s == x + [p] + r && p !in x && p !in r
  {
    var i :| 0 <= i < |s| && s[i] == p;
    x, r := s[..i], s[i + 1..];
  }

  lemma CutAround(s: seq<string>, p: string) returns (x: seq<string>, r: seq<string>)
    requires p in s && Sorting.NoDuplicates(s) && Bars(p) == 0
    requires forall y :: y in s && y != p ==> SafePath(y)
    ensures s == x + [p] + r && p !in x && p !in r && CellsAll(s) == x + Pieces(p) + r
  {
    x, r := Around(s, p);
    assert forall y :: y in x || y in r ==> y in s && y != p;
    CellsAppend(x + [p], r);
    CellsAppend(x, [p]);
    SafeTokensAreCells(x);
    SafeTokensAreCells(r);
    assert CellsAll([p]) == CellsAll([p][..0]) + Cells(p);
    LevelKeeps(p);
  }

  // ---------------------------------------------------------------- lines alternate along a path

  lemma VerdictAtParent(paths: seq<string>, blocked: map<string, bool>, e: string, x: string) returns (c: string)
    requires AllSlashed(paths) && e in paths && x in paths && e < x
    ensures c == Closest(paths, x) && c in paths && e <= c < x
    ensures Blocks(Reduce(paths, blocked), c) <==> Denied(blocked, c)
  {
    c := Closest(paths, x);
    assert e != "" by { assert Slashed(e); }
    LinesAgreeOnCandidates(paths, blocked, c);
  }

  /** Between two disallowed paths, one under the other, one is allowed. */
  lemma DisallowsAlternate(paths: seq<string>, blocked: map<string, bool>, e: string, d: string) returns (a: string)
    requires AllSlashed(paths)
    requires e in Reduce(paths, blocked).disallow && d in Reduce(paths, blocked).disallow && e < d
    ensures a in Reduce(paths, blocked).allow && e < a < d
  {
    ReduceMembers(paths, blocked);
    var c := VerdictAtParent(paths, blocked, e, d);
    a :| a in Reduce(paths, blocked).allow && a <= c && |a| >= |e|;
    PrefixesNest(e, a, c);
    assert a != e;
  }

  /** And the other way round. */
  lemma AllowsAlternate(paths: seq<string>, blocked: map<string, bool>, e: string, a: string) returns (d: string)
    requires AllSlashed(paths)
    requires e in Reduce(paths, blocked).allow && a in Reduce(paths, blocked).allow && e < a
    ensures d in Reduce(paths, blocked).disallow && e < d < a
  {
    ReduceMembers(paths, blocked);
    var c := VerdictAtParent(paths, blocked, e, a);
    d :| d in Reduce(paths, blocked).disallow && d <= c
         && forall x :: x in Reduce(paths, blocked).allow && x <= c ==> |x| < |d|;
    PrefixesNest(e, d, c);
  }

  /** The last line above an allowed path is a disallow line. */
  lemma AllowUnderDisallow(paths: seq<string>, blocked: map<string, bool>, a: string) returns (d: string)
    requires AllSlashed(paths) && a in Reduce(paths, blocked).allow
    ensures d in Reduce(paths, blocked).disallow && d < a
    ensures forall x :: x in Reduce(paths, blocked).allow && x < a ==> !(d < x)
  {
    var lines := Reduce(paths, blocked);
    ReduceMembers(paths, blocked);
    var c := Closest(paths, a);
    LinesAgreeOnCandidates(paths, blocked, c);
    d :| d in lines.disallow && d <= c && forall x :: x in lines.allow && x <= c ==> |x| < |d|;
    forall x | x in lines.allow && x < a ensures !(d < x) {
      assert x <= c;
    }
  }

  lemma {:induction false} ShortestAfter(s: seq<string>, low: string, x: string) returns (m: string)
    requires x in s && low < x
    ensures m in s && low < m <= x && forall y :: y in s && low < y ==> !(y < m)
    decreases |x|
  {
    if y :| y in s && low < y && y < x {
      m := ShortestAfter(s, low, y);
    } else {
      m := x;
    }
  }

  // ---------------------------------------------------------------- no piece is under another

  /** Two outputs with the same allow lines; the first has the unsafe path where the second has shorter ones. */
  lemma DisallowPiecesApart(paths: seq<string>, p: string, a: map<string, bool>, b: map<string, bool>,
                            e: string, q: string)
    requires AllSlashed(paths) && Reduce(paths, a).allow == Reduce(paths, b).allow
    requires forall x :: x in Reduce(paths, a).disallow && x != p ==> x in Reduce(paths, b).disallow
    requires e in Reduce(paths, b).disallow && q in Reduce(paths, b).disallow
    requires e !in Reduce(paths, a).disallow && |q| < |p|
    ensures !(e < q)
  {
    var l, m := Reduce(paths, a), Reduce(paths, b);
    if e < q {
      var y := DisallowsAlternate(paths, b, e, q);
      var x := ShortestAfter(m.allow, e, y);
      var d := AllowUnderDisallow(paths, a, x);
      DisallowStep(paths, b, m, e, x, d);
    }
  }

  lemma DisallowStep(paths: seq<string>, b: map<string, bool>, m: Lines, e: string, x: string, d: string)
    requires AllSlashed(paths) && m == Reduce(paths, b) && e in m.disallow && d in m.disallow && e < x && d < x
    requires forall y :: y in m.allow && e < y ==> !(y < x)
    requires forall y :: y in m.allow && y < x ==> !(d < y)
    ensures d == e
  {
    if |d| < |e| {
      PrefixesNest(d, e, x);
      var y := DisallowsAlternate(paths, b, d, e);
    } else if |e| < |d| {
      PrefixesNest(e, d, x);
      var y := DisallowsAlternate(paths, b, e, d);
    } else {
      assert d == x[..|d|] && e == x[..|e|];
    }
  }

  /** The same with the same disallow lines. */
  lemma AllowPiecesApart(paths: seq<string>, p: string, a: map<string, bool>, b: map<string, bool>,
                         e: string, q: string)
    requires AllSlashed(paths) && Reduce(paths, a).disallow == Reduce(paths, b).disallow
    requires forall x :: x in Reduce(paths, a).allow && x != p ==> x in Reduce(paths, b).allow
    requires e in Reduce(paths, b).allow && q in Reduce(paths, b).allow && e !in Reduce(paths, a).allow && |q| < |p|
    ensures !(e < q)
  {
    var l, m := Reduce(paths, a), Reduce(paths, b);
    if e < q {
      var y := AllowsAlternate(paths, b, e, q);
      var x := ShortestAfter(m.disallow, e, y);
      var d := AllowUnderDisallow(paths, b, e);
      var z := DisallowsAlternate(paths, a, d, x);
      AllowStep(paths, b, m, e, x, d, z);
    }
  }

  lemma AllowStep(paths: seq<string>, b: map<string, bool>, m: Lines, e: string, x: string, d: string, z: string)
    requires AllSlashed(paths) && m == Reduce(paths, b) && e in m.allow && z in m.allow && e < x && d < z < x
    requires forall y :: y in m.disallow && e < y ==> !(y < x)
    requires forall y :: y in m.allow && y < e ==> !(d < y)
    ensures z == e
  {
    if |z| < |e| {
      PrefixesNest(z, e, x);
    } else if |e| < |z| {
      PrefixesNest(e, z, x);
      var y := AllowsAlternate(paths, b, e, z);
    } else {
      assert z == x[..|z|] && e == x[..|e|];
    }
  }

  // ---------------------------------------------------------------- the condition

  /** The pieces of a path are candidates themselves, in increasing order, none under another. */
  ghost predicate Divides(paths: seq<string>, p: string) {
    var qs := Pieces(p);
    |qs| >= 2 && (forall q :: q in qs ==> q in paths) && Apart(qs)
  }

  ghost predicate Apart(qs: seq<string>) {
    Rising(qs) && forall i, j :: 0 <= i < |qs| && 0 <= j < |qs| && i != j ==> !(qs[i] < qs[j])
  }

  lemma {:induction false} PiecesAreShorter(s: string)
    requires |Pieces(s)| >= 2
    ensures forall i :: 0 <= i < |Pieces(s)| ==> |Pieces(s)[i]| < |s|
  {
    PiecesFit(s);
    forall i | 0 <= i < |Pieces(s)| ensures |Pieces(s)[i]| < |s| {
      var j := if i == 0 then 1 else 0;
      PiecesFitPair(Pieces(s), i, j);
    }
  }

  function Lengths(pieces: seq<string>): nat { if |pieces| == 0 then 0 else |pieces[0]| + 1 + Lengths(pieces[1..]) }

  lemma {:induction false} PiecesFit(s: string)
    ensures Lengths(Pieces(s)) == |s| + 1
  {
    if s != "" {
      PiecesFit(s[1..]);
      var rest := Pieces(s[1..]);
      if s[0] == ',' && Slashed(s[1..]) {
        assert Pieces(s)[1..] == rest;
      } else {
        assert Pieces(s)[1..] == rest[1..];
      }
    }
  }

  lemma {:induction false} PiecesFitPair(pieces: seq<string>, i: nat, j: nat)
    requires i < |pieces| && j < |pieces| && i != j
    ensures Lengths(pieces) >= |pieces[i]| + |pieces[j]| + 2
  {
    if i > 0 && j > 0 {
      PiecesFitPair(pieces[1..], i - 1, j - 1);
    } else {
      PiecesFitOne(pieces[1..], if i > 0 then i - 1 else j - 1);
    }
  }

  lemma {:induction false} PiecesFitOne(pieces: seq<string>, i: nat)
    requires i < |pieces|
    ensures Lengths(pieces) >= |pieces[i]| + 1
  {
    if i > 0 {
      PiecesFitOne(pieces[1..], i - 1);
    }
  }

  lemma OnePieceIsWhole(p: string)
    requires |Pieces(p)| == 1
    ensures Pieces(p) == [p]
  {
    JoinPieces(p);
  }

  lemma SliceRises(s: seq<string>, x: seq<string>, qs: seq<string>, r: seq<string>)
    requires s == x + qs + r && Rising(s)
    ensures Rising(qs) && forall q :: q in qs ==> q in s && q !in x && q !in r
  {
    forall i, j | 0 <= i < j < |qs| ensures Less(qs[i], qs[j]) {
      assert s[|x| + i] == qs[i] && s[|x| + j] == qs[j];
    }
    forall q | q in qs ensures q in s && q !in x && q !in r {
      var k :| 0 <= k < |qs| && qs[k] == q;
      assert s[|x| + k] == q;
      forall n | 0 <= n < |x| ensures x[n] != q {
        assert s[n] == x[n];
        LessIsTotal(x[n], q);
      }
      forall n | 0 <= n < |r| ensures r[n] != q {
        assert s[|x| + |qs| + n] == r[n];
        LessIsTotal(q, r[n]);
      }
    }
  }

  /** The pieces stand in the path's place, in a list of candidates. */
  ghost predicate StandsIn(s: seq<string>, t: seq<string>, p: string, paths: seq<string>) {
    && Rising(t) && (forall y :: y in t ==> y in paths)
    && exists x, r :: s == x + [p] + r && t == x + Pieces(p) + r
  }

  lemma OnlyOneKind(l: Lines, p: string)
    requires Sorting.NoDuplicates(l.disallow + l.allow)
    ensures Sorting.NoDuplicates(l.disallow) && Sorting.NoDuplicates(l.allow) && !(p in l.disallow && p in l.allow)
  {
    var all := l.disallow + l.allow;
    assert forall i :: 0 <= i < |l.disallow| ==> all[i] == l.disallow[i];
    assert forall i :: 0 <= i < |l.allow| ==> all[|l.disallow| + i] == l.allow[i];
  }

  lemma CutStandsIn(s: seq<string>, t: seq<string>, p: string, paths: seq<string>)
    requires p in s && Sorting.NoDuplicates(s) && Bars(p) == 0 && forall y :: y in s && y != p ==> SafePath(y)
    requires t == CellsAll(s) && Rising(t) && forall y :: y in t ==> y in paths
    ensures StandsIn(s, t, p, paths)
  {
    var x, r := CutAround(s, p);
  }

  /** Equal texts, one with the unsafe path: among the other's lines its pieces stand in its place. */
  lemma PiecesStandIn(paths: seq<string>, p: string, l: Lines, m: Lines)
    requires Drawn(l, p) && Drawn(m, p) && LinesText(l) == LinesText(m) && forall y :: Listed(m, y) ==> y in paths
    requires p in l.disallow + l.allow && p !in m.disallow + m.allow
    ensures p in l.disallow ==> StandsIn(l.disallow, m.disallow, p, paths) && l.allow == m.allow
    ensures p !in l.disallow ==> StandsIn(l.allow, m.allow, p, paths) && l.disallow == m.disallow
  {
    OneUseSplits(l, m, p);
    CutList(l.disallow, m.disallow);
    CutList(l.allow, m.allow);
    OnlyOneKind(l, p);
    if p in l.disallow {
      SafeTokensAreCells(l.allow);
      CutStandsIn(l.disallow, m.disallow, p, paths);
    } else {
      SafeTokensAreCells(l.disallow);
      CutStandsIn(l.allow, m.allow, p, paths);
    }
  }

  /** What standing in means for the pieces. */
  lemma StandInFacts(s: seq<string>, t: seq<string>, p: string, paths: seq<string>)
    requires StandsIn(s, t, p, paths) && s != t
    ensures var qs := Pieces(p);
            && |qs| >= 2 && Rising(qs) && (forall q :: q in qs ==> q in paths && q in t && |q| < |p| && q !in s)
            && forall y :: y in s && y != p ==> y in t
  {
    var qs := Pieces(p);
    var x, r :| s == x + [p] + r && t == x + qs + r;
    SliceRises(t, x, qs, r);
    if |qs| == 1 {
      OnePieceIsWhole(p);
    }
    assert |qs| >= 2;
    PiecesAreShorter(p);
    forall q | q in qs ensures |q| < |p| && q !in s {
      var k :| 0 <= k < |qs| && qs[k] == q;
    }
  }

  lemma DisallowUseDivides(paths: seq<string>, p: string, a: map<string, bool>, b: map<string, bool>)
    requires AllSlashed(paths) && Reduce(paths, a).allow == Reduce(paths, b).allow
    requires StandsIn(Reduce(paths, a).disallow, Reduce(paths, b).disallow, p, paths)
    requires Reduce(paths, a).disallow != Reduce(paths, b).disallow
    ensures Divides(paths, p)
  {
    var qs := Pieces(p);
    StandInFacts(Reduce(paths, a).disallow, Reduce(paths, b).disallow, p, paths);
    forall i, j | 0 <= i < |qs| && 0 <= j < |qs| && i != j ensures !(qs[i] < qs[j]) {
      assert qs[i] in qs && qs[j] in qs;
      DisallowPiecesApart(paths, p, a, b, qs[i], qs[j]);
    }
  }

  lemma AllowUseDivides(paths: seq<string>, p: string, a: map<string, bool>, b: map<string, bool>)
    requires AllSlashed(paths) && Reduce(paths, a).disallow == Reduce(paths, b).disallow
    requires StandsIn(Reduce(paths, a).allow, Reduce(paths, b).allow, p, paths)
    requires Reduce(paths, a).allow != Reduce(paths, b).allow
    ensures Divides(paths, p)
  {
    var qs := Pieces(p);
    StandInFacts(Reduce(paths, a).allow, Reduce(paths, b).allow, p, paths);
    forall i, j | 0 <= i < |qs| && 0 <= j < |qs| && i != j ensures !(qs[i] < qs[j]) {
      assert qs[i] in qs && qs[j] in qs;
      AllowPiecesApart(paths, p, a, b, qs[i], qs[j]);
    }
  }

  lemma OneUseDivides(paths: seq<string>, p: string, a: map<string, bool>, b: map<string, bool>)
    requires OnlyUnsafe(paths, p) && Reduce(paths, a) != Reduce(paths, b)
    requires LinesText(Reduce(paths, a)) == LinesText(Reduce(paths, b))
    requires Listed(Reduce(paths, a), p) && !Listed(Reduce(paths, b), p)
    ensures Divides(paths, p)
  {
    var l := OutputShape(paths, a);
    var m := OutputShape(paths, b);
    PiecesStandIn(paths, p, l, m);
    if p in l.disallow {
      DisallowUseDivides(paths, p, a, b);
    } else {
      AllowUseDivides(paths, p, a, b);
    }
  }

  lemma CollisionDivides(paths: seq<string>, p: string)
    requires OnlyUnsafe(paths, p) && Collides(paths)
    ensures Divides(paths, p)
  {
    var a, b :| Reduce(paths, a) != Reduce(paths, b) && LinesText(Reduce(paths, a)) == LinesText(Reduce(paths, b));
    if Listed(Reduce(paths, a), p) == Listed(Reduce(paths, b), p) {
      SameUseSameLines(paths, p, a, b);
    } else if Listed(Reduce(paths, a), p) {
      OneUseDivides(paths, p, a, b);
    } else {
      OneUseDivides(paths, p, b, a);
    }
  }

  // ---------------------------------------------------------------- and it is enough

  predicate StartsOne(qs: seq<string>, x: string) { exists i :: 0 <= i < |qs| && qs[i] <= x }

  /** Blocking what some paths start, none under another, gives just those paths. */
  lemma StartedLines(paths: seq<string>, qs: seq<string>, blocked: map<string, bool>)
    requires AllSlashed(paths) && Sorting.NoDuplicates(paths) && Apart(qs) && forall q :: q in qs ==> q in paths
    requires forall x :: x in paths ==> (Denied(blocked, x) <==> StartsOne(qs, x))
    ensures Reduce(paths, blocked) == Lines(qs, [])
  {
    var l := OutputShape(paths, blocked);
    ReduceMembers(paths, blocked);
    forall x | x in paths ensures (NeedsDisallow(paths, blocked, x) <==> x in qs) && !NeedsAllow(paths, blocked, x) {
      StartedNeeds(paths, qs, blocked, x);
    }
    RisingIsUnique(l.disallow, qs);
    RisingIsUnique(l.allow, []);
  }

  lemma PrefixIsWholeOrShorter(a: string, b: string)
    requires a <= b
    ensures a == b || a < b
  {
    if |a| == |b| {
      assert a == b[..|a|];
    }
  }

  /** A path that starts the parent starts the path; a shorter candidate that starts the path starts the parent. */
  lemma StartsParent(paths: seq<string>, qs: seq<string>, x: string)
    requires AllSlashed(paths) && (forall q :: q in qs ==> q in paths) && Closest(paths, x) != ""
    ensures StartsOne(qs, Closest(paths, x)) ==> StartsOne(qs, x)
    ensures x !in qs && StartsOne(qs, x) ==> StartsOne(qs, Closest(paths, x))
  {
    var c := Closest(paths, x);
    if j :| 0 <= j < |qs| && qs[j] <= c {
      assert qs[j] <= x;
    }
    if x !in qs && StartsOne(qs, x) {
      var i :| 0 <= i < |qs| && qs[i] <= x;
      assert qs[i] in qs;
      PrefixIsWholeOrShorter(qs[i], x);
    }
  }

  lemma StartedHasParent(paths: seq<string>, qs: seq<string>, x: string)
    requires AllSlashed(paths) && (forall q :: q in qs ==> q in paths) && x !in qs && StartsOne(qs, x)
    ensures Closest(paths, x) != ""
  {
    var i :| 0 <= i < |qs| && qs[i] <= x;
    assert qs[i] in qs && Slashed(qs[i]);
    PrefixIsWholeOrShorter(qs[i], x);
  }

  lemma ApartStandsAlone(paths: seq<string>, qs: seq<string>, x: string)
    requires AllSlashed(paths) && (forall q :: q in qs ==> q in paths) && Apart(qs) && x in qs
    ensures StartsOne(qs, x) && !StartsOne(qs, Closest(paths, x))
  {
    var i :| 0 <= i < |qs| && qs[i] == x;
    assert qs[i] <= x;
    var c := Closest(paths, x);
    forall j | 0 <= j < |qs| ensures !(qs[j] <= c) {
      assert qs[j] in qs && Slashed(qs[j]);
      NotUnder(qs, i, j, c);
    }
  }

  lemma NotUnder(qs: seq<string>, i: nat, j: nat, c: string)
    requires Apart(qs) && i < |qs| && j < |qs| && (c == "" || c < qs[i])
    ensures !(qs[j] <= c) || qs[j] == ""
  {
  }

  lemma StartedNeeds(paths: seq<string>, qs: seq<string>, blocked: map<string, bool>, x: string)
    requires AllSlashed(paths) && Apart(qs) && (forall q :: q in qs ==> q in paths) && x in paths
    requires forall y :: y in paths ==> (Denied(blocked, y) <==> StartsOne(qs, y))
    ensures (NeedsDisallow(paths, blocked, x) <==> x in qs) && !NeedsAllow(paths, blocked, x)
  {
    if x in qs {
      ApartStandsAlone(paths, qs, x);
    } else if StartsOne(qs, x) {
      StartedHasParent(paths, qs, x);
      StartsParent(paths, qs, x);
    } else if Closest(paths, x) != "" {
      StartsParent(paths, qs, x);
    }
  }

  /** A set has one increasing listing. */
  lemma {:induction false} RisingIsUnique(s: seq<string>, t: seq<string>)
    requires Rising(s) && Rising(t) && forall x :: x in s <==> x in t
    ensures s == t
    decreases |s|
  {
    assert |s| > 0 ==> s[0] in t;
    assert |t| > 0 ==> t[0] in s;
    if |s| > 0 && |t| > 0 {
      SameFirst(s, t);
      RisingIsUnique(s[1..], t[1..]);
      assert s == [s[0]] + s[1..] && t == [t[0]] + t[1..];
    }
  }

  lemma SameFirst(s: seq<string>, t: seq<string>)
    requires Rising(s) && Rising(t) && |s| > 0 && |t| > 0 && forall x :: x in s <==> x in t
    ensures s[0] == t[0] && forall x :: x in s[1..] <==> x in t[1..]
  {
    assert s[0] in t && t[0] in s;
    LessIsTotal(s[0], t[0]);
    forall x ensures x in s[1..] <==> x in t[1..] {
      RestWithoutFirst(s, x);
      RestWithoutFirst(t, x);
    }
  }

  lemma RestWithoutFirst(s: seq<string>, x: string)
    requires Rising(s) && |s| > 0
    ensures x in s[1..] <==> x in s && x != s[0]
  {
    if x in s && x != s[0] {
      var i :| 0 <= i < |s| && s[i] == x;
      assert s[1..][i - 1] == x;
    }
    if x in s[1..] {
      var i :| 0 <= i < |s| - 1 && s[1..][i] == x;
      LessIsTotal(s[0], s[i + 1]);
    }
  }

  lemma StartedOutput(paths: seq<string>, qs: seq<string>) returns (blocked: map<string, bool>)
    requires AllSlashed(paths) && Sorting.NoDuplicates(paths) && Apart(qs) && forall q :: q in qs ==> q in paths
    ensures Reduce(paths, blocked) == Lines(qs, [])
  {
    blocked := map x | x in paths :: StartsOne(qs, x);
    StartedLines(paths, qs, blocked);
  }

  lemma DividesCollides(paths: seq<string>, p: string)
    requires AllSlashed(paths) && Sorting.NoDuplicates(paths) && p in paths && Divides(paths, p)
    ensures Collides(paths)
  {
    var a := StartedOutput(paths, [p]);
    var b := StartedOutput(paths, Pieces(p));
    JoinPieces(p);
    WrittenAlike(p);
    assert Reduce(paths, a) != Reduce(paths, b) && LinesText(Reduce(paths, a)) == LinesText(Reduce(paths, b));
  }

  lemma WrittenAlike(p: string)
    requires |Pieces(p)| >= 2
    ensures LinesText(Lines([p], [])) == LinesText(Lines(Pieces(p), [])) && Lines([p], []) != Lines(Pieces(p), [])
  {
    JoinPieces(p);
    assert |[p]| != |Pieces(p)|;
  }

  /** Among candidates with one unsafe path, two different sets of lines are written alike exactly when the path is
      its own comma-joined list of other candidates, in increasing order and none under another. A misplaced bar alone
      does no harm. */
  lemma CollidesExactly(paths: seq<string>, p: string)
    requires OnlyUnsafe(paths, p)
    ensures Collides(paths) <==> Divides(paths, p)
  {
    if Divides(paths, p) {
      DividesCollides(paths, p);
    }
    if Collides(paths) {
      CollisionDivides(paths, p);
    }
  }

  // ---------------------------------------------------------------- lists with several unsafe paths

  /** Increasing lists of candidates in which every line changes what is read at the candidate above it. */
  ghost predicate Emittable(paths: seq<string>, lines: Lines) {
    && Rising(lines.disallow) && Rising(lines.allow)
    && (forall x :: Listed(lines, x) ==> x in paths && !(x in lines.disallow && x in lines.allow))
    && (forall x :: x in lines.disallow ==> !Blocks(lines, Closest(paths, x)))
    && (forall x :: x in lines.allow ==> Blocks(lines, Closest(paths, x)))
  }

  ghost predicate Emitted(paths: seq<string>, lines: Lines) { exists blocked :: Reduce(paths, blocked) == lines }

  lemma OutputIsEmittable(paths: seq<string>, blocked: map<string, bool>)
    requires AllSlashed(paths) && Sorting.NoDuplicates(paths)
    ensures Emittable(paths, Reduce(paths, blocked))
  {
    var lines := OutputShape(paths, blocked);
    ReduceMembers(paths, blocked);
    forall x | Listed(lines, x) ensures Blocks(lines, Closest(paths, x)) <==> x in lines.allow {
      if Closest(paths, x) != "" {
        LinesAgreeOnCandidates(paths, blocked, Closest(paths, x));
      } else {
        NothingBlocksEmpty(paths, lines);
      }
    }
  }

  lemma NothingBlocksEmpty(paths: seq<string>, lines: Lines)
    requires AllSlashed(paths) && forall x :: Listed(lines, x) ==> x in paths
    ensures !Blocks(lines, "")
  {
    assert forall d :: d in lines.disallow ==> Slashed(d);
  }

  /** At a line's own path the line is what is read. */
  lemma LineReadsItself(paths: seq<string>, lines: Lines, x: string)
    requires Emittable(paths, lines)
    ensures x in lines.disallow ==> Blocks(lines, x)
    ensures x in lines.allow ==> !Blocks(lines, x)
  {
    if x in lines.disallow {
      forall a | a in lines.allow && a <= x ensures |a| < |x| {
        PrefixIsWholeOrShorter(a, x);
        assert Listed(lines, x);
      }
    }
  }

  lemma LinesNeedThemselves(paths: seq<string>, lines: Lines, blocked: map<string, bool>, x: string)
    requires AllSlashed(paths) && Emittable(paths, lines) && x in paths
    requires forall y :: y in paths ==> (Denied(blocked, y) <==> Blocks(lines, y))
    ensures NeedsDisallow(paths, blocked, x) <==> x in lines.disallow
    ensures NeedsAllow(paths, blocked, x) <==> x in lines.allow
  {
    LineReadsItself(paths, lines, x);
    NothingBlocksEmpty(paths, lines);
    assert Listed(lines, x) ==> !(x in lines.disallow && x in lines.allow);
    if !Listed(lines, x) {
      UnlistedReadsAsAncestor(paths, lines, x);
    }
  }

  lemma NeededAreOutput(paths: seq<string>, lines: Lines, blocked: map<string, bool>)
    requires AllSlashed(paths) && Sorting.NoDuplicates(paths) && Emittable(paths, lines)
    requires forall x :: x in paths ==>
               (NeedsDisallow(paths, blocked, x) <==> x in lines.disallow)
               && (NeedsAllow(paths, blocked, x) <==> x in lines.allow)
    ensures Reduce(paths, blocked) == lines
  {
    var output := OutputShape(paths, blocked);
    ReduceMembers(paths, blocked);
    forall x ensures (x in output.disallow <==> x in lines.disallow) && (x in output.allow <==> x in lines.allow) {
      assert Listed(lines, x) ==> x in paths;
    }
    RisingIsUnique(output.disallow, lines.disallow);
    RisingIsUnique(output.allow, lines.allow);
  }

  lemma EmittableIsOutput(paths: seq<string>, lines: Lines) returns (blocked: map<string, bool>)
    requires AllSlashed(paths) && Sorting.NoDuplicates(paths) && Emittable(paths, lines)
    ensures Reduce(paths, blocked) == lines
  {
    blocked := map x | x in paths :: Blocks(lines, x);
    forall x | x in paths
      ensures NeedsDisallow(paths, blocked, x) <==> x in lines.disallow
      ensures NeedsAllow(paths, blocked, x) <==> x in lines.allow
    {
      LinesNeedThemselves(paths, lines, blocked, x);
    }
    NeededAreOutput(paths, lines, blocked);
  }

  /** Which directives some verdicts give. */
  lemma EmittedExactly(paths: seq<string>, lines: Lines)
    requires AllSlashed(paths) && Sorting.NoDuplicates(paths)
    ensures Emitted(paths, lines) <==> Emittable(paths, lines)
  {
    if Emittable(paths, lines) {
      var blocked := EmittableIsOutput(paths, lines);
    }
    if Emitted(paths, lines) {
      var blocked :| Reduce(paths, blocked) == lines;
      OutputIsEmittable(paths, blocked);
    }
  }

  /** Whatever the candidates, verdicts collide exactly when two such pairs of lists have one text. */
  lemma CollidesByLines(paths: seq<string>)
    requires AllSlashed(paths) && Sorting.NoDuplicates(paths)
    ensures Collides(paths)
            <==> exists l, m :: l != m && Emittable(paths, l) && Emittable(paths, m) && LinesText(l) == LinesText(m)
  {
    if Collides(paths) {
      var a, b :| Reduce(paths, a) != Reduce(paths, b) && LinesText(Reduce(paths, a)) == LinesText(Reduce(paths, b));
      OutputIsEmittable(paths, a);
      OutputIsEmittable(paths, b);
    }
    if l, m :| l != m && Emittable(paths, l) && Emittable(paths, m) && LinesText(l) == LinesText(m) {
      var a := EmittableIsOutput(paths, l);
      var b := EmittableIsOutput(paths, m);
    }
  }
}
