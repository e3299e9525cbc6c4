/** From a verdict per probed path to robots.txt lines, and how a crawler reads such lines. */
module Directives {
  import opened Text
  import Sorting

  datatype Lines = Lines(disallow: seq<string>, allow: seq<string>)

  predicate Slashed(path: string) { "/" <= path }

  ghost predicate AllSlashed(paths: seq<string>) { forall p :: p in paths ==> Slashed(p) }

  /** The verdict recorded for a path; a path never recorded reads as allowed. */
  predicate Denied(blocked: map<string, bool>, path: string) { path in blocked && blocked[path] }

  /** The longest other candidate that prefix-matching applies to `path`, "" when there is none. */
  function Closest(paths: seq<string>, path: string): (best: string)
    ensures best != "" ==> best in paths && best < path
    ensures forall c :: c in paths && c < path ==> c <= best
  {
    if |paths| == 0 then ""
    else
      var best := Closest(paths[..|paths| - 1], path);
      var candidate := paths[|paths| - 1];
      assert paths == paths[..|paths| - 1] + [candidate];
      if candidate == path || !(candidate <= path) then best
      else
        assert |candidate| < |path|;
        if |candidate| > |best| then
          assert best <= candidate by { PrefixesNest(best, candidate, path); }
          candidate
        else
          assert candidate <= best by { if best != "" { PrefixesNest(candidate, best, path); } }
          best
  }

  method ClosestPrefix(paths: seq<string>, path: string) returns (best: string, found: bool)
    ensures best == Closest(paths, path) && found == (best != "")
    ensures found <==> exists c :: c in paths && "" < c < path
  {
    best := "";
    for i := 0 to |paths|
      invariant best == Closest(paths[..i], path)
    {
      assert paths[..i + 1][..i] == paths[..i];
      var candidate := paths[i];
      if candidate == path || !(candidate <= path) {
        continue;
      }
      if |candidate| > |best| {
        best := candidate;
      }
    }
    assert paths[..|paths|] == paths;
    found := best != "";
  }

  /** A line is needed where the verdict differs from the covering candidate's, or from the default. */
  predicate NeedsDisallow(paths: seq<string>, blocked: map<string, bool>, path: string) {
    var ancestor := Closest(paths, path);
    Denied(blocked, path) && (ancestor == "" || !Denied(blocked, ancestor))
  }

  predicate NeedsAllow(paths: seq<string>, blocked: map<string, bool>, path: string) {
    var ancestor := Closest(paths, path);
    !Denied(blocked, path) && ancestor != "" && Denied(blocked, ancestor)
  }

  /** The members of `probed` that satisfy a test, in order. */
  function Filter(test: string -> bool, probed: seq<string>): (r: seq<string>)
    ensures forall p :: p in r <==> p in probed && test(p)
  {
    if |probed| == 0 then []
    else
      var last := probed[|probed| - 1];
      assert probed == probed[..|probed| - 1] + [last];
      Filter(test, probed[..|probed| - 1]) + if test(last) then [last] else []
  }

  function Reduce(paths: seq<string>, blocked: map<string, bool>): Lines {
    Lines(Sorting.Sort(Less, Filter(p => NeedsDisallow(paths, blocked, p), paths)),
          Sorting.Sort(Less, Filter(p => NeedsAllow(paths, blocked, p), paths)))
  }

  method Directives(paths: seq<string>, blocked: map<string, bool>) returns (disallow: seq<string>, allow: seq<string>)
    ensures Lines(disallow, allow) == Reduce(paths, blocked)
  {
    disallow, allow := [], [];
    ghost var needsDisallow := p => NeedsDisallow(paths, blocked, p);
    ghost var needsAllow := p => NeedsAllow(paths, blocked, p);
    for i := 0 to |paths|
      invariant disallow == Filter(needsDisallow, paths[..i])
      invariant allow == Filter(needsAllow, paths[..i])
    {
      assert paths[..i + 1][..i] == paths[..i];
      var path := paths[i];
      var ancestor, hasAncestor := ClosestPrefix(paths, path);
      if !hasAncestor {
        if Denied(blocked, path) {
          disallow := disallow + [path];
        }
      } else if Denied(blocked, path) == Denied(blocked, ancestor) {
      } else if Denied(blocked, path) {
        disallow := disallow + [path];
      } else {
        allow := allow + [path];
      }
    }
    assert paths[..|paths|] == paths;
    disallow := Sorting.Sort(Less, disallow);
    allow := Sorting.Sort(Less, allow);
  }

  // ---------------------------------------------------------------- the crawler's reading

  /** Section 2.2.2 of RFC 9309: the longest matching rule wins, allow wins a tie, no match allows. */
  ghost predicate Blocks(lines: Lines, url: string) {
    exists d :: d in lines.disallow && d <= url
             && forall a :: a in lines.allow && a <= url ==> |a| < |d|
  }

  /** The candidate whose verdict stands for `url`: the longest one that prefixes it, "" for none. */
  function Cover(paths: seq<string>, url: string): (c: string)
    ensures c != "" ==> c in paths && c <= url
    ensures forall p :: p in paths && p <= url ==> p <= c
  {
    if url in paths then url
    else
      assert forall p :: p in paths && p <= url ==> p < url by {
        forall p | p in paths && p <= url ensures p < url {
          assert |p| == |url| ==> p == url;
        }
      }
      Closest(paths, url)
  }

  lemma ReduceMembers(paths: seq<string>, blocked: map<string, bool>)
    ensures var lines := Reduce(paths, blocked);
            && (forall p :: p in lines.disallow <==> p in paths && NeedsDisallow(paths, blocked, p))
            && (forall p :: p in lines.allow <==> p in paths && NeedsAllow(paths, blocked, p))
  {
    Sorting.SortKeepsMembers(Less, Filter(p => NeedsDisallow(paths, blocked, p), paths));
    Sorting.SortKeepsMembers(Less, Filter(p => NeedsAllow(paths, blocked, p), paths));
  }

  /** Lines drawn from the candidates read the same at a URL and at the candidate covering it. */
  lemma CoverReadsAlike(paths: seq<string>, lines: Lines, url: string, c: string)
    requires forall p :: p in lines.disallow || p in lines.allow ==> p in paths && p != ""
    requires c <= url && forall p :: p in paths && p <= url ==> p <= c
    ensures Blocks(lines, url) <==> Blocks(lines, c)
  {
    forall p | p in paths ensures p <= url <==> p <= c {}
    if Blocks(lines, url) {
      var d :| d in lines.disallow && d <= url && forall a :: a in lines.allow && a <= url ==> |a| < |d|;
      assert d <= c && forall a :: a in lines.allow && a <= c ==> |a| < |d|;
    }
    if Blocks(lines, c) {
      var d :| d in lines.disallow && d <= c && forall a :: a in lines.allow && a <= c ==> |a| < |d|;
      assert d <= url && forall a :: a in lines.allow && a <= url ==> |a| < |d|;
    }
  }

  /** Without a line for `path` itself, it reads as its closest candidate prefix does. */
  lemma UnlistedReadsAsAncestor(paths: seq<string>, lines: Lines, path: string)
    requires AllSlashed(paths)
    requires forall p :: p in lines.disallow || p in lines.allow ==> p in paths
    requires path !in lines.disallow && path !in lines.allow
    ensures Blocks(lines, path) <==> Blocks(lines, Closest(paths, path))
  {
    var a := Closest(paths, path);
    forall p | p in lines.disallow || p in lines.allow ensures p <= path <==> p <= a {
      assert p != path;
    }
    if Blocks(lines, path) {
      var d :| d in lines.disallow && d <= path && forall x :: x in lines.allow && x <= path ==> |x| < |d|;
      assert d <= a;
    }
    if Blocks(lines, a) {
      var d :| d in lines.disallow && d <= a && forall x :: x in lines.allow && x <= a ==> |x| < |d|;
      assert d <= path;
    }
  }

  lemma {:induction false} LinesAgreeOnCandidates(paths: seq<string>, blocked: map<string, bool>, path: string)
    requires AllSlashed(paths) && path in paths
    ensures Blocks(Reduce(paths, blocked), path) <==> Denied(blocked, path)
    decreases |path|
  {
    var lines := Reduce(paths, blocked);
    ReduceMembers(paths, blocked);
    var a := Closest(paths, path);
    if path in lines.disallow {
      forall x | x in lines.allow && x <= path ensures |x| < |path| {
        assert x != path;
      }
    } else if path !in lines.allow {
      UnlistedReadsAsAncestor(paths, lines, path);
      if a != "" {
        LinesAgreeOnCandidates(paths, blocked, a);
      } else {
        assert forall p :: p in paths ==> p != "";
      }
    }
  }

  /** For every URL the emitted lines give the verdict of the longest candidate prefixing it. */
  lemma LinesGiveCoverVerdict(paths: seq<string>, blocked: map<string, bool>, url: string)
    requires AllSlashed(paths)
    ensures Blocks(Reduce(paths, blocked), url) <==> Denied(blocked, Cover(paths, url)) && Cover(paths, url) != ""
  {
    var lines, c := Reduce(paths, blocked), Cover(paths, url);
    ReduceMembers(paths, blocked);
    assert forall p :: p in paths ==> p != "";
    CoverReadsAlike(paths, lines, url, c);
    if c != "" {
      LinesAgreeOnCandidates(paths, blocked, c);
    }
  }

  /** Nothing can be left out: any lines drawn from the candidates that read right at every candidate
      contain every emitted line. */
  lemma NoLineIsRedundant(paths: seq<string>, blocked: map<string, bool>, others: Lines)
    requires AllSlashed(paths)
    requires forall p :: p in others.disallow || p in others.allow ==> p in paths
    requires forall p :: p in paths ==> (Blocks(others, p) <==> Denied(blocked, p))
    ensures forall p :: p in Reduce(paths, blocked).disallow ==> p in others.disallow
    ensures forall p :: p in Reduce(paths, blocked).allow ==> p in others.allow
  {
    ReduceMembers(paths, blocked);
    forall p | p in Reduce(paths, blocked).disallow ensures p in others.disallow {
      if p !in others.disallow {
        NeededAtPath(paths, blocked, others, p);
      }
    }
    forall p | p in Reduce(paths, blocked).allow ensures p in others.allow {
      if p !in others.allow {
        NeededAtPath(paths, blocked, others, p);
      }
    }
  }

  /** Where the verdict changes, the right reading needs a line for the path itself. */
  lemma NeededAtPath(paths: seq<string>, blocked: map<string, bool>, others: Lines, path: string)
    requires AllSlashed(paths) && path in paths
    requires forall p :: p in others.disallow || p in others.allow ==> p in paths
    requires forall p :: p in paths ==> (Blocks(others, p) <==> Denied(blocked, p))
    requires NeedsDisallow(paths, blocked, path) || NeedsAllow(paths, blocked, path)
    ensures Denied(blocked, path) ==> path in others.disallow
    ensures !Denied(blocked, path) ==> path in others.allow
  {
    assert forall p :: p in paths ==> p != "";
    if path !in others.disallow && path !in others.allow {
      UnlistedReadsAsAncestor(paths, others, path);
    } else if path !in others.allow {
      forall x | x in others.allow && x <= path ensures |x| < |path| {
        assert x != path;
      }
      assert Blocks(others, path);
    }
  }

  /** An allow line always carves something out of a shorter disallow line. */
  lemma AllowHasDisallow(paths: seq<string>, blocked: map<string, bool>, path: string)
    requires AllSlashed(paths) && path in Reduce(paths, blocked).allow
    ensures exists d :: d in Reduce(paths, blocked).disallow && d < path
  {
    ReduceMembers(paths, blocked);
    var a := Closest(paths, path);
    LinesAgreeOnCandidates(paths, blocked, a);
    var d :| d in Reduce(paths, blocked).disallow && d <= a;
    assert d < path;
  }
}
