/** The library sorts, by an order given as a `less` function. */
module Sorting {

  /** A strict weak order: what the sort functions ask of `less`. */
  ghost predicate Orders<T(!new)>(less: (T, T) -> bool) {
    && (forall a, b :: less(a, b) ==> !less(b, a))
    && (forall a, b, c :: less(a, c) ==> less(a, b) || less(b, c))
  }

  ghost predicate Sorted<T>(less: (T, T) -> bool, s: seq<T>) {
    forall i, j :: 0 <= i < j < |s| ==> !less(s[j], s[i])
  }

  /** Places `x` behind every element it is not less than. */
  function Insert<T>(less: (T, T) -> bool, s: seq<T>, x: T): (r: seq<T>)
    ensures multiset(r) == multiset(s) + multiset{x}
  {
    if |s| == 0 || !less(x, s[|s| - 1]) then s + [x]
    else
      assert s == s[..|s| - 1] + [s[|s| - 1]];
      Insert(less, s[..|s| - 1], x) + [s[|s| - 1]]
  }

  /** Stable insertion sort. */
  function Sort<T>(less: (T, T) -> bool, s: seq<T>): (r: seq<T>)
    ensures multiset(r) == multiset(s)
  {
    if |s| == 0 then []
    else
      assert s == s[..|s| - 1] + [s[|s| - 1]];
      Insert(less, Sort(less, s[..|s| - 1]), s[|s| - 1])
  }

  lemma {:induction false} InsertSorts<T(!new)>(less: (T, T) -> bool, s: seq<T>, x: T)
    requires Orders(less) && Sorted(less, s)
    ensures Sorted(less, Insert(less, s, x))
  {
    if |s| > 0 && less(x, s[|s| - 1]) {
      var front, last := s[..|s| - 1], s[|s| - 1];
      InsertSorts(less, front, x);
      var r := Insert(less, front, x);
      forall i | 0 <= i < |r| ensures !less(last, r[i]) {
        assert r[i] in multiset(r);
        if r[i] != x {
          assert r[i] in multiset(front);
        }
      }
    } else if |s| > 0 {
      var last := s[|s| - 1];
      forall i | 0 <= i < |s| ensures !less(x, s[i]) {
        if i < |s| - 1 {
          assert !less(last, s[i]);
        }
      }
    }
  }

  lemma {:induction false} SortSorts<T(!new)>(less: (T, T) -> bool, s: seq<T>)
    requires Orders(less)
    ensures Sorted(less, Sort(less, s))
  {
    if |s| > 0 {
      SortSorts(less, s[..|s| - 1]);
      InsertSorts(less, Sort(less, s[..|s| - 1]), s[|s| - 1]);
    }
  }

  /** The elements that tie with `x`, in order. */
  function Tied<T>(less: (T, T) -> bool, s: seq<T>, x: T): seq<T> {
    if |s| == 0 then []
    else
      var last := s[|s| - 1];
      Tied(less, s[..|s| - 1], x) + if !less(last, x) && !less(x, last) then [last] else []
  }

  lemma TiedGrows<T>(less: (T, T) -> bool, s: seq<T>, y: T, x: T)
    ensures Tied(less, s + [y], x) == Tied(less, s, x) + if !less(y, x) && !less(x, y) then [y] else []
  {
    assert (s + [y])[..|s|] == s;
  }

  /** Two that are in order either do not both tie with `x`, or may be swapped. */
  lemma TiedSwaps<T(!new)>(less: (T, T) -> bool, s: seq<T>, y: T, z: T, x: T)
    requires Orders(less) && less(y, z)
    ensures Tied(less, s + [y] + [z], x) == Tied(less, s + [z] + [y], x)
  {
    TiedGrows(less, s + [y], z, x);
    TiedGrows(less, s, y, x);
    TiedGrows(less, s + [z], y, x);
    TiedGrows(less, s, z, x);
    assert less(y, x) || less(x, z);
  }

  lemma {:induction false} InsertIsStable<T(!new)>(less: (T, T) -> bool, s: seq<T>, y: T, x: T)
    requires Orders(less)
    ensures Tied(less, Insert(less, s, y), x) == Tied(less, s + [y], x)
  {
    if |s| > 0 && less(y, s[|s| - 1]) {
      var front, last := s[..|s| - 1], s[|s| - 1];
      assert s == front + [last];
      InsertIsStable(less, front, y, x);
      TiedGrows(less, Insert(less, front, y), last, x);
      TiedGrows(less, front + [y], last, x);
      TiedSwaps(less, front, y, last, x);
    }
  }

  /** Sorting keeps the order of elements that tie. */
  lemma {:induction false} SortIsStable<T(!new)>(less: (T, T) -> bool, s: seq<T>, x: T)
    requires Orders(less)
    ensures Tied(less, Sort(less, s), x) == Tied(less, s, x)
  {
    if |s| > 0 {
      var front, last := s[..|s| - 1], s[|s| - 1];
      SortIsStable(less, front, x);
      InsertIsStable(less, Sort(less, front), last, x);
      TiedGrows(less, Sort(less, front), last, x);
      TiedGrows(less, front, last, x);
      assert s == front + [last];
    }
  }

  lemma LastIsGreatest<T(!new)>(less: (T, T) -> bool, s: seq<T>, x: T)
    requires Sorted(less, s) && x in s
    ensures x == s[|s| - 1] || !less(s[|s| - 1], x)
  {
    var i :| 0 <= i < |s| && s[i] == x;
  }

  lemma DropLast<T>(s: seq<T>)
    requires |s| > 0
    ensures multiset(s[..|s| - 1]) == multiset(s) - multiset{s[|s| - 1]}
  {
    assert s == s[..|s| - 1] + [s[|s| - 1]];
  }

  lemma SameLength<T>(s: seq<T>, t: seq<T>)
    requires multiset(s) == multiset(t)
    ensures |s| == |t|
  {
    assert |multiset(s)| == |s|;
  }

  /** No two different members of `m` are equivalent for `less`. */
  ghost predicate TellsApart<T>(less: (T, T) -> bool, m: multiset<T>) {
    forall x, y :: x in m && y in m ==> less(x, y) || less(y, x) || x == y
  }

  lemma TellsApartShrinks<T>(less: (T, T) -> bool, m: multiset<T>, n: multiset<T>)
    requires TellsApart(less, m) && n <= m
    ensures TellsApart(less, n)
  {
    forall x, y | x in n && y in n ensures less(x, y) || less(y, x) || x == y {
      assert x in m && y in m;
    }
  }

  lemma LastsAgree<T(!new)>(less: (T, T) -> bool, s: seq<T>, t: seq<T>)
    requires Sorted(less, s) && Sorted(less, t) && multiset(s) == multiset(t) && |s| == |t| > 0
    requires TellsApart(less, multiset(s))
    ensures s[|s| - 1] == t[|t| - 1]
    ensures multiset(s[..|s| - 1]) == multiset(t[..|t| - 1])
  {
    var m, n := s[|s| - 1], t[|t| - 1];
    assert m in multiset(t) && n in multiset(s);
    LastIsGreatest(less, s, n);
    LastIsGreatest(less, t, m);
    DropLast(s);
    DropLast(t);
  }

  lemma SortedFront<T>(less: (T, T) -> bool, s: seq<T>)
    requires Sorted(less, s) && |s| > 0
    ensures Sorted(less, s[..|s| - 1])
    ensures multiset(s[..|s| - 1]) <= multiset(s)
    ensures s == s[..|s| - 1] + [s[|s| - 1]]
  {
    DropLast(s);
  }

  /** When `less` tells the elements apart there is one sorted arrangement, whatever algorithm finds it. */
  lemma {:induction false} SortedIsUnique<T(!new)>(less: (T, T) -> bool, s: seq<T>, t: seq<T>)
    requires Sorted(less, s) && Sorted(less, t) && multiset(s) == multiset(t)
    requires TellsApart(less, multiset(s))
    ensures s == t
    decreases |s|
  {
    SameLength(s, t);
    if |s| > 0 {
      LastsAgree(less, s, t);
      var s', t' := s[..|s| - 1], t[..|t| - 1];
      assert s == s' + [s[|s| - 1]] && Sorted(less, s') && TellsApart(less, multiset(s')) by {
        SortedFront(less, s);
        TellsApartShrinks(less, multiset(s), multiset(s'));
      }
      assert t == t' + [t[|t| - 1]] && Sorted(less, t') by {
        SortedFront(less, t);
      }
      SortedIsUnique(less, s', t');
    }
  }

  lemma SortKeepsMembers<T>(less: (T, T) -> bool, s: seq<T>)
    ensures |Sort(less, s)| == |s|
    ensures forall x :: x in Sort(less, s) <==> x in s
  {
    var r := Sort(less, s);
    assert |multiset(r)| == |multiset(s)|;
    forall x ensures x in r <==> x in s {
      assert x in r <==> x in multiset(r);
      assert x in s <==> x in multiset(s);
    }
  }

  /** No two elements share a key. */
  ghost predicate KeysApart<T>(key: T -> string, s: seq<T>) {
    forall i, j :: 0 <= i < j < |s| ==> key(s[i]) != key(s[j])
  }

  lemma {:induction false} OnceOnly<T>(key: T -> string, s: seq<T>, x: T)
    requires KeysApart(key, s)
    ensures multiset(s)[x] <= 1
  {
    if |s| > 0 {
      var front, last := s[..|s| - 1], s[|s| - 1];
      assert s == front + [last];
      OnceOnly(key, front, x);
      if last == x {
        assert x !in front;
        assert x !in multiset(front);
      }
    }
  }

  lemma KeysApartPermutes<T>(key: T -> string, s: seq<T>, t: seq<T>)
    requires KeysApart(key, s) && multiset(s) == multiset(t)
    ensures KeysApart(key, t)
  {
    forall i, j | 0 <= i < j < |t| ensures key(t[i]) != key(t[j]) {
      var a, b := t[i], t[j];
      var rest := t[..j] + t[j + 1..];
      assert t == t[..j] + [b] + t[j + 1..];
      assert rest[i] == a;
      assert multiset(t) == multiset(rest) + multiset{b};
      assert a in multiset(rest) && b in multiset(s) && a in multiset(s);
      if a == b {
        assert multiset(s)[a] >= 2;
        OnceOnly(key, s, a);
      }
    }
  }

  ghost predicate NoDuplicates<T>(s: seq<T>) {
    forall i, j :: 0 <= i < j < |s| ==> s[i] != s[j]
  }

  /** The members of a set in some order, as ranging over a Go map yields them. */
  ghost function SomeOrder<T>(s: set<T>): (r: seq<T>)
    ensures multiset(r) == multiset(s)
  {
    if s == {} then []
    else
      var x :| x in s;
      assert s == (s - {x}) + {x};
      SomeOrder(s - {x}) + [x]
  }
}
