/** Trimming a bounded map to its most recently used entries, a batch at a time. */
module Lru {
  import Sorting

  const HEADROOM_DIVISOR := 8

  /** The size a trim goes down to. */
  function Mark(maxEntries: nat): nat { maxEntries - maxEntries / HEADROOM_DIVISOR }

  /** The keys last used at or before `time`. */
  function UpTo<K, V>(items: map<K, V>, access: V -> int, keys: set<K>, time: int): set<K>
    requires keys <= items.Keys
  {
    set k | k in keys && access(items[k]) <= time
  }

  function CountUpTo(times: seq<int>, time: int): nat {
    if |times| == 0 then 0
    else CountUpTo(times[..|times| - 1], time) + if times[|times| - 1] <= time then 1 else 0
  }

  predicate Earlier(a: int, b: int) { a < b }

  /** The recency at which `surplus` entries are reached, and not one step before. */
  ghost predicate IsCutoff<K, V>(items: map<K, V>, access: V -> int, surplus: int, cutoff: int) {
    |UpTo(items, access, items.Keys, cutoff)| >= surplus > |UpTo(items, access, items.Keys, cutoff - 1)|
  }

  // ---------------------------------------------------------------- counting

  lemma {:induction false} InsertCounts(s: seq<int>, x: int, time: int)
    ensures CountUpTo(Sorting.Insert(Earlier, s, x), time) == CountUpTo(s + [x], time)
  {
    if |s| == 0 || !Earlier(x, s[|s| - 1]) {
    } else {
      var front, last := s[..|s| - 1], s[|s| - 1];
      InsertCounts(front, x, time);
      var r := Sorting.Insert(Earlier, front, x);
      assert (r + [last])[..|r|] == r && (front + [x])[..|front|] == front && (s + [x])[..|s|] == s;
    }
  }

  lemma {:induction false} SortCounts(s: seq<int>, time: int)
    ensures CountUpTo(Sorting.Sort(Earlier, s), time) == CountUpTo(s, time)
  {
    if |s| > 0 {
      var front, last := s[..|s| - 1], s[|s| - 1];
      var sorted := Sorting.Sort(Earlier, front);
      SortCounts(front, time);
      InsertCounts(sorted, last, time);
      assert (sorted + [last])[..|sorted|] == sorted;
    }
  }

  /** In a sorted list the count at an element covers its position, and the count before it does not. */
  lemma {:induction false} SortedCount(s: seq<int>, i: nat)
    requires Sorting.Sorted(Earlier, s) && i < |s|
    ensures CountUpTo(s, s[i]) >= i + 1 && CountUpTo(s, s[i] - 1) <= i
    decreases |s|
  {
    var front := s[..|s| - 1];
    if i < |s| - 1 {
      SortedCount(front, i);
    } else {
      AllCounted(front, s[i]);
      CountBounded(front, s[i] - 1);
    }
  }

  lemma {:induction false} AllCounted(s: seq<int>, time: int)
    requires forall i :: 0 <= i < |s| ==> s[i] <= time
    ensures CountUpTo(s, time) == |s|
  {
    if |s| > 0 {
      AllCounted(s[..|s| - 1], time);
    }
  }

  lemma {:induction false} CountBounded(s: seq<int>, time: int)
    ensures CountUpTo(s, time) <= |s|
  {
    if |s| > 0 {
      CountBounded(s[..|s| - 1], time);
    }
  }

  /** A list of the access times of `keys`, whatever order they were visited in. */
  ghost predicate TimesOf<K, V>(items: map<K, V>, access: V -> int, keys: set<K>, times: seq<int>)
    requires keys <= items.Keys
  {
    |times| == |keys| && forall t :: CountUpTo(times, t) == |UpTo(items, access, keys, t)|
  }

  lemma UpToGains<K, V>(items: map<K, V>, access: V -> int, keys: set<K>, key: K, time: int)
    requires keys <= items.Keys && key in items.Keys && key !in keys
    ensures |UpTo(items, access, keys + {key}, time)|
         == |UpTo(items, access, keys, time)| + if access(items[key]) <= time then 1 else 0
  {
    var before, after := UpTo(items, access, keys, time), UpTo(items, access, keys + {key}, time);
    if access(items[key]) <= time {
      assert after == before + {key};
    } else {
      assert after == before;
    }
  }

  lemma CountGrows(times: seq<int>, a: int, time: int)
    ensures CountUpTo(times + [a], time) == CountUpTo(times, time) + if a <= time then 1 else 0
  {
    assert (times + [a])[..|times|] == times;
  }

  lemma TimesGrow<K, V>(items: map<K, V>, access: V -> int, keys: set<K>, times: seq<int>, key: K)
    requires keys <= items.Keys && TimesOf(items, access, keys, times) && key in items.Keys && key !in keys
    ensures TimesOf(items, access, keys + {key}, times + [access(items[key])])
  {
    var a := access(items[key]);
    forall t ensures CountUpTo(times + [a], t) == |UpTo(items, access, keys + {key}, t)| {
      CountGrows(times, a, t);
      UpToGains(items, access, keys, key, t);
    }
  }

  lemma {:induction false} SomeTimes<K, V>(items: map<K, V>, access: V -> int, keys: set<K>) returns (times: seq<int>)
    requires keys <= items.Keys
    ensures TimesOf(items, access, keys, times)
  {
    if keys == {} {
      times := [];
      assert forall t :: UpTo(items, access, keys, t) == {};
    } else {
      var k :| k in keys;
      var rest := SomeTimes(items, access, keys - {k});
      TimesGrow(items, access, keys - {k}, rest, k);
      assert keys - {k} + {k} == keys;
      times := rest + [access(items[k])];
    }
  }

  lemma EarlierOrders()
    ensures Sorting.Orders(Earlier)
  {
  }

  /** A sorted list with as many times up to any moment. */
  ghost predicate Sorts(sorted: seq<int>, times: seq<int>) {
    && Sorting.Sorted(Earlier, sorted) && |sorted| == |times|
    && forall t :: CountUpTo(sorted, t) == CountUpTo(times, t)
  }

  lemma SortedTimes(times: seq<int>) returns (sorted: seq<int>)
    ensures sorted == Sorting.Sort(Earlier, times) && Sorts(sorted, times)
  {
    sorted := Sorting.Sort(Earlier, times);
    EarlierOrders();
    Sorting.SortSorts(Earlier, times);
    Sorting.SortKeepsMembers(Earlier, times);
    forall t ensures CountUpTo(sorted, t) == CountUpTo(times, t) {
      SortCounts(times, t);
    }
  }

  lemma SortedPick(sorted: seq<int>, times: seq<int>, surplus: int)
    requires Sorts(sorted, times) && 0 < surplus <= |times|
    ensures CountUpTo(times, sorted[surplus - 1]) >= surplus > CountUpTo(times, sorted[surplus - 1] - 1)
  {
    SortedCount(sorted, surplus - 1);
  }

  /** The element the code picks from the sorted times is the cutoff. */
  lemma SortedTimeIsCutoff<K, V>(items: map<K, V>, access: V -> int, times: seq<int>, surplus: int)
    requires TimesOf(items, access, items.Keys, times) && 0 < surplus <= |items|
    ensures |Sorting.Sort(Earlier, times)| == |items|
    ensures IsCutoff(items, access, surplus, Sorting.Sort(Earlier, times)[surplus - 1])
  {
    assert |items| == |items.Keys|;
    var sorted := SortedTimes(times);
    SortedPick(sorted, times, surplus);
  }

  lemma CutoffExists<K, V>(items: map<K, V>, access: V -> int, surplus: int)
    requires 0 < surplus <= |items|
    ensures exists c :: IsCutoff(items, access, surplus, c)
  {
    var times := SomeTimes(items, access, items.Keys);
    SortedTimeIsCutoff(items, access, times, surplus);
  }

  lemma CutoffIsUnique<K, V>(items: map<K, V>, access: V -> int, surplus: int, c: int, d: int)
    requires IsCutoff(items, access, surplus, c) && IsCutoff(items, access, surplus, d)
    ensures c == d
  {
    UpToGrows(items, access, c, d - 1);
    UpToGrows(items, access, d, c - 1);
  }

  lemma UpToGrows<K, V>(items: map<K, V>, access: V -> int, s: int, t: int)
    ensures s <= t ==> |UpTo(items, access, items.Keys, s)| <= |UpTo(items, access, items.Keys, t)|
  {
    if s <= t {
      Subset(UpTo(items, access, items.Keys, s), UpTo(items, access, items.Keys, t));
    }
  }

  lemma Subset<K>(a: set<K>, b: set<K>)
    requires a <= b
    ensures |a| <= |b|
    ensures |b - a| == |b| - |a|
  {
    assert b == a + (b - a);
  }

  // ---------------------------------------------------------------- the trim

  /** The entries used after `cutoff`. */
  function After<K, V>(items: map<K, V>, access: V -> int, cutoff: int): map<K, V> {
    map k | k in items && access(items[k]) > cutoff :: items[k]
  }

  ghost function Trimmed<K, V>(items: map<K, V>, maxEntries: nat, access: V -> int): map<K, V> {
    var surplus := |items| - Mark(maxEntries);
    if surplus <= 0 then items
    else
      CutoffExists(items, access, surplus);
      var c :| IsCutoff(items, access, surplus, c);
      After(items, access, c)
  }

  method GatherTimes<K, V>(items: map<K, V>, access: V -> int) returns (times: seq<int>)
    ensures TimesOf(items, access, items.Keys, times)
  {
    times := [];
    var rest := items.Keys;
    assert TimesOf(items, access, {}, times) by {
      assert forall t :: UpTo(items, access, {}, t) == {};
    }
    assert items.Keys - rest == {};
    while rest != {}
      invariant rest <= items.Keys && TimesOf(items, access, items.Keys - rest, times)
      decreases |rest|
    {
      var k :| k in rest;
      TimesGrow(items, access, items.Keys - rest, times, k);
      assert items.Keys - (rest - {k}) == items.Keys - rest + {k};
      times := times + [access(items[k])];
      rest := rest - {k};
    }
    assert items.Keys - rest == items.Keys;
  }

  method DropUpTo<K, V>(items: map<K, V>, access: V -> int, cutoff: int) returns (left: map<K, V>)
    ensures left == After(items, access, cutoff)
  {
    left := items;
    var rest := items.Keys;
    while rest != {}
      invariant rest <= items.Keys
      invariant left == map k | k in items && (k in rest || access(items[k]) > cutoff) :: items[k]
      decreases |rest|
    {
      var k :| k in rest;
      if access(items[k]) <= cutoff {
        left := left - {k};
      }
      rest := rest - {k};
    }
  }

  method Trim<K, V>(items: map<K, V>, maxEntries: nat, access: V -> int) returns (left: map<K, V>)
    ensures left == Trimmed(items, maxEntries, access)
  {
    var surplus := |items| - (maxEntries - maxEntries / HEADROOM_DIVISOR);
    if surplus <= 0 {
      return items;
    }
    var times := GatherTimes(items, access);
    SortedTimeIsCutoff(items, access, times, surplus);
    times := Sorting.Sort(Earlier, times);
    var cutoff := times[surplus - 1];
    left := DropUpTo(items, access, cutoff);
    CutoffDetermines(items, maxEntries, access, cutoff);
  }

  lemma CutoffDetermines<K, V>(items: map<K, V>, maxEntries: nat, access: V -> int, cutoff: int)
    requires |items| > Mark(maxEntries) && IsCutoff(items, access, |items| - Mark(maxEntries), cutoff)
    ensures Trimmed(items, maxEntries, access) == After(items, access, cutoff)
  {
    var surplus := |items| - Mark(maxEntries);
    var c :| IsCutoff(items, access, surplus, c) && Trimmed(items, maxEntries, access) == After(items, access, c);
    CutoffIsUnique(items, access, surplus, c, cutoff);
  }

  // ---------------------------------------------------------------- what a trim leaves

  /** Everything kept was used strictly after everything dropped. */
  ghost predicate KeepsRecent<K, V>(kept: map<K, V>, items: map<K, V>, access: V -> int) {
    && kept.Keys <= items.Keys && (forall k :: k in kept ==> kept[k] == items[k])
    && forall k, d :: k in kept && d in items && d !in kept ==> access(items[k]) > access(items[d])
  }

  lemma AfterSplits<K, V>(items: map<K, V>, access: V -> int, cutoff: int)
    ensures After(items, access, cutoff).Keys == items.Keys - UpTo(items, access, items.Keys, cutoff)
    ensures |After(items, access, cutoff)| == |items| - |UpTo(items, access, items.Keys, cutoff)|
  {
    Subset(UpTo(items, access, items.Keys, cutoff), items.Keys);
    var kept := After(items, access, cutoff);
    assert kept.Keys == items.Keys - UpTo(items, access, items.Keys, cutoff);
    assert |kept| == |kept.Keys|;
  }

  /** At or below the mark nothing goes; above it, the newest entries stay and fit under the mark. */
  lemma TrimLeaves<K, V>(items: map<K, V>, maxEntries: nat, access: V -> int)
    ensures KeepsRecent(Trimmed(items, maxEntries, access), items, access)
    ensures |items| <= maxEntries - maxEntries / 8 ==> Trimmed(items, maxEntries, access) == items
    ensures |Trimmed(items, maxEntries, access)| <= maxEntries - maxEntries / 8 <= maxEntries
    ensures Mark(maxEntries) == maxEntries - maxEntries / 8
  {
    var surplus := |items| - Mark(maxEntries);
    if surplus > 0 {
      CutoffExists(items, access, surplus);
      var c :| IsCutoff(items, access, surplus, c) && Trimmed(items, maxEntries, access) == After(items, access, c);
      AfterSplits(items, access, c);
    }
  }

  /** No trim that keeps the newest and fits under the mark could keep more. */
  lemma TrimIsLargest<K, V>(items: map<K, V>, maxEntries: nat, access: V -> int, other: map<K, V>)
    requires KeepsRecent(other, items, access) && |other| <= Mark(maxEntries)
    ensures other.Keys <= Trimmed(items, maxEntries, access).Keys
  {
    var surplus := |items| - Mark(maxEntries);
    if surplus > 0 {
      CutoffExists(items, access, surplus);
      var c :| IsCutoff(items, access, surplus, c) && Trimmed(items, maxEntries, access) == After(items, access, c);
      forall k | k in other ensures k in After(items, access, c) {
        if access(items[k]) <= c {
          var dropped := items.Keys - other.Keys;
          assert dropped <= UpTo(items, access, items.Keys, c - 1);
          Subset(dropped, UpTo(items, access, items.Keys, c - 1));
          Subset(other.Keys, items.Keys);
        }
      }
    }
  }

  ghost predicate DistinctTimes<K, V>(items: map<K, V>, access: V -> int) {
    forall j, k :: j in items && k in items && access(items[j]) == access(items[k]) ==> j == k
  }

  /** With distinct times exactly the surplus goes. */
  lemma TrimIsExact<K, V>(items: map<K, V>, maxEntries: nat, access: V -> int)
    requires DistinctTimes(items, access) && |items| > Mark(maxEntries)
    ensures |Trimmed(items, maxEntries, access)| == Mark(maxEntries)
  {
    var surplus := |items| - Mark(maxEntries);
    CutoffExists(items, access, surplus);
    var c :| IsCutoff(items, access, surplus, c) && Trimmed(items, maxEntries, access) == After(items, access, c);
    AfterSplits(items, access, c);
    var low, high := UpTo(items, access, items.Keys, c - 1), UpTo(items, access, items.Keys, c);
    Subset(low, high);
    if k :| k in high - low {
      assert high - low == {k};
    }
  }
}
