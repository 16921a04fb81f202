/** The stable sort behind `sorted(...)` and `ORDER BY`, and list comprehension filters. */
module Sorting {

  ghost predicate TotalPreorder<T(!new)>(le: (T, T) -> bool) {
    && (forall x, y :: le(x, y) || le(y, x))
    && (forall x, y, z :: le(x, y) && le(y, z) ==> le(x, z))
  }

  /** No two different members of s tie. */
  ghost predicate Separates<T>(le: (T, T) -> bool, s: seq<T>) {
    forall x, y :: x in s && y in s && le(x, y) && le(y, x) ==> x == y
  }

  ghost predicate Sorted<T>(s: seq<T>, le: (T, T) -> bool) {
    forall i, j :: 0 <= i < j < |s| ==> le(s[i], s[j])
  }

  ghost predicate Distinct<T>(s: seq<T>) {
    forall i, j :: 0 <= i < j < |s| ==> s[i] != s[j]
  }

  function Insert<T>(x: T, s: seq<T>, le: (T, T) -> bool): seq<T> {
    if |s| == 0 then [x]
    else if le(x, s[0]) then [x] + s
    else [s[0]] + Insert(x, s[1..], le)
  }

  function Sort<T>(s: seq<T>, le: (T, T) -> bool): seq<T> {
    if |s| == 0 then [] else Insert(s[0], Sort(s[1..], le), le)
  }

  function Filter<T>(s: seq<T>, p: T -> bool): seq<T> {
    if |s| == 0 then []
    else if p(s[0]) then [s[0]] + Filter(s[1..], p)
    else Filter(s[1..], p)
  }

  /** A list slice s[:n], or LIMIT n. */
  function Take<T>(s: seq<T>, n: nat): seq<T> {
    if n <= |s| then s[..n] else s
  }

  lemma {:induction false} InsertPermutes<T>(x: T, s: seq<T>, le: (T, T) -> bool)
    ensures multiset(Insert(x, s, le)) == multiset(s) + multiset{x}
  {
    if |s| == 0 || le(x, s[0]) {
    } else {
      InsertPermutes(x, s[1..], le);
      assert s == [s[0]] + s[1..];
    }
  }

  lemma {:induction false} SortPermutes<T>(s: seq<T>, le: (T, T) -> bool)
    ensures multiset(Sort(s, le)) == multiset(s)
    ensures |Sort(s, le)| == |s|
  {
    hide Insert;
    if |s| == 0 {
    } else {
      SortPermutes(s[1..], le);
      InsertPermutes(s[0], Sort(s[1..], le), le);
      assert s == [s[0]] + s[1..];
    }
    assert |multiset(Sort(s, le))| == |multiset(s)|;
  }

  lemma SortMembers<T>(s: seq<T>, le: (T, T) -> bool, x: T)
    ensures x in Sort(s, le) <==> x in s
  {
    SortPermutes(s, le);
    assert x in multiset(Sort(s, le)) <==> x in multiset(s);
  }

  lemma SortDistinct<T>(s: seq<T>, le: (T, T) -> bool)
    requires Distinct(s)
    ensures Distinct(Sort(s, le))
  {
    SortPermutes(s, le);
    DistinctCounts(s);
    DistinctFromCounts(Sort(s, le));
  }

  lemma {:induction false} DistinctCounts<T>(s: seq<T>)
    requires Distinct(s)
    ensures forall x :: multiset(s)[x] <= 1
  {
    if |s| == 0 {
    } else {
      DistinctCounts(s[1..]);
      assert s == [s[0]] + s[1..];
      assert s[0] !in s[1..];
    }
  }

  lemma {:induction false} DistinctFromCounts<T>(s: seq<T>)
    requires forall x :: multiset(s)[x] <= 1
    ensures Distinct(s)
  {
    if |s| == 0 {
    } else {
      assert s == [s[0]] + s[1..];
      assert multiset(s) == multiset{s[0]} + multiset(s[1..]);
      forall x ensures multiset(s[1..])[x] <= 1 {
        assert multiset(s)[x] <= 1;
      }
      DistinctFromCounts(s[1..]);
      assert s[0] !in s[1..] by {
        assert multiset(s)[s[0]] <= 1;
      }
    }
  }

  lemma {:induction false} InsertSorted<T(!new)>(x: T, s: seq<T>, le: (T, T) -> bool)
    requires TotalPreorder(le) && Sorted(s, le)
    ensures Sorted(Insert(x, s, le), le)
  {
    if |s| == 0 {
    } else if le(x, s[0]) {
      forall j | 0 <= j < |s| ensures le(x, s[j]) {
        assert le(s[0], s[j]);
      }
    } else {
      var t := Insert(x, s[1..], le);
      InsertSorted(x, s[1..], le);
      forall j | 0 <= j < |t| ensures le(s[0], t[j]) {
        InsertPermutes(x, s[1..], le);
        assert t[j] in multiset(t);
        assert t[j] == x || t[j] in s[1..];
      }
    }
  }

  lemma {:induction false} SortSorts<T(!new)>(s: seq<T>, le: (T, T) -> bool)
    requires TotalPreorder(le)
    ensures Sorted(Sort(s, le), le)
  {
    if |s| == 0 {
    } else {
      SortSorts(s[1..], le);
      InsertSorted(s[0], Sort(s[1..], le), le);
    }
  }

  /** A sequence already in order is its own sort. */
  lemma {:induction false} SortOfSorted<T(!new)>(s: seq<T>, le: (T, T) -> bool)
    requires Sorted(s, le)
    ensures Sort(s, le) == s
  {
    if |s| == 0 {
    } else {
      SortOfSorted(s[1..], le);
      assert |s| > 1 ==> le(s[0], s[1]);
    }
  }

  lemma HeadIsLeast<T(!new)>(s: seq<T>, le: (T, T) -> bool, x: T)
    requires TotalPreorder(le) && Sorted(s, le) && x in s
    ensures le(s[0], x)
  {
    var i :| 0 <= i < |s| && s[i] == x;
    assert i == 0 ==> le(x, x);
  }

  lemma TailMultiset<T>(s: seq<T>)
    requires |s| > 0
    ensures multiset(s[1..]) == multiset(s) - multiset{s[0]}
  {
    assert s == [s[0]] + s[1..];
  }

  lemma OrderedTail<T(!new)>(s: seq<T>, le: (T, T) -> bool)
    requires |s| > 0 && Sorted(s, le)
    ensures Sorted(s[1..], le)
    ensures Separates(le, s) ==> Separates(le, s[1..])
  {
  }

  lemma TiesAreEqual<T(!new)>(s: seq<T>, le: (T, T) -> bool, x: T, y: T)
    requires Separates(le, s) && x in s && y in s && le(x, y) && le(y, x)
    ensures x == y
  {
  }

  /** Two ordered arrangements of the same elements coincide when no two elements tie. */
  lemma {:induction false} SortedUnique<T(!new)>(a: seq<T>, b: seq<T>, le: (T, T) -> bool)
    requires TotalPreorder(le)
    requires Sorted(a, le) && Sorted(b, le)
    requires multiset(a) == multiset(b)
    requires Separates(le, a)
    ensures a == b
  {
    hide Sorted, Separates, TotalPreorder;
    assert |multiset(a)| == |a| && |multiset(b)| == |b|;
    if |a| == 0 {
    } else {
      assert a[0] in multiset(b) && b[0] in multiset(a);
      HeadIsLeast(a, le, b[0]);
      HeadIsLeast(b, le, a[0]);
      TiesAreEqual(a, le, a[0], b[0]);
      TailMultiset(a);
      TailMultiset(b);
      OrderedTail(a, le);
      OrderedTail(b, le);
      SortedUnique(a[1..], b[1..], le);
      assert a == [a[0]] + a[1..] && b == [b[0]] + b[1..];
    }
  }

  /** Sorting forgets the input order when no two elements tie. */
  lemma SortForgetsOrder<T(!new)>(s: seq<T>, t: seq<T>, le: (T, T) -> bool)
    requires TotalPreorder(le) && Separates(le, s)
    requires multiset(s) == multiset(t)
    ensures Sort(s, le) == Sort(t, le)
  {
    SortSorts(s, le);
    SortSorts(t, le);
    SortPermutes(s, le);
    SortPermutes(t, le);
    forall x | x in Sort(s, le) ensures x in s {
      SortMembers(s, le, x);
    }
    SortedUnique(Sort(s, le), Sort(t, le), le);
  }

  lemma {:induction false} FilterMembers<T>(s: seq<T>, p: T -> bool, x: T)
    ensures x in Filter(s, p) <==> x in s && p(x)
  {
    if |s| == 0 {
    } else {
      FilterMembers(s[1..], p, x);
      assert s == [s[0]] + s[1..];
    }
  }

  lemma {:induction false} FilterKeepsAll<T>(s: seq<T>, p: T -> bool)
    requires forall x :: x in s ==> p(x)
    ensures Filter(s, p) == s
  {
    if |s| == 0 {
    } else {
      assert s == [s[0]] + s[1..];
      FilterKeepsAll(s[1..], p);
    }
  }

  lemma {:induction false} FilterAppend<T>(s: seq<T>, x: T, p: T -> bool)
    ensures Filter(s + [x], p) == Filter(s, p) + if p(x) then [x] else []
  {
    if |s| == 0 {
    } else {
      assert (s + [x])[1..] == s[1..] + [x];
      FilterAppend(s[1..], x, p);
    }
  }

  lemma {:induction false} FilterInsert<T(!new)>(x: T, s: seq<T>, le: (T, T) -> bool, p: T -> bool)
    requires TotalPreorder(le) && Sorted(s, le)
    ensures Filter(Insert(x, s, le), p) == if p(x) then Insert(x, Filter(s, p), le) else Filter(s, p)
  {
    if |s| == 0 {
    } else if le(x, s[0]) {
      var f := Filter(s, p);
      assert ([x] + s)[1..] == s;
      if |f| > 0 {
        FilterMembers(s, p, f[0]);
        var i :| 0 <= i < |s| && s[i] == f[0];
        assert i == 0 || le(s[0], s[i]);
      }
    } else {
      FilterInsert(x, s[1..], le, p);
      var rest := Insert(x, s[1..], le);
      assert ([s[0]] + rest)[1..] == rest;
      if p(s[0]) {
        assert ([s[0]] + Filter(s[1..], p))[1..] == Filter(s[1..], p);
      }
    }
  }

  /** Stability: dropping elements before or after a sort gives the same list. */
  lemma {:induction false} SortFilter<T(!new)>(s: seq<T>, le: (T, T) -> bool, p: T -> bool)
    requires TotalPreorder(le)
    ensures Filter(Sort(s, le), p) == Sort(Filter(s, p), le)
  {
    if |s| == 0 {
    } else {
      SortFilter(s[1..], le, p);
      SortSorts(s[1..], le);
      FilterInsert(s[0], Sort(s[1..], le), le, p);
    }
  }

  /** Keeping at least the elements q wants, and then those, is keeping those. */
  lemma {:induction false} FilterNarrows<T>(s: seq<T>, p: T -> bool, q: T -> bool)
    requires forall x :: x in s && q(x) ==> p(x)
    ensures Filter(Filter(s, p), q) == Filter(s, q)
  {
    if |s| == 0 {
    } else {
      FilterNarrows(s[1..], p, q);
      if p(s[0]) {
        assert ([s[0]] + Filter(s[1..], p))[1..] == Filter(s[1..], p);
      }
    }
  }

  lemma {:induction false} FilterDrops<T>(s: seq<T>, p: T -> bool, x: T)
    requires x in s && !p(x)
    ensures |Filter(s, p)| < |s|
  {
    if x == s[0] {
      FilterShorter(s[1..], p);
    } else {
      assert x in s[1..];
      FilterDrops(s[1..], p, x);
    }
  }

  lemma {:induction false} FilterShorter<T>(s: seq<T>, p: T -> bool)
    ensures |Filter(s, p)| <= |s|
  {
    if |s| == 0 {
    } else {
      FilterShorter(s[1..], p);
    }
  }

  lemma {:induction false} FilterSame<T>(s: seq<T>, p: T -> bool, q: T -> bool)
    requires forall x :: x in s ==> p(x) == q(x)
    ensures Filter(s, p) == Filter(s, q)
  {
    if |s| == 0 {
    } else {
      FilterSame(s[1..], p, q);
    }
  }

  // Stability, position by position

  /** place lists where each element of the sorted sequence stood; ties keep their places' order. */
  ghost predicate SortedFrom<T>(s: seq<T>, sorted: seq<T>, place: seq<nat>, le: (T, T) -> bool) {
    && |place| == |sorted| == |s|
    && (forall i :: 0 <= i < |place| ==> place[i] < |s| && sorted[i] == s[place[i]])
    && (forall i, j :: 0 <= i < j < |place| ==>
          place[i] != place[j] && le(sorted[i], sorted[j]) && (le(sorted[j], sorted[i]) ==> place[i] < place[j]))
  }

  lemma {:induction false} InsertPlace<T(!new)>(x: T, s: seq<T>, le: (T, T) -> bool) returns (k: nat)
    requires TotalPreorder(le) && Sorted(s, le)
    ensures k <= |s| && Insert(x, s, le) == s[..k] + [x] + s[k..]
    ensures forall i :: 0 <= i < k ==> !le(x, s[i])
    ensures forall i :: k <= i < |s| ==> le(x, s[i])
  {
    if |s| == 0 || le(x, s[0]) {
      k := 0;
      assert forall i :: 0 < i < |s| ==> le(s[0], s[i]);
    } else {
      var rest := InsertPlace(x, s[1..], le);
      k := rest + 1;
      assert s[..k] == [s[0]] + s[1..][..rest] && s[k..] == s[1..][rest..];
    }
  }

  lemma {:induction false} SortIsStable<T(!new)>(s: seq<T>, le: (T, T) -> bool) returns (place: seq<nat>)
    requires TotalPreorder(le)
    ensures SortedFrom(s, Sort(s, le), place, le)
    ensures forall j :: 0 <= j < |s| ==> j in place
  {
    if |s| == 0 {
      place := [];
    } else {
      hide Insert, Sorted;
      var rest := SortIsStable(s[1..], le);
      SortSorts(s[1..], le);
      var k := InsertPlace(s[0], Sort(s[1..], le), le);
      var moved := seq(|rest|, i requires 0 <= i < |rest| => rest[i] + 1);
      place := moved[..k] + [0] + moved[k..];
      PlaceOne(s, Sort(s[1..], le), rest, moved, k, le);
      PlaceEvery(|s|, rest, moved, k);
    }
  }

  lemma PlaceOne<T(!new)>(s: seq<T>, tail: seq<T>, rest: seq<nat>, moved: seq<nat>, k: nat, le: (T, T) -> bool)
    requires |s| > 0 && SortedFrom(s[1..], tail, rest, le) && k <= |tail|
    requires |moved| == |rest| && forall i :: 0 <= i < |rest| ==> moved[i] == rest[i] + 1
    requires TotalPreorder(le) && (forall i :: 0 <= i < k ==> !le(s[0], tail[i])) && forall i :: k <= i < |tail| ==> le(s[0], tail[i])
    ensures SortedFrom(s, tail[..k] + [s[0]] + tail[k..], moved[..k] + [0] + moved[k..], le)
  {
    hide TotalPreorder;
    var sorted, place := tail[..k] + [s[0]] + tail[k..], moved[..k] + [0] + moved[k..];
    forall i | 0 <= i < k ensures le(tail[i], s[0]) {
      EitherWay(tail[i], s[0], le);
    }
    forall i | 0 <= i < |place| ensures place[i] < |s| && sorted[i] == s[place[i]] {
      if i < k {
        assert s[1..][rest[i]] == s[rest[i] + 1];
      } else if i > k {
        assert s[1..][rest[i - 1]] == s[rest[i - 1] + 1];
      }
    }
  }

  lemma PlaceEvery(n: nat, rest: seq<nat>, moved: seq<nat>, k: nat)
    requires |moved| == |rest| && (forall i :: 0 <= i < |rest| ==> moved[i] == rest[i] + 1) && k <= |rest|
    requires forall j :: 0 <= j < n - 1 ==> j in rest
    ensures forall j :: 0 <= j < n ==> j in moved[..k] + [0] + moved[k..]
  {
    var place := moved[..k] + [0] + moved[k..];
    assert place[k] == 0;
    forall j | 0 <= j < n ensures j in place {
      if j > 0 {
        assert j - 1 in rest;
        var i :| 0 <= i < |rest| && rest[i] == j - 1;
        assert place[if i < k then i else i + 1] == j;
      }
    }
  }

  lemma EitherWay<T(!new)>(x: T, y: T, le: (T, T) -> bool)
    requires TotalPreorder(le)
    ensures le(x, y) || le(y, x)
  {
  }
}
