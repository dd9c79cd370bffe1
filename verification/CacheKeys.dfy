/** internal/scheduling/cache.go: the cache key, which must not depend on the order in which
    options were picked and must keep different questions apart. */
module CacheKeys {
  import opened Sorting

  // The text of a UUID: 36 hex digits and dashes.
  type Uuid = s: string | IsUuid(s) witness "00000000-0000-0000-0000-000000000000"

  // A date formatted as in time.DateOnly: digits and dashes, of any length.
  type Date = s: string | '|' !in s

  predicate IsUuid(s: string) {
    |s| == 36 && '|' !in s && ',' !in s
  }

  /** `strings.Join(ids, ",")` */
  function Join(ids: seq<string>): string {
    if ids == [] then ""
    else if |ids| == 1 then ids[0]
    else ids[0] + "," + Join(ids[1..])
  }

  ghost function KeyOf(service: Uuid, date: Date, options: seq<Uuid>): string {
    service + "|" + date + "|" + Join(Sort<string>(LexLess, options))
  }

  method CacheKey(service: Uuid, date: Date, optionIDs: seq<Uuid>) returns (key: string)
    ensures key == KeyOf(service, date, optionIDs)
  {
    var ids: seq<string> := [];
    for i := 0 to |optionIDs|
      invariant ids == optionIDs[..i]
    {
      ids := ids + [optionIDs[i]];
    }
    assert ids == optionIDs;
    LexIsStrictWeak();
    var sorted := SortSlice<string>(LexLess, ids);
    SortOrdered<string>(LexLess, optionIDs);
    OrderedStringsUnique(sorted, Sort<string>(LexLess, optionIDs));
    key := service + "|";
    key := key + date;
    key := key + "|";
    key := key + Join(sorted);
  }

  /** Sorted strings are determined by their multiset: ties are equal strings. */
  lemma {:induction false} OrderedStringsUnique(a: seq<string>, b: seq<string>)
    requires Ordered(LexLess, a) && Ordered(LexLess, b) && multiset(a) == multiset(b)
    ensures a == b
  {
    SameMembers(a, b);
    if a != [] {
      assert a[0] == b[0] by {
        assert a[0] in b && b[0] in a;
        FirstIsLeast(a, b[0]);
        FirstIsLeast(b, a[0]);
        LexTrichotomy(a[0], b[0]);
      }
      SameTails(a, b);
      OrderedStringsUnique(a[1..], b[1..]);
      assert a == [a[0]] + a[1..] && b == [b[0]] + b[1..];
    }
  }

  lemma SameTails<T>(a: seq<T>, b: seq<T>)
    requires a != [] && b != [] && a[0] == b[0] && multiset(a) == multiset(b)
    ensures multiset(a[1..]) == multiset(b[1..])
  {
    assert a == [a[0]] + a[1..] && b == [b[0]] + b[1..];
    assert multiset(a[1..]) == multiset(a) - multiset{a[0]};
    assert multiset(b[1..]) == multiset(b) - multiset{b[0]};
  }

  lemma FirstIsLeast(s: seq<string>, x: string)
    requires Ordered(LexLess, s) && x in s
    ensures !LexLess(x, s[0])
  {
    LexTrichotomy(x, x);
  }

  lemma {:induction false} JoinLength(ids: seq<Uuid>)
    requires ids != []
    ensures |Join(ids)| == 37 * |ids| - 1
  {
    if |ids| > 1 {
      JoinLength(ids[1..]);
    }
  }

  lemma {:induction false} JoinInjective(a: seq<Uuid>, b: seq<Uuid>)
    requires Join(a) == Join(b)
    ensures a == b
  {
    if a != [] { JoinLength(a); }
    if b != [] { JoinLength(b); }
    assert |a| == |b|;
    if |a| == 1 {
      assert a == [a[0]] && b == [b[0]];
    } else if |a| > 1 {
      CutAt(a[0], ",", Join(a[1..]), b[0], ",", Join(b[1..]));
      JoinInjective(a[1..], b[1..]);
      assert a == [a[0]] + a[1..] && b == [b[0]] + b[1..];
    }
  }

  /** Equal concatenations with first parts of equal length agree part by part. */
  lemma CutAt(a1: string, s1: string, a2: string, b1: string, s2: string, b2: string)
    requires a1 + s1 + a2 == b1 + s2 + b2 && |a1| == |b1| && |s1| == |s2|
    ensures a1 == b1 && s1 == s2 && a2 == b2
  {
    var w := a1 + s1 + a2;
    assert a1 == w[..|a1|] && b1 == w[..|a1|];
    assert s1 == w[|a1|..|a1| + |s1|] && s2 == w[|a1|..|a1| + |s1|];
    assert a2 == w[|a1| + |s1|..] && b2 == w[|a1| + |s1|..];
  }

  /** A date ends at the first bar. */
  lemma BarSplits(d1: Date, r1: string, d2: Date, r2: string)
    requires d1 + "|" + r1 == d2 + "|" + r2
    ensures d1 == d2 && r1 == r2
  {
    var w := d1 + "|" + r1;
    assert w[|d1|] == '|' && w[|d2|] == '|';
    assert w[..|d1|] == d1 && w[..|d2|] == d2;
    assert |d1| == |d2| by {
      assert !(|d1| < |d2|) by { assert forall i | 0 <= i < |d2| :: w[i] == d2[i]; }
      assert !(|d2| < |d1|) by { assert forall i | 0 <= i < |d1| :: w[i] == d1[i]; }
    }
    CutAt(d1, "|", r1, d2, "|", r2);
  }

  /** The key is canonical: equal keys mean the same service, the same date and the same
      options in some order, and conversely. */
  lemma KeyIsCanonical(s1: Uuid, d1: Date, o1: seq<Uuid>, s2: Uuid, d2: Date, o2: seq<Uuid>)
    ensures KeyOf(s1, d1, o1) == KeyOf(s2, d2, o2) <==> s1 == s2 && d1 == d2 && multiset(o1) == multiset(o2)
  {
    var t1, t2 := Sort<string>(LexLess, o1), Sort<string>(LexLess, o2);
    if KeyOf(s1, d1, o1) == KeyOf(s2, d2, o2) {
      SplitKey(s1, d1, Join(t1), s2, d2, Join(t2));
      SortedUuids(o1);
      SortedUuids(o2);
      JoinInjective(t1, t2);
    }
    if multiset(o1) == multiset(o2) {
      LexIsStrictWeak();
      SortOrdered<string>(LexLess, o1);
      SortOrdered<string>(LexLess, o2);
      OrderedStringsUnique(t1, t2);
    }
  }

  lemma SplitKey(s1: Uuid, d1: Date, r1: string, s2: Uuid, d2: Date, r2: string)
    requires s1 + "|" + d1 + "|" + r1 == s2 + "|" + d2 + "|" + r2
    ensures s1 == s2 && d1 == d2 && r1 == r2
  {
    assert s1 + "|" + d1 + "|" + r1 == s1 + "|" + (d1 + "|" + r1);
    assert s2 + "|" + d2 + "|" + r2 == s2 + "|" + (d2 + "|" + r2);
    CutAt(s1, "|", d1 + "|" + r1, s2, "|", d2 + "|" + r2);
    BarSplits(d1, r1, d2, r2);
  }

  lemma SortedUuids(ids: seq<Uuid>)
    ensures forall s | s in Sort<string>(LexLess, ids) :: IsUuid(s)
  {
    SameMembers<string>(ids, Sort<string>(LexLess, ids));
  }

  /** A key names its service. */
  ghost function ServiceOf(key: string): string {
    if |key| >= 36 then key[..36] else ""
  }

  lemma KeyNamesService(service: Uuid, date: Date, options: seq<Uuid>)
    ensures ServiceOf(KeyOf(service, date, options)) == service
  {
  }
}
