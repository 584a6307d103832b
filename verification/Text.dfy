/** Strings as Rust compares, splits and joins them, and the sorts built on that order. */
module Text {
  import opened Common

  // ---------- lexicographic order (`str::cmp`) ----------

  predicate LexLeq(a: string, b: string) {
    if a == "" then true
    else if b == "" then false
    else a[0] < b[0] || (a[0] == b[0] && LexLeq(a[1..], b[1..]))
  }

  lemma LexReflexive(a: string)
    ensures LexLeq(a, a)
  {
  }

  lemma LexAntisymmetric(a: string, b: string)
    requires LexLeq(a, b) && LexLeq(b, a)
    ensures a == b
  {
    if a != "" && b != "" {
      LexAntisymmetric(a[1..], b[1..]);
      assert a == [a[0]] + a[1..];
      assert b == [b[0]] + b[1..];
    }
  }

  lemma LexTransitive(a: string, b: string, c: string)
    requires LexLeq(a, b) && LexLeq(b, c)
    ensures LexLeq(a, c)
  {
    if a != "" && a[0] == b[0] == c[0] {
      LexTransitive(a[1..], b[1..], c[1..]);
    }
  }

  lemma LexTotal(a: string, b: string)
    ensures LexLeq(a, b) || LexLeq(b, a)
  {
    if a != "" && b != "" && a[0] == b[0] {
      LexTotal(a[1..], b[1..]);
    }
  }

  /** A dictionary: a prefix first, else by the first character that differs. */
  lemma {:induction false} LexIsDictionary(a: string, b: string)
    ensures LexLeq(a, b) <==> a <= b || exists k: nat :: k < |a| && k < |b| && a[..k] == b[..k] && a[k] < b[k]
  {
    if a == "" || b == "" {
    } else if a[0] != b[0] {
      assert a[..0] == b[..0];
      forall k: nat | 0 < k < |a| && k < |b| ensures a[..k] != b[..k] {
        assert a[..k][0] != b[..k][0];
      }
    } else {
      var s, t := a[1..], b[1..];
      LexIsDictionary(s, t);
      assert a == [a[0]] + s && b == [b[0]] + t;
      if k: nat :| k < |s| && k < |t| && s[..k] == t[..k] && s[k] < t[k] {
        assert a[..k + 1] == [a[0]] + s[..k] && b[..k + 1] == [b[0]] + t[..k];
        assert a[k + 1] < b[k + 1];
      }
      if k: nat :| k < |a| && k < |b| && a[..k] == b[..k] && a[k] < b[k] {
        assert k > 0;
        assert s[..k - 1] == a[..k][1..] && t[..k - 1] == b[..k][1..] && s[k - 1] < t[k - 1];
      }
    }
  }

  lemma LexPrefix(a: string, b: string)
    requires a <= b
    ensures LexLeq(a, b)
  {
    if a != "" {
      assert a[0] == b[0];
      LexPrefix(a[1..], b[1..]);
    }
  }

  // ---------- stable sorting by a string key ----------

  predicate InOrder(a: string, b: string, descending: bool) {
    if descending then LexLeq(b, a) else LexLeq(a, b)
  }

  ghost predicate Ordered<T>(s: seq<T>, key: T -> string, descending: bool) {
    forall i, j :: 0 <= i < j < |s| ==> InOrder(key(s[i]), key(s[j]), descending)
  }

  ghost predicate SortedBy<T>(s: seq<T>, key: T -> string) {
    forall i, j :: 0 <= i < j < |s| ==> LexLeq(key(s[i]), key(s[j]))
  }

  function Insert<T>(x: T, s: seq<T>, key: T -> string, descending: bool): (r: seq<T>)
    ensures multiset(r) == multiset([x]) + multiset(s)
  {
    if s == [] then [x]
    else if InOrder(key(x), key(s[0]), descending) then [x] + s
    else
      assert s == [s[0]] + s[1..];
      [s[0]] + Insert(x, s[1..], key, descending)
  }

  /** `sort_by` on a key, ascending or descending; stable either way. */
  function Sort<T>(s: seq<T>, key: T -> string, descending: bool): (r: seq<T>)
    ensures multiset(r) == multiset(s)
    ensures |r| == |s|
  {
    if s == [] then []
    else
      assert s == [s[0]] + s[1..];
      var r := Insert(s[0], Sort(s[1..], key, descending), key, descending);
      assert |multiset(r)| == |multiset(s)|;
      r
  }

  function SortBy<T>(s: seq<T>, key: T -> string): (r: seq<T>)
    ensures multiset(r) == multiset(s)
    ensures |r| == |s|
  {
    Sort(s, key, false)
  }

  lemma InsertOrdered<T>(x: T, s: seq<T>, key: T -> string, descending: bool)
    requires Ordered(s, key, descending)
    ensures Ordered(Insert(x, s, key, descending), key, descending)
  {
    if s == [] {
    } else if InOrder(key(x), key(s[0]), descending) {
      forall j | 0 < j < |s| ensures InOrder(key(x), key(s[j]), descending) {
        if descending {
          LexTransitive(key(s[j]), key(s[0]), key(x));
        } else {
          LexTransitive(key(x), key(s[0]), key(s[j]));
        }
      }
    } else {
      InsertOrdered(x, s[1..], key, descending);
      LexTotal(key(x), key(s[0]));
      var t := Insert(x, s[1..], key, descending);
      forall j | 0 <= j < |t| ensures InOrder(key(s[0]), key(t[j]), descending) {
        assert t[j] in multiset(t);
        assert t[j] == x || t[j] in s[1..];
      }
    }
  }

  lemma {:induction false} SortOrdered<T>(s: seq<T>, key: T -> string, descending: bool)
    ensures Ordered(Sort(s, key, descending), key, descending)
  {
    if s == [] {
    } else {
      SortOrdered(s[1..], key, descending);
      InsertOrdered(s[0], Sort(s[1..], key, descending), key, descending);
    }
  }

  lemma SortBySorted<T>(s: seq<T>, key: T -> string)
    ensures SortedBy(SortBy(s, key), key)
  {
    SortOrdered(s, key, false);
    var r := SortBy(s, key);
    forall i, j | 0 <= i < j < |r| ensures LexLeq(key(r[i]), key(r[j])) {
      assert InOrder(key(r[i]), key(r[j]), false);
    }
  }

  /** Elements of one key keep their order. */
  lemma {:induction false} SortStable<T>(s: seq<T>, key: T -> string, descending: bool, k: string, p: T -> bool)
    requires forall x :: x in s ==> (p(x) <==> key(x) == k)
    ensures Filter(Sort(s, key, descending), p) == Filter(s, p)
  {
    if s == [] {
    } else {
      var x, rest := s[0], s[1..];
      assert s == [x] + rest;
      SortStable(rest, key, descending, k, p);
      var sorted := Sort(rest, key, descending);
      forall y | y in sorted ensures y in rest {
        assert y in multiset(sorted) && y in multiset(rest);
      }
      InsertStable(x, sorted, key, descending, k, p);
      FilterCons(x, rest, p);
    }
  }

  lemma {:induction false} InsertStable<T>(
    x: T, s: seq<T>, key: T -> string, descending: bool, k: string, p: T -> bool)
    requires p(x) <==> key(x) == k
    requires forall y :: y in s ==> (p(y) <==> key(y) == k)
    ensures Filter(Insert(x, s, key, descending), p) == (if p(x) then [x] else []) + Filter(s, p)
  {
    if s == [] {
      FilterCons(x, [], p);
    } else if InOrder(key(x), key(s[0]), descending) {
      FilterCons(x, s, p);
    } else {
      var first, rest := s[0], s[1..];
      LexReflexive(key(x));
      assert s == [first] + rest && !(p(x) && p(first));
      InsertStable(x, rest, key, descending, k, p);
      FilterCons(first, Insert(x, rest, key, descending), p);
      FilterCons(first, rest, p);
    }
  }

  lemma FilterSorted<T>(s: seq<T>, key: T -> string, p: T -> bool)
    requires SortedBy(s, key)
    ensures SortedBy(Filter(s, p), key)
  {
    var at := FilterPositions(s, p);
    var r := Filter(s, p);
    forall i, j | 0 <= i < j < |r| ensures LexLeq(key(r[i]), key(r[j])) {
      assert at[i] < at[j];
    }
  }

  /** `l` lists the set `s` once each, in order. */
  ghost predicate Lists(l: seq<string>, s: set<string>) {
    Distinct(l) && ToSet(l) == s && SortedBy(l, (x: string) => x)
  }

  /** Collecting a set into a sorted list, as a `BTreeSet` or a sort of a `HashSet` does. */
  method SortedList(s: set<string>) returns (l: seq<string>)
    ensures Lists(l, s)
  {
    var items: seq<string> := [];
    var remaining := s;
    while remaining != {}
      invariant ToSet(items) + remaining == s && ToSet(items) !! remaining
      invariant Distinct(items)
      decreases remaining
    {
      var x :| x in remaining;
      assert x !in items;
      items := items + [x];
      remaining := remaining - {x};
    }
    l := SortBy(items, (x: string) => x);
    SortBySorted(items, (x: string) => x);
    DistinctMultiset(items);
    forall x ensures x in l <==> x in items {
      assert x in l <==> x in multiset(l);
      assert x in items <==> x in multiset(items);
    }
    MultisetDistinct(l);
  }

  // ---------- splitting and joining on a separator ----------

  /** `str::split(sep)`: never empty; the empty string splits into one empty segment. */
  function Split(s: string, sep: char): (r: seq<string>)
    ensures |r| > 0
    ensures forall seg :: seg in r ==> sep !in seg
  {
    if s == "" then [""]
    else
      var rest := Split(s[1..], sep);
      if s[0] == sep then [""] + rest else [[s[0]] + rest[0]] + rest[1..]
  }

  /** `slice::join(sep)`. */
  function Join(segments: seq<string>, sep: char): string {
    if segments == [] then ""
    else if |segments| == 1 then segments[0]
    else segments[0] + [sep] + Join(segments[1..], sep)
  }

  lemma {:induction false} JoinSplit(s: string, sep: char)
    ensures Join(Split(s, sep), sep) == s
  {
    if s != "" {
      JoinSplit(s[1..], sep);
      var rest := Split(s[1..], sep);
      assert s == [s[0]] + s[1..];
      if s[0] == sep {
        assert ([""] + rest)[1..] == rest;
      } else if |rest| > 1 {
        assert Join(rest, sep) == rest[0] + [sep] + Join(rest[1..], sep);
        assert ([[s[0]] + rest[0]] + rest[1..])[1..] == rest[1..];
        assert [s[0]] + rest[0] + [sep] + Join(rest[1..], sep) == [s[0]] + (rest[0] + [sep] + Join(rest[1..], sep));
      }
    }
  }

  lemma SplitCons(c: char, s: string, sep: char)
    ensures var rest := Split(s, sep);
            Split([c] + s, sep) == if c == sep then [""] + rest else [[c] + rest[0]] + rest[1..]
  {
    assert ([c] + s)[1..] == s;
  }

  lemma SplitConcatStep(c: char, a: string, ab: string, tail: seq<string>, sep: char)
    requires Split(ab, sep) == Split(a, sep) + tail
    ensures Split([c] + ab, sep) == Split([c] + a, sep) + tail
  {
    SplitCons(c, a, sep);
    SplitCons(c, ab, sep);
    HeadExtended(c, Split(a, sep), tail);
  }

  lemma HeadExtended(c: char, segments: seq<string>, tail: seq<string>)
    requires segments != []
    ensures var all := segments + tail;
            && all[0] == segments[0]
            && [""] + all == ([""] + segments) + tail
            && [[c] + segments[0]] + all[1..] == ([[c] + segments[0]] + segments[1..]) + tail
  {
  }

  lemma {:induction false} SplitConcat(a: string, b: string, sep: char)
    ensures Split(a + [sep] + b, sep) == Split(a, sep) + Split(b, sep)
  {
    if a == "" {
      assert "" + [sep] + b == [sep] + b;
      SplitCons(sep, b, sep);
    } else {
      var t := a[1..];
      SplitConcat(t, b, sep);
      SplitConcatStep(a[0], t, t + [sep] + b, Split(b, sep), sep);
      assert a == [a[0]] + t;
      assert a + [sep] + b == [a[0]] + (t + [sep] + b);
    }
  }

  lemma {:induction false} SplitAtom(s: string, sep: char)
    requires sep !in s
    ensures Split(s, sep) == [s]
  {
    if s != "" {
      SplitAtom(s[1..], sep);
      assert s == [s[0]] + s[1..];
    }
  }

  lemma {:induction false} SplitJoin(segments: seq<string>, sep: char)
    requires segments != []
    requires forall seg :: seg in segments ==> sep !in seg
    ensures Split(Join(segments, sep), sep) == segments
  {
    SplitAtom(segments[0], sep);
    if |segments| > 1 {
      SplitJoin(segments[1..], sep);
      SplitConcat(segments[0], Join(segments[1..], sep), sep);
    }
  }

  lemma {:induction false} JoinConcat(a: seq<string>, b: seq<string>, sep: char)
    requires a != [] && b != []
    ensures Join(a + b, sep) == Join(a, sep) + [sep] + Join(b, sep)
  {
    assert (a + b)[0] == a[0];
    if |a| == 1 {
      assert (a + b)[1..] == b;
    } else {
      assert (a + b)[1..] == a[1..] + b;
      JoinConcat(a[1..], b, sep);
    }
  }
}
