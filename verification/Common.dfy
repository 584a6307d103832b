/** Small value types and sequence helpers shared by every module. */
module Common {

  datatype Option<+T> = None | Some(value: T)

  datatype Result<+T, +E> = Ok(value: T) | Err(error: E)

  newtype byte = b: int | 0 <= b < 256

  const CR: byte := 13
  const LF: byte := 10

  function Min(a: int, b: int): int {
    if a <= b then a else b
  }

  ghost predicate Distinct<T>(s: seq<T>) {
    forall i, j :: 0 <= i < j < |s| ==> s[i] != s[j]
  }

  function ToSet<T>(s: seq<T>): set<T> {
    set x | x in s
  }

  lemma FirstIsMember<T>(s: seq<T>)
    requires s != []
    ensures s[0] in ToSet(s)
  {
  }

  function Flatten<T>(ss: seq<seq<T>>): seq<T> {
    if ss == [] then [] else ss[0] + Flatten(ss[1..])
  }

  /** The elements of `s` that satisfy `p`, in order: `Vec::retain` and `Iterator::filter`. */
  function Filter<T>(s: seq<T>, p: T -> bool): (r: seq<T>)
    ensures forall x :: x in r ==> x in s && p(x)
    ensures forall x :: x in s && p(x) ==> x in r
    ensures multiset(r) <= multiset(s)
  {
    if s == [] then []
    else
      assert s == [s[0]] + s[1..];
      if p(s[0]) then [s[0]] + Filter(s[1..], p) else Filter(s[1..], p)
  }

  lemma FilterAgrees<T>(s: seq<T>, p: T -> bool, q: T -> bool)
    requires forall x :: x in s ==> p(x) == q(x)
    ensures Filter(s, p) == Filter(s, q)
  {
  }

  lemma FilterCons<T>(x: T, s: seq<T>, p: T -> bool)
    ensures Filter([x] + s, p) == (if p(x) then [x] else []) + Filter(s, p)
  {
    assert ([x] + s)[1..] == s;
  }

  lemma {:induction false} FilterBoth<T>(s: seq<T>, p: T -> bool, q: T -> bool, both: T -> bool)
    requires forall x :: x in s ==> (p(x) && q(x)) == both(x)
    ensures Filter(Filter(s, p), q) == Filter(s, both)
  {
    if s == [] {
    } else {
      var x, rest := s[0], s[1..];
      assert s == [x] + rest;
      FilterBoth(rest, p, q, both);
      FilterCons(x, rest, p);
      FilterCons(x, rest, both);
      if p(x) {
        FilterCons(x, Filter(rest, p), q);
      }
    }
  }

  /** `r` is what `p` keeps of `s`, in order: there are increasing positions in `s`, exactly those
      where `p` holds, at which the elements of `r` stand. */
  ghost predicate IsPickOf<T(!new)>(r: seq<T>, s: seq<T>, p: T -> bool) {
    exists at: seq<nat> :: Picks(r, s, p, at)
  }

  ghost predicate Picks<T>(r: seq<T>, s: seq<T>, p: T -> bool, at: seq<nat>) {
    && |at| == |r| && (forall i, j :: 0 <= i < j < |at| ==> at[i] < at[j])
    && (forall i :: 0 <= i < |at| ==> at[i] < |s| && r[i] == s[at[i]])
    && forall k: nat :: k < |s| ==> (p(s[k]) <==> k in at)
  }

  lemma PicksSnoc<T>(r: seq<T>, s: seq<T>, p: T -> bool, at: seq<nat>, x: T)
    requires Picks(r, s, p, at)
    ensures p(x) ==> Picks(r + [x], s + [x], p, at + [|s|])
    ensures !p(x) ==> Picks(r, s + [x], p, at)
  {
    forall k: nat | k < |s + [x]| && k < |s| ensures (s + [x])[k] == s[k] && (k in at + [|s|] <==> k in at) {
    }
    assert |s| !in at;
  }

  lemma {:induction false} FilterPositions<T>(s: seq<T>, p: T -> bool) returns (at: seq<nat>)
    ensures Picks(Filter(s, p), s, p, at)
  {
    if s == [] {
      at := [];
    } else {
      var init, last := s[..|s| - 1], s[|s| - 1];
      var before := FilterPositions(init, p);
      assert s == init + [last];
      FilterSnoc(init, last, p);
      PicksSnoc(Filter(init, p), init, p, before, last);
      if p(last) {
        at := before + [|init|];
      } else {
        assert Filter(s, p) == Filter(init, p);
        at := before;
      }
    }
  }

  lemma FilterPicks<T(!new)>(s: seq<T>, p: T -> bool)
    ensures IsPickOf(Filter(s, p), s, p)
  {
    var at := FilterPositions(s, p);
  }

  lemma FilterIsEmpty<T>(s: seq<T>, p: T -> bool)
    ensures Filter(s, p) == [] <==> forall x :: x in s ==> !p(x)
  {
    if Filter(s, p) != [] {
      assert Filter(s, p)[0] in Filter(s, p);
    }
  }

  lemma {:induction false} FilterSnoc<T>(s: seq<T>, x: T, p: T -> bool)
    ensures Filter(s + [x], p) == Filter(s, p) + (if p(x) then [x] else [])
  {
    if s == [] {
      assert s + [x] == [x] && [x][1..] == [];
    } else {
      assert (s + [x])[1..] == s[1..] + [x];
      FilterSnoc(s[1..], x, p);
    }
  }

  lemma FilterNone<T>(s: seq<T>, p: T -> bool)
    requires forall x :: x in s ==> !p(x)
    ensures Filter(s, p) == []
  {
  }

  /** The image of `s` under `f`, element by element. */
  function Map<T, U>(s: seq<T>, f: T -> U): (r: seq<U>)
    ensures |r| == |s|
    ensures forall i :: 0 <= i < |s| ==> r[i] == f(s[i])
  {
    seq(|s|, i requires 0 <= i < |s| => f(s[i]))
  }

  lemma MapConcat<T, U>(a: seq<T>, b: seq<T>, f: T -> U)
    ensures Map(a + b, f) == Map(a, f) + Map(b, f)
  {
  }

  /** Filtering and mapping, one element at a time. */
  lemma FilterMapSnoc<T, U>(s: seq<T>, x: T, p: T -> bool, f: T -> U)
    ensures Map(Filter(s + [x], p), f) == Map(Filter(s, p), f) + (if p(x) then [f(x)] else [])
  {
    FilterSnoc(s, x, p);
    MapConcat(Filter(s, p), if p(x) then [x] else [], f);
  }

  /** Bringing one element to the front permutes the list. */
  lemma PutFirst<T>(s: seq<T>, i: nat)
    requires i < |s|
    ensures multiset([s[i]] + (s[..i] + s[i + 1..])) == multiset(s)
  {
    assert s == s[..i] + ([s[i]] + s[i + 1..]);
  }

  lemma RemoveOne<T>(a: seq<T>, b: seq<T>, k: nat)
    requires multiset(a) == multiset(b) && a != [] && k < |b| && b[k] == a[0]
    ensures multiset(a[1..]) == multiset(b[..k] + b[k + 1..])
  {
    PutFirst(b, k);
    var rest := b[..k] + b[k + 1..];
    assert a == [a[0]] + a[1..];
    assert multiset(a[1..]) == multiset(a) - multiset{a[0]};
    assert multiset(rest) == multiset(b) - multiset{a[0]};
  }

  lemma {:induction false} MapMultiset<T, U>(a: seq<T>, b: seq<T>, f: T -> U)
    requires multiset(a) == multiset(b)
    ensures multiset(Map(a, f)) == multiset(Map(b, f))
  {
    if a == [] {
      assert |multiset(b)| == 0;
    } else {
      assert a[0] in multiset(a);
      var k :| 0 <= k < |b| && b[k] == a[0];
      var rest := b[..k] + b[k + 1..];
      RemoveOne(a, b, k);
      MapMultiset(a[1..], rest, f);
      PutFirst(Map(b, f), k);
      assert Map(rest, f) == Map(b, f)[..k] + Map(b, f)[k + 1..];
      assert Map(a, f) == [f(a[0])] + Map(a[1..], f);
    }
  }

  /** `slice::chunks(n)`: consecutive runs of `n` elements, the last one possibly shorter. */
  function Chunks<T>(s: seq<T>, n: nat): seq<seq<T>>
    requires 0 < n
  {
    if s == [] then []
    else if |s| <= n then [s]
    else [s[..n]] + Chunks(s[n..], n)
  }

  lemma {:induction false} FlattenMembers<T>(ss: seq<seq<T>>, x: T)
    ensures x in Flatten(ss) <==> exists i :: 0 <= i < |ss| && x in ss[i]
  {
    if ss == [] {
    } else {
      FlattenMembers(ss[1..], x);
      if x in Flatten(ss[1..]) {
        var i :| 0 <= i < |ss[1..]| && x in ss[1..][i];
        assert x in ss[i + 1];
      }
      if i :| 0 <= i < |ss| && x in ss[i] && i > 0 {
        assert x in ss[1..][i - 1];
      }
    }
  }

  /** Chunking loses, repeats and reorders nothing, and only the last chunk may be short. */
  lemma {:induction false} ChunksPartition<T>(s: seq<T>, n: nat)
    requires 0 < n
    ensures Flatten(Chunks(s, n)) == s
    ensures forall c :: c in Chunks(s, n) ==> 0 < |c| <= n
    ensures forall i :: 0 <= i < |Chunks(s, n)| - 1 ==> |Chunks(s, n)[i]| == n
  {
    if s == [] {
    } else if |s| <= n {
      assert Flatten([s]) == s;
    } else {
      ChunksPartition(s[n..], n);
      var tail := Chunks(s[n..], n);
      assert Chunks(s, n) == [s[..n]] + tail;
      assert Flatten(Chunks(s, n)) == s[..n] + s[n..] == s;
    }
  }

  /** Every chunk but the last is full, so a list of at most `k * n` elements needs at most `k` chunks. */
  lemma {:induction false} ChunksCount<T>(s: seq<T>, n: nat, k: nat)
    requires 0 < n && |s| <= k * n
    ensures |Chunks(s, n)| <= k
  {
    if s == [] {
    } else {
      assert k > 0;
      if |s| > n {
        assert (k - 1) * n == k * n - n;
        ChunksCount(s[n..], n, k - 1);
      }
    }
  }

  lemma DistinctMultiset<T>(s: seq<T>)
    requires Distinct(s)
    ensures forall x :: x in s ==> multiset(s)[x] == 1
  {
    if s != [] {
      var init, last := s[..|s| - 1], s[|s| - 1];
      DistinctMultiset(init);
      assert s == init + [last];
      assert last !in init;
    }
  }

  lemma MultisetDistinct<T>(s: seq<T>)
    requires forall x :: x in s ==> multiset(s)[x] <= 1
    ensures Distinct(s)
  {
    forall i, j | 0 <= i < j < |s| ensures s[i] != s[j] {
      assert s == s[..j] + s[j..];
      assert s[..j][i] in multiset(s[..j]) && s[j..][0] in multiset(s[j..]);
      assert multiset(s)[s[j]] == multiset(s[..j])[s[j]] + multiset(s[j..])[s[j]];
    }
  }

  /** Two lists without repeats that hold the same elements are permutations of each other. */
  lemma SameElements<T>(a: seq<T>, b: seq<T>)
    requires Distinct(a) && Distinct(b) && forall x :: x in a <==> x in b
    ensures multiset(a) == multiset(b)
  {
    DistinctMultiset(a);
    DistinctMultiset(b);
    forall x ensures multiset(a)[x] == multiset(b)[x] {
      if x in a {
        assert x in b;
      } else {
        assert x !in multiset(a) && x !in multiset(b);
      }
    }
  }

  lemma FilterDistinct<T>(s: seq<T>, p: T -> bool)
    requires Distinct(s)
    ensures Distinct(Filter(s, p))
  {
    DistinctMultiset(s);
    forall x | x in Filter(s, p) ensures multiset(Filter(s, p))[x] <= 1 {
      assert multiset(Filter(s, p)) <= multiset(s);
    }
    MultisetDistinct(Filter(s, p));
  }

  lemma {:induction false} FilterMapDistinct<T, U>(s: seq<T>, p: T -> bool, f: T -> U)
    requires Distinct(Map(s, f))
    ensures Distinct(Map(Filter(s, p), f))
  {
    if s == [] {
    } else {
      var t := s[1..];
      forall i, j | 0 <= i < j < |t| ensures Map(t, f)[i] != Map(t, f)[j] {
        assert Map(s, f)[i + 1] != Map(s, f)[j + 1];
      }
      FilterMapDistinct(t, p, f);
      if p(s[0]) {
        var rest := Filter(t, p);
        forall x | x in Map(rest, f) ensures x != f(s[0]) {
          var k :| 0 <= k < |rest| && f(rest[k]) == x;
          assert rest[k] in rest && rest[k] in t;
          var i :| 0 <= i < |t| && t[i] == rest[k];
          assert Map(s, f)[0] != Map(s, f)[i + 1];
        }
        MapConcat([s[0]], rest, f);
        DistinctConcat(Map([s[0]], f), Map(rest, f));
      }
    }
  }

  lemma DistinctConcat<T>(a: seq<T>, b: seq<T>)
    requires Distinct(a) && Distinct(b) && forall x :: x in a ==> x !in b
    ensures Distinct(a + b)
  {
    var ab := a + b;
    forall i, j | 0 <= i < j < |ab| ensures ab[i] != ab[j] {
      if i < |a| <= j {
        assert ab[i] in a && ab[j] in b;
      }
    }
  }

  lemma DistinctSplit<T>(a: seq<T>, b: seq<T>)
    requires Distinct(a + b)
    ensures Distinct(a) && Distinct(b) && ToSet(a) !! ToSet(b)
  {
    var ab := a + b;
    forall i | 0 <= i < |a| ensures a[i] == ab[i] && a[i] !in b {
      forall j | 0 <= j < |b| ensures b[j] != a[i] {
        assert ab[i] == a[i] && ab[|a| + j] == b[j] && i < |a| + j;
      }
    }
    forall i, j | 0 <= i < j < |b| ensures b[i] != b[j] {
      assert ab[|a| + i] != ab[|a| + j];
    }
  }

  /** A list has as many elements as its set exactly when it repeats none. */
  lemma {:induction false} DistinctCardinality<T>(s: seq<T>)
    ensures |ToSet(s)| <= |s|
    ensures |ToSet(s)| == |s| <==> Distinct(s)
  {
    if s == [] {
      assert ToSet(s) == {};
    } else {
      var init, last := s[..|s| - 1], s[|s| - 1];
      DistinctCardinality(init);
      assert ToSet(s) == ToSet(init) + {last};
      if last in init {
        assert ToSet(s) == ToSet(init);
        var k :| 0 <= k < |init| && init[k] == last;
        assert s[k] == s[|s| - 1];
      } else if Distinct(init) {
        DistinctConcat(init, [last]);
        assert s == init + [last];
      } else {
        var i, j :| 0 <= i < j < |init| && init[i] == init[j];
        assert s[i] == s[j];
      }
    }
  }

  lemma SubsetCardinality<T>(a: set<T>, b: set<T>)
    requires a <= b
    ensures |a| <= |b|
    ensures |a| == |b| ==> a == b
  {
    assert b == a + (b - a);
    assert |b| == |a| + |b - a|;
  }
}
