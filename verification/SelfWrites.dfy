/** `src/sync/self_writes.rs`: recognising the file-system echoes of jma's own writes. */
module SelfWrites {
  import opened Common

  type Path = string
  type Entries = map<Path, int>

  /** `now.duration_since(t)` saturates at zero. */
  predicate Live(entries: Entries, p: Path, now: int, ttl: nat) {
    p in entries && (if now < entries[p] then 0 else now - entries[p]) < ttl
  }

  /** Stamped less than `ttl` before `now`, or after it. */
  ghost predicate Recent(stamp: int, now: int, ttl: nat) {
    0 < ttl && now < stamp + ttl
  }

  function Recorded(entries: Entries, paths: set<Path>, now: int): Entries {
    entries + map p | p in paths :: now
  }

  function Collected(entries: Entries, now: int, ttl: nat): Entries {
    map p | p in entries && Live(entries, p, now, ttl) :: entries[p]
  }

  lemma RecordedSnoc(entries: Entries, paths: seq<Path>, p: Path, now: int)
    ensures Recorded(entries, ToSet(paths), now)[p := now] == Recorded(entries, ToSet(paths + [p]), now)
  {
    assert ToSet(paths + [p]) == ToSet(paths) + {p};
  }

  ghost predicate AllLive(entries: Entries, batch: seq<Path>, now: int, ttl: nat) {
    batch != [] && forall p :: p in batch ==> Live(entries, p, now, ttl)
  }

  class SelfWriteCache {
    var entries: Entries
    const ttl: nat

    constructor (ttl: nat)
      ensures entries == map[] && this.ttl == ttl
    {
      entries, this.ttl := map[], ttl;
    }

    /** `record`: stamp every path, then drop what has expired. */
    method Record(paths: seq<Path>, now: int)
      modifies this
      ensures entries == Collected(Recorded(old(entries), ToSet(paths), now), now, ttl)
      ensures forall p :: p in entries
                          <==> if p in paths then 0 < ttl else p in old(entries) && Recent(old(entries)[p], now, ttl)
      ensures forall p :: p in entries ==> entries[p] == if p in paths then now else old(entries)[p]
    {
      ghost var before := entries;
      assert Recorded(before, ToSet(paths[..0]), now) == before;
      for i := 0 to |paths|
        invariant entries == Recorded(before, ToSet(paths[..i]), now)
      {
        RecordedSnoc(before, paths[..i], paths[i], now);
        assert paths[..i + 1] == paths[..i] + [paths[i]];
        entries := entries[paths[i] := now];
      }
      assert paths[..|paths|] == paths;
      ghost var stamped := entries;
      entries := map p | p in entries && Live(entries, p, now, ttl) :: entries[p];
      assert entries == Collected(stamped, now, ttl);
    }

    /** `matches_all`: all or nothing, and a match is consumed. */
    method MatchesAll(batch: seq<Path>, now: int) returns (allMatch: bool)
      modifies this
      ensures allMatch <==> AllLive(old(entries), batch, now, ttl)
      ensures allMatch <==>
                batch != [] && forall p :: p in batch ==> p in old(entries) && Recent(old(entries)[p], now, ttl)
      ensures entries == if allMatch then old(entries) - ToSet(batch) else old(entries)
    {
      if batch == [] {
        return false;
      }
      allMatch := forall p :: p in batch ==> Live(entries, p, now, ttl);
      if allMatch {
        for i := 0 to |batch|
          invariant entries == old(entries) - ToSet(batch[..i])
        {
          assert batch[..i + 1] == batch[..i] + [batch[i]];
          entries := entries - {batch[i]};
        }
        assert batch[..|batch|] == batch;
      }
    }
  }

  // ---------- runs of the cache ----------

  datatype Call = Record(paths: seq<Path>, at: int) | Match(batch: seq<Path>, at: int)

  /** One call on the entries. `eager` says whether recording also collects what has expired. */
  ghost function After(entries: Entries, call: Call, ttl: nat, eager: bool): Entries {
    match call
    case Record(paths, now) =>
      var stamped := Recorded(entries, ToSet(paths), now);
      if eager then Collected(stamped, now, ttl) else stamped
    case Match(batch, now) =>
      if AllLive(entries, batch, now, ttl) then entries - ToSet(batch) else entries
  }

  ghost function RunFrom(entries: Entries, calls: seq<Call>, ttl: nat, eager: bool): Entries {
    if calls == [] then entries
    else After(RunFrom(entries, calls[..|calls| - 1], ttl, eager), calls[|calls| - 1], ttl, eager)
  }

  /** The answer to the k-th call, if it is a match. */
  ghost predicate Answer(calls: seq<Call>, k: nat, ttl: nat, eager: bool)
    requires k < |calls|
  {
    calls[k].Match? && AllLive(RunFrom(map[], calls[..k], ttl, eager), calls[k].batch, calls[k].at, ttl)
  }

  /** A match that reads its clock before an earlier record did, when that record in turn read a
      later clock than a record before it. */
  ghost predicate IsLate(calls: seq<Call>, h: nat, i: nat, j: nat) {
    && h < i < j < |calls| && calls[h].Record? && calls[i].Record? && calls[j].Match?
    && calls[h].at < calls[i].at && calls[j].at < calls[i].at
  }

  ghost predicate NoneLate(calls: seq<Call>) {
    forall h: nat, i: nat, j: nat :: !IsLate(calls, h, i, j)
  }

  ghost predicate RecordedAt(calls: seq<Call>, h: nat, at: int) {
    h < |calls| && calls[h].Record? && calls[h].at == at
  }

  /** What was recorded at `at` is collected by some later record. */
  ghost predicate Expired(calls: seq<Call>, h: nat, i: nat, at: int, ttl: nat) {
    h < i < |calls| && RecordedAt(calls, h, at) && calls[i].Record? && calls[i].at - at >= ttl
  }

  /** `lazy` has `eager`'s entries and, beyond them, only such as a record collected. */
  ghost predicate LagsBehind(eager: Entries, lazy: Entries, calls: seq<Call>, ttl: nat) {
    && (forall p :: p in eager ==> p in lazy && eager[p] == lazy[p])
    && (forall p :: p in lazy ==> exists h: nat :: RecordedAt(calls, h, lazy[p]))
    && (forall p :: p in lazy && p !in eager ==> exists h: nat, i: nat :: Expired(calls, h, i, lazy[p], ttl))
  }

  lemma HistoryGrows(calls: seq<Call>, call: Call, at: int, ttl: nat)
    ensures forall h: nat :: RecordedAt(calls, h, at) ==> RecordedAt(calls + [call], h, at)
    ensures forall h: nat, i: nat :: Expired(calls, h, i, at, ttl) ==> Expired(calls + [call], h, i, at, ttl)
  {
  }

  lemma RecordLags(eager: Entries, lazy: Entries, calls: seq<Call>, call: Call, ttl: nat)
    requires LagsBehind(eager, lazy, calls, ttl) && call.Record? && 0 < ttl
    ensures LagsBehind(After(eager, call, ttl, true), After(lazy, call, ttl, false), calls + [call], ttl)
  {
    var n, paths, all := |calls|, ToSet(call.paths), calls + [call];
    var stamped, after := Recorded(lazy, paths, call.at), After(eager, call, ttl, true);
    assert stamped == After(lazy, call, ttl, false);
    forall p | p in stamped
      ensures exists h: nat :: RecordedAt(all, h, stamped[p])
      ensures p !in after ==> exists h: nat, i: nat :: Expired(all, h, i, stamped[p], ttl)
    {
      HistoryGrows(calls, call, stamped[p], ttl);
      if p in paths {
        assert RecordedAt(all, n, stamped[p]) && p in after;
      } else {
        var h: nat :| RecordedAt(calls, h, lazy[p]);
        assert RecordedAt(all, h, stamped[p]);
        if p in eager && p !in after {
          assert Expired(all, h, n, stamped[p], ttl);
        }
      }
    }
  }

  lemma MatchLags(eager: Entries, lazy: Entries, calls: seq<Call>, call: Call, ttl: nat)
    requires LagsBehind(eager, lazy, calls, ttl) && call.Match? && NoneLate(calls + [call]) && 0 < ttl
    ensures AllLive(eager, call.batch, call.at, ttl) <==> AllLive(lazy, call.batch, call.at, ttl)
    ensures LagsBehind(After(eager, call, ttl, true), After(lazy, call, ttl, false), calls + [call], ttl)
  {
    forall p ensures Live(eager, p, call.at, ttl) <==> Live(lazy, p, call.at, ttl) {
      if p in lazy && p !in eager {
        var h: nat, i: nat :| Expired(calls, h, i, lazy[p], ttl);
        assert !IsLate(calls + [call], h, i, |calls|);
      }
    }
    var after := After(lazy, call, ttl, false);
    forall p | p in after
      ensures after[p] == lazy[p] && exists h: nat :: RecordedAt(calls + [call], h, lazy[p])
    {
      HistoryGrows(calls, call, lazy[p], ttl);
    }
    forall p | p in after && p !in After(eager, call, ttl, true)
      ensures exists h: nat, i: nat :: Expired(calls + [call], h, i, after[p], ttl)
    {
      HistoryGrows(calls, call, lazy[p], ttl);
      assert p !in eager;
    }
  }

  lemma {:induction false} RunsLag(calls: seq<Call>, ttl: nat)
    requires NoneLate(calls) && 0 < ttl
    ensures LagsBehind(RunFrom(map[], calls, ttl, true), RunFrom(map[], calls, ttl, false), calls, ttl)
  {
    if calls == [] {
    } else {
      var n := |calls| - 1;
      var init, call := calls[..n], calls[n];
      assert calls == init + [call];
      PrefixIsNotLate(calls, n);
      RunsLag(init, ttl);
      var eager, lazy := RunFrom(map[], init, ttl, true), RunFrom(map[], init, ttl, false);
      if call.Record? {
        RecordLags(eager, lazy, init, call, ttl);
      } else {
        MatchLags(eager, lazy, init, call, ttl);
      }
    }
  }

  lemma PrefixIsNotLate(calls: seq<Call>, k: nat)
    requires NoneLate(calls) && k <= |calls|
    ensures NoneLate(calls[..k])
  {
    forall h: nat, i: nat, j: nat ensures !IsLate(calls[..k], h, i, j) {
      assert !IsLate(calls, h, i, j);
    }
  }

  /** While no match is late, collecting garbage on every record changes no answer. */
  lemma GarbageCollectionIsInvisible(calls: seq<Call>, k: nat, ttl: nat)
    requires NoneLate(calls) && k < |calls|
    ensures Answer(calls, k, ttl, true) <==> Answer(calls, k, ttl, false)
  {
    if calls[k].Match? && 0 < ttl {
      PrefixIsNotLate(calls, k);
      PrefixIsNotLate(calls, k + 1);
      RunsLag(calls[..k], ttl);
      assert calls[..k + 1] == calls[..k] + [calls[k]];
      MatchLags(RunFrom(map[], calls[..k], ttl, true), RunFrom(map[], calls[..k], ttl, false),
                calls[..k], calls[k], ttl);
    } else if calls[k].Match? && calls[k].batch != [] {
      assert calls[k].batch[0] in calls[k].batch;
    }
  }

  /** The same calls at the same times, on other paths. */
  ghost predicate SameSchedule(calls: seq<Call>, other: seq<Call>) {
    |calls| == |other| && forall k :: 0 <= k < |calls| ==>
      calls[k].Record? == other[k].Record? && calls[k].at == other[k].at
  }

  /** Collection shows in the k-th answer of some calls on that schedule. */
  ghost predicate ShowsCollection(schedule: seq<Call>, calls: seq<Call>, k: nat, ttl: nat) {
    SameSchedule(schedule, calls) && k < |calls| && Answer(calls, k, ttl, true) != Answer(calls, k, ttl, false)
  }

  /** The schedule with `p` recorded by the h-th call, asked for by the j-th, and nothing else. */
  function OnePath(schedule: seq<Call>, h: nat, j: nat, p: Path): (calls: seq<Call>)
    ensures SameSchedule(schedule, calls)
  {
    seq(|schedule|, k requires 0 <= k < |schedule| =>
      var path := if k == h || k == j then [p] else [];
      if schedule[k].Record? then Record(path, schedule[k].at) else Match(path, schedule[k].at))
  }

  /** Where the first `m` calls of such a run lead, the i-th one finding `held` just expired. */
  ghost predicate OnePathHeld(eager: Entries, lazy: Entries, held: Entries, h: nat, i: nat, m: nat) {
    && lazy == (if m <= h then map[] else held)
    && (eager == map[] || eager == held)
    && (m <= h || m > i ==> eager == map[])
  }

  lemma {:induction false} OnePathRun(schedule: seq<Call>, h: nat, i: nat, j: nat, p: Path, m: nat, ttl: nat)
    requires IsLate(schedule, h, i, j) && m <= j && ttl == schedule[i].at - schedule[h].at
    ensures var calls := OnePath(schedule, h, j, p)[..m];
            OnePathHeld(RunFrom(map[], calls, ttl, true), RunFrom(map[], calls, ttl, false),
                        map[p := schedule[h].at], h, i, m)
  {
    if m > 0 {
      var n := m - 1;
      var calls := OnePath(schedule, h, j, p);
      OnePathRun(schedule, h, i, j, p, n, ttl);
      RunOneMore(calls, n, ttl, true);
      RunOneMore(calls, n, ttl, false);
      OnePathStep(RunFrom(map[], calls[..n], ttl, true), RunFrom(map[], calls[..n], ttl, false),
                  calls[n], schedule[h].at, p, ttl, h, i, n);
    }
  }

  lemma OnePathStep(
    eager: Entries, lazy: Entries, call: Call, at: int, p: Path, ttl: nat, h: nat, i: nat, n: nat)
    requires OnePathHeld(eager, lazy, map[p := at], h, i, n) && h < i
    requires call.Record? ==> call.paths == if n == h then [p] else []
    requires call.Match? ==> call.batch == [] && n != h
    requires n == h ==> call.at == at
    requires n == i ==> call.Record? && call.at - at == ttl
    requires 0 < ttl
    ensures OnePathHeld(After(eager, call, ttl, true), After(lazy, call, ttl, false), map[p := at], h, i, n + 1)
  {
    OnePathCall(eager, call, at, p, ttl, n == h, true);
    OnePathCall(lazy, call, at, p, ttl, n == h, false);
  }

  lemma RunOneMore(calls: seq<Call>, n: nat, ttl: nat, eager: bool)
    requires n < |calls|
    ensures RunFrom(map[], calls[..n + 1], ttl, eager)
            == After(RunFrom(map[], calls[..n], ttl, eager), calls[n], ttl, eager)
  {
    assert calls[..n + 1][..n] == calls[..n];
  }

  lemma OnePathCall(entries: Entries, call: Call, at: int, p: Path, ttl: nat, first: bool, eager: bool)
    requires entries == map[] || (!first && entries == map[p := at])
    requires call.Record? ==> call.paths == if first then [p] else []
    requires call.Match? ==> call.batch == [] && !first
    requires 0 < ttl && (first ==> call.at == at)
    ensures var after := After(entries, call, ttl, eager);
            && (first ==> after == map[p := at])
            && (!first ==> after == entries || (eager && after == map[]))
            && (call.Record? && call.at - at >= ttl && eager ==> after == map[])
  {
    if first {
      assert [p][0] in [p];
      assert Recorded(entries, ToSet([p]), at) == map[p := at];
    }
  }

  /** Some paths and some lifetime make eager and lazy collection answer differently exactly on the
      schedules with a late match. */
  lemma CollectionShowsIff(schedule: seq<Call>)
    ensures (exists calls, k: nat, ttl: nat :: ShowsCollection(schedule, calls, k, ttl)) <==> !NoneLate(schedule)
  {
    if calls, k: nat, ttl: nat :| ShowsCollection(schedule, calls, k, ttl) && NoneLate(schedule) {
      forall h: nat, i: nat, j: nat ensures !IsLate(calls, h, i, j) {
        assert !IsLate(schedule, h, i, j);
      }
      GarbageCollectionIsInvisible(calls, k, ttl);
    }
    if h: nat, i: nat, j: nat :| IsLate(schedule, h, i, j) {
      LateMatchShows(schedule, h, i, j, "");
    }
  }

  lemma LateMatchShows(schedule: seq<Call>, h: nat, i: nat, j: nat, p: Path)
    requires IsLate(schedule, h, i, j)
    ensures ShowsCollection(schedule, OnePath(schedule, h, j, p), j, schedule[i].at - schedule[h].at)
  {
    var calls, ttl := OnePath(schedule, h, j, p), schedule[i].at - schedule[h].at;
    OnePathRun(schedule, h, i, j, p, j, ttl);
    assert calls[j].batch == [p] && [p][0] in calls[j].batch;
    assert !Live(RunFrom(map[], calls[..j], ttl, true), p, calls[j].at, ttl);
    assert Live(RunFrom(map[], calls[..j], ttl, false), p, calls[j].at, ttl);
  }

  lemma TwoCalls(a: Call, b: Call, ttl: nat, eager: bool)
    ensures RunFrom(map[], [a, b], ttl, eager) == After(After(map[], a, ttl, eager), b, ttl, eager)
  {
    var none: Entries := map[];
    assert [a][..0] == [] && RunFrom(none, [], ttl, eager) == none;
    assert RunFrom(none, [a], ttl, eager) == After(none, a, ttl, eager);
    assert [a, b][..1] == [a];
  }

  /** It can when a call read its clock before another that took the lock first. */
  lemma LateClockShowsCollection(p: Path, q: Path)
    requires p != q
    ensures var calls := [Record([p], 0), Record([q], 10), Match([p], 9)];
            !Answer(calls, 2, 10, true) && Answer(calls, 2, 10, false)
  {
    var first, second := Record([p], 0), Record([q], 10);
    var calls := [first, second, Match([p], 9)];
    var none: Entries := map[];
    assert After(none, first, 10, true) == map[p := 0] == After(none, first, 10, false);
    assert p !in After(map[p := 0], second, 10, true);
    assert After(map[p := 0], second, 10, false)[p] == 0;
    TwoCalls(first, second, 10, true);
    TwoCalls(first, second, 10, false);
    assert calls[..2] == [first, second] && [p][0] == p;
    assert !AllLive(RunFrom(none, [first, second], 10, true), [p], 9, 10);
    assert AllLive(RunFrom(none, [first, second], 10, false), [p], 9, 10);
  }

  ghost function RecordsOf(calls: seq<Call>, p: Path): nat {
    if calls == [] then 0
    else RecordsOf(calls[..|calls| - 1], p)
         + (if calls[|calls| - 1].Record? && p in calls[|calls| - 1].paths then 1 else 0)
  }

  /** Batches containing `p` that the cache answered yes to, and so suppressed. */
  ghost function SuppressionsOf(calls: seq<Call>, p: Path, ttl: nat): nat {
    if calls == [] then 0
    else
      var n := |calls| - 1;
      SuppressionsOf(calls[..n], p, ttl)
      + (if calls[n].Match? && p in calls[n].batch
            && AllLive(RunFrom(map[], calls[..n], ttl, true), calls[n].batch, calls[n].at, ttl) then 1 else 0)
  }

  /** One write excuses at most one echo, whatever the clock does: a batch is suppressed at most
      as often as its path was recorded, and an entry still held is an excuse not yet spent. */
  lemma {:induction false} OneEchoPerWrite(calls: seq<Call>, p: Path, ttl: nat)
    ensures SuppressionsOf(calls, p, ttl) + (if p in RunFrom(map[], calls, ttl, true) then 1 else 0)
            <= RecordsOf(calls, p)
  {
    if calls == [] {
    } else {
      OneEchoPerWrite(calls[..|calls| - 1], p, ttl);
    }
  }
}
