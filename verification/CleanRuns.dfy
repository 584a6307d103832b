/** `src/janitor/prune.rs` when no I/O fails: the order in which folders are taken decides exactly
    which of them can go. */
module CleanRuns {
  import opened Common
  import opened Text
  import opened Removal

  /** A folder to be processed, and whether the force flags let it be removed. */
  datatype Step = Step(folder: string, permitted: bool)

  /** Nothing goes wrong on disk while one folder is removed, and its rows can be read. */
  ghost predicate Quiet(io: Io) {
    && !io.canonicalizeFails && io.sight == CLEAR && io.blind == {} && !io.healFails && !io.rowsUnreadable
    && io.badEntries == {} && !io.rescueDirFails && io.badRenames == {} && io.removal.Completes?
  }

  ghost predicate Planned(steps: seq<Step>, d: Path) {
    exists s :: s in steps && s.permitted && PathOf(s.folder) == d
  }

  /** Some maildir nested below `t` is not going to be removed itself. */
  ghost predicate Shelters(steps: seq<Step>, start: Disk, t: Path) {
    exists d :: d in start.dirs && Reaches(CLEAR, t, d) && IsMaildir(start.dirs, d) && !Planned(steps, d)
  }

  ghost predicate Goes(steps: seq<Step>, start: Disk, s: Step) {
    s.permitted && !Shelters(steps, start, PathOf(s.folder))
  }

  /** A folder of jma's own making, with no file where its directories should be. */
  ghost predicate Regular(start: Disk, folder: string) {
    && Public(folder) && Ordinary(folder) && (forall c :: c in Split(folder, '/') ==> IsPlain(c))
    && Unblocked(Split(folder, '/'), start) && CanHeal(start, Split(folder, '/'))
  }

  ghost predicate Suitable(steps: seq<Step>, start: Disk) {
    && IsTree(start) && RescueDirs() !! start.files.Keys
    && (forall d :: d in start.dirs ==> !([RESCUE_FOLDER_NAME, "cur"] < d))
    && forall s :: s in steps ==> Regular(start, s.folder)
  }

  /** No folder comes after one above it. */
  ghost predicate DescendantsFirst(steps: seq<Step>) {
    forall i, j :: 0 <= i < j < |steps| ==> !(PathOf(steps[i].folder) < PathOf(steps[j].folder))
  }

  ghost predicate TakenDown(steps: seq<Step>, start: Disk, k: nat, x: Path)
    requires k <= |steps|
  {
    exists i :: 0 <= i < k && Goes(steps, start, steps[i]) && AtOrUnder(x, PathOf(steps[i].folder))
  }

  /** The disk after `k` steps. */
  ghost predicate Settled(steps: seq<Step>, start: Disk, k: nat, now: Disk)
    requires k <= |steps|
  {
    && IsTree(now) && now.dirs <= start.dirs + RescueDirs()
    && (forall p :: p in now.files ==> p in start.files || InRescue(p))
    && (forall x :: x in start.dirs ==> x in now.dirs || TakenDown(steps, start, k, x))
    && forall i :: 0 <= i < k && Goes(steps, start, steps[i]) ==> Absent(now, PathOf(steps[i].folder))
  }

  lemma PathsAreSplits(folder: string)
    requires Ordinary(folder)
    ensures PathOf(folder) == Split(folder, '/') != []
  {
    OrdinaryIsLexical(Split(folder, '/'), []);
  }

  /** No folder removed before the one at `k` takes away an unplanned maildir below that. */
  lemma UnplannedIsSpared(steps: seq<Step>, start: Disk, k: nat, d: Path, x: Path, i: nat)
    requires Suitable(steps, start) && DescendantsFirst(steps) && i < k < |steps|
    requires Reaches(CLEAR, PathOf(steps[k].folder), d) && IsMaildir(start.dirs, d) && !Planned(steps, d)
    requires d in start.dirs && (x == d || x == d + ["cur"] || x == d + ["new"])
    ensures AtOrUnder(x, PathOf(steps[i].folder)) ==> !Goes(steps, start, steps[i])
  {
    var t, u := PathOf(steps[k].folder), PathOf(steps[i].folder);
    assert steps[i] in steps;
    PathsAreSplits(steps[i].folder);
    if AtOrUnder(x, u) && steps[i].permitted {
      NotItsOwnLeaf(u, d, x);
      assert u != d && !(u < t);
      BetweenShelters(steps, start, t, u, d);
    }
  }

  /** An unplanned maildir below the folder at `k`, or its `cur/` or `new/`, is still there. */
  lemma UnplannedStays(steps: seq<Step>, start: Disk, k: nat, now: Disk, d: Path, x: Path)
    requires Suitable(steps, start) && DescendantsFirst(steps) && k < |steps| && Settled(steps, start, k, now)
    requires Reaches(CLEAR, PathOf(steps[k].folder), d) && IsMaildir(start.dirs, d) && !Planned(steps, d)
    requires d in start.dirs && x in start.dirs && (x == d || x == d + ["cur"] || x == d + ["new"])
    ensures x in now.dirs
  {
    forall i: nat | i < k ensures AtOrUnder(x, PathOf(steps[i].folder)) ==> !Goes(steps, start, steps[i]) {
      UnplannedIsSpared(steps, start, k, d, x, i);
    }
  }

  lemma BetweenShelters(steps: seq<Step>, start: Disk, t: Path, u: Path, d: Path)
    requires Reaches(CLEAR, t, d) && d in start.dirs && IsMaildir(start.dirs, d) && !Planned(steps, d)
    requires t <= u < d
    ensures Shelters(steps, start, u)
  {
    assert Reaches(CLEAR, u, d);
  }

  lemma NotItsOwnLeaf(u: Path, d: Path, x: Path)
    requires forall c :: c in u ==> IsPlain(c)
    requires x == d || x == d + ["cur"] || x == d + ["new"]
    requires u <= x
    ensures u <= d
  {
    if x != d {
      assert x[|d|] in x && !IsPlain(x[|d|]) && Parent(x) == d;
      assert u != x;
    }
  }

  /** What the nested check sees below the folder at `k` is that it shelters an unplanned maildir. */
  lemma NestedMeansShelters(steps: seq<Step>, start: Disk, k: nat, now: Disk)
    requires Suitable(steps, start) && DescendantsFirst(steps) && k < |steps| && Settled(steps, start, k, now)
    ensures SeesNested(now.dirs, CLEAR, PathOf(steps[k].folder)) <==> Shelters(steps, start, PathOf(steps[k].folder))
  {
    var t := PathOf(steps[k].folder);
    if Shelters(steps, start, t) {
      var d :| d in start.dirs && Reaches(CLEAR, t, d) && IsMaildir(start.dirs, d) && !Planned(steps, d);
      UnplannedStays(steps, start, k, now, d, d);
      if d + ["cur"] in start.dirs {
        UnplannedStays(steps, start, k, now, d, d + ["cur"]);
      } else {
        UnplannedStays(steps, start, k, now, d, d + ["new"]);
      }
    }
    if SeesNested(now.dirs, CLEAR, t) {
      var d :| d in now.dirs && Reaches(CLEAR, t, d) && IsMaildir(now.dirs, d);
      SeenIsSheltered(steps, start, k, now, d);
    }
  }

  lemma SeenIsSheltered(steps: seq<Step>, start: Disk, k: nat, now: Disk, d: Path)
    requires Suitable(steps, start) && DescendantsFirst(steps) && k < |steps| && Settled(steps, start, k, now)
    requires d in now.dirs && Reaches(CLEAR, PathOf(steps[k].folder), d) && IsMaildir(now.dirs, d)
    ensures Shelters(steps, start, PathOf(steps[k].folder))
  {
    var t := PathOf(steps[k].folder);
    SeenWasThere(steps, start, k, now, d);
    if Planned(steps, d) {
      StillThereShelters(steps, start, k, now, d);
      var e :| e in start.dirs && Reaches(CLEAR, d, e) && IsMaildir(start.dirs, e) && !Planned(steps, e);
      ReachesOn(t, d, e);
    }
  }

  /** A planned folder below this one has had its turn; it is still there because it shelters one. */
  lemma StillThereShelters(steps: seq<Step>, start: Disk, k: nat, now: Disk, d: Path)
    requires DescendantsFirst(steps) && k < |steps| && Settled(steps, start, k, now)
    requires d in now.dirs && PathOf(steps[k].folder) < d && Planned(steps, d)
    ensures Shelters(steps, start, d)
  {
    var s :| s in steps && s.permitted && PathOf(s.folder) == d;
    var j :| 0 <= j < |steps| && steps[j] == s;
    assert j < k;
    assert !Goes(steps, start, s);
  }

  lemma SeenWasThere(steps: seq<Step>, start: Disk, k: nat, now: Disk, d: Path)
    requires Suitable(steps, start) && k < |steps| && Settled(steps, start, k, now)
    requires d in now.dirs && Reaches(CLEAR, PathOf(steps[k].folder), d) && IsMaildir(now.dirs, d)
    ensures d in start.dirs && IsMaildir(start.dirs, d)
  {
    var t := PathOf(steps[k].folder);
    assert steps[k] in steps;
    PathsAreSplits(steps[k].folder);
    assert t[0] in t && d[0] == t[0];
    assert forall x :: x in RescueDirs() ==> x[0] == RESCUE_FOLDER_NAME;
    assert (d + ["cur"])[0] == d[0] && (d + ["new"])[0] == d[0];
  }

  lemma ReachesOn(t: Path, d: Path, e: Path)
    requires Reaches(CLEAR, t, d) && Reaches(CLEAR, d, e)
    ensures Reaches(CLEAR, t, e)
  {
    forall k | |t| <= k < |e| ensures IsPlain(e[k]) {
      if k < |d| {
        assert e[k] == d[k];
      }
    }
  }

  lemma StillRegular(steps: seq<Step>, start: Disk, k: nat, now: Disk, s: Step)
    requires Suitable(steps, start) && k <= |steps| && Settled(steps, start, k, now) && s in steps
    ensures Regular(now, s.folder)
  {
    var t := Split(s.folder, '/');
    assert t[0] in t;
    forall j | 0 <= j <= |t| ensures t[..j] !in now.files {
      if j > 0 {
        assert t[..j][0] == t[0];
      }
    }
    forall name ensures !InRescue(t + [name]) {
      assert (t + [name])[0] == t[0];
    }
  }

  lemma RescueIsClear(steps: seq<Step>, start: Disk, k: nat, now: Disk, io: Io, p: Path)
    requires Suitable(steps, start) && k <= |steps| && Settled(steps, start, k, now) && Quiet(io) && p != []
    ensures CanRescue(now, io, p)
  {
    assert [RESCUE_FOLDER_NAME, "cur"] < RescuePath(p);
    forall d | d in RescueDirs() ensures d !in now.files {
      assert |d| < 3;
    }
  }

  /** Without I/O failures, a permitted folder is removed exactly when it shelters no maildir that
      is to stay. */
  lemma NestingDecides(
    steps: seq<Step>, start: Disk, k: nat, now: Disk, db: Db, mailbox: Option<MailboxId>, idOf: Path -> MaildirId,
    io: Io)
    requires Suitable(steps, start) && DescendantsFirst(steps) && k < |steps| && Settled(steps, start, k, now)
             && Quiet(io)
    ensures var t := PathOf(steps[k].folder);
            if Shelters(steps, start, t)
            then Guarded(steps[k].folder, now) == Target(t) && SeesNested(now.dirs, io.sight, t)
            else Removable(steps[k].folder, now, db, mailbox, idOf, io)
    ensures Guarded(steps[k].folder, now).Target? ==> Guarded(steps[k].folder, now).path == PathOf(steps[k].folder)
  {
    var t := PathOf(steps[k].folder);
    assert steps[k] in steps;
    StillRegular(steps, start, k, now, steps[k]);
    OrdinaryGuard(steps[k].folder, now);
    NestedMeansShelters(steps, start, k, now);
    if SeesNested(now.dirs, CLEAR, t) {
      var d :| d in now.dirs && Reaches(CLEAR, t, d) && IsMaildir(now.dirs, d);
      PrefixPresent(now.dirs, d, |t|);
      assert d[..|t|] == t;
    } else {
      assert t[..|t|] == t;
      RescueGoesThrough(steps, start, k, now, db, t, mailbox, idOf, io);
    }
  }

  lemma RescueGoesThrough(
    steps: seq<Step>, start: Disk, k: nat, now: Disk, db: Db, t: Path, mailbox: Option<MailboxId>,
    idOf: Path -> MaildirId, io: Io)
    requires Suitable(steps, start) && k <= |steps| && Settled(steps, start, k, now) && Quiet(io)
    requires t != [] && !IsJmaPrivate(t[0])
    ensures RescueSucceeds(Ready(now, t, io), db, t, mailbox, idOf, io)
  {
    var ready := Ready(now, t, io);
    forall p | p in ToRescue(ready.files, db, t, mailbox, idOf, io) ensures CanRescue(ready, io, p) {
      RescueIsClear(steps, start, k, now, io, p);
      assert RescuePath(p)[0] != t[0];
    }
  }

  lemma SkipSettles(steps: seq<Step>, start: Disk, k: nat, now: Disk)
    requires k < |steps| && Settled(steps, start, k, now) && !Goes(steps, start, steps[k])
    ensures Settled(steps, start, k + 1, now)
  {
    forall x | x in start.dirs && x !in now.dirs ensures TakenDown(steps, start, k + 1, x) {
      var i :| 0 <= i < k && Goes(steps, start, steps[i]) && AtOrUnder(x, PathOf(steps[i].folder));
    }
  }

  /** A removal of the folder at `k` that ends as it must. */
  lemma RemovalSettles(
    steps: seq<Step>, start: Disk, k: nat, now: Disk, db: Db, mailbox: Option<MailboxId>, idOf: Path -> MaildirId,
    io: Io, after: Disk, moves: seq<Path>, gone: set<Path>)
    requires Suitable(steps, start) && DescendantsFirst(steps) && k < |steps| && Settled(steps, start, k, now)
             && Quiet(io)
    requires Goes(steps, start, steps[k])
    requires Reshaped(now, db, steps[k].folder, mailbox, idOf, io, after, moves, gone, true)
    ensures Settled(steps, start, k + 1, after)
  {
    var t := PathOf(steps[k].folder);
    NestingDecides(steps, start, k, now, db, mailbox, idOf, io);
    TakesDown(steps, start, k, now, db, mailbox, idOf, io, after, moves, gone);
    forall x | x in start.dirs && x !in after.dirs ensures TakenDown(steps, start, k + 1, x) {
      if x in now.dirs {
        assert AtOrUnder(x, PathOf(steps[k].folder));
      } else {
        var i :| 0 <= i < k && Goes(steps, start, steps[i]) && AtOrUnder(x, PathOf(steps[i].folder));
      }
    }
    forall i | 0 <= i < k && Goes(steps, start, steps[i]) ensures Absent(after, PathOf(steps[i].folder)) {
      var u := PathOf(steps[i].folder);
      assert steps[i] in steps;
      PathsAreSplits(steps[i].folder);
      assert u[0] in u;
      RescueMissesCleared(now.files, moves, u);
    }
  }

  lemma TakesDown(
    steps: seq<Step>, start: Disk, k: nat, now: Disk, db: Db, mailbox: Option<MailboxId>, idOf: Path -> MaildirId,
    io: Io, after: Disk, moves: seq<Path>, gone: set<Path>)
    requires k < |steps| && Suitable(steps, start) && Settled(steps, start, k, now)
    requires Reshaped(now, db, steps[k].folder, mailbox, idOf, io, after, moves, gone, true)
    requires !Guarded(steps[k].folder, now).Refused?
    ensures Absent(after, PathOf(steps[k].folder))
    ensures after.dirs <= now.dirs + RescueDirs()
    ensures forall p :: p in after.files ==> p in MovedAll(now.files, moves)
    ensures forall p :: p in after.files ==> p in start.files || InRescue(p)
    ensures forall x :: x in now.dirs && x !in after.dirs ==> AtOrUnder(x, PathOf(steps[k].folder))
  {
    if Guarded(steps[k].folder, now).Target? {
      TargetIsPathOf(steps[k].folder, now);
    } else {
      NothingMeansAbsent(steps[k].folder, now);
    }
    forall p | p in after.files ensures p in start.files || InRescue(p) {
      MovedAllAddsNothing(now.files, moves, p);
    }
  }

  /** One removal, tried: it succeeds exactly when nesting lets it. */
  lemma RemovalStep(
    steps: seq<Step>, start: Disk, k: nat, now: Disk, db: Db, mailbox: Option<MailboxId>, idOf: Path -> MaildirId,
    io: Io, after: Disk, moves: seq<Path>, gone: set<Path>, taken: bool)
    requires Suitable(steps, start) && DescendantsFirst(steps) && k < |steps| && Settled(steps, start, k, now)
             && Quiet(io)
    requires steps[k].permitted
    requires Reshaped(now, db, steps[k].folder, mailbox, idOf, io, after, moves, gone, taken)
    requires taken <==> Removable(steps[k].folder, now, db, mailbox, idOf, io)
    ensures taken <==> Goes(steps, start, steps[k])
    ensures Settled(steps, start, k + 1, after)
  {
    NestingDecides(steps, start, k, now, db, mailbox, idOf, io);
    if taken {
      RemovalSettles(steps, start, k, now, db, mailbox, idOf, io, after, moves, gone);
    } else {
      SkipSettles(steps, start, k, now);
    }
  }
}
