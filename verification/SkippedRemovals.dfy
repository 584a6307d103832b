/** `src/maildir_ops/removal.rs`: when a removal leaves the folder exactly as it was. */
module SkippedRemovals {
  import opened Common
  import opened Text
  import opened Removal

  /** Nothing at or below `t` has changed. */
  ghost predicate Intact(before: Disk, after: Disk, t: Path) {
    forall p :: AtOrUnder(p, t) ==>
      && (p in after.dirs <==> p in before.dirs)
      && (p in after.files <==> p in before.files)
      && (p in after.files && p in before.files ==> after.files[p] == before.files[p])
  }

  /** Some message is moved in some order of listing: one of `cur/`, or, once `cur/` is passed, of `new/`. */
  ghost predicate CanMoveSome(
    ready: Disk, db: Db, t: Path, mailbox: Option<MailboxId>, idOf: Path -> MaildirId, io: Io)
  {
    var known := Known(db, mailbox);
    && Opened(ready, t, io) && !(mailbox.Some? && io.rowsUnreadable)
    && ((exists p :: p in Unknowns(ready.files, t, "cur", known, idOf, io) && CanRescue(ready, io, p))
        || (&& ListedClear(ready, t, "cur", known, idOf, io)
            && exists p :: p in Unknowns(ready.files, t, "new", known, idOf, io) && CanRescue(ready, io, p)))
  }

  /** What the deletion takes if nothing had to be rescued. */
  ghost function TakenAway(
    ready: Disk, db: Db, t: Path, mailbox: Option<MailboxId>, idOf: Path -> MaildirId, io: Io): set<Path>
  {
    if RescueSucceeds(ready, db, t, mailbox, idOf, io) && t !in ready.files then Gone(ready, t, io.removal) else {}
  }

  /** The folder stays as it was: it is not touched at all, or no message can be moved and the
      deletion takes exactly the directories that healing added. */
  ghost predicate StaysIntact(
    before: Disk, db: Db, t: Path, mailbox: Option<MailboxId>, idOf: Path -> MaildirId, io: Io)
  {
    || SeesNested(before.dirs, io.sight, t) || HealBlocked(before, t, io)
    || var ready := Ready(before, t, io);
       && !CanMoveSome(ready, db, t, mailbox, idOf, io)
       && TakenAway(ready, db, t, mailbox, idOf, io) == ready.dirs - before.dirs
  }

  lemma NothingMoves(
    ready: Disk, db: Db, t: Path, mailbox: Option<MailboxId>, idOf: Path -> MaildirId, io: Io, created: bool,
    moves: seq<Path>)
    requires Rescues(ready, db, t, mailbox, idOf, io, created, moves) && !CanMoveSome(ready, db, t, mailbox, idOf, io)
    ensures moves == []
  {
    if moves != [] {
      var known, m := Known(db, mailbox), moves[0];
      assert m in moves && m in ToSet(moves);
      UnmappedBySub(ready, db, t, mailbox, idOf, io);
      assert m in Unknowns(ready.files, t, "new", known, idOf, io)
             && m in ToSet(moves) * Listed(ready.files, t, "new", io);
      forall p | p in Listed(ready.files, t, "cur", io) ensures Passes(ready, known, idOf, io, p) {
        assert p in Unknowns(ready.files, t, "cur", known, idOf, io) ==> p in ToSet(moves);
      }
    }
  }

  /** Below the folder the rescue directories make no difference. */
  lemma GoneSame(ready: Disk, t: Path, created: bool, removal: Removal)
    requires t != [] && !IsJmaPrivate(t[0])
    ensures Gone(Disk(ready.files, ready.dirs + MadeDirs(created)), t, removal) == Gone(ready, t, removal)
  {
    var more := Disk(ready.files, ready.dirs + MadeDirs(created));
    forall d | AtOrUnder(d, t) ensures d in more.dirs <==> d in ready.dirs {
      assert d[0] == t[0];
    }
    if removal.StopsAfter? {
      forall d | AtOrUnder(d, t) ensures AllBelowIn(more, d, removal.lost) <==> AllBelowIn(ready, d, removal.lost) {
      }
    }
  }

  lemma StaysIntactSuffices(
    before: Disk, db: Db, t: Path, mailbox: Option<MailboxId>, idOf: Path -> MaildirId, io: Io, after: Disk,
    created: bool, moves: seq<Path>, gone: set<Path>)
    requires IsTree(before) && t in before.dirs + before.files.Keys && t != [] && !IsJmaPrivate(t[0])
    requires StaysIntact(before, db, t, mailbox, idOf, io)
    requires Emptied(before, db, t, mailbox, idOf, io, after, created, moves, gone)
    ensures Intact(before, after, t)
  {
    if !SeesNested(before.dirs, io.sight, t) && !HealBlocked(before, t, io) {
      var ready := Ready(before, t, io);
      NothingMoves(ready, db, t, mailbox, idOf, io, created, moves);
      GoneSame(ready, t, created, io.removal);
      assert gone == ready.dirs - before.dirs;
      forall p | AtOrUnder(p, t) ensures p !in RescueDirs() {
        assert p[0] == t[0];
      }
    }
  }

  /** An outcome in which nothing is moved. */
  lemma UnmovedOutcome(before: Disk, db: Db, t: Path, mailbox: Option<MailboxId>, idOf: Path -> MaildirId, io: Io)
    returns (after: Disk)
    requires !SeesNested(before.dirs, io.sight, t) && !HealBlocked(before, t, io)
    requires !CanMoveSome(Ready(before, t, io), db, t, mailbox, idOf, io)
    ensures var gone := TakenAway(Ready(before, t, io), db, t, mailbox, idOf, io);
            && after == Without(Ready(before, t, io), gone)
            && Emptied(before, db, t, mailbox, idOf, io, after, false, [], gone)
  {
    var ready := Ready(before, t, io);
    var known := Known(db, mailbox);
    UnmappedBySub(ready, db, t, mailbox, idOf, io);
    if Opened(ready, t, io) && RescueClear(ready, db, t, mailbox, idOf, io) {
      forall p | p in Listed(ready.files, t, "cur", io) ensures Passes(ready, known, idOf, io, p) {
        assert p in Entries(ready.files, t);
      }
      assert ToRescue(ready.files, db, t, mailbox, idOf, io) == {};
    }
    assert ToSet<Path>([]) == {};
    assert Rescues(ready, db, t, mailbox, idOf, io, false, []);
    assert Disk(MovedAll(ready.files, []), ready.dirs + MadeDirs(false)) == ready;
    after := Without(ready, TakenAway(ready, db, t, mailbox, idOf, io));
  }

  lemma ListOf(s: set<Path>) returns (l: seq<Path>)
    ensures Distinct(l) && ToSet(l) == s
    decreases s
  {
    if s == {} {
      l := [];
    } else {
      var x :| x in s;
      var rest := ListOf(s - {x});
      assert x !in ToSet(rest);
      l := [x] + rest;
      assert ToSet(l) == {x} + ToSet(rest);
    }
  }

  /** Messages of `cur/` and then of `new/` that a rescue may move. */
  lemma MovedInOrder(
    ready: Disk, db: Db, t: Path, mailbox: Option<MailboxId>, idOf: Path -> MaildirId, io: Io, a: seq<Path>,
    b: seq<Path>)
    requires t != [] && !IsJmaPrivate(t[0]) && Distinct(a) && Distinct(b) && a + b != []
    requires Opened(ready, t, io) && !(mailbox.Some? && io.rowsUnreadable)
    requires ToSet(a) <= Unknowns(ready.files, t, "cur", Known(db, mailbox), idOf, io)
    requires ToSet(b) <= Unknowns(ready.files, t, "new", Known(db, mailbox), idOf, io)
    requires forall p :: p in a + b ==> p != [] && CanRescue(ready, io, p)
    requires b != [] ==> ToSet(a) == Unknowns(ready.files, t, "cur", Known(db, mailbox), idOf, io)
                         && Listed(ready.files, t, "cur", io) !! io.badEntries
    requires RescueClear(ready, db, t, mailbox, idOf, io) ==>
               ToSet(a) + ToSet(b) == ToRescue(ready.files, db, t, mailbox, idOf, io)
    ensures Rescues(ready, db, t, mailbox, idOf, io, true, a + b)
  {
    var moves := a + b;
    UnmappedBySub(ready, db, t, mailbox, idOf, io);
    assert ToSet(moves) == ToSet(a) + ToSet(b);
    forall x | x in a ensures x !in b && x in Listed(ready.files, t, "cur", io) {
      assert x in ToSet(a);
      assert x in ToSet(b) ==> x in Listed(ready.files, t, "new", io);
    }
    DistinctConcat(a, b);
    forall m | m in moves ensures m in ready.files && m[0] != RESCUE_FOLDER_NAME {
      assert m in ToSet(moves) && m[0] == t[0];
    }
    forall j | |a| <= j < |moves| ensures moves[j] !in Listed(ready.files, t, "cur", io) {
      assert moves[j] in b && moves[j] in ToSet(b);
    }
    forall i, j | 0 <= i < j < |moves| && moves[j] in Listed(ready.files, t, "cur", io)
      ensures moves[i] in Listed(ready.files, t, "cur", io)
    {
      assert moves[i] in a;
    }
    if ToSet(moves) * Listed(ready.files, t, "new", io) != {} {
      assert b != [];
    }
    assert moves[0] in moves && moves[0] in ToSet(moves);
  }

  /** A rescue that meets no obstacle can move all there is. */
  lemma MoveAll(ready: Disk, db: Db, t: Path, mailbox: Option<MailboxId>, idOf: Path -> MaildirId, io: Io)
    returns (moves: seq<Path>)
    requires t != [] && !IsJmaPrivate(t[0]) && Opened(ready, t, io)
    requires RescueClear(ready, db, t, mailbox, idOf, io) && ToRescue(ready.files, db, t, mailbox, idOf, io) != {}
    ensures moves != [] && Rescues(ready, db, t, mailbox, idOf, io, true, moves)
  {
    UnmappedBySub(ready, db, t, mailbox, idOf, io);
    assert ToSet<Path>([]) == {};
    var a := ListOf(Unknowns(ready.files, t, "cur", Known(db, mailbox), idOf, io));
    var b := ListOf(Unknowns(ready.files, t, "new", Known(db, mailbox), idOf, io));
    moves := a + b;
    forall p | p in moves ensures p in ToRescue(ready.files, db, t, mailbox, idOf, io) {
      assert p in ToSet(a) || p in ToSet(b);
    }
    MovedInOrder(ready, db, t, mailbox, idOf, io, a, b);
  }

  lemma CurPasses(ready: Disk, t: Path, known: set<MaildirId>, idOf: Path -> MaildirId, io: Io)
    requires ListedClear(ready, t, "cur", known, idOf, io)
    ensures forall q :: q in Unknowns(ready.files, t, "cur", known, idOf, io) ==> CanRescue(ready, io, q)
    ensures Listed(ready.files, t, "cur", io) !! io.badEntries
  {
    forall q | q in Listed(ready.files, t, "cur", io)
      ensures q !in io.badEntries && (idOf(q) !in known ==> q != [] && CanRescue(ready, io, q))
    {
      assert Passes(ready, known, idOf, io, q);
    }
  }

  /** If some message can be moved, there is an outcome in which one is. */
  lemma MovedOutcome(ready: Disk, db: Db, t: Path, mailbox: Option<MailboxId>, idOf: Path -> MaildirId, io: Io)
    returns (moves: seq<Path>)
    requires t != [] && !IsJmaPrivate(t[0]) && CanMoveSome(ready, db, t, mailbox, idOf, io)
    ensures moves != [] && Rescues(ready, db, t, mailbox, idOf, io, true, moves)
  {
    var known := Known(db, mailbox);
    if RescueClear(ready, db, t, mailbox, idOf, io) {
      UnmappedBySub(ready, db, t, mailbox, idOf, io);
      moves := MoveAll(ready, db, t, mailbox, idOf, io);
    } else if p :| p in Unknowns(ready.files, t, "cur", known, idOf, io) && CanRescue(ready, io, p) {
      assert [p] + [] == [p];
      MovedInOrder(ready, db, t, mailbox, idOf, io, [p], []);
      moves := [p];
    } else {
      var p :| p in Unknowns(ready.files, t, "new", known, idOf, io) && CanRescue(ready, io, p);
      CurPasses(ready, t, known, idOf, io);
      assert ToSet<Path>([]) == {} == Unknowns(ready.files, t, "cur", known, idOf, io);
      assert [] + [p] == [p];
      MovedInOrder(ready, db, t, mailbox, idOf, io, [], [p]);
      moves := [p];
    }
  }

  /** Whatever happens to one existing folder, it is certain to stay as it was if and only if
      `StaysIntact` holds, which can be told before the removal. */
  lemma RemovalLeavesFolderIntactIff(
    before: Disk, db: Db, t: Path, mailbox: Option<MailboxId>, idOf: Path -> MaildirId, io: Io)
    requires IsTree(before) && t in before.dirs + before.files.Keys && t != [] && !IsJmaPrivate(t[0])
    ensures (forall after, created, moves, gone ::
               Emptied(before, db, t, mailbox, idOf, io, after, created, moves, gone) ==> Intact(before, after, t))
            <==> StaysIntact(before, db, t, mailbox, idOf, io)
  {
    if StaysIntact(before, db, t, mailbox, idOf, io) {
      forall after, created, moves, gone | Emptied(before, db, t, mailbox, idOf, io, after, created, moves, gone)
        ensures Intact(before, after, t)
      {
        StaysIntactSuffices(before, db, t, mailbox, idOf, io, after, created, moves, gone);
      }
    } else if CanMoveSome(Ready(before, t, io), db, t, mailbox, idOf, io) {
      MoveSpoils(before, db, t, mailbox, idOf, io);
    } else {
      var after := UnmovedOutcome(before, db, t, mailbox, idOf, io);
      DeletionSpoils(before, db, t, mailbox, idOf, io, after);
    }
  }

  lemma MoveSpoils(before: Disk, db: Db, t: Path, mailbox: Option<MailboxId>, idOf: Path -> MaildirId, io: Io)
    requires t != [] && !IsJmaPrivate(t[0])
    requires !SeesNested(before.dirs, io.sight, t) && !HealBlocked(before, t, io)
    requires CanMoveSome(Ready(before, t, io), db, t, mailbox, idOf, io)
    ensures exists after, created, moves, gone ::
              Emptied(before, db, t, mailbox, idOf, io, after, created, moves, gone) && !Intact(before, after, t)
  {
    var ready := Ready(before, t, io);
    var moves := MovedOutcome(ready, db, t, mailbox, idOf, io);
    var rescued := Disk(MovedAll(ready.files, moves), ready.dirs + MadeDirs(true));
    var gone := if RescueSucceeds(ready, db, t, mailbox, idOf, io) && t !in before.files
                then Gone(rescued, t, io.removal) else {};
    var after := Without(rescued, gone);
    assert Emptied(before, db, t, mailbox, idOf, io, after, true, moves, gone);
    MovesLand(ready.files, moves);
    assert moves[0] in moves && moves[0] in ToSet(moves);
    assert AtOrUnder(moves[0], t) && moves[0] in before.files && moves[0] !in after.files;
  }

  lemma DeletionSpoils(
    before: Disk, db: Db, t: Path, mailbox: Option<MailboxId>, idOf: Path -> MaildirId, io: Io, after: Disk)
    requires IsTree(before) && t in before.dirs + before.files.Keys
    requires !HealBlocked(before, t, io)
    requires var ready := Ready(before, t, io);
             TakenAway(ready, db, t, mailbox, idOf, io) != ready.dirs - before.dirs
             && after == Without(ready, TakenAway(ready, db, t, mailbox, idOf, io))
    ensures !Intact(before, after, t)
  {
    var ready := Ready(before, t, io);
    var taken, added := TakenAway(ready, db, t, mailbox, idOf, io), ready.dirs - before.dirs;
    if x :| x in taken && x !in added {
      assert AtOrUnder(x, t) && (x in before.files || x in before.dirs);
      assert x !in after.files && x !in after.dirs;
    } else {
      var x :| x in added && x !in taken;
      assert x in MaildirDirs(t) && AtOrUnder(x, t) && x in after.dirs;
    }
  }

  /** Where nothing stands in the way of the rescue and the deletion takes nothing, every unmapped
      message has left the folder all the same. */
  lemma RescuedBeforeFailing(
    before: Disk, db: Db, t: Path, mailbox: Option<MailboxId>, idOf: Path -> MaildirId, io: Io, after: Disk,
    created: bool, moves: seq<Path>, gone: set<Path>)
    requires Opened(Ready(before, t, io), t, io) && RescueClear(Ready(before, t, io), db, t, mailbox, idOf, io)
    requires !SeesNested(before.dirs, io.sight, t) && !HealBlocked(before, t, io) && io.removal == StopsAfter({})
    requires Emptied(before, db, t, mailbox, idOf, io, after, created, moves, gone)
    ensures after.files == MovedAll(before.files, moves)
            && ToSet(moves) == ToRescue(before.files, db, t, mailbox, idOf, io)
    ensures forall p :: p in ToRescue(before.files, db, t, mailbox, idOf, io) ==>
              p !in after.files && RescuePath(p) in after.files
  {
    NothingGone(Disk(MovedAll(before.files, moves), Ready(before, t, io).dirs + MadeDirs(created)), t);
    EveryoneMoved(before, after, moves, ToRescue(before.files, db, t, mailbox, idOf, io));
  }

  lemma NothingGone(disk: Disk, t: Path)
    ensures Gone(disk, t, StopsAfter({})) == {} && Without(disk, {}) == disk
  {
    assert disk.files - {} == disk.files && disk.dirs - {} == disk.dirs;
  }

  lemma EveryoneMoved(before: Disk, after: Disk, moves: seq<Path>, unmapped: set<Path>)
    requires AreSources(before.files, moves) && after.files == MovedAll(before.files, moves) && ToSet(moves) == unmapped
    ensures forall p :: p in unmapped ==> p != [] && p !in after.files && RescuePath(p) in after.files
  {
    MovesLand(before.files, moves);
    forall p | p in unmapped ensures p in moves {
      assert p in ToSet(moves);
    }
  }

  /** A removal can skip a folder that it has just emptied: the message is rescued, the deletion
      then fails before it takes anything. */
  lemma SkippedFolderCanBeEmptied(folder: string, name: string, content: Content, idOf: Path -> MaildirId, io: Io)
    requires IsPlain(folder) && '/' !in folder && folder !in {"", ".", ".."} && !("." <= name)
    requires io == Io(false, CLEAR, {}, false, false, {}, false, {}, StopsAfter({}), false)
    ensures var message := [folder, "cur", name];
            var before := Disk(map[message := content], {[], [folder], [folder, "cur"]});
            var db := Db(map[], map[], {}, map[], true);
            && IsTree(before) && Guarded(folder, before) == Target([folder])
            && !Removable(folder, before, db, None, idOf, io)
            && forall after, created, moves, gone ::
                 Leaves(before, db, folder, None, idOf, io, after, created, moves, gone)
                 ==> message !in after.files && RescuePath(message) in after.files
  {
    var t, message := [folder], [folder, "cur", name];
    var before := Disk(map[message := content], {[], [folder], [folder, "cur"]});
    var db := Db(map[], map[], {}, map[], true);
    OneMessageFolder(folder, name, content, before, CLEAR);
    assert ToRescue(before.files, db, t, None, idOf, io) == {message};
    forall after, created, moves, gone | Leaves(before, db, folder, None, idOf, io, after, created, moves, gone)
      ensures message !in after.files && RescuePath(message) in after.files
    {
      RescuedBeforeFailing(before, db, t, None, idOf, io, after, created, moves, gone);
    }
  }

  lemma OneMessageFolder(folder: string, name: string, content: Content, disk: Disk, sight: Sight)
    requires IsPlain(folder) && '/' !in folder && folder !in {"", ".", ".."} && !("." <= name)
    requires disk == Disk(map[[folder, "cur", name] := content], {[], [folder], [folder, "cur"]})
    ensures IsTree(disk) && Guarded(folder, disk) == Target([folder]) && !SeesNested(disk.dirs, sight, [folder])
    ensures [folder] + ["cur"] in disk.dirs && Entries(disk.files, [folder]) == {[folder, "cur", name]}
    ensures [RESCUE_FOLDER_NAME, "cur", name] !in disk.dirs && RescueDirs() !! disk.files.Keys
  {
    var t, message := [folder], [folder, "cur", name];
    assert Parent(message) == [folder, "cur"] && Parent([folder, "cur"]) == [folder] && t + ["cur"] == [folder, "cur"];
    SplitAtom(folder, '/');
    OrdinaryGuard(folder, disk);
    forall d | d in disk.dirs ensures !Reaches(sight, t, d) {
      assert t < d ==> d[1] == "cur";
    }
  }
}
