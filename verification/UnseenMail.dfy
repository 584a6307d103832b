/** `src/maildir_ops/removal.rs`: which files a removal deletes without rescuing them. */
module UnseenMail {
  import opened Common
  import opened Removal
  import SkippedRemovals

  /** The removal gets as far as `remove_dir_all` on a directory. */
  ghost predicate Deletes(
    before: Disk, db: Db, t: Path, mailbox: Option<MailboxId>, idOf: Path -> MaildirId, io: Io)
  {
    && !SeesNested(before.dirs, io.sight, t) && !HealBlocked(before, t, io)
    && RescueSucceeds(Ready(before, t, io), db, t, mailbox, idOf, io) && t !in before.files
  }

  /** The deletion comes to `p` before it stops. */
  predicate Destroys(removal: Removal, p: Path) {
    removal.Completes? || p in removal.lost
  }

  /** The rescue would move `p`: it can open the folder, and the message is listed and not known. */
  predicate Rescuable(
    before: Disk, db: Db, t: Path, mailbox: Option<MailboxId>, idOf: Path -> MaildirId, io: Io, p: Path)
  {
    Opened(Ready(before, t, io), t, io) && p in ToRescue(before.files, db, t, mailbox, idOf, io)
  }

  /** Whatever happens to one folder, a file at or below it is lost if and only if the removal gets
      as far as deleting it and the rescue did not see it as one to move. */
  lemma FileIsLostIff(
    before: Disk, db: Db, t: Path, mailbox: Option<MailboxId>, idOf: Path -> MaildirId, io: Io, after: Disk,
    created: bool, moves: seq<Path>, gone: set<Path>, p: Path)
    requires IsTree(before) && t != [] && !IsJmaPrivate(t[0])
    requires Emptied(before, db, t, mailbox, idOf, io, after, created, moves, gone)
    requires p in before.files && AtOrUnder(p, t)
    ensures p !in after.files && p !in moves
            <==> && Deletes(before, db, t, mailbox, idOf, io) && Destroys(io.removal, p)
                 && !Rescuable(before, db, t, mailbox, idOf, io, p)
  {
    MovesLand(before.files, moves);
    forall m | m in moves ensures m in ToSet(moves) && RescuePath(m) != p {
      assert p[0] == t[0] && RescuePath(m)[0] == RESCUE_FOLDER_NAME;
    }
    if Deletes(before, db, t, mailbox, idOf, io) {
      MovedIffRescuable(before, db, t, mailbox, idOf, io, created, moves, p);
      if p !in moves {
        OthersStay(before.files, moves, p);
      }
    }
  }

  /** A rescue that ends well has moved exactly what it could see to move. */
  lemma MovedIffRescuable(
    before: Disk, db: Db, t: Path, mailbox: Option<MailboxId>, idOf: Path -> MaildirId, io: Io, created: bool,
    moves: seq<Path>, p: Path)
    requires Rescues(Ready(before, t, io), db, t, mailbox, idOf, io, created, moves)
    requires RescueSucceeds(Ready(before, t, io), db, t, mailbox, idOf, io)
    ensures p in moves <==> Rescuable(before, db, t, mailbox, idOf, io, p)
  {
    assert p in moves <==> p in ToSet(moves);
  }

  /** A message of the folder itself that the DB does not know is lost if and only if the deletion
      takes it and it was not shown to the rescue: its subdirectory could not be listed, or the
      folder did not show a `cur/` then. */
  lemma OwnMailIsLostIff(
    before: Disk, db: Db, t: Path, mailbox: Option<MailboxId>, idOf: Path -> MaildirId, io: Io, after: Disk,
    created: bool, moves: seq<Path>, gone: set<Path>, p: Path, sub: string, name: string)
    requires IsTree(before) && t != [] && !IsJmaPrivate(t[0])
    requires Emptied(before, db, t, mailbox, idOf, io, after, created, moves, gone)
    requires p in before.files && p == t + [sub, name] && sub in {"cur", "new"} && (name == "" || name[0] != '.')
    requires mailbox.Some? ==> !HasMessage(db, mailbox.value, idOf(p))
    ensures p !in after.files && p !in moves
            <==> && Deletes(before, db, t, mailbox, idOf, io) && Destroys(io.removal, p)
                 && (t + [sub] in io.sight.unlisted || CurOpen in io.blind
                     || (t + ["cur"] !in before.dirs && NewPresent in io.blind))
  {
    KnownMeans(db, mailbox, idOf(p));
    assert IsEntryOf(p, t) && Parent(p) == t + [sub];
    FileIsLostIff(before, db, t, mailbox, idOf, io, after, created, moves, gone, p);
    RescuableIff(before, db, t, mailbox, idOf, io, p);
  }

  lemma RescuableIff(
    before: Disk, db: Db, t: Path, mailbox: Option<MailboxId>, idOf: Path -> MaildirId, io: Io, p: Path)
    requires IsTree(before) && p in Unmapped(before.files, db, t, mailbox, idOf)
    ensures Rescuable(before, db, t, mailbox, idOf, io, p)
            <==> !(Parent(p) in io.sight.unlisted || CurOpen in io.blind
                   || (t + ["cur"] !in before.dirs && NewPresent in io.blind))
  {
    assert Parent(p) == t + [p[|t|]];
  }

  /** Either failure does lose mail: every outcome of removing a folder with one unknown message
      leaves no trace of it. */
  lemma UnshownMailIsLost(folder: string, name: string, content: Content, idOf: Path -> MaildirId, io: Io)
    requires IsPlain(folder) && '/' !in folder && folder !in {"", ".", ".."} && !("." <= name)
    requires || io == Io(false, Sight({[folder, "cur"]}, {}), {}, false, false, {}, false, {}, Completes, false)
             || io == Io(false, CLEAR, {CurOpen}, false, false, {}, false, {}, Completes, false)
    ensures var message := [folder, "cur", name];
            var before := Disk(map[message := content], {[], [folder], [folder, "cur"]});
            var db := Db(map[], map[], {}, map[], true);
            && IsTree(before) && message in Unmapped(before.files, db, [folder], None, idOf)
            && Removable(folder, before, db, None, idOf, io)
            && forall after, created, moves, gone ::
                 Leaves(before, db, folder, None, idOf, io, after, created, moves, gone) ==> after.files == map[]
  {
    var t, message := [folder], [folder, "cur", name];
    var before := Disk(map[message := content], {[], [folder], [folder, "cur"]});
    var db := Db(map[], map[], {}, map[], true);
    SkippedRemovals.OneMessageFolder(folder, name, content, before, io.sight);
    assert Parent(message) == t + ["cur"] && t + ["cur", name] == message;
    forall after, created, moves, gone | Leaves(before, db, folder, None, idOf, io, after, created, moves, gone)
      ensures after.files == map[]
    {
      LoneMessageIsLost(before, db, t, idOf, io, after, created, moves, gone, name);
    }
  }

  lemma LoneMessageIsLost(
    before: Disk, db: Db, t: Path, idOf: Path -> MaildirId, io: Io, after: Disk, created: bool, moves: seq<Path>,
    gone: set<Path>, name: string)
    requires IsTree(before) && t != [] && !IsJmaPrivate(t[0]) && before.files.Keys == {t + ["cur", name]}
    requires Emptied(before, db, t, None, idOf, io, after, created, moves, gone) && (name == "" || name[0] != '.')
    requires Deletes(before, db, t, None, idOf, io) && io.removal.Completes?
    requires t + ["cur"] in io.sight.unlisted || CurOpen in io.blind
    ensures after.files == map[]
  {
    var message := t + ["cur", name];
    OwnMailIsLostIff(before, db, t, None, idOf, io, after, created, moves, gone, message, "cur", name);
    MovedAllOfOne(before.files, moves, message);
  }

  lemma MovedAllOfOne(files: map<Path, Content>, moves: seq<Path>, p: Path)
    requires AreSources(files, moves) && files.Keys == {p} && p !in moves
    ensures moves == [] && MovedAll(files, moves) == files
  {
    if moves != [] {
      FirstIsMember(moves);
    }
  }
}
