/** What a prune run keeps and drops: rows, files, unmapped mail, and folders once removed. */
module PruneLedger {
  import opened Common
  import opened Text
  import opened PrunePlan
  import opened Removal

  // ---------- rows ----------

  ghost predicate UniqueFolders(mailboxes: map<MailboxId, string>) {
    forall a, b :: a in mailboxes && b in mailboxes && mailboxes[a] == mailboxes[b] ==> a == b
  }

  function IdByFolder(mailboxes: map<MailboxId, string>): map<string, MailboxId>
    requires UniqueFolders(mailboxes)
  {
    map id | id in mailboxes :: mailboxes[id] := id
  }

  ghost function MailboxOf(mailboxes: map<MailboxId, string>, folder: string): Option<MailboxId>
    requires UniqueFolders(mailboxes)
  {
    if folder in IdByFolder(mailboxes) then Some(IdByFolder(mailboxes)[folder]) else None
  }

  /** The DB once the folders `removed` are gone, cursor aside: their rows in every table, and
      nothing else, are gone too. */
  ghost function Pruned(db: Db, removed: set<string>): Db {
    var dropped := DroppedIds(db, removed);
    db.(messages := map e | e in db.messages && db.messages[e].mailbox !in dropped :: db.messages[e],
        localState := map m | m in db.localState && db.localState[m] !in removed :: db.localState[m],
        checkpoints := db.checkpoints - removed,
        mailboxes := db.mailboxes - dropped)
  }

  function Dropped(db: Db, mailbox: Option<MailboxId>): Db {
    if mailbox.None? then db else db.(mailboxes := db.mailboxes - {mailbox.value})
  }

  ghost function DroppedIds(db: Db, removed: set<string>): set<MailboxId> {
    set id | id in db.mailboxes && db.mailboxes[id] in removed
  }

  lemma PrunedStep(db: Db, removed: set<string>, folder: string)
    requires UniqueFolders(db.mailboxes)
    ensures var mailbox := MailboxOf(db.mailboxes, folder);
            Dropped(Cascaded(Pruned(db, removed), folder, mailbox), mailbox) == Pruned(db, removed + {folder})
  {
    var mailbox := MailboxOf(db.mailboxes, folder);
    var before := DroppedIds(db, removed);
    DroppedIdsStep(db, removed, folder);
    RowsStep(db, before, mailbox);
    StatesStep(db, removed, folder);
    assert db.checkpoints - removed - {folder} == db.checkpoints - (removed + {folder});
    assert mailbox.Some? ==> db.mailboxes - before - {mailbox.value} == db.mailboxes - (before + {mailbox.value});
    assert before + {} == before;
  }

  lemma StatesStep(db: Db, removed: set<string>, folder: string)
    ensures var states := map m | m in db.localState && db.localState[m] !in removed :: db.localState[m];
            (map m | m in states && states[m] != folder :: states[m])
            == map m | m in db.localState && db.localState[m] !in removed + {folder} :: db.localState[m]
  {
  }

  lemma DroppedIdsStep(db: Db, removed: set<string>, folder: string)
    requires UniqueFolders(db.mailboxes)
    ensures var mailbox := MailboxOf(db.mailboxes, folder);
            DroppedIds(db, removed + {folder})
            == DroppedIds(db, removed) + (if mailbox.Some? then {mailbox.value} else {})
  {
  }

  lemma RowsStep(db: Db, dropped: set<MailboxId>, mailbox: Option<MailboxId>)
    ensures var rows := map e | e in db.messages && db.messages[e].mailbox !in dropped :: db.messages[e];
            var more := dropped + (if mailbox.Some? then {mailbox.value} else {});
            (map e | e in rows && Some(rows[e].mailbox) != mailbox :: rows[e])
            == map e | e in db.messages && db.messages[e].mailbox !in more :: db.messages[e]
  {
  }

  /** Removing other folders leaves a mailbox's messages known. */
  lemma StillKnown(db: Db, removed: set<string>, folder: string)
    requires UniqueFolders(db.mailboxes) && folder !in removed
    ensures Known(Pruned(db, removed), MailboxOf(db.mailboxes, folder)) == Known(db, MailboxOf(db.mailboxes, folder))
  {
    var mailbox := MailboxOf(db.mailboxes, folder);
    if mailbox.Some? {
      assert db.mailboxes[mailbox.value] == folder && mailbox.value !in DroppedIds(db, removed);
      var before, after := db.messages, Pruned(db, removed).messages;
      assert forall e :: e in before && before[e].mailbox == mailbox.value ==> e in after && after[e] == before[e];
    }
  }

  // ---------- where every file ends up ----------

  /** The messages of these entries' folders that the DB does not know. */
  ghost function Unknown(files: map<Path, Content>, entries: seq<Entry>, db: Db, idOf: Path -> MaildirId): set<Path>
    requires UniqueFolders(db.mailboxes)
  {
    set p | p in files && exists e :: e in entries && IsUnknownOf(p, e.folder, db, idOf)
  }

  /** The DB has this id among the messages of the folder's mailbox. */
  ghost predicate Recorded(db: Db, folder: string, id: MaildirId) {
    exists mailbox :: mailbox in db.mailboxes && db.mailboxes[mailbox] == folder && HasMessage(db, mailbox, id)
  }

  lemma RecordedIsKnown(db: Db, folder: string, id: MaildirId)
    requires UniqueFolders(db.mailboxes)
    ensures Recorded(db, folder, id) <==> id in Known(db, MailboxOf(db.mailboxes, folder))
  {
    var mailbox := MailboxOf(db.mailboxes, folder);
    KnownMeans(db, mailbox, id);
    if m :| m in db.mailboxes && db.mailboxes[m] == folder && HasMessage(db, m, id) {
      assert mailbox == Some(m);
    }
    if mailbox.Some? {
      assert db.mailboxes[mailbox.value] == folder;
    }
  }

  ghost predicate IsUnknownOf(p: Path, folder: string, db: Db, idOf: Path -> MaildirId)
    requires UniqueFolders(db.mailboxes)
  {
    IsEntryOf(p, PathOf(folder)) && !Recorded(db, folder, idOf(p))
  }

  ghost predicate Stays(start: map<Path, Content>, files: map<Path, Content>, p: Path)
    requires p in start
  {
    p in files && files[p] == start[p]
  }

  ghost predicate Rescued(start: map<Path, Content>, files: map<Path, Content>, p: Path)
    requires p in start
  {
    && p != [] && p !in files
    && var q := [".jma-rescue", "cur", p[|p| - 1]];
       q in files && files[q] == start[p]
  }

  /** The account of every file: outside the rescue maildir each is where it was, `moved` or
      `lost`, and there is nothing else; in the rescue maildir no name goes away, and under each is
      what was there before or what was moved onto it. */
  ghost predicate Tracked(start: map<Path, Content>, files: map<Path, Content>, moved: set<Path>, lost: set<Path>) {
    && (forall p :: p in start && !InRescue(p) && p !in moved && p !in lost ==> Stays(start, files, p))
    && (forall m :: m in moved ==>
          m in start && m != [] && !InRescue(m) && m !in lost && m !in files && RescuePath(m) in files)
    && (forall p :: p in lost ==> p in start && !InRescue(p) && p !in files)
    && (forall q :: q in files && !InRescue(q) ==> q in start && Stays(start, files, q))
    && (forall q :: q in start && InRescue(q) ==> q in files)
    && (forall q :: q in files && InRescue(q) ==>
          (q in start && Stays(start, files, q)) || exists m :: m in moved && MovedOnto(start, files, m, q))
  }

  ghost predicate MovedOnto(start: map<Path, Content>, files: map<Path, Content>, m: Path, q: Path) {
    m != [] && m in start && RescuePath(m) == q && q in files && files[q] == start[m]
  }

  /** One removal keeps the account: its rescues are moved, its deletions are lost. */
  lemma TrackRemoval(
    start: map<Path, Content>, files: map<Path, Content>, moved: set<Path>, lost: set<Path>, moves: seq<Path>,
    gone: set<Path>)
    requires Tracked(start, files, moved, lost) && AreSources(files, moves)
    requires forall p :: p in gone ==> !InRescue(p)
    ensures Tracked(start, MovedAll(files, moves) - gone, moved + ToSet(moves),
                    lost + (gone * files.Keys - ToSet(moves)))
  {
    var after := MovedAll(files, moves) - gone;
    TrackMoved(start, files, moved, lost, moves, gone);
    TrackPlaces(start, files, moved, lost, moves, gone);
    forall q | q in after && InRescue(q)
      ensures (q in start && Stays(start, after, q))
              || exists m :: m in moved + ToSet(moves) && MovedOnto(start, after, m, q)
    {
      TrackRescued(start, files, moved, lost, moves, gone, q);
    }
  }

  /** What has been moved is away from its place, and its new name is taken; no rescued name goes. */
  lemma TrackMoved(
    start: map<Path, Content>, files: map<Path, Content>, moved: set<Path>, lost: set<Path>, moves: seq<Path>,
    gone: set<Path>)
    requires Tracked(start, files, moved, lost) && AreSources(files, moves)
    requires forall p :: p in gone ==> !InRescue(p)
    ensures var after := MovedAll(files, moves) - gone;
            && (forall m :: m in moved + ToSet(moves) ==>
                  m in start && m != [] && !InRescue(m) && m !in after && RescuePath(m) in after)
            && (forall q :: q in start && InRescue(q) ==> q in after)
  {
    MovesLand(files, moves);
    forall m | m in moved ensures m !in MovedAll(files, moves) {
      NotResurrected(files, moves, m);
    }
    assert forall m :: m in ToSet(moves) ==> m in moves && !InRescue(m);
  }

  /** Outside the rescue maildir. */
  lemma TrackPlaces(
    start: map<Path, Content>, files: map<Path, Content>, moved: set<Path>, lost: set<Path>, moves: seq<Path>,
    gone: set<Path>)
    requires Tracked(start, files, moved, lost) && AreSources(files, moves)
    requires forall p :: p in gone ==> !InRescue(p)
    ensures var after := MovedAll(files, moves) - gone;
            && (forall q :: q in after && !InRescue(q) ==> q in start && Stays(start, after, q))
            && (forall p :: p in files && !InRescue(p) && p !in moves && p !in gone ==>
                  p in after && after[p] == files[p])
            && (forall p :: !InRescue(p) && p !in files ==> p !in after)
  {
    forall p | !InRescue(p)
      ensures p in MovedAll(files, moves) <==> p in files && p !in moves
      ensures p in files && p !in moves ==> MovedAll(files, moves)[p] == files[p]
    {
      MovesLand(files, moves);
      if p !in moves {
        OthersStay(files, moves, p);
      }
    }
  }

  /** Under a name of the rescue maildir. */
  lemma TrackRescued(
    start: map<Path, Content>, files: map<Path, Content>, moved: set<Path>, lost: set<Path>, moves: seq<Path>,
    gone: set<Path>, q: Path)
    requires Tracked(start, files, moved, lost) && AreSources(files, moves) && InRescue(q)
    requires q in MovedAll(files, moves) - gone
    ensures var after := MovedAll(files, moves) - gone;
            (q in start && Stays(start, after, q))
            || exists m :: m in moved + ToSet(moves) && MovedOnto(start, after, m, q)
  {
    var after := MovedAll(files, moves) - gone;
    MovedAllAddsNothing(files, moves, q);
    if m :| m in moves && q == RescuePath(m) && MovedAll(files, moves)[q] == files[m] {
      assert !InRescue(m) && m in ToSet(moves) && MovedOnto(start, after, m, q);
    } else if !(q in start && Stays(start, files, q)) {
      var m :| m in moved && MovedOnto(start, files, m, q);
      assert MovedOnto(start, after, m, q);
    }
  }

  /** No other unknown message, and no file rescued before, has this basename. */
  ghost predicate Alone(start: map<Path, Content>, unknown: set<Path>, p: Path)
    requires p != []
  {
    RescuePath(p) !in start && forall q :: q in unknown && q != [] && RescuePath(q) == RescuePath(p) ==> q == p
  }

  /** Conservation, file by file: a moved message whose basename is its own is found in the rescue
      maildir with its contents. */
  lemma LoneMessageIsRescued(
    start: map<Path, Content>, files: map<Path, Content>, moved: set<Path>, lost: set<Path>, unknown: set<Path>,
    p: Path)
    requires Tracked(start, files, moved, lost) && moved <= unknown && p in moved && Alone(start, unknown, p)
    ensures Rescued(start, files, p)
  {
    var q := RescuePath(p);
    assert q in files && InRescue(q);
    var m :| m in moved && MovedOnto(start, files, m, q);
  }

  /** A file rescued earlier keeps its contents unless an unknown message has its name. */
  lemma RescuedFileStays(
    start: map<Path, Content>, files: map<Path, Content>, moved: set<Path>, lost: set<Path>, unknown: set<Path>,
    q: Path)
    requires Tracked(start, files, moved, lost) && moved <= unknown && q in start && InRescue(q)
    requires forall m :: m in unknown && m != [] ==> RescuePath(m) != q
    ensures Stays(start, files, q)
  {
  }

  /** No two of these, nor one of them and a file rescued before, have one basename but different
      contents. */
  ghost predicate NoneClash(start: map<Path, Content>, moved: set<Path>)
    requires forall m :: m in moved ==> m in start && m != []
  {
    && (forall m, n :: m in moved && n in moved && RescuePath(m) == RescuePath(n) ==> start[m] == start[n])
    && (forall m :: m in moved && RescuePath(m) in start ==> start[RescuePath(m)] == start[m])
  }

  /** All of these are rescued with their contents, and what was rescued before is as it was. */
  ghost predicate ContentsKept(start: map<Path, Content>, files: map<Path, Content>, moved: set<Path>) {
    && (forall m :: m in moved ==> m in start && Rescued(start, files, m))
    && (forall q :: q in start && InRescue(q) ==> Stays(start, files, q))
  }

  /** By the account of a whole run, all contents survive exactly when none clash. */
  lemma ContentsKeptIffNoneClash(
    start: map<Path, Content>, files: map<Path, Content>, moved: set<Path>, lost: set<Path>)
    requires Tracked(start, files, moved, lost)
    ensures ContentsKept(start, files, moved) <==> NoneClash(start, moved)
  {
    if NoneClash(start, moved) {
      NoneClashKeeps(start, files, moved, lost);
    }
    if ContentsKept(start, files, moved) {
      KeptMeansNoneClash(start, files, moved);
    }
  }

  lemma NoneClashKeeps(start: map<Path, Content>, files: map<Path, Content>, moved: set<Path>, lost: set<Path>)
    requires Tracked(start, files, moved, lost) && NoneClash(start, moved)
    ensures ContentsKept(start, files, moved)
  {
    forall m | m in moved ensures Rescued(start, files, m) {
      NoneClashUnder(start, files, moved, lost, RescuePath(m));
    }
    forall q | q in start && InRescue(q) ensures Stays(start, files, q) {
      NoneClashUnder(start, files, moved, lost, q);
    }
  }

  /** Then one name of the rescue maildir holds what it held, and whatever was moved onto it. */
  lemma NoneClashUnder(
    start: map<Path, Content>, files: map<Path, Content>, moved: set<Path>, lost: set<Path>, q: Path)
    requires Tracked(start, files, moved, lost) && NoneClash(start, moved) && InRescue(q)
    ensures q in start ==> Stays(start, files, q)
    ensures forall m :: m in moved && RescuePath(m) == q ==> q in files && files[q] == start[m]
  {
    if q in start || exists m :: m in moved && RescuePath(m) == q {
      var origin := OriginOf(start, files, moved, lost, q);
      assert q in start ==> start[origin] == start[q];
      assert forall m :: m in moved && RescuePath(m) == q ==> start[m] == start[origin];
    }
  }

  /** What is under a name of the rescue maildir was there before or was moved onto it. */
  lemma OriginOf(start: map<Path, Content>, files: map<Path, Content>, moved: set<Path>, lost: set<Path>, q: Path)
    returns (origin: Path)
    requires Tracked(start, files, moved, lost) && InRescue(q)
    requires q in start || exists m :: m in moved && RescuePath(m) == q
    ensures q in files && origin in start && files[q] == start[origin]
    ensures origin == q || (origin in moved && RescuePath(origin) == q)
  {
    assert q in files;
    if q in start && Stays(start, files, q) {
      origin := q;
    } else {
      origin :| origin in moved && MovedOnto(start, files, origin, q);
    }
  }

  lemma KeptMeansNoneClash(start: map<Path, Content>, files: map<Path, Content>, moved: set<Path>)
    requires ContentsKept(start, files, moved) && forall m :: m in moved ==> m != []
    ensures NoneClash(start, moved)
  {
    forall m | m in moved ensures files[RescuePath(m)] == start[m] {
      assert Rescued(start, files, m);
    }
    forall m | m in moved && RescuePath(m) in start ensures start[RescuePath(m)] == start[m] {
      assert InRescue(RescuePath(m)) && Rescued(start, files, m);
    }
  }

  /** A path that is gone and not in the rescue maildir stays gone. */
  lemma NotResurrected(files: map<Path, Content>, moves: seq<Path>, p: Path)
    requires AreSources(files, moves) && p !in files && !InRescue(p)
    ensures p !in MovedAll(files, moves)
  {
    if p in MovedAll(files, moves) {
      MovedAllAddsNothing(files, moves, p);
    }
  }

  // ---------- unmapped mail survives ----------

  /** A message of a mail folder, as the maildir walks see folders. */
  ghost predicate IsMail(p: Path) {
    && |p| >= 3 && p[|p| - 2] in {"cur", "new"} && !("." <= p[|p| - 1])
    && forall i :: 0 <= i < |p| - 2 ==> IsPlain(p[i])
  }

  /** A folder outside jma's private namespace and not inside a message directory. */
  ghost predicate Proper(folder: string) {
    Public(folder) && forall i :: 0 < i < |PathOf(folder)| ==> IsPlain(PathOf(folder)[i])
  }

  /** The removal of `t` cannot see the message. Below a nested folder: some directory on the way
      from `t` to that folder is not listed, or one on the way to the message is not seen. In `t`
      itself: its subdirectory is not listed, or the folder does not show as one to open. */
  ghost predicate Hidden(p: Path, t: Path, io: Io) {
    if |t| < |p| - 2 then
      || (exists j :: |t| <= j < |p| - 2 && p[..j] in io.sight.unlisted)
      || exists j :: |t| < j < |p| && p[..j] in io.sight.unseen
    else
      || Parent(p) in io.sight.unlisted || CurOpen in io.blind
      || (|p| >= 2 && p[|p| - 2] == "new" && NewPresent in io.blind)
  }

  /** A deletion reaches a message that the DB does not know only after it was rescued, or if it
      was hidden. */
  lemma UnknownIsNotDeleted(
    disk: Disk, db: Db, folder: string, mailbox: Option<MailboxId>, idOf: Path -> MaildirId, io: Io, after: Disk,
    moves: seq<Path>, gone: set<Path>, taken: bool, p: Path)
    requires IsTree(disk) && Reshaped(disk, db, folder, mailbox, idOf, io, after, moves, gone, taken)
    requires p in disk.files && IsMail(p) && !(|PathOf(folder)| > |p| - 2 && PathOf(folder) <= p)
    requires IsEntryOf(p, PathOf(folder)) ==> idOf(p) !in Known(db, mailbox)
    ensures p in gone ==> p in ToSet(moves) || Hidden(p, PathOf(folder), io)
  {
    var t := PathOf(folder);
    if p in gone && !Hidden(p, t, io) {
      TargetIsPathOf(folder, disk);
      assert AtOrUnder(p, t) && !SeesNested(disk.dirs, io.sight, t);
      if |t| < |p| - 2 {
        HomeIsSeen(disk, t, io, p);
        assert false;
      }
      assert IsEntryOf(p, t);
      OwnMailIsOpened(disk, t, io, p);
      assert p in ToRescue(disk.files, db, t, mailbox, idOf, io);
    }
  }

  /** The rescue can open a folder one of whose messages is not hidden. */
  lemma OwnMailIsOpened(disk: Disk, t: Path, io: Io, p: Path)
    requires IsTree(disk) && p in disk.files && IsEntryOf(p, t) && !Hidden(p, t, io)
    ensures Opened(Ready(disk, t, io), t, io)
  {
    assert Parent(p) == t + [p[|t|]] && p[|p| - 2] == p[|t|];
  }

  /** That exception is real: behind an unreadable folder a nested message is deleted unrescued. */
  lemma HiddenMailIsLost(folder: string, child: string, name: string, content: Content, idOf: Path -> MaildirId, io: Io)
    requires IsPlain(folder) && IsPlain(child) && '/' !in folder && folder !in {"", ".", ".."}
    requires io == Io(false, Sight({[folder]}, {}), {}, false, false, {}, false, {}, Completes, false)
    ensures var message := [folder, child, "cur", name];
            var disk := Disk(map[message := content], {[], [folder], [folder, child], [folder, child, "cur"]});
            var db := Db(map[], map[], {}, map[], true);
            && IsTree(disk) && Hidden(message, PathOf(folder), io)
            && Removable(folder, disk, db, None, idOf, io)
            && forall after, created, moves, gone ::
                 Leaves(disk, db, folder, None, idOf, io, after, created, moves, gone) ==> after.files == map[]
  {
    var t, message := [folder], [folder, child, "cur", name];
    var disk := Disk(map[message := content], {[], [folder], [folder, child], [folder, child, "cur"]});
    var db := Db(map[], map[], {}, map[], true);
    NestedFolder(folder, child, name, content, disk);
    assert message[..1] == t;
    forall after, created, moves, gone | Leaves(disk, db, folder, None, idOf, io, after, created, moves, gone)
      ensures after.files == map[]
    {
      assert ToSet(moves) <= {};
      if moves != [] {
        FirstIsMember(moves);
      }
      assert message in gone;
    }
  }

  lemma NestedFolder(folder: string, child: string, name: string, content: Content, disk: Disk)
    requires IsPlain(folder) && IsPlain(child) && '/' !in folder && folder !in {"", ".", ".."}
    requires disk == Disk(map[[folder, child, "cur", name] := content],
                          {[], [folder], [folder, child], [folder, child, "cur"]})
    ensures PathOf(folder) == [folder] && Guarded(folder, disk) == Target([folder])
    ensures IsTree(disk)
    ensures !SeesNested(disk.dirs, Sight({[folder]}, {}), [folder]) && !IsMaildir(disk.dirs, [folder])
            && Entries(disk.files, [folder]) == {}
  {
    NestedTree(folder, child, name, content, disk);
    assert [folder] + ["cur"] == [folder, "cur"] && [folder] + ["new"] == [folder, "new"];
    NothingSeen([folder], disk.dirs);
    SplitAtom(folder, '/');
    OrdinaryGuard(folder, disk);
  }

  /** A walk that cannot list where it begins sees nothing. */
  lemma NothingSeen(t: Path, dirs: set<Path>)
    ensures !SeesNested(dirs, Sight({t}, {}), t)
  {
    forall d | t < d ensures !Reaches(Sight({t}, {}), t, d) {
      assert d[..|t|] == t;
    }
  }

  lemma NestedTree(folder: string, child: string, name: string, content: Content, disk: Disk)
    requires disk == Disk(map[[folder, child, "cur", name] := content],
                          {[], [folder], [folder, child], [folder, child, "cur"]})
    ensures IsTree(disk)
  {
    assert Parent([folder, child, "cur", name]) == [folder, child, "cur"];
    assert Parent([folder, child, "cur"]) == [folder, child] && Parent([folder, child]) == [folder];
  }

  /** The nested check sees a message's folder from anything above it. */
  lemma HomeIsSeen(disk: Disk, t: Path, io: Io, p: Path)
    requires IsTree(disk) && p in disk.files && IsMail(p) && !Hidden(p, t, io)
    requires t <= p && |t| < |p| - 2
    ensures SeesNested(disk.dirs, io.sight, t)
  {
    var home := p[..|p| - 2];
    assert Parent(p) == home + [p[|p| - 2]] && Parent(Parent(p)) == home;
    assert Parent(p) == p[..|p| - 1] && home in disk.dirs && LooksMaildir(disk.dirs, io.sight, home);
    forall k | |t| <= k < |home| ensures IsPlain(home[k]) && home[..k] !in io.sight.unlisted {
      assert home[..k] == p[..k];
    }
    forall k | |t| < k <= |home| ensures home[..k] !in io.sight.unseen {
      assert home[..k] == p[..k];
    }
    assert Reaches(io.sight, t, home);
  }

  /** Mail that the DB knew nothing about when the run began, and whose own `cur/` or `new/` no
      entry names as a folder. */
  ghost predicate IsUnknownMail(p: Path, entries: seq<Entry>, db: Db, idOf: Path -> MaildirId)
    requires UniqueFolders(db.mailboxes)
  {
    && IsMail(p)
    && forall e :: e in entries ==>
         && (PathOf(e.folder) == p[..|p| - 2] ==> !Recorded(db, e.folder, idOf(p)))
         && !(|PathOf(e.folder)| > |p| - 2 && PathOf(e.folder) <= p)
  }

  lemma KnownShrinks(db: Db, removed: set<string>, mailbox: Option<MailboxId>)
    ensures Known(Pruned(db, removed), mailbox) <= Known(db, mailbox)
  {
  }

  // ---------- removed folders stay gone ----------

  /** There is nothing at the folder's path or below it. */
  ghost predicate Cleared(disk: Disk, folder: string) {
    Public(folder) && PathOf(folder) != [] && Absent(disk, PathOf(folder))
  }

  lemma RemovedIsCleared(
    before: Disk, db: Db, folder: string, mailbox: Option<MailboxId>, idOf: Path -> MaildirId, io: Io, after: Disk,
    moves: seq<Path>, gone: set<Path>)
    requires IsTree(before) && Public(folder) && !Guarded(folder, before).Refused?
    requires Reshaped(before, db, folder, mailbox, idOf, io, after, moves, gone, true)
    ensures Cleared(after, folder)
  {
    if Guarded(folder, before).Target? {
      TargetIsPathOf(folder, before);
    } else {
      NothingMeansAbsent(folder, before);
    }
  }

  /** Healing a maildir creates nothing at or below a proper folder it is not already in. */
  lemma HealMissesCleared(t: Path, cleared: Path)
    requires t != [] && !AtOrUnder(t, cleared)
    requires forall i :: 0 < i < |cleared| ==> IsPlain(cleared[i])
    ensures forall d :: d in MaildirDirs(t) ==> !AtOrUnder(d, cleared)
  {
    forall d | d in MaildirDirs(t) ensures !AtOrUnder(d, cleared) {
      assert Parent(d) == t && !IsPlain(d[|t|]) && d != cleared;
      assert AtOrUnder(d, cleared) ==> d == cleared || AtOrUnder(Parent(d), cleared);
    }
  }

  /** A later removal brings no proper folder back. */
  lemma ClearedStays(
    before: Disk, db: Db, folder: string, mailbox: Option<MailboxId>, idOf: Path -> MaildirId, io: Io, after: Disk,
    moves: seq<Path>, gone: set<Path>, taken: bool, earlier: string)
    requires IsTree(before) && Public(folder) && Cleared(before, earlier) && Proper(earlier)
    requires Reshaped(before, db, folder, mailbox, idOf, io, after, moves, gone, taken)
    ensures Cleared(after, earlier)
  {
    if Guarded(folder, before).Target? {
      TargetIsPublic(folder, before);
      TargetIsPathOf(folder, before);
      var cleared := PathOf(earlier);
      LexicalMembers(Split(earlier, '/'), []);
      assert cleared[0] in cleared;
      RescueMissesCleared(before.files, moves, cleared);
      HealMissesCleared(PathOf(folder), cleared);
    }
  }

  /** The proper ones of these folders are gone. */
  ghost predicate AllCleared(disk: Disk, folders: seq<string>) {
    forall f :: f in folders && Proper(f) ==> Cleared(disk, f)
  }

  lemma ClearedStep(
    before: Disk, db: Db, folder: string, mailbox: Option<MailboxId>, idOf: Path -> MaildirId, io: Io, after: Disk,
    moves: seq<Path>, gone: set<Path>, taken: bool, removed: seq<string>)
    requires IsTree(before) && Public(folder) && AllCleared(before, removed)
    requires Reshaped(before, db, folder, mailbox, idOf, io, after, moves, gone, taken)
    requires taken ==> !Guarded(folder, before).Refused?
    ensures AllCleared(after, removed)
    ensures taken ==> Cleared(after, folder) && AllCleared(after, removed + [folder])
  {
    forall f | f in removed && Proper(f) ensures Cleared(after, f) {
      ClearedStays(before, db, folder, mailbox, idOf, io, after, moves, gone, taken, f);
    }
    if taken {
      RemovedIsCleared(before, db, folder, mailbox, idOf, io, after, moves, gone);
    }
  }
}
