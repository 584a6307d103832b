/** `jma prune` from drift to outcome: what planning and applying together promise. */
module PruneEndToEnd {
  import opened Common
  import opened MaildirWalk
  import opened Prune
  import opened PruneLedger
  import opened PrunePlan
  import opened Removal
  import opened Text
  import CleanRuns
  import Drift
  import UnseenMail

  // ---------- without force flags ----------

  /** Planning looked at the disk that `apply` starts from: `walking` says what finding the folders
      could not see, `counting` what counting their mail could not. */
  ghost predicate Observed(start: Disk, walking: Sight, counting: Sight, count: string -> nat, drift: Drift.DiskView) {
    && IsTree(start)
    && (forall f :: count(f) == CountFolderFiles(start, counting)(f))
    && (forall f :: LooksMaildir(start.dirs, walking, PathOf(f)) ==> drift.isMaildir(f))
  }

  /** A message whose own directory the walk saw and which the count came across. */
  ghost predicate Noticed(start: Disk, walking: Sight, counting: Sight, p: Path) {
    Parent(p) !in walking.unseen && Counted(start, counting, p)
  }

  /** Without `--force-non-empty` a planned entry that may be removed holds only messages that went
      unnoticed. */
  lemma UnforcedEntryIsUnnoticed(
    c: Drift.Classes, drift: Drift.DiskView, walking: Sight, counting: Sight, count: string -> nat,
    dbEntry: string -> Entry, start: Disk, opts: Options, e: Entry, p: Path)
    requires Observed(start, walking, counting, count, drift) && forall f :: f in c.dbOnly ==> !drift.isMaildir(f)
    requires forall f :: dbEntry(f).folder == f
    requires e in EntriesOf(c, count, dbEntry) && Permitted(e.safety, opts) && !opts.forceNonEmpty
    requires p in Entries(start.files, PathOf(e.folder))
    ensures !Noticed(start, walking, counting, p)
  {
    if e in Map(c.dbOnly, dbEntry) {
      var k :| 0 <= k < |c.dbOnly| && e == dbEntry(c.dbOnly[k]);
      assert c.dbOnly[k] in c.dbOnly;
      NotLookingMeansUnseen(start, walking, PathOf(e.folder), p);
    } else {
      assert e.safety == NonEmptySafety(count(e.folder));
      CountedZeroIff(start, counting, e.folder);
    }
  }

  lemma NotLookingMeansUnseen(start: Disk, walking: Sight, t: Path, p: Path)
    requires IsTree(start) && p in Entries(start.files, t) && !LooksMaildir(start.dirs, walking, t)
    ensures Parent(p) in walking.unseen
  {
    assert Parent(p) == t + [p[|t|]] && Parent(p) in start.dirs;
  }

  lemma DbOnlyIsAbsent(
    c: Drift.Classes, orphans: seq<string>, drift: Drift.DiskView, rows: seq<Drift.Row>, mailboxes: seq<string>,
    caseInsensitive: bool)
    requires Drift.Classifies(c, orphans, drift, rows, mailboxes, caseInsensitive)
    ensures forall f :: f in c.dbOnly ==> !drift.isMaildir(f)
  {
    var pairs := Drift.Pairs(orphans, Drift.ById(Drift.Absent(rows, drift)), drift.sentinel);
    var left := Filter(Drift.Absent(rows, drift), (r: Drift.Row) => r !in Map(pairs, Drift.Rows()));
    forall f | f in c.dbOnly ensures !drift.isMaildir(f) {
      var k :| 0 <= k < |left| && left[k].folder == f;
      assert left[k] in left && left[k] in Drift.Absent(rows, drift);
    }
  }

  /** A prune without `--force-non-empty` neither moves nor deletes a message, known to the DB or
      not, whatever I/O fails: provided planning noticed it, no entry names its own directory as a
      folder, and it was not hidden when a folder above its own was removed. */
  lemma UnforcedPruneKeepsMail(
    plan: Plan, c: Drift.Classes, orphans: seq<string>, drift: Drift.DiskView, rows: seq<Drift.Row>,
    mailboxes: seq<string>, caseInsensitive: bool, walking: Sight, counting: Sight, count: string -> nat, start: Disk,
    opts: Options, db: Db, idOf: Path -> MaildirId, io: RunIo, now: Disk, nowDb: Db, r: Result<Outcome, Error>,
    trace: Trace, p: Path)
    requires Drift.Classifies(c, orphans, drift, rows, mailboxes, caseInsensitive)
    requires Observed(start, walking, counting, count, drift)
    requires PlansFor(plan, c, rows, count, mailboxes, caseInsensitive) && !opts.forceNonEmpty
    requires UniqueFolders(db.mailboxes)
    requires Applied(Processing(plan.entries), start, db, idOf, opts, io, now, nowDb, r, trace)
    requires p in start.files && IsMail(p) && Noticed(start, walking, counting, p)
    requires forall e :: e in plan.entries ==> !(|PathOf(e.folder)| > |p| - 2 && PathOf(e.folder) <= p)
    requires !LossHidden(Processing(plan.entries), |plan.entries|, opts, io, p)
    ensures Stays(start.files, now.files, p)
  {
    var ordered := Processing(plan.entries);
    DbOnlyIsAbsent(c, orphans, drift, rows, mailboxes, caseInsensitive);
    UnforcedEntriesMiss(plan.entries, c, drift, walking, counting, count,
                        DbEntry(rows, Drift.Selected(rows, mailboxes, caseInsensitive)), start, opts, p);
    StrangersStay(ordered, start, db, idOf, opts, io, now, nowDb, r, trace, p);
  }

  lemma UnforcedEntriesMiss(
    entries: seq<Entry>, c: Drift.Classes, drift: Drift.DiskView, walking: Sight, counting: Sight, count: string -> nat,
    dbEntry: string -> Entry, start: Disk, opts: Options, p: Path)
    requires Observed(start, walking, counting, count, drift) && forall f :: f in c.dbOnly ==> !drift.isMaildir(f)
    requires forall f :: dbEntry(f).folder == f
    requires entries == EntriesOf(c, count, dbEntry) && !opts.forceNonEmpty
    requires p in start.files && IsMail(p) && Noticed(start, walking, counting, p)
    ensures forall e :: e in Allowed(Processing(entries), opts) ==> e in entries && !IsEntryOf(p, PathOf(e.folder))
  {
    forall e | e in Allowed(Processing(entries), opts) ensures e in entries && !IsEntryOf(p, PathOf(e.folder)) {
      assert e in multiset(Processing(entries)) && e in entries;
      if IsEntryOf(p, PathOf(e.folder)) {
        UnforcedEntryIsUnnoticed(c, drift, walking, counting, count, dbEntry, start, opts, e, p);
      }
    }
  }

  /** A message of no permitted entry's folder stays. */
  lemma StrangersStay(
    ordered: seq<Entry>, start: Disk, db: Db, idOf: Path -> MaildirId, opts: Options, io: RunIo, now: Disk, nowDb: Db,
    r: Result<Outcome, Error>, trace: Trace, p: Path)
    requires UniqueFolders(db.mailboxes) && Applied(ordered, start, db, idOf, opts, io, now, nowDb, r, trace)
    requires p in start.files && IsMail(p) && !LossHidden(ordered, |ordered|, opts, io, p)
    requires forall e :: e in Allowed(ordered, opts) ==>
               !IsEntryOf(p, PathOf(e.folder)) && !(|PathOf(e.folder)| > |p| - 2 && PathOf(e.folder) <= p)
    ensures Stays(start.files, now.files, p)
  {
    var k := Reached(ordered, trace.at);
    DiskIsKept(ordered, start, db, idOf, opts, io, now, nowDb, r, trace);
    BegunMore(ordered, k, |ordered|, opts);
    assert ordered[..|ordered|] == ordered;
    StrangerIsUnknown(Begun(ordered, k, opts), start.files, db, idOf, p);
    BelowMore(ordered, k, |ordered|, opts, io, p);
    assert !InRescue(p);
  }

  lemma StrangerIsUnknown(
    entries: seq<Entry>, files: map<Path, Content>, db: Db, idOf: Path -> MaildirId, p: Path)
    requires UniqueFolders(db.mailboxes) && IsMail(p)
    requires forall e :: e in entries ==>
               !IsEntryOf(p, PathOf(e.folder)) && !(|PathOf(e.folder)| > |p| - 2 && PathOf(e.folder) <= p)
    ensures IsUnknownMail(p, entries, db, idOf) && p !in Unknown(files, entries, db, idOf)
  {
    assert IsEntryOf(p, p[..|p| - 2]);
  }

  /** Without `--force-in-config`, whatever fails, the row of an orphan stays if the config still
      syncs it or if its cached path is not known. */
  lemma SyncedRowStays(
    plan: Plan, c: Drift.Classes, orphans: seq<string>, drift: Drift.DiskView, rows: seq<Drift.Row>,
    mailboxes: seq<string>, caseInsensitive: bool, count: string -> nat, start: Disk, opts: Options, db: Db,
    idOf: Path -> MaildirId, io: RunIo, now: Disk, nowDb: Db, r: Result<Outcome, Error>, trace: Trace, row: Drift.Row,
    id: MailboxId)
    requires Distinct(Map(rows, Drift.IdOf())) && Distinct(Map(rows, Drift.FolderOf()))
    requires Drift.Classifies(c, orphans, drift, rows, mailboxes, caseInsensitive)
    requires PlansFor(plan, c, rows, count, mailboxes, caseInsensitive) && !opts.forceInConfig
    requires UniqueFolders(db.mailboxes)
    requires Applied(Processing(plan.entries), start, db, idOf, opts, io, now, nowDb, r, trace)
    requires row in rows && !drift.isMaildir(row.folder) && id in db.mailboxes && db.mailboxes[id] == row.folder
    requires row.remotePath.None? || mailboxes == []
             || Drift.StillSynced(rows, mailboxes, caseInsensitive, row.remotePath.value)
    ensures id in nowDb.mailboxes && nowDb.mailboxes[id] == row.folder
  {
    Drift.ClassesMean(c, orphans, drift, rows, mailboxes, caseInsensitive);
    DbOnlyHasRows(c, drift, rows, mailboxes, caseInsensitive);
    PlansForMeans(plan, c, rows, count, mailboxes, caseInsensitive);
    forall e | e in Processing(plan.entries) && e.folder == row.folder ensures LacksFlag(e, opts) {
      assert e in multiset(Processing(plan.entries)) && e in multiset(plan.entries);
      OrphanLacksFlag(plan, c, drift, rows, mailboxes, caseInsensitive, count, opts, row, e);
    }
    RowOfSkippedStays(Processing(plan.entries), start, db, idOf, opts, io, now, nowDb, r, trace, id);
  }

  lemma OrphanLacksFlag(
    plan: Plan, c: Drift.Classes, drift: Drift.DiskView, rows: seq<Drift.Row>, mailboxes: seq<string>,
    caseInsensitive: bool, count: string -> nat, opts: Options, row: Drift.Row, e: Entry)
    requires Distinct(Map(rows, Drift.FolderOf())) && Drift.Means(c, drift, rows, mailboxes, caseInsensitive)
    requires PlanMeans(plan, c, rows, count, mailboxes, caseInsensitive) && !opts.forceInConfig
    requires row in rows && !drift.isMaildir(row.folder) && e in plan.entries && e.folder == row.folder
    requires row.remotePath.None? || mailboxes == []
             || Drift.StillSynced(rows, mailboxes, caseInsensitive, row.remotePath.value)
    ensures LacksFlag(e, opts)
  {
    EntryOrigin(plan, c, rows, count, mailboxes, caseInsensitive, e);
    PickedHasRow(c.configDropped, rows, (x: Drift.Row) => Drift.LeftOut(drift, rows, mailboxes, caseInsensitive, x));
    OnlyRowOf(rows, row);
  }

  lemma OnlyRowOf(rows: seq<Drift.Row>, row: Drift.Row)
    requires Distinct(Map(rows, Drift.FolderOf())) && row in rows
    ensures forall k :: 0 <= k < |rows| && rows[k].folder == row.folder ==> rows[k] == row
  {
    var i :| 0 <= i < |rows| && rows[i] == row;
    forall k | 0 <= k < |rows| && rows[k].folder == row.folder ensures k == i {
      assert Map(rows, Drift.FolderOf())[k] == Map(rows, Drift.FolderOf())[i];
    }
  }

  /** That it was noticed is needed: a folder that has only `new/`, unreadable when it was counted,
      is planned as empty, and its removal without any force takes the message away. */
  lemma UncountedMailIsTaken(folder: string, name: string, content: Content, idOf: Path -> MaildirId, io: Io)
    requires IsPlain(folder) && '/' !in folder && folder !in {"", ".", ".."} && !("." <= name)
    requires CleanRuns.Quiet(io)
    ensures var message := [folder, "new", name];
            var disk := Disk(map[message := content], {[], [folder], [folder, "new"]});
            var db := Db(map[], map[], {}, map[], true);
            && IsTree(disk) && message in Entries(disk.files, PathOf(folder))
            && NonEmptySafety(CountFolderFiles(disk, Sight({[folder, "new"]}, {}))(folder)) == Safe
            && Removable(folder, disk, db, None, idOf, io)
  {
    var disk := Disk(map[[folder, "new", name] := content], {[], [folder], [folder, "new"]});
    NewOnlyFolder(folder, name, content, disk);
    assert FilesShown(disk, Sight({[folder, "new"]}, {}), [folder] + ["new"]) == {};
    NewOnlyIsRemovable(folder, name, content, disk, idOf, io);
  }

  lemma NewOnlyIsRemovable(
    folder: string, name: string, content: Content, disk: Disk, idOf: Path -> MaildirId, io: Io)
    requires IsPlain(folder) && '/' !in folder && folder !in {"", ".", ".."} && !("." <= name)
    requires disk == Disk(map[[folder, "new", name] := content], {[], [folder], [folder, "new"]}) && CleanRuns.Quiet(io)
    ensures Removable(folder, disk, Db(map[], map[], {}, map[], true), None, idOf, io)
  {
    NewOnlyFolder(folder, name, content, disk);
    var t, ready := [folder], Ready(disk, [folder], io);
    assert RescuePath([folder, "new", name]) == [RESCUE_FOLDER_NAME, "cur", name];
    forall d | d in MaildirDirs(t) ensures d[0] == folder {
    }
  }

  /** And where listing `cur/` fails both when its mail is counted and when it is to be rescued, an
      unforced removal destroys mail that the DB does not know. */
  lemma UnlistedMailIsLost(folder: string, name: string, content: Content, idOf: Path -> MaildirId, io: Io)
    requires IsPlain(folder) && '/' !in folder && folder !in {"", ".", ".."} && !("." <= name)
    requires io == Io(false, Sight({[folder, "cur"]}, {}), {}, false, false, {}, false, {}, Completes, false)
    ensures var message := [folder, "cur", name];
            var disk := Disk(map[message := content], {[], [folder], [folder, "cur"]});
            var db := Db(map[], map[], {}, map[], true);
            && NonEmptySafety(CountFolderFiles(disk, io.sight)(folder)) == Safe
            && Removable(folder, disk, db, None, idOf, io)
            && forall after, created, moves, gone ::
                 Leaves(disk, db, folder, None, idOf, io, after, created, moves, gone) ==> after.files == map[]
  {
    var disk := Disk(map[[folder, "cur", name] := content], {[], [folder], [folder, "cur"]});
    UnseenMail.UnshownMailIsLost(folder, name, content, idOf, io);
    CountsNothing(folder, name, content, disk, io.sight);
  }

  lemma CountsNothing(folder: string, name: string, content: Content, disk: Disk, sight: Sight)
    requires '/' !in folder && folder !in {"", ".", ".."} && sight == Sight({[folder, "cur"]}, {})
    requires disk == Disk(map[[folder, "cur", name] := content], {[], [folder], [folder, "cur"]})
    ensures CountFolderFiles(disk, sight)(folder) == 0
  {
    var t := [folder];
    SplitAtom(folder, '/');
    OrdinaryIsLexical(t, []);
    assert t + ["cur"] == [folder, "cur"] && [] + t == t;
    assert [folder, "cur", name][..2] == [folder, "cur"];
    assert Listable(disk, sight, t) == {};
  }

  lemma NewOnlyFolder(folder: string, name: string, content: Content, disk: Disk)
    requires IsPlain(folder) && '/' !in folder && folder !in {"", ".", ".."} && !("." <= name)
    requires disk == Disk(map[[folder, "new", name] := content], {[], [folder], [folder, "new"]})
    ensures IsTree(disk) && PathOf(folder) == [folder] && Guarded(folder, disk) == Target([folder])
    ensures !SeesNested(disk.dirs, CLEAR, [folder]) && CanHeal(disk, [folder]) && [folder] !in disk.files
    ensures [folder] + ["new"] == [folder, "new"] && [folder] + ["cur"] !in disk.dirs
    ensures Entries(disk.files, [folder]) == {[folder, "new", name]} && RescueDirs() !! disk.files.Keys
    ensures [RESCUE_FOLDER_NAME, "cur", name] !in disk.dirs
  {
    var t, message := [folder], [folder, "new", name];
    assert Parent(message) == [folder, "new"] && Parent([folder, "new"]) == [folder];
    assert t + ["new"] == [folder, "new"] && t + ["cur"] == [folder, "cur"] && t + ["tmp"] == [folder, "tmp"];
    SplitAtom(folder, '/');
    OrdinaryGuard(folder, disk);
    forall d | d in disk.dirs ensures !Reaches(CLEAR, t, d) {
      assert t < d ==> d[1] == "new";
    }
  }

  // ---------- with both force flags, when no I/O fails ----------

  /** Every entry below the root is a name a directory can hold. */
  ghost predicate NamedProperly(dirs: set<Path>) {
    forall d, c :: d in dirs && c in d ==> '/' !in c && c !in {"", ".", ".."}
  }

  /** The drift report saw every maildir of the disk that `apply` starts from. */
  ghost predicate SawAll(start: Disk, drift: Drift.DiskView) {
    && drift.folders == FolderNames(start.dirs, CLEAR)
    && forall f :: drift.isMaildir(f) <==> IsMaildir(start.dirs, PathOf(f))
  }

  /** A folder to be left alone: a rename that has yet to be pushed, or one with rows of which the
      config leaves out none. */
  ghost predicate Kept(
    c: Drift.Classes, drift: Drift.DiskView, rows: seq<Drift.Row>, mailboxes: seq<string>, caseInsensitive: bool,
    folder: string)
  {
    || Drift.IsRenameTarget(c.renames, folder)
    || (&& (exists r :: r in rows && r.folder == folder)
        && forall r :: r in rows && r.folder == folder ==> !Drift.LeftOut(drift, rows, mailboxes, caseInsensitive, r))
  }

  ghost predicate SheltersKept(
    c: Drift.Classes, drift: Drift.DiskView, rows: seq<Drift.Row>, mailboxes: seq<string>, caseInsensitive: bool,
    start: Disk, t: Path)
  {
    exists d :: d in start.dirs && Reaches(CLEAR, t, d) && IsMaildir(start.dirs, d)
                && Kept(c, drift, rows, mailboxes, caseInsensitive, Join(d, '/'))
  }

  lemma PathOfJoin(dirs: set<Path>, d: Path)
    requires NamedProperly(dirs) && d in dirs && d != []
    ensures PathOf(Join(d, '/')) == d
  {
    SplitJoin(d, '/');
    CleanRuns.PathsAreSplits(Join(d, '/'));
  }

  /** The drift report accounts for an on-disk maildir: planned, or kept. */
  lemma PlannedUnlessKept(
    c: Drift.Classes, orphans: seq<string>, drift: Drift.DiskView, rows: seq<Drift.Row>, mailboxes: seq<string>,
    caseInsensitive: bool, f: string)
    requires Drift.Classifies(c, orphans, drift, rows, mailboxes, caseInsensitive)
    requires f in drift.folders && drift.isMaildir(f)
    ensures f in c.diskOnly + c.configDropped + c.dbOnly <==> !Kept(c, drift, rows, mailboxes, caseInsensitive, f)
  {
    DbOnlyIsAbsent(c, orphans, drift, rows, mailboxes, caseInsensitive);
    Drift.StraysMean(c, orphans, drift, rows, mailboxes, caseInsensitive);
    Drift.ConfigDroppedMeans(drift, rows, mailboxes, caseInsensitive);
    PickedHasRow(c.configDropped, rows, (r: Drift.Row) => Drift.LeftOut(drift, rows, mailboxes, caseInsensitive, r));
    TargetHasNoRow(c, orphans, drift, rows, mailboxes, caseInsensitive, f);
  }

  lemma TargetHasNoRow(
    c: Drift.Classes, orphans: seq<string>, drift: Drift.DiskView, rows: seq<Drift.Row>, mailboxes: seq<string>,
    caseInsensitive: bool, f: string)
    requires Drift.Classifies(c, orphans, drift, rows, mailboxes, caseInsensitive)
    ensures Drift.IsRenameTarget(c.renames, f) ==> forall r :: r in rows ==> r.folder != f
  {
    var pairs := Drift.Pairs(orphans, Drift.ById(Drift.Absent(rows, drift)), drift.sentinel);
    if rn :| rn in c.renames && rn.diskFolder == f {
      var k :| 0 <= k < |c.renames| && c.renames[k] == rn;
      Drift.PairIsOrphan(orphans, Drift.ById(Drift.Absent(rows, drift)), drift.sentinel, pairs[k]);
      assert f in ToSet(orphans);
      Drift.NamedByRow(rows, f);
    }
  }

  lemma EntryFolders(c: Drift.Classes, count: string -> nat, dbEntry: string -> Entry, f: string)
    requires forall g :: dbEntry(g).folder == g
    ensures f in c.diskOnly + c.configDropped + c.dbOnly
            <==> exists e :: e in EntriesOf(c, count, dbEntry) && e.folder == f
  {
    var entries := EntriesOf(c, count, dbEntry);
    var folders := c.diskOnly + c.configDropped + c.dbOnly;
    assert |entries| == |folders| && forall k :: 0 <= k < |folders| ==> entries[k].folder == folders[k];
    if f in folders {
      var k :| 0 <= k < |folders| && folders[k] == f;
      assert entries[k] in entries;
    }
  }

  /** With both force flags, an on-disk maildir has an entry unless it is kept. */
  lemma PlannedMeansNotKept(
    plan: Plan, c: Drift.Classes, orphans: seq<string>, drift: Drift.DiskView, rows: seq<Drift.Row>,
    mailboxes: seq<string>, caseInsensitive: bool, count: string -> nat, dbEntry: string -> Entry, start: Disk,
    opts: Options, d: Path)
    requires Drift.Classifies(c, orphans, drift, rows, mailboxes, caseInsensitive)
    requires SawAll(start, drift) && NamedProperly(start.dirs)
    requires plan.entries == EntriesOf(c, count, dbEntry) && forall f :: dbEntry(f).folder == f
    requires forall e :: e in plan.entries ==> Ordinary(e.folder) && Permitted(e.safety, opts)
    requires d in MaildirsBelow(start.dirs, CLEAR, [])
    ensures CleanRuns.Planned(StepsOf(Processing(plan.entries), opts), d)
            <==> !Kept(c, drift, rows, mailboxes, caseInsensitive, Join(d, '/'))
  {
    var f, ordered := Join(d, '/'), Processing(plan.entries);
    PathOfJoin(start.dirs, d);
    PlannedUnlessKept(c, orphans, drift, rows, mailboxes, caseInsensitive, f);
    EntryFolders(c, count, dbEntry, f);
    PlannedMeansEntry(ordered, opts, d);
    forall e ensures e in ordered <==> e in plan.entries {
      assert e in ordered <==> e in multiset(ordered);
      assert e in plan.entries <==> e in multiset(plan.entries);
    }
    forall e | e in plan.entries ensures PathOf(e.folder) == d <==> e.folder == f {
      CleanRuns.PathsAreSplits(e.folder);
      JoinSplit(e.folder, '/');
    }
  }

  lemma GoesUnlessKept(
    plan: Plan, c: Drift.Classes, orphans: seq<string>, drift: Drift.DiskView, rows: seq<Drift.Row>,
    mailboxes: seq<string>, caseInsensitive: bool, count: string -> nat, start: Disk, opts: Options, e: Entry)
    requires Drift.Classifies(c, orphans, drift, rows, mailboxes, caseInsensitive)
    requires SawAll(start, drift) && NamedProperly(start.dirs)
    requires PlansFor(plan, c, rows, count, mailboxes, caseInsensitive)
    requires CleanRuns.Suitable(StepsOf(Processing(plan.entries), opts), start) && e in Processing(plan.entries)
    requires forall x :: x in plan.entries ==> Ordinary(x.folder) && Permitted(x.safety, opts)
    requires Permitted(e.safety, opts)
    ensures Goes(Processing(plan.entries), start, opts, e)
            <==> !SheltersKept(c, drift, rows, mailboxes, caseInsensitive, start, PathOf(e.folder))
  {
    var ordered := Processing(plan.entries);
    forall d | d in start.dirs && Reaches(CLEAR, PathOf(e.folder), d) && IsMaildir(start.dirs, d)
      ensures CleanRuns.Planned(StepsOf(ordered, opts), d)
              <==> !Kept(c, drift, rows, mailboxes, caseInsensitive, Join(d, '/'))
    {
      ReachedFromRoot(ordered, start, opts, e, d);
      PlannedMeansNotKept(plan, c, orphans, drift, rows, mailboxes, caseInsensitive, count,
                          DbEntry(rows, Drift.Selected(rows, mailboxes, caseInsensitive)),
                          start, opts, d);
    }
  }

  /** A whole plan applied with both force flags, no I/O failing, leaves behind exactly the folders
      above a maildir that was to be kept. */
  lemma OnlyKeptFoldersHoldBack(
    plan: Plan, c: Drift.Classes, orphans: seq<string>, drift: Drift.DiskView, rows: seq<Drift.Row>,
    mailboxes: seq<string>, caseInsensitive: bool, count: string -> nat, start: Disk, db: Db, idOf: Path -> MaildirId,
    opts: Options, io: RunIo, r: Result<Outcome, Error>, trace: Trace)
    requires Drift.Classifies(c, orphans, drift, rows, mailboxes, caseInsensitive)
    requires SawAll(start, drift) && NamedProperly(start.dirs)
    requires PlansFor(plan, c, rows, count, mailboxes, caseInsensitive) && opts.forceNonEmpty && opts.forceInConfig
    requires UniqueFolders(db.mailboxes) && Smooth(Processing(plan.entries), start, opts, io)
    requires SettledByNesting(Processing(plan.entries), start, db, idOf, opts, io, r, trace)
    ensures var ordered := Processing(plan.entries);
            && trace.done.deferred
               == Map(Filter(ordered,
                             (e: Entry) => SheltersKept(c, drift, rows, mailboxes, caseInsensitive, start,
                                                        PathOf(e.folder))), FolderOf())
            && trace.done.removed
               == Map(Filter(ordered,
                             (e: Entry) => !SheltersKept(c, drift, rows, mailboxes, caseInsensitive, start,
                                                         PathOf(e.folder))), FolderOf())
            && (!io.clearFails ==> r == Ok(trace.done))
  {
    var ordered := Processing(plan.entries);
    SmoothRunEnds(ordered, start, db, idOf, opts, io, r, trace);
    UndisturbedIsOrdinary(plan.entries, start, opts, io);
    forall e | e in ordered
      ensures Goes(ordered, start, opts, e)
              <==> !SheltersKept(c, drift, rows, mailboxes, caseInsensitive, start, PathOf(e.folder))
    {
      GoesUnlessKept(plan, c, orphans, drift, rows, mailboxes, caseInsensitive, count, start, opts, e);
    }
    FilterAgrees(ordered, (e: Entry) => Goes(ordered, start, opts, e),
                 (e: Entry) => !SheltersKept(c, drift, rows, mailboxes, caseInsensitive, start, PathOf(e.folder)));
    FilterAgrees(ordered, (e: Entry) => Permitted(e.safety, opts) && !Goes(ordered, start, opts, e),
                 (e: Entry) => SheltersKept(c, drift, rows, mailboxes, caseInsensitive, start, PathOf(e.folder)));
  }

  lemma ReachedFromRoot(ordered: seq<Entry>, start: Disk, opts: Options, e: Entry, d: Path)
    requires CleanRuns.Suitable(StepsOf(ordered, opts), start) && e in ordered
    requires d in start.dirs && Reaches(CLEAR, PathOf(e.folder), d) && IsMaildir(start.dirs, d)
    ensures d in MaildirsBelow(start.dirs, CLEAR, [])
  {
    var k :| 0 <= k < |ordered| && ordered[k] == e;
    assert StepsOf(ordered, opts)[k] in StepsOf(ordered, opts);
    CleanRuns.PathsAreSplits(e.folder);
    var t := PathOf(e.folder);
    forall i | 0 <= i < |d| ensures IsPlain(d[i]) {
      if i < |t| {
        assert d[i] == t[i] && t[i] in t;
      }
    }
  }
}
