/** `src/janitor/prune.rs`: plan the clearing of maildir/DB drift, and the order it is done in. */
module PrunePlan {
  import opened Common
  import opened Text
  import Drift
  import Mailboxes
  import Removal

  datatype Class = DiskOnlyStray | DbOnlyOrphan | ConfigDropped

  datatype Safety = Safe | NeedsForceNonEmpty | NeedsForceInConfig

  datatype Entry = Entry(folder: string, class_: Class, fileCount: nat, removesDisk: bool, safety: Safety)

  datatype Plan = Plan(entries: seq<Entry>, skippedRenames: seq<Drift.Rename>)

  function FolderOf(): Entry -> string {
    (e: Entry) => e.folder
  }

  // ---------- planning ----------

  function NonEmptySafety(fileCount: nat): Safety {
    if fileCount == 0 then Safe else NeedsForceNonEmpty
  }

  function DiskEntry(class_: Class, count: string -> nat): string -> Entry {
    folder => Entry(folder, class_, count(folder), true, NonEmptySafety(count(folder)))
  }

  /** `path_by_folder.get(folder).flatten()`. */
  function CachedPath(rows: seq<Drift.Row>, folder: string): Option<string> {
    if rows == [] then None
    else if rows[|rows| - 1].folder == folder then rows[|rows| - 1].remotePath
    else CachedPath(rows[..|rows| - 1], folder)
  }

  function DbEntry(rows: seq<Drift.Row>, selected: set<string>): string -> Entry {
    folder =>
      var path := CachedPath(rows, folder);
      Entry(folder, DbOnlyOrphan, 0, false,
            if path.Some? && path.value !in selected then Safe else NeedsForceInConfig)
  }

  /** The entries for each class, in the plan's order. */
  function EntriesOf(c: Drift.Classes, count: string -> nat, dbEntry: string -> Entry): seq<Entry> {
    Map(c.diskOnly, DiskEntry(DiskOnlyStray, count))
    + Map(c.configDropped, DiskEntry(ConfigDropped, count))
    + Map(c.dbOnly, dbEntry)
  }

  /** Pushing one entry per folder. */
  method PushEntries(entries: seq<Entry>, folders: seq<string>, entry: string -> Entry) returns (r: seq<Entry>)
    ensures r == entries + Map(folders, entry)
  {
    r := entries;
    for i := 0 to |folders|
      invariant r == entries + Map(folders, entry)[..i]
    {
      r := r + [entry(folders[i])];
    }
  }

  method BuildEntries(c: Drift.Classes, count: string -> nat, dbEntry: string -> Entry) returns (entries: seq<Entry>)
    ensures entries == EntriesOf(c, count, dbEntry)
  {
    entries := PushEntries([], c.diskOnly, DiskEntry(DiskOnlyStray, count));
    entries := PushEntries(entries, c.configDropped, DiskEntry(ConfigDropped, count));
    if c.dbOnly != [] {
      entries := PushEntries(entries, c.dbOnly, dbEntry);
    }
  }

  /** The plan for a drift report. */
  ghost predicate PlansFor(
    plan: Plan, c: Drift.Classes, rows: seq<Drift.Row>, count: string -> nat, mailboxes: seq<string>,
    caseInsensitive: bool)
  {
    plan == Plan(EntriesOf(c, count, DbEntry(rows, Drift.Selected(rows, mailboxes, caseInsensitive))), c.renames)
  }

  // ---------- what a plan means ----------

  /** An entry for a folder on disk, which needs a force flag exactly if mail was counted. */
  ghost predicate IsDiskEntry(e: Entry, class_: Class, folder: string, count: string -> nat) {
    && e.folder == folder && e.class_ == class_ && e.fileCount == count(folder) && e.removesDisk
    && e.safety in {Safe, NeedsForceNonEmpty} && (e.safety == Safe <==> count(folder) == 0)
  }

  /** The last row of this folder has a cached path, which the config, naming some mailboxes, leaves out. */
  ghost predicate OutOfConfig(rows: seq<Drift.Row>, mailboxes: seq<string>, caseInsensitive: bool, folder: string) {
    exists k :: 0 <= k < |rows| && rows[k].folder == folder && (forall j :: k < j < |rows| ==> rows[j].folder != folder)
                && rows[k].remotePath.Some? && mailboxes != []
                && !Drift.StillSynced(rows, mailboxes, caseInsensitive, rows[k].remotePath.value)
  }

  /** An entry for rows whose maildir is gone, which needs a force flag unless the config leaves them out. */
  ghost predicate IsDbEntry(
    e: Entry, folder: string, rows: seq<Drift.Row>, mailboxes: seq<string>, caseInsensitive: bool)
  {
    && e.folder == folder && e.class_ == DbOnlyOrphan && e.fileCount == 0 && !e.removesDisk
    && e.safety in {Safe, NeedsForceInConfig}
    && (e.safety == Safe <==> OutOfConfig(rows, mailboxes, caseInsensitive, folder))
  }

  /** Strays, then folders left out of the config, then orphaned rows, each class in its order, and
      the renames. */
  ghost predicate PlanMeans(
    plan: Plan, c: Drift.Classes, rows: seq<Drift.Row>, count: string -> nat, mailboxes: seq<string>,
    caseInsensitive: bool)
  {
    var a, b := |c.diskOnly|, |c.diskOnly| + |c.configDropped|;
    && plan.skippedRenames == c.renames && |plan.entries| == b + |c.dbOnly|
    && AreDiskEntries(plan.entries[..a], DiskOnlyStray, c.diskOnly, count)
    && AreDiskEntries(plan.entries[a..b], ConfigDropped, c.configDropped, count)
    && AreDbEntries(plan.entries[b..], c.dbOnly, rows, mailboxes, caseInsensitive)
  }

  ghost predicate AreDiskEntries(entries: seq<Entry>, class_: Class, folders: seq<string>, count: string -> nat) {
    |entries| == |folders| && forall i :: 0 <= i < |entries| ==> IsDiskEntry(entries[i], class_, folders[i], count)
  }

  ghost predicate AreDbEntries(
    entries: seq<Entry>, folders: seq<string>, rows: seq<Drift.Row>, mailboxes: seq<string>, caseInsensitive: bool)
  {
    |entries| == |folders|
    && forall i :: 0 <= i < |entries| ==> IsDbEntry(entries[i], folders[i], rows, mailboxes, caseInsensitive)
  }

  lemma {:induction false} CachedPathIsLast(rows: seq<Drift.Row>, folder: string, k: nat)
    requires k < |rows| && rows[k].folder == folder && forall j :: k < j < |rows| ==> rows[j].folder != folder
    ensures CachedPath(rows, folder) == rows[k].remotePath
  {
    if k < |rows| - 1 {
      CachedPathIsLast(rows[..|rows| - 1], folder, k);
    }
  }

  lemma {:induction false} LastRowOf(rows: seq<Drift.Row>, folder: string) returns (k: nat)
    requires exists r :: r in rows && r.folder == folder
    ensures k < |rows| && rows[k].folder == folder && forall j :: k < j < |rows| ==> rows[j].folder != folder
  {
    k := |rows| - 1;
    if rows[k].folder != folder {
      var init := rows[..k];
      var r :| r in rows && r.folder == folder;
      assert rows == init + [rows[k]] && r in init;
      k := LastRowOf(init, folder);
    }
  }

  lemma DbEntryMeans(rows: seq<Drift.Row>, mailboxes: seq<string>, caseInsensitive: bool, folder: string)
    requires exists r :: r in rows && r.folder == folder
    ensures IsDbEntry(DbEntry(rows, Drift.Selected(rows, mailboxes, caseInsensitive))(folder), folder, rows, mailboxes,
                      caseInsensitive)
  {
    var k := LastRowOf(rows, folder);
    CachedPathIsLast(rows, folder, k);
    OutOfConfigIff(rows, mailboxes, caseInsensitive, folder, k);
    if rows[k].remotePath.Some? {
      SelectedIff(rows, mailboxes, caseInsensitive, rows[k]);
    }
  }

  lemma SelectedIff(rows: seq<Drift.Row>, mailboxes: seq<string>, caseInsensitive: bool, r: Drift.Row)
    requires r in rows && r.remotePath.Some?
    ensures r.remotePath.value in Drift.Selected(rows, mailboxes, caseInsensitive)
            <==> mailboxes == [] || Drift.StillSynced(rows, mailboxes, caseInsensitive, r.remotePath.value)
  {
    if mailboxes == [] {
      Drift.EverythingIsSelected(rows, caseInsensitive, r);
    } else {
      Drift.SelectedIsStillSynced(rows, mailboxes, caseInsensitive, r);
    }
  }

  lemma OutOfConfigIff(
    rows: seq<Drift.Row>, mailboxes: seq<string>, caseInsensitive: bool, folder: string, k: nat)
    requires k < |rows| && rows[k].folder == folder && forall j :: k < j < |rows| ==> rows[j].folder != folder
    ensures OutOfConfig(rows, mailboxes, caseInsensitive, folder)
            <==> rows[k].remotePath.Some? && mailboxes != []
                 && !Drift.StillSynced(rows, mailboxes, caseInsensitive, rows[k].remotePath.value)
  {
    forall i: nat | i < |rows| && rows[i].folder == folder && forall j :: i < j < |rows| ==> rows[j].folder != folder
      ensures i == k
    {
    }
  }

  lemma PlansForMeans(
    plan: Plan, c: Drift.Classes, rows: seq<Drift.Row>, count: string -> nat, mailboxes: seq<string>,
    caseInsensitive: bool)
    requires PlansFor(plan, c, rows, count, mailboxes, caseInsensitive)
    requires forall f :: f in c.dbOnly ==> exists r :: r in rows && r.folder == f
    ensures PlanMeans(plan, c, rows, count, mailboxes, caseInsensitive)
  {
    var dbEntry := DbEntry(rows, Drift.Selected(rows, mailboxes, caseInsensitive));
    var strays, dropped, orphaned := Map(c.diskOnly, DiskEntry(DiskOnlyStray, count)),
                                     Map(c.configDropped, DiskEntry(ConfigDropped, count)), Map(c.dbOnly, dbEntry);
    ThreeParts(strays, dropped, orphaned);
    DbEntriesMean(c.dbOnly, rows, mailboxes, caseInsensitive);
  }

  lemma ThreeParts(a: seq<Entry>, b: seq<Entry>, c: seq<Entry>)
    ensures var all := a + b + c;
            all[..|a|] == a && all[|a|..|a| + |b|] == b && all[|a| + |b|..] == c
  {
  }

  lemma DbEntriesMean(folders: seq<string>, rows: seq<Drift.Row>, mailboxes: seq<string>, caseInsensitive: bool)
    requires forall f :: f in folders ==> exists r :: r in rows && r.folder == f
    ensures AreDbEntries(Map(folders, DbEntry(rows, Drift.Selected(rows, mailboxes, caseInsensitive))), folders, rows,
                         mailboxes, caseInsensitive)
  {
    forall i | 0 <= i < |folders|
      ensures IsDbEntry(DbEntry(rows, Drift.Selected(rows, mailboxes, caseInsensitive))(folders[i]), folders[i], rows,
                        mailboxes, caseInsensitive)
    {
      assert folders[i] in folders;
      DbEntryMeans(rows, mailboxes, caseInsensitive, folders[i]);
    }
  }

  /** Where an entry of a plan comes from. */
  lemma EntryOrigin(
    plan: Plan, c: Drift.Classes, rows: seq<Drift.Row>, count: string -> nat, mailboxes: seq<string>,
    caseInsensitive: bool, e: Entry)
    requires PlanMeans(plan, c, rows, count, mailboxes, caseInsensitive) && e in plan.entries
    ensures || (e.folder in c.diskOnly && IsDiskEntry(e, DiskOnlyStray, e.folder, count))
            || (e.folder in c.configDropped && IsDiskEntry(e, ConfigDropped, e.folder, count))
            || (e.folder in c.dbOnly && IsDbEntry(e, e.folder, rows, mailboxes, caseInsensitive))
  {
    var a, b := |c.diskOnly|, |c.diskOnly| + |c.configDropped|;
    var k :| 0 <= k < |plan.entries| && plan.entries[k] == e;
    if k < a {
      assert plan.entries[..a][k] == e && c.diskOnly[k] in c.diskOnly;
    } else if k < b {
      assert plan.entries[a..b][k - a] == e && c.configDropped[k - a] in c.configDropped;
    } else {
      assert plan.entries[b..][k - b] == e && c.dbOnly[k - b] in c.dbOnly;
    }
  }

  lemma DbOnlyHasRows(
    c: Drift.Classes, disk: Drift.DiskView, rows: seq<Drift.Row>, mailboxes: seq<string>, caseInsensitive: bool)
    requires Drift.Means(c, disk, rows, mailboxes, caseInsensitive)
    ensures forall f :: f in c.dbOnly ==> exists r :: r in rows && r.folder == f
  {
    var p := (r: Drift.Row) => !disk.isMaildir(r.folder) && !Drift.IsRenameSource(c.renames, disk, r);
    PickedHasRow(c.dbOnly, rows, p);
  }

  lemma PickedHasRow(folders: seq<string>, rows: seq<Drift.Row>, p: Drift.Row -> bool)
    requires Drift.FoldersWhere(folders, rows, p)
    ensures forall f :: f in folders <==> exists r :: r in rows && p(r) && r.folder == f
  {
    var picked: seq<Drift.Row> :| IsPickOf(picked, rows, p) && |picked| == |folders|
                                  && forall i :: 0 <= i < |folders| ==> folders[i] == picked[i].folder;
    var at :| Picks(picked, rows, p, at);
    forall f | f in folders ensures exists r :: r in rows && p(r) && r.folder == f {
      var i :| 0 <= i < |folders| && folders[i] == f;
      assert at[i] in at && rows[at[i]] in rows && p(rows[at[i]]);
    }
    forall r | r in rows && p(r) ensures r.folder in folders {
      var k: nat :| k < |rows| && rows[k] == r;
      assert p(rows[k]);
      assert k in at;
      var i :| 0 <= i < |at| && at[i] == k;
      assert folders[i] == r.folder;
    }
  }

  /** A folder that the config still syncs has no entry as one it leaves out. */
  lemma SyncedIsNotDropped(
    plan: Plan, c: Drift.Classes, disk: Drift.DiskView, rows: seq<Drift.Row>, count: string -> nat,
    mailboxes: seq<string>, caseInsensitive: bool, e: Entry)
    requires Drift.Means(c, disk, rows, mailboxes, caseInsensitive)
    requires PlanMeans(plan, c, rows, count, mailboxes, caseInsensitive)
    requires e in plan.entries && e.class_ == ConfigDropped
    ensures mailboxes != [] && exists r :: r in rows && r.folder == e.folder && r.remotePath.Some?
                                && !Drift.StillSynced(rows, mailboxes, caseInsensitive, r.remotePath.value)
  {
    EntryOrigin(plan, c, rows, count, mailboxes, caseInsensitive, e);
    PickedHasRow(c.configDropped, rows, (r: Drift.Row) => Drift.LeftOut(disk, rows, mailboxes, caseInsensitive, r));
  }

  /** `plan`; `count` is `CountFolderFiles` on the disk it looks at. Without a root or without rows
      there is nothing to plan. */
  method MakePlan(
    disk: Drift.DiskView, rows: seq<Drift.Row>, count: string -> nat, mailboxes: seq<string>, caseInsensitive: bool)
    returns (plan: Plan, ghost c: Drift.Classes, ghost orphans: seq<string>)
    requires Distinct(Map(rows, Drift.IdOf()))
    ensures !disk.rootExists || rows == [] ==> plan == Plan([], [])
    ensures disk.rootExists && rows != [] ==>
              && Drift.Classifies(c, orphans, disk, rows, mailboxes, caseInsensitive)
              && PlansFor(plan, c, rows, count, mailboxes, caseInsensitive)
    ensures disk.rootExists && rows != [] ==>
              && Drift.Means(c, disk, rows, mailboxes, caseInsensitive)
              && PlanMeans(plan, c, rows, count, mailboxes, caseInsensitive)
  {
    c := Drift.Classes([], [], [], []);
    var report;
    report, orphans := Drift.ComputeDrift(disk, rows, mailboxes, caseInsensitive);
    match report
    case MaildirRootMissing => plan := Plan([], []);
    case NoMailboxMap => plan := Plan([], []);
    case Found(classes) =>
      c := classes;
      var entries := BuildEntries(classes, count, DbEntry(rows, Drift.Selected(rows, mailboxes, caseInsensitive)));
      plan := Plan(entries, classes.renames);
      DbOnlyHasRows(c, disk, rows, mailboxes, caseInsensitive);
      PlansForMeans(plan, c, rows, count, mailboxes, caseInsensitive);
  }

  // ---------- counting a folder's mail ----------

  /** `count_folder_files`: the messages in `cur/` and `new/`, or, where no `cur/` shows, every file
      that shows in `new/`; what cannot be listed is not counted. */
  function CountFolderFiles(disk: Removal.Disk, sight: Removal.Sight): string -> nat {
    folder =>
      var t := Removal.PathOf(folder);
      if ShowsCur(disk, sight, t) then |Listable(disk, sight, t)| else |FilesShown(disk, sight, t + ["new"])|
  }

  predicate ShowsCur(disk: Removal.Disk, sight: Removal.Sight, t: Removal.Path) {
    t + ["cur"] in disk.dirs && t + ["cur"] !in sight.unseen
  }

  function Listable(disk: Removal.Disk, sight: Removal.Sight, t: Removal.Path): set<Removal.Path> {
    set p | p in Removal.Entries(disk.files, t) && Removal.Parent(p) !in sight.unlisted
  }

  /** `count_dir_files`, as a set. */
  function FilesShown(disk: Removal.Disk, sight: Removal.Sight, dir: Removal.Path): set<Removal.Path> {
    if dir in sight.unlisted then {}
    else set p | p in disk.files && p != [] && Removal.Parent(p) == dir && p !in sight.unseen
  }

  /** A message that the count of its folder comes across. */
  ghost predicate Counted(disk: Removal.Disk, sight: Removal.Sight, p: Removal.Path) {
    && |p| >= 2 && Removal.Parent(p) !in sight.unlisted
    && (ShowsCur(disk, sight, p[..|p| - 2]) || (p[|p| - 2] == "new" && p !in sight.unseen))
  }

  ghost predicate NoneCounted(disk: Removal.Disk, sight: Removal.Sight, t: Removal.Path) {
    forall p :: p in Removal.Entries(disk.files, t) ==> !Counted(disk, sight, p)
  }

  /** A folder counts as empty only if the count comes across none of its messages; and, dotfiles in
      `new/` aside, exactly then. */
  lemma CountedZeroIff(disk: Removal.Disk, sight: Removal.Sight, folder: string)
    ensures var t, count := Removal.PathOf(folder), CountFolderFiles(disk, sight)(folder);
            && (count == 0 ==> NoneCounted(disk, sight, t))
            && (FilesShown(disk, sight, t + ["new"]) <= Removal.Entries(disk.files, t) ==>
                  (count == 0 <==> NoneCounted(disk, sight, t)))
  {
    var t := Removal.PathOf(folder);
    var shown := FilesShown(disk, sight, t + ["new"]);
    forall p | p in Removal.Entries(disk.files, t)
      ensures Counted(disk, sight, p)
              <==> if ShowsCur(disk, sight, t) then p in Listable(disk, sight, t) else p in shown
    {
      assert Removal.Parent(p) == t + [p[|t|]] && p[..|p| - 2] == t;
    }
    if ShowsCur(disk, sight, t) {
      SomeOrNone(Listable(disk, sight, t));
    } else {
      SomeOrNone(shown);
    }
  }

  /** `p` is the message `name` in `t/cur` or `t/new`, and that directory can be listed. */
  ghost predicate IsListedMail(disk: Removal.Disk, sight: Removal.Sight, t: Removal.Path, p: Removal.Path) {
    exists sub, name :: p == t + [sub, name] && p in disk.files && sub in {"cur", "new"}
                        && (name == "" || name[0] != '.') && t + [sub] !in sight.unlisted
  }

  /** `p` is the file `name` in `t/new`, which can be listed and shows it. */
  ghost predicate IsShownNew(disk: Removal.Disk, sight: Removal.Sight, t: Removal.Path, p: Removal.Path) {
    exists name :: p == t + ["new", name] && p in disk.files && t + ["new"] !in sight.unlisted && p !in sight.unseen
  }

  /** How many are counted: the listed messages or, where no `cur/` shows, the files that show in `new/`. */
  lemma CountMeans(disk: Removal.Disk, sight: Removal.Sight, folder: string)
    ensures var t, count := Removal.PathOf(folder), CountFolderFiles(disk, sight)(folder);
            count == if t + ["cur"] in disk.dirs && t + ["cur"] !in sight.unseen
                     then |set p | p in disk.files && IsListedMail(disk, sight, t, p)|
                     else |set p | p in disk.files && IsShownNew(disk, sight, t, p)|
  {
    var t := Removal.PathOf(folder);
    forall p | p in disk.files
      ensures p in Listable(disk, sight, t) <==> IsListedMail(disk, sight, t, p)
      ensures p in FilesShown(disk, sight, t + ["new"]) <==> IsShownNew(disk, sight, t, p)
    {
      ListableMeans(disk, sight, t, p);
      FilesShownMeans(disk, sight, t, p);
    }
    assert Listable(disk, sight, t) == set p | p in disk.files && IsListedMail(disk, sight, t, p);
    assert FilesShown(disk, sight, t + ["new"]) == set p | p in disk.files && IsShownNew(disk, sight, t, p);
  }

  lemma ListableMeans(disk: Removal.Disk, sight: Removal.Sight, t: Removal.Path, p: Removal.Path)
    ensures p in Listable(disk, sight, t) <==> IsListedMail(disk, sight, t, p)
  {
    if p in Listable(disk, sight, t) {
      var sub, name := p[|t|], p[|t| + 1];
      assert p == t + [sub, name] && Removal.Parent(p) == t + [sub];
    }
    if sub, name :| p == t + [sub, name] && p in disk.files && sub in {"cur", "new"}
                    && (name == "" || name[0] != '.') && t + [sub] !in sight.unlisted {
      assert p[|t|] == sub && p[|t| + 1] == name && Removal.Parent(p) == t + [sub];
    }
  }

  lemma FilesShownMeans(disk: Removal.Disk, sight: Removal.Sight, t: Removal.Path, p: Removal.Path)
    ensures p in FilesShown(disk, sight, t + ["new"]) <==> IsShownNew(disk, sight, t, p)
  {
    if p in FilesShown(disk, sight, t + ["new"]) {
      assert p == t + ["new", p[|p| - 1]];
    }
    if name :| p == t + ["new", name] && p in disk.files && t + ["new"] !in sight.unlisted && p !in sight.unseen {
      assert Removal.Parent(p) == t + ["new"];
    }
  }

  lemma SomeOrNone<T>(s: set<T>)
    ensures |s| == 0 <==> forall x :: x !in s
  {
    if |s| == 0 {
      assert s == {};
    } else {
      var x :| x in s;
    }
  }

  /** A plan made from a drift report names no folder twice, and no rename of either side. */
  lemma PlanNamesFoldersOnce(
    plan: Plan, c: Drift.Classes, orphans: seq<string>, disk: Drift.DiskView, rows: seq<Drift.Row>,
    count: string -> nat, mailboxes: seq<string>, caseInsensitive: bool)
    requires Drift.Classifies(c, orphans, disk, rows, mailboxes, caseInsensitive)
    requires Distinct(Map(rows, Drift.FolderOf()))
    requires PlansFor(plan, c, rows, count, mailboxes, caseInsensitive)
    ensures Distinct(Map(plan.entries, FolderOf()))
  {
    FolderLists(c, orphans, disk, rows, mailboxes, caseInsensitive);
    DistinctConcat(c.diskOnly, c.configDropped);
    DistinctConcat(c.diskOnly + c.configDropped, c.dbOnly);
    var strays, dropped := Map(c.diskOnly, DiskEntry(DiskOnlyStray, count)),
        Map(c.configDropped, DiskEntry(ConfigDropped, count));
    var orphaned := Map(c.dbOnly, DbEntry(rows, Drift.Selected(rows, mailboxes, caseInsensitive)));
    MapConcat(strays + dropped, orphaned, FolderOf());
    MapConcat(strays, dropped, FolderOf());
    FoldersBack(c.diskOnly, DiskEntry(DiskOnlyStray, count));
    FoldersBack(c.configDropped, DiskEntry(ConfigDropped, count));
    FoldersBack(c.dbOnly, DbEntry(rows, Drift.Selected(rows, mailboxes, caseInsensitive)));
  }

  lemma FoldersBack(folders: seq<string>, entry: string -> Entry)
    requires forall f :: entry(f).folder == f
    ensures Map(Map(folders, entry), FolderOf()) == folders
  {
  }

  lemma FolderLists(
    c: Drift.Classes, orphans: seq<string>, disk: Drift.DiskView, rows: seq<Drift.Row>, mailboxes: seq<string>,
    caseInsensitive: bool)
    requires Drift.Classifies(c, orphans, disk, rows, mailboxes, caseInsensitive)
    requires Distinct(Map(rows, Drift.FolderOf()))
    ensures Distinct(c.diskOnly) && Distinct(c.configDropped) && Distinct(c.dbOnly)
    ensures forall f :: f in c.diskOnly ==> f !in Map(rows, Drift.FolderOf())
    ensures forall f :: f in c.configDropped ==> f in Map(rows, Drift.FolderOf()) && disk.isMaildir(f)
    ensures forall f :: f in c.dbOnly ==> f in Map(rows, Drift.FolderOf()) && !disk.isMaildir(f)
  {
    var folder := Drift.FolderOf();
    var pairs := Drift.Pairs(orphans, Drift.ById(Drift.Absent(rows, disk)), disk.sentinel);
    FilterDistinct(orphans, (f: string) => f !in Map(pairs, Drift.Disks()));
    forall f | f in c.diskOnly ensures f !in Map(rows, folder) {
      assert f in ToSet(orphans);
    }
    var absent, unpaired := (r: Drift.Row) => !disk.isMaildir(r.folder),
        (r: Drift.Row) => r !in Map(pairs, Drift.Rows());
    FilterMapDistinct(rows, absent, folder);
    FilterMapDistinct(Filter(rows, absent), unpaired, folder);
    FoldersOfRows(rows, Filter(Filter(rows, absent), unpaired));
    if mailboxes != [] {
      var selected := Drift.Selected(rows, mailboxes, caseInsensitive);
      var present := (r: Drift.Row) => disk.isMaildir(r.folder);
      var dropped := (r: Drift.Row) => r.remotePath.Some? && r.remotePath.value !in selected;
      FilterMapDistinct(rows, present, folder);
      FilterMapDistinct(Filter(rows, present), dropped, folder);
      FoldersOfRows(rows, Filter(Filter(rows, present), dropped));
    }
  }

  lemma FoldersOfRows(rows: seq<Drift.Row>, some: seq<Drift.Row>)
    requires forall r :: r in some ==> r in rows
    ensures forall f :: f in Map(some, Drift.FolderOf()) ==>
              f in Map(rows, Drift.FolderOf()) && exists r :: r in some && r.folder == f
  {
    forall f | f in Map(some, Drift.FolderOf())
      ensures f in Map(rows, Drift.FolderOf()) && exists r :: r in some && r.folder == f
    {
      var k :| 0 <= k < |some| && some[k].folder == f;
      assert some[k] in some && some[k] in rows;
      var i :| 0 <= i < |rows| && rows[i] == some[k];
      assert Map(rows, Drift.FolderOf())[i] == f;
    }
  }

  datatype NoSuchFolder = NoSuchFolder(folder: string)

  predicate InScope(e: Entry, mailbox: Option<string>) {
    mailbox.Some? ==> e.folder == mailbox.value
  }

  predicate InClass(e: Entry, onlyDisk: Option<bool>) {
    onlyDisk.Some? ==> e.removesDisk == onlyDisk.value
  }

  predicate RenameInScope(rn: Drift.Rename, mailbox: Option<string>) {
    mailbox.Some? ==> rn.dbFolder == mailbox.value || rn.diskFolder == mailbox.value
  }

  /** `narrow`. */
  function Narrow(plan: Plan, mailbox: Option<string>, onlyDisk: Option<bool>): Result<Plan, NoSuchFolder> {
    var scoped := Filter(plan.entries, (e: Entry) => InScope(e, mailbox));
    var renames := Filter(plan.skippedRenames, (rn: Drift.Rename) => RenameInScope(rn, mailbox));
    if mailbox.Some? && scoped == [] && renames == [] then Err(NoSuchFolder(mailbox.value))
    else Ok(Plan(Filter(scoped, (e: Entry) => InClass(e, onlyDisk)), renames))
  }

  /** A folder named by nothing in the plan is an error, even if the class filter would leave
      nothing anyway; otherwise exactly the entries of that folder and class remain, and the renames
      from or to it, in their order. */
  lemma NarrowMeans(plan: Plan, mailbox: Option<string>, onlyDisk: Option<bool>)
    ensures Narrow(plan, mailbox, onlyDisk).Err?
            <==> && mailbox.Some?
                 && (forall e :: e in plan.entries ==> e.folder != mailbox.value)
                 && forall rn :: rn in plan.skippedRenames ==>
                      rn.dbFolder != mailbox.value && rn.diskFolder != mailbox.value
    ensures Narrow(plan, mailbox, onlyDisk).Err? ==>
              mailbox == Some(Narrow(plan, mailbox, onlyDisk).error.folder)
    ensures Narrow(plan, mailbox, onlyDisk).Ok? ==>
              var narrowed := Narrow(plan, mailbox, onlyDisk).value;
              && IsPickOf(narrowed.entries, plan.entries,
                          (e: Entry) => mailbox in {None, Some(e.folder)} && onlyDisk in {None, Some(e.removesDisk)})
              && IsPickOf(narrowed.skippedRenames, plan.skippedRenames,
                          (rn: Drift.Rename) => mailbox in {None, Some(rn.dbFolder), Some(rn.diskFolder)})
  {
    FilterIsEmpty(plan.entries, (e: Entry) => InScope(e, mailbox));
    FilterIsEmpty(plan.skippedRenames, (rn: Drift.Rename) => RenameInScope(rn, mailbox));
    NarrowedEntries(plan.entries, mailbox, onlyDisk);
    NarrowedRenames(plan.skippedRenames, mailbox);
  }

  lemma NarrowedEntries(entries: seq<Entry>, mailbox: Option<string>, onlyDisk: Option<bool>)
    ensures IsPickOf(Filter(Filter(entries, (e: Entry) => InScope(e, mailbox)), (e: Entry) => InClass(e, onlyDisk)),
                     entries,
                     (e: Entry) => mailbox in {None, Some(e.folder)} && onlyDisk in {None, Some(e.removesDisk)})
  {
    var kept := (e: Entry) => mailbox in {None, Some(e.folder)} && onlyDisk in {None, Some(e.removesDisk)};
    FilterBoth(entries, (e: Entry) => InScope(e, mailbox), (e: Entry) => InClass(e, onlyDisk), kept);
    FilterPicks(entries, kept);
  }

  lemma NarrowedRenames(renames: seq<Drift.Rename>, mailbox: Option<string>)
    ensures IsPickOf(Filter(renames, (rn: Drift.Rename) => RenameInScope(rn, mailbox)), renames,
                     (rn: Drift.Rename) => mailbox in {None, Some(rn.dbFolder), Some(rn.diskFolder)})
  {
    var kept := (rn: Drift.Rename) => mailbox in {None, Some(rn.dbFolder), Some(rn.diskFolder)};
    FilterAgrees(renames, (rn: Drift.Rename) => RenameInScope(rn, mailbox), kept);
    FilterPicks(renames, kept);
  }

  // ---------- applying ----------

  datatype Options = Options(forceNonEmpty: bool, forceInConfig: bool)

  predicate Permitted(safety: Safety, opts: Options) {
    match safety
    case Safe => true
    case NeedsForceNonEmpty => opts.forceNonEmpty
    case NeedsForceInConfig => opts.forceInConfig
  }

  /** Entries in processing order: reverse string order of the folder. */
  function Processing(entries: seq<Entry>): seq<Entry> {
    Sort(entries, FolderOf(), true)
  }

  /** The same entries, in reverse string order, those of one folder as they were. */
  lemma ProcessingMeans(entries: seq<Entry>, folder: string)
    ensures multiset(Processing(entries)) == multiset(entries)
    ensures forall i, j :: 0 <= i < j < |entries| ==>
              LexLeq(Processing(entries)[j].folder, Processing(entries)[i].folder)
    ensures Filter(Processing(entries), (e: Entry) => e.folder == folder)
            == Filter(entries, (e: Entry) => e.folder == folder)
  {
    SortOrdered(entries, FolderOf(), true);
    var r := Processing(entries);
    forall i, j | 0 <= i < j < |r| ensures LexLeq(r[j].folder, r[i].folder) {
      assert InOrder(FolderOf()(r[i]), FolderOf()(r[j]), true);
    }
    SortStable(entries, FolderOf(), true, folder, (e: Entry) => e.folder == folder);
  }

  /** Reverse string order takes every folder below another before it. */
  lemma DeepestFirst(entries: seq<Entry>, i: nat, j: nat)
    requires i < j < |Processing(entries)|
    ensures !Mailboxes.IsPathUnder(Processing(entries)[j].folder, Processing(entries)[i].folder)
  {
    SortOrdered(entries, FolderOf(), true);
    var above, below := Processing(entries)[i].folder, Processing(entries)[j].folder;
    assert InOrder(FolderOf()(Processing(entries)[i]), FolderOf()(Processing(entries)[j]), true);
    if Mailboxes.IsPathUnder(below, above) {
      LexPrefix(above, below);
      LexAntisymmetric(above, below);
      assert false;
    }
  }
}
