/** `src/maildir_ops/drift.rs`: classify what `mailbox_map` and the maildir tree disagree about. */
module Drift {
  import opened Common
  import opened Text
  import Mailboxes

  type Id = string

  datatype Row = Row(id: Id, folder: string, remotePath: Option<string>, role: Option<string>)

  /** What the disk shows: the folders the walk finds, which folders hold a `cur/` or `new/`, and
      the mailbox id in a folder's sentinel, if it can be read. */
  datatype DiskView = DiskView(rootExists: bool, folders: set<string>, isMaildir: string -> bool,
                               sentinel: string -> Option<Id>)

  datatype Rename = Rename(dbFolder: string, diskFolder: string)

  datatype Classes = Classes(diskOnly: seq<string>, dbOnly: seq<string>, configDropped: seq<string>,
                             renames: seq<Rename>)

  datatype Report = MaildirRootMissing | NoMailboxMap | Found(classes: Classes)

  function FolderOf(): Row -> string {
    (r: Row) => r.folder
  }

  function IdOf(): Row -> Id {
    (r: Row) => r.id
  }

  function Absent(rows: seq<Row>, disk: DiskView): seq<Row> {
    Filter(rows, (r: Row) => !disk.isMaildir(r.folder))
  }

  function ById(rows: seq<Row>): (m: map<Id, Row>)
    ensures m.Keys == set r | r in rows :: r.id
    ensures forall id :: id in m ==> m[id] in rows && m[id].id == id
  {
    if rows == [] then map[]
    else
      var n := |rows| - 1;
      assert rows == rows[..n] + [rows[n]];
      ById(rows[..n])[rows[n].id := rows[n]]
  }

  // ---------- pairing disk orphans with row orphans ----------

  datatype Pair = Pair(diskFolder: string, row: Row)

  function Disks(): Pair -> string {
    (p: Pair) => p.diskFolder
  }

  function Rows(): Pair -> Row {
    (p: Pair) => p.row
  }

  function RenameOf(): Pair -> Rename {
    (p: Pair) => Rename(p.row.folder, p.diskFolder)
  }

  /** The pairs made by taking the disk orphans in order, each row at most once. */
  ghost function Pairs(orphans: seq<string>, byId: map<Id, Row>, sentinel: string -> Option<Id>): seq<Pair> {
    if orphans == [] then []
    else
      var n := |orphans| - 1;
      var before, mapping := Pairs(orphans[..n], byId, sentinel), sentinel(orphans[n]);
      if mapping.Some? && mapping.value in byId && forall p :: p in before ==> p.row != byId[mapping.value]
      then before + [Pair(orphans[n], byId[mapping.value])]
      else before
  }

  lemma {:induction false} PairIsOrphan(
    orphans: seq<string>, byId: map<Id, Row>, sentinel: string -> Option<Id>, p: Pair)
    requires p in Pairs(orphans, byId, sentinel)
    ensures p.diskFolder in orphans && sentinel(p.diskFolder).Some? && sentinel(p.diskFolder).value in byId
    ensures p.row == byId[sentinel(p.diskFolder).value]
  {
    var n := |orphans| - 1;
    if p in Pairs(orphans[..n], byId, sentinel) {
      PairIsOrphan(orphans[..n], byId, sentinel, p);
    }
  }

  /** An orphan whose sentinel names an absent row finds that row paired. */
  lemma {:induction false} PairsComplete(
    orphans: seq<string>, byId: map<Id, Row>, sentinel: string -> Option<Id>, f: string)
    requires f in orphans && sentinel(f).Some? && sentinel(f).value in byId
    ensures exists p :: p in Pairs(orphans, byId, sentinel) && p.row == byId[sentinel(f).value]
  {
    var n := |orphans| - 1;
    var before, pairs := Pairs(orphans[..n], byId, sentinel), Pairs(orphans, byId, sentinel);
    if f in orphans[..n] {
      PairsComplete(orphans[..n], byId, sentinel, f);
      var p :| p in before && p.row == byId[sentinel(f).value];
      assert p in pairs;
    } else {
      assert orphans[n] == f;
      if pairs != before {
        assert pairs[|before|].row == byId[sentinel(f).value];
      }
    }
  }

  /** No row and no orphan is paired twice. */
  ghost predicate OnceEach(pairs: seq<Pair>) {
    forall i, j :: 0 <= i < j < |pairs| ==>
      pairs[i].row != pairs[j].row && pairs[i].diskFolder != pairs[j].diskFolder
  }

  lemma {:induction false} PairsDistinct(orphans: seq<string>, byId: map<Id, Row>, sentinel: string -> Option<Id>)
    requires Distinct(orphans)
    ensures OnceEach(Pairs(orphans, byId, sentinel))
  {
    if orphans == [] {
    } else {
      var n := |orphans| - 1;
      var init, last := orphans[..n], orphans[n];
      PairsDistinct(init, byId, sentinel);
      var before, pairs := Pairs(init, byId, sentinel), Pairs(orphans, byId, sentinel);
      forall i | 0 <= i < |before| ensures before[i].diskFolder != last {
        PairIsOrphan(init, byId, sentinel, before[i]);
        var k :| 0 <= k < n && init[k] == before[i].diskFolder;
        assert orphans[k] != orphans[n];
      }
      assert forall i :: 0 <= i < |before| ==> before[i] in before && pairs[i] == before[i];
    }
  }

  /** Among the orphans that name one row, the least in order is the one paired. */
  lemma {:induction false} PairsTakeFirst(
    orphans: seq<string>, byId: map<Id, Row>, sentinel: string -> Option<Id>, p: Pair, f: string)
    requires forall id :: id in byId ==> byId[id].id == id
    requires SortedBy(orphans, (x: string) => x)
    requires p in Pairs(orphans, byId, sentinel) && f in orphans && sentinel(f) == Some(p.row.id)
    ensures LexLeq(p.diskFolder, f)
  {
    var n := |orphans| - 1;
    var init := orphans[..n];
    assert orphans == init + [orphans[n]];
    PairIsOrphan(orphans, byId, sentinel, p);
    if p in Pairs(init, byId, sentinel) {
      PairIsOrphan(init, byId, sentinel, p);
      if f in init {
        PairsTakeFirst(init, byId, sentinel, p, f);
      } else {
        var i :| 0 <= i < n && orphans[i] == p.diskFolder;
        assert orphans[n] == f;
      }
    } else {
      LexReflexive(f);
      if f in init {
        PairsComplete(init, byId, sentinel, f);
        assert false;
      }
    }
  }

  // ---------- the report ----------

  function SelectionInputs(rows: seq<Row>): seq<Mailboxes.SelectionInput> {
    Map(Filter(rows, (r: Row) => r.remotePath.Some?), (r: Row) =>
      Mailboxes.SelectionInput(if r.remotePath.Some? then r.remotePath.value else "", r.role))
  }

  function Selected(rows: seq<Row>, mailboxes: seq<string>, caseInsensitive: bool): set<string> {
    Mailboxes.GetSelectedMailboxes(mailboxes, SelectionInputs(rows), caseInsensitive, true)
  }

  /** Present on both sides but no longer selected; a row without a cached path is left alone. */
  function ConfigDropped(disk: DiskView, rows: seq<Row>, mailboxes: seq<string>, caseInsensitive: bool): seq<string> {
    if mailboxes == [] then []
    else
      var selected := Selected(rows, mailboxes, caseInsensitive);
      Map(Filter(Filter(rows, (r: Row) => disk.isMaildir(r.folder)),
                 (r: Row) => r.remotePath.Some? && r.remotePath.value !in selected), FolderOf())
  }

  function UnknownFolders(disk: DiskView, rows: seq<Row>): set<string> {
    disk.folders - ToSet(Map(rows, FolderOf()))
  }

  /** The classes of a drift report in terms of rows and disk alone; `orphans` lists, in order,
      the on-disk folders that have no row. */
  ghost predicate Classifies(
    c: Classes, orphans: seq<string>, disk: DiskView, rows: seq<Row>, mailboxes: seq<string>, caseInsensitive: bool)
  {
    && Lists(orphans, UnknownFolders(disk, rows))
    && var pairs := Pairs(orphans, ById(Absent(rows, disk)), disk.sentinel);
       && c.renames == Map(pairs, RenameOf())
       && c.diskOnly == Filter(orphans, (f: string) => f !in Map(pairs, Disks()))
       && c.dbOnly == Map(Filter(Absent(rows, disk), (r: Row) => r !in Map(pairs, Rows())), FolderOf())
       && c.configDropped == ConfigDropped(disk, rows, mailboxes, caseInsensitive)
  }

  // ---------- what the classes mean ----------

  /** Some config entry picks a row with this cached path, or one above it. */
  ghost predicate StillSynced(rows: seq<Row>, mailboxes: seq<string>, caseInsensitive: bool, path: string) {
    exists r, entry :: r in rows && r.remotePath.Some? && entry in mailboxes
                       && Mailboxes.Picks(entry, r.remotePath.value, r.role, caseInsensitive)
                       && (r.remotePath.value == path || Split(r.remotePath.value, '/') < Split(path, '/'))
  }

  /** Present on disk, with a cached path that the config, which names some mailboxes, leaves out. */
  ghost predicate LeftOut(disk: DiskView, rows: seq<Row>, mailboxes: seq<string>, caseInsensitive: bool, r: Row) {
    && mailboxes != [] && disk.isMaildir(r.folder)
    && r.remotePath.Some? && !StillSynced(rows, mailboxes, caseInsensitive, r.remotePath.value)
  }

  ghost predicate IsRenameTarget(renames: seq<Rename>, f: string) {
    exists rn :: rn in renames && rn.diskFolder == f
  }

  /** Some rename's target names this row's mailbox. */
  ghost predicate IsRenameSource(renames: seq<Rename>, disk: DiskView, r: Row) {
    exists rn :: rn in renames && disk.sentinel(rn.diskFolder) == Some(r.id)
  }

  /** These folders are, in the order of the rows, those of the rows that satisfy `p`. */
  ghost predicate FoldersWhere(folders: seq<string>, rows: seq<Row>, p: Row -> bool) {
    exists picked: seq<Row> :: IsPickOf(picked, rows, p) && |picked| == |folders|
                               && forall i :: 0 <= i < |folders| ==> folders[i] == picked[i].folder
  }

  /** The classes, the renames given: strays in path order, on disk, without a row, and no rename's
      target; in row order, orphans whose maildir is gone and that are no rename's source, and the
      folders the config leaves out. */
  ghost predicate Means(
    c: Classes, disk: DiskView, rows: seq<Row>, mailboxes: seq<string>, caseInsensitive: bool)
  {
    && SortedBy(c.diskOnly, (f: string) => f) && Distinct(c.diskOnly)
    && (forall f :: f in c.diskOnly <==>
          f in disk.folders && (forall r :: r in rows ==> r.folder != f) && !IsRenameTarget(c.renames, f))
    && FoldersWhere(c.dbOnly, rows, (r: Row) => !disk.isMaildir(r.folder) && !IsRenameSource(c.renames, disk, r))
    && FoldersWhere(c.configDropped, rows, (r: Row) => LeftOut(disk, rows, mailboxes, caseInsensitive, r))
  }

  lemma SelectedIsStillSynced(rows: seq<Row>, mailboxes: seq<string>, caseInsensitive: bool, r: Row)
    requires mailboxes != [] && r in rows && r.remotePath.Some?
    ensures r.remotePath.value in Selected(rows, mailboxes, caseInsensitive)
            <==> StillSynced(rows, mailboxes, caseInsensitive, r.remotePath.value)
  {
    var path := r.remotePath.value;
    var inputs := SelectionInputs(rows);
    Mailboxes.SelectedMeans(mailboxes, inputs, caseInsensitive, true, path);
    InputsAreRows(rows);
    if StillSynced(rows, mailboxes, caseInsensitive, path) {
      var a, entry :| a in rows && a.remotePath.Some? && entry in mailboxes
                      && Mailboxes.Picks(entry, a.remotePath.value, a.role, caseInsensitive)
                      && (a.remotePath.value == path || Split(a.remotePath.value, '/') < Split(path, '/'));
      assert Mailboxes.SelectionInput(a.remotePath.value, a.role) in inputs;
    }
    assert Mailboxes.SelectionInput(path, r.role) in inputs;
  }

  /** A config that names no mailbox syncs them all. */
  lemma EverythingIsSelected(rows: seq<Row>, caseInsensitive: bool, r: Row)
    requires r in rows && r.remotePath.Some?
    ensures r.remotePath.value in Selected(rows, [], caseInsensitive)
  {
    Mailboxes.SelectedMeans([], SelectionInputs(rows), caseInsensitive, true, r.remotePath.value);
    InputsAreRows(rows);
    assert Mailboxes.SelectionInput(r.remotePath.value, r.role) in SelectionInputs(rows);
  }

  lemma InputsAreRows(rows: seq<Row>)
    ensures forall m :: m in SelectionInputs(rows)
                        <==> exists r :: r in rows && r.remotePath == Some(m.path) && r.role == m.role
  {
    var known := Filter(rows, (r: Row) => r.remotePath.Some?);
    forall m | m in SelectionInputs(rows)
      ensures exists r :: r in rows && r.remotePath == Some(m.path) && r.role == m.role
    {
      var k :| 0 <= k < |known| && SelectionInputs(rows)[k] == m;
      assert known[k] in known;
    }
    forall m: Mailboxes.SelectionInput, r | r in rows && r.remotePath == Some(m.path) && r.role == m.role
      ensures m in SelectionInputs(rows)
    {
      assert r in known;
      var k :| 0 <= k < |known| && known[k] == r;
      assert SelectionInputs(rows)[k] == m;
    }
  }

  lemma PickedFolders(rows: seq<Row>, p: Row -> bool, q: Row -> bool)
    requires forall r :: r in rows ==> p(r) == q(r)
    ensures FoldersWhere(Map(Filter(rows, p), FolderOf()), rows, q)
  {
    FilterAgrees(rows, p, q);
    FilterPicks(rows, q);
  }

  lemma TwicePickedFolders(rows: seq<Row>, p: Row -> bool, q: Row -> bool, both: Row -> bool)
    requires forall r :: r in rows ==> (p(r) && q(r)) == both(r)
    ensures FoldersWhere(Map(Filter(Filter(rows, p), q), FolderOf()), rows, both)
  {
    FilterBoth(rows, p, q, both);
    PickedFolders(rows, both, both);
  }

  lemma ConfigDroppedMeans(disk: DiskView, rows: seq<Row>, mailboxes: seq<string>, caseInsensitive: bool)
    ensures FoldersWhere(ConfigDropped(disk, rows, mailboxes, caseInsensitive), rows,
                         (r: Row) => LeftOut(disk, rows, mailboxes, caseInsensitive, r))
  {
    var leftOut := (r: Row) => LeftOut(disk, rows, mailboxes, caseInsensitive, r);
    if mailboxes == [] {
      FilterNone(rows, leftOut);
      PickedFolders(rows, leftOut, leftOut);
    } else {
      var selected := Selected(rows, mailboxes, caseInsensitive);
      var present := (r: Row) => disk.isMaildir(r.folder);
      var unselected := (r: Row) => r.remotePath.Some? && r.remotePath.value !in selected;
      forall r | r in rows ensures (present(r) && unselected(r)) == leftOut(r) {
        if r.remotePath.Some? {
          SelectedIsStillSynced(rows, mailboxes, caseInsensitive, r);
        }
      }
      TwicePickedFolders(rows, present, unselected, leftOut);
    }
  }

  lemma ClassesMean(
    c: Classes, orphans: seq<string>, disk: DiskView, rows: seq<Row>, mailboxes: seq<string>, caseInsensitive: bool)
    requires Distinct(Map(rows, IdOf())) && Classifies(c, orphans, disk, rows, mailboxes, caseInsensitive)
    ensures Means(c, disk, rows, mailboxes, caseInsensitive)
  {
    ConfigDroppedMeans(disk, rows, mailboxes, caseInsensitive);
    StraysMean(c, orphans, disk, rows, mailboxes, caseInsensitive);
    OrphansMean(c, orphans, disk, rows, mailboxes, caseInsensitive);
  }

  lemma StraysMean(
    c: Classes, orphans: seq<string>, disk: DiskView, rows: seq<Row>, mailboxes: seq<string>, caseInsensitive: bool)
    requires Classifies(c, orphans, disk, rows, mailboxes, caseInsensitive)
    ensures SortedBy(c.diskOnly, (f: string) => f) && Distinct(c.diskOnly)
    ensures forall f :: f in c.diskOnly <==>
              f in disk.folders && (forall r :: r in rows ==> r.folder != f) && !IsRenameTarget(c.renames, f)
  {
    var pairs := Pairs(orphans, ById(Absent(rows, disk)), disk.sentinel);
    var unpaired := (f: string) => f !in Map(pairs, Disks());
    FilterDistinct(orphans, unpaired);
    FilterSorted(orphans, (f: string) => f, unpaired);
    forall f ensures f in Map(pairs, Disks()) <==> IsRenameTarget(c.renames, f) {
      if f in Map(pairs, Disks()) {
        var k :| 0 <= k < |pairs| && pairs[k].diskFolder == f;
        assert c.renames[k] in c.renames;
      }
      if rn :| rn in c.renames && rn.diskFolder == f {
        var k :| 0 <= k < |pairs| && c.renames[k] == rn;
        assert Map(pairs, Disks())[k] == f;
      }
    }
    forall f ensures f in orphans <==> f in disk.folders && forall r :: r in rows ==> r.folder != f {
      assert f in orphans <==> f in ToSet(orphans);
      NamedByRow(rows, f);
    }
  }

  lemma NamedByRow(rows: seq<Row>, f: string)
    ensures f in Map(rows, FolderOf()) <==> exists r :: r in rows && r.folder == f
  {
    if r :| r in rows && r.folder == f {
      var k :| 0 <= k < |rows| && rows[k] == r;
      assert Map(rows, FolderOf())[k] == f;
    }
    if f in Map(rows, FolderOf()) {
      var k :| 0 <= k < |rows| && rows[k].folder == f;
      assert rows[k] in rows;
    }
  }

  lemma OrphansMean(
    c: Classes, orphans: seq<string>, disk: DiskView, rows: seq<Row>, mailboxes: seq<string>, caseInsensitive: bool)
    requires Distinct(Map(rows, IdOf())) && Classifies(c, orphans, disk, rows, mailboxes, caseInsensitive)
    ensures FoldersWhere(c.dbOnly, rows, (r: Row) => !disk.isMaildir(r.folder) && !IsRenameSource(c.renames, disk, r))
  {
    var absent := Absent(rows, disk);
    var pairs := Pairs(orphans, ById(absent), disk.sentinel);
    var gone, unpaired := (r: Row) => !disk.isMaildir(r.folder), (r: Row) => r !in Map(pairs, Rows());
    var orphaned := (r: Row) => !disk.isMaildir(r.folder) && !IsRenameSource(c.renames, disk, r);
    forall r | r in rows ensures (gone(r) && unpaired(r)) == orphaned(r) {
      if !disk.isMaildir(r.folder) {
        PairedIffSource(c, pairs, orphans, absent, disk, rows, r);
      }
    }
    TwicePickedFolders(rows, gone, unpaired, orphaned);
  }

  lemma PairedIffSource(
    c: Classes, pairs: seq<Pair>, orphans: seq<string>, absent: seq<Row>, disk: DiskView, rows: seq<Row>, r: Row)
    requires Distinct(Map(rows, IdOf())) && absent == Absent(rows, disk) && r in absent
    requires pairs == Pairs(orphans, ById(absent), disk.sentinel) && c.renames == Map(pairs, RenameOf())
    ensures r in Map(pairs, Rows()) <==> IsRenameSource(c.renames, disk, r)
  {
    if r in Map(pairs, Rows()) {
      var k :| 0 <= k < |pairs| && pairs[k].row == r;
      PairIsOrphan(orphans, ById(absent), disk.sentinel, pairs[k]);
      assert c.renames[k] in c.renames;
    }
    if rn :| rn in c.renames && disk.sentinel(rn.diskFolder) == Some(r.id) {
      var k :| 0 <= k < |pairs| && c.renames[k] == rn;
      PairIsOrphan(orphans, ById(absent), disk.sentinel, pairs[k]);
      SameIdSameRow(rows, pairs[k].row, r);
      assert Map(pairs, Rows())[k] == r;
    }
  }

  /** The lists and sets that `compute_drift` keeps for `pairs`. */
  ghost predicate Records(
    pairs: seq<Pair>, byId: map<Id, Row>, renames: seq<Rename>, pairedDisk: set<string>, pairedIds: set<Id>)
  {
    && renames == Map(pairs, RenameOf())
    && pairedDisk == ToSet(Map(pairs, Disks()))
    && pairedIds == (set p | p in pairs :: p.row.id)
    && forall p :: p in pairs ==> p.row.id in byId && byId[p.row.id] == p.row
  }

  lemma RecordsSnoc(
    pairs: seq<Pair>, byId: map<Id, Row>, renames: seq<Rename>, pairedDisk: set<string>, pairedIds: set<Id>, p: Pair)
    requires Records(pairs, byId, renames, pairedDisk, pairedIds) && p.row.id in byId && byId[p.row.id] == p.row
    ensures Records(pairs + [p], byId, renames + [Rename(p.row.folder, p.diskFolder)],
                    pairedDisk + {p.diskFolder}, pairedIds + {p.row.id})
  {
    MapConcat(pairs, [p], RenameOf());
    MapConcat(pairs, [p], Disks());
    assert Map([p], Disks()) == [p.diskFolder] && Map([p], RenameOf()) == [Rename(p.row.folder, p.diskFolder)];
    assert ToSet(Map(pairs, Disks()) + [p.diskFolder]) == ToSet(Map(pairs, Disks())) + {p.diskFolder};
  }

  method PairOrphans(orphans: seq<string>, byId: map<Id, Row>, sentinel: string -> Option<Id>)
    returns (renames: seq<Rename>, pairedDisk: set<string>, pairedIds: set<Id>)
    requires forall id :: id in byId ==> byId[id].id == id
    ensures Records(Pairs(orphans, byId, sentinel), byId, renames, pairedDisk, pairedIds)
  {
    renames, pairedDisk, pairedIds := [], {}, {};
    for i := 0 to |orphans|
      invariant Records(Pairs(orphans[..i], byId, sentinel), byId, renames, pairedDisk, pairedIds)
    {
      assert orphans[..i + 1][..i] == orphans[..i];
      var mapping := sentinel(orphans[i]);
      if mapping.Some? && mapping.value !in pairedIds && mapping.value in byId {
        var row := byId[mapping.value];
        RecordsSnoc(Pairs(orphans[..i], byId, sentinel), byId, renames, pairedDisk, pairedIds, Pair(orphans[i], row));
        renames := renames + [Rename(row.folder, orphans[i])];
        pairedDisk := pairedDisk + {orphans[i]};
        pairedIds := pairedIds + {mapping.value};
      }
    }
    assert orphans[..|orphans|] == orphans;
  }

  /** `compute_drift`. Row ids are the primary key of `mailbox_map`. */
  method ComputeDrift(disk: DiskView, rows: seq<Row>, mailboxes: seq<string>, caseInsensitive: bool)
    returns (report: Report, ghost orphans: seq<string>)
    requires Distinct(Map(rows, IdOf()))
    ensures report == MaildirRootMissing <==> !disk.rootExists
    ensures report == NoMailboxMap <==> disk.rootExists && rows == []
    ensures report.Found? ==> Classifies(report.classes, orphans, disk, rows, mailboxes, caseInsensitive)
    ensures report.Found? ==> Means(report.classes, disk, rows, mailboxes, caseInsensitive)
  {
    orphans := [];
    if !disk.rootExists {
      return MaildirRootMissing, orphans;
    }
    if rows == [] {
      return NoMailboxMap, orphans;
    }
    var diskOrphans := SortedList(UnknownFolders(disk, rows));
    orphans := diskOrphans;
    var absent := Absent(rows, disk);
    var renames, pairedDisk, pairedIds := PairOrphans(diskOrphans, ById(absent), disk.sentinel);
    var diskOnly := Filter(diskOrphans, (f: string) => f !in pairedDisk);
    var dbOnly := Map(Filter(absent, (r: Row) => r.id !in pairedIds), FolderOf());
    ghost var pairs := Pairs(orphans, ById(absent), disk.sentinel);
    FilterAgrees(orphans, (f: string) => f !in pairedDisk, (f: string) => f !in Map(pairs, Disks()));
    AbsentRowPaired(rows, absent, pairs);
    FilterAgrees(absent, (r: Row) => r.id !in pairedIds, (r: Row) => r !in Map(pairs, Rows()));
    report := Found(Classes(diskOnly, dbOnly, ConfigDropped(disk, rows, mailboxes, caseInsensitive), renames));
    ClassesMean(report.classes, orphans, disk, rows, mailboxes, caseInsensitive);
  }

  /** With ids unique, asking for a paired id is asking for a paired row. */
  lemma AbsentRowPaired(rows: seq<Row>, absent: seq<Row>, pairs: seq<Pair>)
    requires Distinct(Map(rows, IdOf())) && forall r :: r in absent ==> r in rows
    requires forall p :: p in pairs ==> p.row in absent
    ensures forall r :: r in absent ==> (r.id in (set p | p in pairs :: p.row.id) <==> r in Map(pairs, Rows()))
  {
    forall r | r in absent ensures r.id in (set p | p in pairs :: p.row.id) <==> r in Map(pairs, Rows()) {
      if p :| p in pairs && p.row.id == r.id {
        SameIdSameRow(rows, p.row, r);
        var k :| 0 <= k < |pairs| && pairs[k] == p;
        assert Map(pairs, Rows())[k] == r;
      }
    }
  }

  lemma SameIdSameRow(rows: seq<Row>, a: Row, b: Row)
    requires Distinct(Map(rows, IdOf())) && a in rows && b in rows && a.id == b.id
    ensures a == b
  {
    var i :| 0 <= i < |rows| && rows[i] == a;
    var j :| 0 <= j < |rows| && rows[j] == b;
    assert Map(rows, IdOf())[i] == Map(rows, IdOf())[j];
  }

  /** Every on-disk folder without a row is reported once, as a stray or as a rename target; every
      row without a maildir once, as an orphan or as a rename source. */
  lemma DriftIsPartition(
    c: Classes, orphans: seq<string>, disk: DiskView, rows: seq<Row>, mailboxes: seq<string>, caseInsensitive: bool)
    requires Distinct(Map(rows, IdOf())) && Classifies(c, orphans, disk, rows, mailboxes, caseInsensitive)
    ensures multiset(c.diskOnly) + multiset(Map(c.renames, (r: Rename) => r.diskFolder))
            == multiset(set f | f in disk.folders && forall r :: r in rows ==> r.folder != f)
    ensures multiset(c.dbOnly) + multiset(Map(c.renames, (r: Rename) => r.dbFolder))
            == multiset(Map(Filter(rows, (r: Row) => !disk.isMaildir(r.folder)), (r: Row) => r.folder))
  {
    assert Map(Absent(rows, disk), FolderOf())
           == Map(Filter(rows, (r: Row) => !disk.isMaildir(r.folder)), (r: Row) => r.folder);
    forall f ensures f in Map(rows, FolderOf()) <==> exists r :: r in rows && r.folder == f {
      NamedByRow(rows, f);
    }
    assert UnknownFolders(disk, rows) == set f | f in disk.folders && forall r :: r in rows ==> r.folder != f;
    var absent := Absent(rows, disk);
    var pairs := Pairs(orphans, ById(absent), disk.sentinel);
    PairsDistinct(orphans, ById(absent), disk.sentinel);
    forall p | p in pairs ensures p.diskFolder in orphans && p.row in absent {
      PairIsOrphan(orphans, ById(absent), disk.sentinel, p);
    }
    assert Map(c.renames, (r: Rename) => r.diskFolder) == Map(pairs, Disks());
    assert Map(c.renames, (r: Rename) => r.dbFolder) == Map(Map(pairs, Rows()), FolderOf());
    SetMultiset(orphans);
    PairedDisks(orphans, pairs);
    AbsentDistinct(rows, disk);
    PairedRows(absent, pairs);
  }

  lemma PairedDisks(orphans: seq<string>, pairs: seq<Pair>)
    requires Distinct(orphans) && OnceEach(pairs) && forall p :: p in pairs ==> p.diskFolder in orphans
    ensures multiset(Filter(orphans, (f: string) => f !in Map(pairs, Disks()))) + multiset(Map(pairs, Disks()))
            == multiset(orphans)
  {
    var disks := Map(pairs, Disks());
    forall i | 0 <= i < |disks| ensures disks[i] in orphans {
      assert pairs[i] in pairs;
    }
    Complement(orphans, disks);
  }

  lemma PairedRows(absent: seq<Row>, pairs: seq<Pair>)
    requires Distinct(absent) && OnceEach(pairs) && forall p :: p in pairs ==> p.row in absent
    ensures multiset(Map(Filter(absent, (r: Row) => r !in Map(pairs, Rows())), FolderOf()))
            + multiset(Map(Map(pairs, Rows()), FolderOf()))
            == multiset(Map(absent, FolderOf()))
  {
    var paired := Map(pairs, Rows());
    forall i | 0 <= i < |paired| ensures paired[i] in absent {
      assert pairs[i] in pairs;
    }
    Complement(absent, paired);
    var rest := Filter(absent, (r: Row) => r !in paired);
    MapMultiset(rest + paired, absent, FolderOf());
    MapConcat(rest, paired, FolderOf());
  }

  lemma AbsentDistinct(rows: seq<Row>, disk: DiskView)
    requires Distinct(Map(rows, IdOf()))
    ensures Distinct(Absent(rows, disk))
  {
    forall i, j | 0 <= i < j < |rows| ensures rows[i] != rows[j] {
      assert Map(rows, IdOf())[i] != Map(rows, IdOf())[j];
    }
    FilterDistinct(rows, (r: Row) => !disk.isMaildir(r.folder));
  }

  lemma Complement<T>(s: seq<T>, t: seq<T>)
    requires Distinct(s) && Distinct(t) && forall x :: x in t ==> x in s
    ensures multiset(Filter(s, x => x !in t) + t) == multiset(s)
    ensures multiset(Filter(s, x => x !in t)) + multiset(t) == multiset(s)
  {
    var rest := Filter(s, x => x !in t);
    FilterDistinct(s, x => x !in t);
    DistinctConcat(rest, t);
    SameElements(rest + t, s);
  }

  lemma SetMultiset<T>(s: seq<T>)
    requires Distinct(s)
    ensures multiset(ToSet(s)) == multiset(s)
  {
    DistinctMultiset(s);
    forall x ensures multiset(ToSet(s))[x] == multiset(s)[x] {
      if x !in s {
        assert x !in multiset(s);
      }
    }
  }

  /** A rename pairs a row without a maildir with a stray whose sentinel names it, and no mailbox
      id is renamed twice. */
  lemma RenamesFollowSentinels(
    c: Classes, orphans: seq<string>, disk: DiskView, rows: seq<Row>, mailboxes: seq<string>, caseInsensitive: bool)
    requires Classifies(c, orphans, disk, rows, mailboxes, caseInsensitive)
    ensures forall rn :: rn in c.renames ==>
              exists r :: r in rows && !disk.isMaildir(r.folder) && r.folder == rn.dbFolder
                          && disk.sentinel(rn.diskFolder) == Some(r.id)
    ensures forall i, j :: 0 <= i < j < |c.renames| ==>
              disk.sentinel(c.renames[i].diskFolder) != disk.sentinel(c.renames[j].diskFolder)
  {
    var byId := ById(Absent(rows, disk));
    var pairs := Pairs(orphans, byId, disk.sentinel);
    PairsDistinct(orphans, byId, disk.sentinel);
    forall p | p in pairs
      ensures p.row in Absent(rows, disk) && disk.sentinel(p.diskFolder) == Some(p.row.id)
    {
      PairIsOrphan(orphans, byId, disk.sentinel, p);
    }
    forall i, j | 0 <= i < j < |pairs|
      ensures disk.sentinel(pairs[i].diskFolder) != disk.sentinel(pairs[j].diskFolder)
    {
      PairIsOrphan(orphans, byId, disk.sentinel, pairs[i]);
      PairIsOrphan(orphans, byId, disk.sentinel, pairs[j]);
    }
    forall rn | rn in c.renames
      ensures exists r :: r in rows && !disk.isMaildir(r.folder) && r.folder == rn.dbFolder
                          && disk.sentinel(rn.diskFolder) == Some(r.id)
    {
      var k :| 0 <= k < |pairs| && RenameOf()(pairs[k]) == rn;
      assert pairs[k] in pairs;
    }
  }

  /** No stray that names a row without a maildir leaves that row unpaired, and of several such
      strays the first in order is the rename target. */
  lemma RenameTargetIsFirst(
    c: Classes, orphans: seq<string>, disk: DiskView, rows: seq<Row>, mailboxes: seq<string>, caseInsensitive: bool,
    f: string, r: Row)
    requires Classifies(c, orphans, disk, rows, mailboxes, caseInsensitive)
    requires f in disk.folders && (forall s :: s in rows ==> s.folder != f) && disk.sentinel(f) == Some(r.id)
    requires r in rows && !disk.isMaildir(r.folder)
    ensures exists rn :: rn in c.renames && disk.sentinel(rn.diskFolder) == Some(r.id) && LexLeq(rn.diskFolder, f)
  {
    var byId := ById(Absent(rows, disk));
    NamedByRow(rows, f);
    assert f in ToSet(orphans) && r in Absent(rows, disk) && r.id in byId;
    var p := FirstPaired(orphans, byId, disk.sentinel, f);
    var k :| 0 <= k < |c.renames| && c.renames[k] == RenameOf()(p);
    assert c.renames[k] in c.renames;
  }

  lemma FirstPaired(
    orphans: seq<string>, byId: map<Id, Row>, sentinel: string -> Option<Id>, f: string)
    returns (p: Pair)
    requires forall id :: id in byId ==> byId[id].id == id
    requires SortedBy(orphans, (x: string) => x)
    requires f in orphans && sentinel(f).Some? && sentinel(f).value in byId
    ensures p in Pairs(orphans, byId, sentinel) && sentinel(p.diskFolder) == sentinel(f) && LexLeq(p.diskFolder, f)
    ensures RenameOf()(p) in Map(Pairs(orphans, byId, sentinel), RenameOf())
  {
    PairsComplete(orphans, byId, sentinel, f);
    p :| p in Pairs(orphans, byId, sentinel) && p.row == byId[sentinel(f).value];
    PairIsOrphan(orphans, byId, sentinel, p);
    PairsTakeFirst(orphans, byId, sentinel, p, f);
    var k :| 0 <= k < |Pairs(orphans, byId, sentinel)| && Pairs(orphans, byId, sentinel)[k] == p;
    assert Map(Pairs(orphans, byId, sentinel), RenameOf())[k] == RenameOf()(p);
  }
}
