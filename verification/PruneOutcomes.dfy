/** `src/janitor/prune.rs`: what runs on which only DB writes fail come to, told from the start. */
module PruneOutcomes {
  import opened Common
  import opened Prune
  import opened PruneLedger
  import opened PrunePlan
  import opened Removal
  import opened Text
  import CleanRuns

  // ---------- the cursor ----------

  /** The folder at `i` goes, and has a row. */
  ghost predicate RowGoes(entries: seq<Entry>, start: Disk, db: Db, opts: Options, i: nat)
    requires UniqueFolders(db.mailboxes) && i < |entries|
  {
    Goes(entries, start, opts, entries[i]) && HasRow(db, entries[i].folder)
  }

  /** Some folder with a row goes before the first failure to clear rows, and some failure comes. */
  ghost predicate FailsAfterRow(entries: seq<Entry>, start: Disk, db: Db, opts: Options, io: RunIo)
    requires UniqueFolders(db.mailboxes)
  {
    && (exists i: nat :: && i < |entries| && RowGoes(entries, start, db, opts, i)
                         && UnbrokenTo(entries, start, db, opts, io, i + 1))
    && (io.clearFails || exists j: nat :: j < |entries| && Breaks(entries, start, db, opts, io, j))
  }

  /** Told from the start: if only DB writes can fail, the cursor goes stale exactly when it was set,
      a folder with a row goes before the first failure, and there is one. */
  lemma DbFailureStalesIff(
    entries: seq<Entry>, start: Disk, db: Db, idOf: Path -> MaildirId, opts: Options, io: RunIo, now: Disk, nowDb: Db,
    r: Result<Outcome, Error>, trace: Trace)
    requires UniqueFolders(db.mailboxes) && Applied(entries, start, db, idOf, opts, io, now, nowDb, r, trace)
    requires Undisturbed(entries, start, opts, io) && SettledByNesting(entries, start, db, idOf, opts, io, r, trace)
    ensures nowDb.mailboxCursor && nowDb.mailboxes != db.mailboxes
            <==> db.mailboxCursor && FailsAfterRow(entries, start, db, opts, io)
  {
    StaleCursorIff(entries, start, db, idOf, opts, io, now, nowDb, r, trace);
    HadRowMeans(db, trace.done.removed);
    HadRowIff(entries, start, db, opts, trace.at, trace.done);
    FailsAfterRowIff(entries, start, db, opts, io, trace.at);
  }

  /** With the first failure to clear rows at `k`, or none if `k` is the end. */
  lemma FailsAfterRowIff(entries: seq<Entry>, start: Disk, db: Db, opts: Options, io: RunIo, k: nat)
    requires UniqueFolders(db.mailboxes) && k <= |entries| && UnbrokenTo(entries, start, db, opts, io, k)
    requires k < |entries| ==> Breaks(entries, start, db, opts, io, k)
    ensures FailsAfterRow(entries, start, db, opts, io)
            <==> (exists i: nat :: i < k && RowGoes(entries, start, db, opts, i)) && (k < |entries| || io.clearFails)
  {
    if i: nat :| i < k && RowGoes(entries, start, db, opts, i) {
      assert UnbrokenTo(entries, start, db, opts, io, i + 1);
    }
    if i: nat :| i < |entries| && RowGoes(entries, start, db, opts, i)
                 && UnbrokenTo(entries, start, db, opts, io, i + 1) {
      assert i < k;
    }
  }

  /** Of the first `k` entries, one with a row was removed exactly when one with a row goes. */
  lemma HadRowIff(entries: seq<Entry>, start: Disk, db: Db, opts: Options, k: nat, outcome: Outcome)
    requires UniqueFolders(db.mailboxes) && k <= |entries| && Decided(entries, entries[..k], start, opts, outcome)
    ensures HadRow(db, outcome.removed)
            <==> exists i: nat :: i < k && RowGoes(entries, start, db, opts, i)
  {
    if i: nat :| i < k && RowGoes(entries, start, db, opts, i) {
      GoingIsRemoved(entries, k, start, opts, outcome, i);
    }
    if f :| f in outcome.removed && HasRow(db, f) {
      var i := RemovedWasGoing(entries, k, start, opts, outcome, f);
      assert RowGoes(entries, start, db, opts, i);
    }
  }

  lemma GoingIsRemoved(entries: seq<Entry>, k: nat, start: Disk, opts: Options, outcome: Outcome, i: nat)
    requires i < k <= |entries| && Decided(entries, entries[..k], start, opts, outcome)
    requires Goes(entries, start, opts, entries[i])
    ensures entries[i].folder in outcome.removed
  {
    var going := Going(entries, k, start, opts);
    assert entries[..k][i] in going;
    var j :| 0 <= j < |going| && going[j] == entries[i];
    assert outcome.removed[j] == entries[i].folder;
  }

  lemma RemovedWasGoing(entries: seq<Entry>, k: nat, start: Disk, opts: Options, outcome: Outcome, f: string)
    returns (i: nat)
    requires k <= |entries| && Decided(entries, entries[..k], start, opts, outcome) && f in outcome.removed
    ensures i < k && entries[i].folder == f && Goes(entries, start, opts, entries[i])
  {
    var going := Going(entries, k, start, opts);
    var j :| 0 <= j < |going| && going[j].folder == f;
    assert going[j] in going;
    i :| 0 <= i < k && entries[..k][i] == going[j];
  }

  // ---------- the mail ----------

  /** The folders that went, including one at which a DB write failed, are gone. */
  lemma GoneIsAbsent(
    entries: seq<Entry>, start: Disk, db: Db, idOf: Path -> MaildirId, opts: Options, io: RunIo, now: Disk, nowDb: Db,
    r: Result<Outcome, Error>, trace: Trace, e: Entry)
    requires UniqueFolders(db.mailboxes) && Applied(entries, start, db, idOf, opts, io, now, nowDb, r, trace)
    requires Undisturbed(entries, start, opts, io) && SettledByNesting(entries, start, db, idOf, opts, io, r, trace)
    requires e in Going(entries, Reached(entries, trace.at), start, opts)
    ensures Absent(now, PathOf(e.folder))
  {
    GoingIsListed(entries, start, opts, trace.at, trace.done, e);
    RegularPath(entries, start, opts, io, e);
    ClearedOnTheWay(entries, start, db, idOf, opts, io, now, nowDb, r, trace, e);
  }

  lemma GoingIsListed(entries: seq<Entry>, start: Disk, opts: Options, at: nat, outcome: Outcome, e: Entry)
    requires at <= |entries| && Decided(entries, entries[..at], start, opts, outcome)
    requires e in Going(entries, Reached(entries, at), start, opts)
    ensures e in entries && (e.folder in outcome.removed || (at < |entries| && e == entries[at]))
  {
    var k: nat :| k < Reached(entries, at) && entries[..Reached(entries, at)][k] == e;
    if k < at {
      GoingIsRemoved(entries, at, start, opts, outcome, k);
    }
  }

  lemma ClearedOnTheWay(
    entries: seq<Entry>, start: Disk, db: Db, idOf: Path -> MaildirId, opts: Options, io: RunIo, now: Disk, nowDb: Db,
    r: Result<Outcome, Error>, trace: Trace, e: Entry)
    requires UniqueFolders(db.mailboxes) && Applied(entries, start, db, idOf, opts, io, now, nowDb, r, trace)
    requires r != Err(NotStarted) && Proper(e.folder)
    requires e.folder in trace.done.removed || (trace.at < |entries| && e == entries[trace.at])
    ensures Cleared(now, e.folder)
  {
  }

  lemma RegularPath(entries: seq<Entry>, start: Disk, opts: Options, io: RunIo, e: Entry)
    requires Undisturbed(entries, start, opts, io) && e in entries
    ensures Proper(e.folder) && Ordinary(e.folder) && PathOf(e.folder) == Split(e.folder, '/') != []
    ensures forall c :: c in PathOf(e.folder) ==> IsPlain(c)
  {
    var k :| 0 <= k < |entries| && entries[k] == e;
    assert StepsOf(entries, opts)[k] in StepsOf(entries, opts);
    CleanRuns.PathsAreSplits(e.folder);
  }

  /** Mail of a folder to be pruned that the DB does not know is no other entry's business. */
  lemma OwnUnknownMail(
    entries: seq<Entry>, few: seq<Entry>, start: Disk, db: Db, idOf: Path -> MaildirId, opts: Options, io: RunIo,
    e: Entry, p: Path)
    requires UniqueFolders(db.mailboxes) && Undisturbed(entries, start, opts, io)
    requires (forall x :: x in few ==> x in entries) && e in entries && IsUnknownOf(p, e.folder, db, idOf)
    ensures IsUnknownMail(p, few, db, idOf) && !InRescue(p)
  {
    var t := PathOf(e.folder);
    RegularPath(entries, start, opts, io, e);
    assert t[0] in t && p[0] == t[0];
    forall i | 0 <= i < |p| - 2 ensures IsPlain(p[i]) {
      assert p[i] == t[i] && t[i] in t;
    }
    forall x | x in few
      ensures IsEntryOf(p, PathOf(x.folder)) ==> x.folder == e.folder
      ensures !(|PathOf(x.folder)| > |p| - 2 && PathOf(x.folder) <= p)
    {
      var u := PathOf(x.folder);
      RegularPath(entries, start, opts, io, x);
      if u <= p {
        PlainPrefix(u, p, |t|);
      }
      if IsEntryOf(p, u) {
        assert u == p[..|t|] == t;
        JoinSplit(x.folder, '/');
        JoinSplit(e.folder, '/');
      }
    }
  }

  lemma PlainPrefix(u: Path, p: Path, k: nat)
    requires u <= p && k < |p| && !IsPlain(p[k]) && forall c :: c in u ==> IsPlain(c)
    ensures |u| <= k
  {
    forall i | 0 <= i < |u| ensures IsPlain(p[i]) {
      assert u[i] in u;
    }
  }

  /** Exactly the unknown mail of the folders that went has moved. */
  lemma MovedExactly(
    entries: seq<Entry>, start: Disk, db: Db, idOf: Path -> MaildirId, opts: Options, io: RunIo, now: Disk, nowDb: Db,
    r: Result<Outcome, Error>, trace: Trace)
    requires UniqueFolders(db.mailboxes) && Applied(entries, start, db, idOf, opts, io, now, nowDb, r, trace)
    requires Undisturbed(entries, start, opts, io) && SettledByNesting(entries, start, db, idOf, opts, io, r, trace)
    ensures trace.moved == Unknown(start.files, Going(entries, Reached(entries, trace.at), start, opts), db, idOf)
  {
    var k := Reached(entries, trace.at);
    DiskIsKept(entries, start, db, idOf, opts, io, now, nowDb, r, trace);
    forall p | p in Unknown(start.files, Going(entries, k, start, opts), db, idOf) ensures p in trace.moved {
      var e :| e in Going(entries, k, start, opts) && IsUnknownOf(p, e.folder, db, idOf);
      GoneIsAbsent(entries, start, db, idOf, opts, io, now, nowDb, r, trace, e);
      assert e in entries[..k] && e in entries;
      MissingHasMoved(entries, k, start, db, idOf, opts, io, now, trace, e, p);
    }
  }

  /** Unknown mail that is not where it was has moved. */
  lemma MissingHasMoved(
    entries: seq<Entry>, k: nat, start: Disk, db: Db, idOf: Path -> MaildirId, opts: Options, io: RunIo, now: Disk,
    trace: Trace, e: Entry, p: Path)
    requires UniqueFolders(db.mailboxes) && Undisturbed(entries, start, opts, io) && k <= |entries|
    requires DiskKept(entries, k, opts, start, db, idOf, io, now, trace.moved, trace.lost)
    requires e in entries && p in start.files && IsUnknownOf(p, e.folder, db, idOf)
    requires Absent(now, PathOf(e.folder))
    ensures p in trace.moved
  {
    assert forall x :: x in Begun(entries, k, opts) ==> x in entries[..k] && x in entries;
    OwnUnknownMail(entries, Begun(entries, k, opts), start, db, idOf, opts, io, e, p);
    assert AtOrUnder(p, PathOf(e.folder)) && p !in now.files;
    NothingHidden(entries, k, opts, io, p);
  }

  lemma NothingHidden(entries: seq<Entry>, k: nat, opts: Options, io: RunIo, p: Path)
    requires k <= |entries| && forall i: nat :: CleanRuns.Quiet(io.entry(i))
    ensures !LossHidden(entries, k, opts, io, p)
  {
    forall i: nat, t: Path ensures !Hidden(p, t, io.entry(i)) {
      assert CleanRuns.Quiet(io.entry(i));
    }
  }

  /** Conservation over a whole run on which only DB writes fail: every unknown message of the
      folders that went is in the rescue maildir with its contents, and what was rescued before is
      as it was, if and only if no two of these have one basename but different contents. */
  lemma RunKeepsContentsIff(
    entries: seq<Entry>, start: Disk, db: Db, idOf: Path -> MaildirId, opts: Options, io: RunIo, now: Disk, nowDb: Db,
    r: Result<Outcome, Error>, trace: Trace)
    requires UniqueFolders(db.mailboxes) && Applied(entries, start, db, idOf, opts, io, now, nowDb, r, trace)
    requires Undisturbed(entries, start, opts, io) && SettledByNesting(entries, start, db, idOf, opts, io, r, trace)
    ensures var unknown := Unknown(start.files, Going(entries, Reached(entries, trace.at), start, opts), db, idOf);
            && (forall p :: p in unknown ==> p in start.files && p != [])
            && (ContentsKept(start.files, now.files, unknown) <==> NoneClash(start.files, unknown))
  {
    MovedExactly(entries, start, db, idOf, opts, io, now, nowDb, r, trace);
    DiskIsKept(entries, start, db, idOf, opts, io, now, nowDb, r, trace);
    ContentsKeptIffNoneClash(start.files, now.files, trace.moved, trace.lost);
  }
}
