/** `src/janitor/prune.rs`: apply a prune plan. */
module Prune {
  import opened Common
  import opened Text
  import opened PruneLedger
  import opened PrunePlan
  import opened Removal
  import CleanRuns
  import Mailboxes

  datatype Outcome = Outcome(removed: seq<string>, skipped: seq<(string, Safety)>, deferred: seq<string>)

  /** What goes wrong over one run: before the loop, where the root is resolved and the rows are
      read, per entry, and after the loop. */
  datatype RunIo = RunIo(startFails: bool, entry: nat -> Io, dropFails: nat -> bool, clearFails: bool)

  datatype Error = NotStarted | DbFailed

  /** How far a run got: the outcome of the first `at` entries, the messages moved to the rescue
      maildir, and the files deleted. */
  datatype Trace = Trace(done: Outcome, at: nat, moved: set<Path>, lost: set<Path>)

  const NOTHING_DONE := Outcome([], [], [])

  /** One permitted entry: `remove_maildir_tree`, then the row it leaves to its caller. */
  method ApplyEntry(store: Store, folder: string, mailbox: Option<MailboxId>, io: Io, dropFails: bool)
    returns (r: Result<RemovalOutcome, Error>, ghost moves: seq<Path>, ghost gone: set<Path>)
    requires IsTree(store.disk) && Public(folder)
    modifies store
    ensures Reshaped(old(store.disk), old(store.db), folder, mailbox, store.idOf, io, store.disk, moves, gone,
                     r != Ok(Skipped))
    ensures r == Ok(Skipped) <==> !Removable(folder, old(store.disk), old(store.db), mailbox, store.idOf, io)
    ensures r.Err? <==> && Removable(folder, old(store.disk), old(store.db), mailbox, store.idOf, io)
                        && (io.cascadeFails || (mailbox.Some? && dropFails))
    ensures match r
            case Ok(Skipped) => store.db == old(store.db)
            case Ok(Removed) => store.db == Dropped(Cascaded(old(store.db), folder, mailbox), mailbox)
            case Err(e) => e == DbFailed
                           && store.db == if io.cascadeFails then old(store.db)
                                          else Cascaded(old(store.db), folder, mailbox)
  {
    var removal;
    ghost var created;
    removal, created, moves, gone := store.RemoveMaildirTree(folder, mailbox, io);
    match removal
    case Err(_) => r := Err(DbFailed);
    case Ok(Skipped) => r := Ok(Skipped);
    case Ok(Removed) =>
      if mailbox.Some? && dropFails {
        return Err(DbFailed), moves, gone;
      }
      store.db := Dropped(store.db, mailbox);
      r := Ok(Removed);
  }

  // ---------- what a run keeps account of ----------

  function SkippedEntry(): Entry -> (string, Safety) {
    (e: Entry) => (e.folder, e.safety)
  }

  /** Every folder the outcome names, in whichever list. */
  ghost function Named(outcome: Outcome): multiset<string> {
    multiset(outcome.removed)
    + multiset(Map(outcome.skipped, (s: (string, Safety)) => s.0)) + multiset(outcome.deferred)
  }

  /** The account of a run so far: of `done`, each entry is in one list, and those skipped are
      the ones not permitted. */
  ghost predicate Accounted(done: seq<Entry>, opts: Options, outcome: Outcome) {
    && multiset(Map(done, FolderOf())) == Named(outcome)
    && outcome.skipped == Map(Filter(done, (e: Entry) => !Permitted(e.safety, opts)), SkippedEntry())
    && (forall f :: f in outcome.removed || f in outcome.deferred ==> SomeLetThrough(done, opts, f))
  }

  ghost predicate SomeLetThrough(done: seq<Entry>, opts: Options, folder: string) {
    exists e :: e in done && e.folder == folder && Permitted(e.safety, opts)
  }

  /** The entries the force flags let through. */
  ghost function Allowed(entries: seq<Entry>, opts: Options): seq<Entry> {
    Filter(entries, (e: Entry) => Permitted(e.safety, opts))
  }

  /** The permitted ones of the first `k` entries. */
  ghost function Begun(entries: seq<Entry>, k: nat, opts: Options): seq<Entry>
    requires k <= |entries|
  {
    Allowed(entries[..k], opts)
  }

  /** `p` lies at or below one of the first `k` entries, and that one is permitted. */
  ghost predicate Below(ordered: seq<Entry>, k: nat, opts: Options, p: Path)
    requires k <= |ordered|
  {
    exists i: nat :: i < k && AtOrUnder(p, PathOf(ordered[i].folder)) && Permitted(ordered[i].safety, opts)
  }

  /** Losses lie below permitted entries, and where that entry was not removed its
      `remove_dir_all` stopped part way. */
  ghost predicate LossExplained(ordered: seq<Entry>, k: nat, opts: Options, removed: seq<string>, io: RunIo, p: Path)
    requires k <= |ordered|
  {
    exists i: nat :: i < k && AtOrUnder(p, PathOf(ordered[i].folder)) && Permitted(ordered[i].safety, opts)
                && (ordered[i].folder in removed || io.entry(i).removal.StopsAfter?)
  }

  /** The message was hidden from the removal of its folder, or of one above. */
  ghost predicate LossHidden(ordered: seq<Entry>, k: nat, opts: Options, io: RunIo, p: Path)
    requires k <= |ordered|
  {
    exists i: nat :: i < k && AtOrUnder(p, PathOf(ordered[i].folder)) && Permitted(ordered[i].safety, opts)
                && Hidden(p, PathOf(ordered[i].folder), io.entry(i))
  }

  /** What holds of the disk once the first `k` entries are done or begun, whatever failed and
      whatever names its messages have. Every file is accounted for; only messages of the permitted
      ones among these entries that the DB did not know were moved; files and directories are gone
      only from below them; and of unknown mail only what was hidden from its removal. */
  ghost predicate DiskKept(
    entries: seq<Entry>, k: nat, opts: Options, start: Disk, db: Db, idOf: Path -> MaildirId, io: RunIo, now: Disk,
    moved: set<Path>, lost: set<Path>)
    requires UniqueFolders(db.mailboxes) && k <= |entries|
  {
    && Tracked(start.files, now.files, moved, lost)
    && moved <= Unknown(start.files, Begun(entries, k, opts), db, idOf)
    && (forall p :: p in lost ==> Below(entries, k, opts, p))
    && (forall d :: d in start.dirs && d !in now.dirs ==> Below(entries, k, opts, d))
    && (forall d :: d in now.dirs && d !in start.dirs ==> d in RescueDirs() || Below(entries, k, opts, d))
    && (forall p :: p in lost && IsUnknownMail(p, Begun(entries, k, opts), db, idOf) ==>
          LossHidden(entries, k, opts, io, p))
  }

  /** What holds after `k` entries of the run. */
  ghost predicate RunInvariant(
    entries: seq<Entry>, start: Disk, db: Db, idOf: Path -> MaildirId, io: RunIo, opts: Options, k: nat, now: Disk,
    nowDb: Db, outcome: Outcome, moved: set<Path>, lost: set<Path>)
    requires UniqueFolders(db.mailboxes) && k <= |entries|
  {
    && IsTree(now)
    && DiskKept(entries, k, opts, start, db, idOf, io, now, moved, lost)
    && Accounted(entries[..k], opts, outcome)
    && (forall p :: p in lost ==> LossExplained(entries, k, opts, outcome.removed, io, p))
    && nowDb == Pruned(db, ToSet(outcome.removed)) && AllCleared(now, outcome.removed)
  }

  /** The rows when a DB call has failed: those of the folders removed before are gone; if it was
      the row at hand that could not be dropped, the cascade for it has gone through. */
  ghost predicate RowsAtFailure(entries: seq<Entry>, at: nat, io: RunIo, db: Db, nowDb: Db, removed: seq<string>)
    requires UniqueFolders(db.mailboxes)
  {
    var pruned := Pruned(db, ToSet(removed));
    nowDb == if at < |entries| && !io.entry(at).cascadeFails
             then Cascaded(pruned, entries[at].folder, MailboxOf(db.mailboxes, entries[at].folder))
             else pruned
  }

  /** What a DB failure leaves. The entry at which it struck, if it did not strike after the loop,
      is gone from the disk although its row is not dropped. */
  ghost predicate FailedAt(
    entries: seq<Entry>, start: Disk, db: Db, idOf: Path -> MaildirId, io: RunIo, opts: Options, now: Disk, nowDb: Db,
    trace: Trace)
    requires UniqueFolders(db.mailboxes) && trace.at <= |entries|
  {
    && DiskKept(entries, Reached(entries, trace.at), opts, start, db, idOf, io, now, trace.moved, trace.lost)
    && Accounted(entries[..trace.at], opts, trace.done)
    && AllCleared(now, trace.done.removed)
    && (trace.at < |entries| ==>
          && Cleared(now, entries[trace.at].folder) && Permitted(entries[trace.at].safety, opts)
          && (io.entry(trace.at).cascadeFails || io.dropFails(trace.at)))
    && RowsAtFailure(entries, trace.at, io, db, nowDb, trace.done.removed)
  }

  function Reached(entries: seq<Entry>, at: nat): nat {
    if at < |entries| then at + 1 else |entries|
  }

  /** No folder inside a message directory is planned twice; of others it does not matter. */
  ghost predicate OnceUnlessProper(entries: seq<Entry>) {
    forall e :: e in entries ==> Proper(e.folder) || multiset(Map(entries, FolderOf()))[e.folder] <= 1
  }

  // ---------- one removal ----------

  lemma RemovedTwiceIsProper(entries: seq<Entry>, k: nat, opts: Options, outcome: Outcome)
    requires k < |entries| && OnceUnlessProper(entries) && Accounted(entries[..k], opts, outcome)
    requires entries[k].folder in outcome.removed
    ensures Proper(entries[k].folder)
  {
    var f := entries[k].folder;
    var before, rest := entries[..k], entries[k..];
    assert entries == before + rest && rest[0] == entries[k];
    MapConcat(before, rest, FolderOf());
    assert f in multiset(Map(before, FolderOf()));
    assert Map(rest, FolderOf())[0] == f && f in multiset(Map(rest, FolderOf()));
    assert entries[k] in entries;
  }

  /** What a removal moves was unknown when the run began. */
  lemma MovesWereUnknown(
    allowed: seq<Entry>, start: map<Path, Content>, db: Db, idOf: Path -> MaildirId, removed: seq<string>, e: Entry,
    now: Disk, moved: set<Path>, lost: set<Path>, moves: seq<Path>)
    requires UniqueFolders(db.mailboxes) && e in allowed && Tracked(start, now.files, moved, lost)
    requires AllCleared(now, removed) && (e.folder in removed ==> Proper(e.folder)) && AreSources(now.files, moves)
    requires ToSet(moves) <= Unmapped(now.files, Pruned(db, ToSet(removed)), PathOf(e.folder),
                                      MailboxOf(db.mailboxes, e.folder), idOf)
    ensures ToSet(moves) <= Unknown(start, allowed, db, idOf)
  {
    forall m | m in ToSet(moves) ensures m in Unknown(start, allowed, db, idOf) {
      assert m in moves && !InRescue(m) && m in start && IsEntryOf(m, PathOf(e.folder));
      assert AtOrUnder(m, PathOf(e.folder));
      assert e.folder !in ToSet(removed);
      StillKnown(db, ToSet(removed), e.folder);
      RecordedIsKnown(db, e.folder, idOf(m));
      assert IsUnknownOf(m, e.folder, db, idOf);
    }
  }

  /** `after` is `outcome` with `e` entered in the list it belongs to. */
  ghost predicate Entered(outcome: Outcome, e: Entry, opts: Options, after: Outcome) {
    if Permitted(e.safety, opts)
    then after == outcome.(removed := outcome.removed + [e.folder])
         || after == outcome.(deferred := outcome.deferred + [e.folder])
    else after == outcome.(skipped := outcome.skipped + [SkippedEntry()(e)])
  }

  lemma AccountedStep(done: seq<Entry>, e: Entry, opts: Options, outcome: Outcome, after: Outcome)
    requires Accounted(done, opts, outcome) && Entered(outcome, e, opts, after)
    ensures Accounted(done + [e], opts, after)
  {
    NamedStep(outcome, e, opts, after);
    MapConcat(done, [e], FolderOf());
    assert Map([e], FolderOf()) == [e.folder];
    FilterMapSnoc(done, e, (e: Entry) => !Permitted(e.safety, opts), SkippedEntry());
    LetThroughStep(done, e, opts, outcome, after);
  }

  lemma LetThroughStep(done: seq<Entry>, e: Entry, opts: Options, outcome: Outcome, after: Outcome)
    requires forall f :: f in outcome.removed || f in outcome.deferred ==> SomeLetThrough(done, opts, f)
    requires Entered(outcome, e, opts, after)
    ensures forall f :: f in after.removed || f in after.deferred ==> SomeLetThrough(done + [e], opts, f)
  {
    forall f | f in after.removed || f in after.deferred ensures SomeLetThrough(done + [e], opts, f) {
      if f in outcome.removed || f in outcome.deferred {
        var x :| x in done && x.folder == f && Permitted(x.safety, opts);
        assert x in done + [e];
      } else {
        assert e in done + [e];
      }
    }
  }

  lemma NamedStep(outcome: Outcome, e: Entry, opts: Options, after: Outcome)
    requires Entered(outcome, e, opts, after)
    ensures Named(after) == Named(outcome) + multiset([e.folder])
  {
    if !Permitted(e.safety, opts) {
      var name := (s: (string, Safety)) => s.0;
      MapConcat(outcome.skipped, [SkippedEntry()(e)], name);
      assert Map([SkippedEntry()(e)], name) == [e.folder];
    }
  }

  lemma GoneBelow(
    before: Disk, db: Db, folder: string, mailbox: Option<MailboxId>, idOf: Path -> MaildirId, io: Io, after: Disk,
    moves: seq<Path>, gone: set<Path>, taken: bool)
    requires Reshaped(before, db, folder, mailbox, idOf, io, after, moves, gone, taken)
    ensures forall p :: p in gone ==> AtOrUnder(p, PathOf(folder))
    ensures gone != {} ==> taken || io.removal.StopsAfter?
  {
    if Guarded(folder, before).Target? {
      TargetIsPathOf(folder, before);
    }
  }

  lemma LossesStayExplained(
    entries: seq<Entry>, k: nat, opts: Options, removed: seq<string>, more: seq<string>, io: RunIo, lost: set<Path>)
    requires k < |entries| && forall f :: f in removed ==> f in more
    requires forall p :: p in lost ==> LossExplained(entries, k, opts, removed, io, p)
    ensures forall p :: p in lost ==> LossExplained(entries, k + 1, opts, more, io, p)
  {
    forall p | p in lost ensures LossExplained(entries, k + 1, opts, more, io, p) {
      var i: nat :| i < k && AtOrUnder(p, PathOf(entries[i].folder)) && Permitted(entries[i].safety, opts)
                    && (entries[i].folder in removed || io.entry(i).removal.StopsAfter?);
    }
  }

  /** Losses stay explained by more entries. */
  lemma BelowMore(ordered: seq<Entry>, k: nat, more: nat, opts: Options, io: RunIo, p: Path)
    requires k <= more <= |ordered|
    ensures Below(ordered, k, opts, p) ==> Below(ordered, more, opts, p)
    ensures LossHidden(ordered, k, opts, io, p) ==> LossHidden(ordered, more, opts, io, p)
  {
  }

  lemma BegunMore(entries: seq<Entry>, k: nat, more: nat, opts: Options)
    requires k <= more <= |entries|
    ensures forall e :: e in Begun(entries, k, opts) ==> e in Begun(entries, more, opts)
  {
    assert forall e :: e in entries[..k] ==> e in entries[..more];
  }

  lemma NextIsBegun(entries: seq<Entry>, k: nat, opts: Options)
    requires k < |entries| && Permitted(entries[k].safety, opts)
    ensures entries[k] in Begun(entries, k + 1, opts)
  {
    assert entries[..k + 1][k] == entries[k];
  }

  lemma UnknownGrows(few: seq<Entry>, more: seq<Entry>, files: map<Path, Content>, db: Db, idOf: Path -> MaildirId)
    requires UniqueFolders(db.mailboxes) && forall e :: e in few ==> e in more
    ensures Unknown(files, few, db, idOf) <= Unknown(files, more, db, idOf)
    ensures forall p :: IsUnknownMail(p, more, db, idOf) ==> IsUnknownMail(p, few, db, idOf)
  {
  }

  lemma DiskKeptMore(
    entries: seq<Entry>, k: nat, more: nat, opts: Options, start: Disk, db: Db, idOf: Path -> MaildirId, io: RunIo,
    now: Disk, moved: set<Path>, lost: set<Path>)
    requires UniqueFolders(db.mailboxes) && k <= more <= |entries|
    requires DiskKept(entries, k, opts, start, db, idOf, io, now, moved, lost)
    ensures DiskKept(entries, more, opts, start, db, idOf, io, now, moved, lost)
  {
    BegunMore(entries, k, more, opts);
    UnknownGrows(Begun(entries, k, opts), Begun(entries, more, opts), start.files, db, idOf);
    forall p ensures Below(entries, k, opts, p) ==> Below(entries, more, opts, p) {
      BelowMore(entries, k, more, opts, io, p);
    }
    forall p ensures LossHidden(entries, k, opts, io, p) ==> LossHidden(entries, more, opts, io, p) {
      BelowMore(entries, k, more, opts, io, p);
    }
  }

  /** What was deleted that the DB did not know was hidden. */
  lemma UnknownLossIsHidden(
    entries: seq<Entry>, k: nat, opts: Options, db: Db, idOf: Path -> MaildirId, io: RunIo, removed: seq<string>,
    before: Disk, now: Disk, moves: seq<Path>, gone: set<Path>, taken: bool, p: Path)
    requires UniqueFolders(db.mailboxes) && k < |entries| && Permitted(entries[k].safety, opts) && IsTree(before)
    requires Reshaped(before, Pruned(db, ToSet(removed)), entries[k].folder,
                      MailboxOf(db.mailboxes, entries[k].folder), idOf, io.entry(k), now, moves, gone, taken)
    requires IsUnknownMail(p, Begun(entries, k + 1, opts), db, idOf) && p in gone * before.files.Keys - ToSet(moves)
    ensures LossHidden(entries, k + 1, opts, io, p)
  {
    var e := entries[k];
    var mailbox := MailboxOf(db.mailboxes, e.folder);
    NextIsBegun(entries, k, opts);
    KnownShrinks(db, ToSet(removed), mailbox);
    RecordedIsKnown(db, e.folder, idOf(p));
    UnknownIsNotDeleted(before, Pruned(db, ToSet(removed)), e.folder, mailbox, idOf, io.entry(k), now, moves, gone,
                        taken, p);
    GoneBelow(before, Pruned(db, ToSet(removed)), e.folder, mailbox, idOf, io.entry(k), now, moves, gone, taken);
    assert AtOrUnder(p, PathOf(entries[k].folder)) && Hidden(p, PathOf(entries[k].folder), io.entry(k));
  }

  /** A removal keeps the disk as `DiskKept` says, whether or not its DB half works out. */
  lemma RemovalKeepsDisk(
    entries: seq<Entry>, start: Disk, db: Db, idOf: Path -> MaildirId, io: RunIo, opts: Options, k: nat, before: Disk,
    outcome: Outcome, moved: set<Path>, lost: set<Path>, now: Disk, moves: seq<Path>, gone: set<Path>, taken: bool)
    requires UniqueFolders(db.mailboxes) && OnceUnlessProper(entries)
    requires k < |entries| && Permitted(entries[k].safety, opts) && Public(entries[k].folder)
    requires IsTree(before) && DiskKept(entries, k, opts, start, db, idOf, io, before, moved, lost)
    requires Accounted(entries[..k], opts, outcome) && AllCleared(before, outcome.removed)
    requires Reshaped(before, Pruned(db, ToSet(outcome.removed)), entries[k].folder,
                      MailboxOf(db.mailboxes, entries[k].folder), idOf, io.entry(k), now, moves, gone, taken)
    ensures DiskKept(entries, k + 1, opts, start, db, idOf, io, now,
                     moved + ToSet(moves), lost + (gone * before.files.Keys - ToSet(moves)))
    ensures ToSet(moves) <= Unknown(start.files, [entries[k]], db, idOf)
  {
    DiskKeptMore(entries, k, k + 1, opts, start, db, idOf, io, before, moved, lost);
    NextIsBegun(entries, k, opts);
    UnknownGrows([entries[k]], Begun(entries, k + 1, opts), start.files, db, idOf);
    RemovalTracked(entries, start, db, idOf, io, opts, k, before, outcome, moved, lost, now, moves, gone, taken);
    GoneIsBelow(entries, k, opts, db, idOf, io, outcome.removed, before, now, moves, gone, taken);
    UnknownLossesAreHidden(entries, k, opts, db, idOf, io, outcome.removed, before, now, moves, gone, taken);
  }

  /** Only paths below the entry go, directories included. */
  lemma GoneIsBelow(
    entries: seq<Entry>, k: nat, opts: Options, db: Db, idOf: Path -> MaildirId, io: RunIo, removed: seq<string>,
    before: Disk, now: Disk, moves: seq<Path>, gone: set<Path>, taken: bool)
    requires UniqueFolders(db.mailboxes) && k < |entries| && Permitted(entries[k].safety, opts)
    requires Reshaped(before, Pruned(db, ToSet(removed)), entries[k].folder,
                      MailboxOf(db.mailboxes, entries[k].folder), idOf, io.entry(k), now, moves, gone, taken)
    ensures forall p :: p in gone ==> Below(entries, k + 1, opts, p)
    ensures before.dirs <= now.dirs + gone
    ensures forall d :: d in now.dirs && d !in before.dirs ==> d in RescueDirs() || Below(entries, k + 1, opts, d)
  {
    var pruned, mailbox := Pruned(db, ToSet(removed)), MailboxOf(db.mailboxes, entries[k].folder);
    GoneBelow(before, pruned, entries[k].folder, mailbox, idOf, io.entry(k), now, moves, gone, taken);
    DirsGone(before, pruned, entries[k].folder, mailbox, idOf, io.entry(k), now, moves, gone, taken);
    forall p | p in gone ensures Below(entries, k + 1, opts, p) {
      assert AtOrUnder(p, PathOf(entries[k].folder));
    }
    forall d | d in now.dirs && d !in before.dirs && d !in RescueDirs() ensures Below(entries, k + 1, opts, d) {
      assert AtOrUnder(d, PathOf(entries[k].folder));
    }
  }

  lemma UnknownLossesAreHidden(
    entries: seq<Entry>, k: nat, opts: Options, db: Db, idOf: Path -> MaildirId, io: RunIo, removed: seq<string>,
    before: Disk, now: Disk, moves: seq<Path>, gone: set<Path>, taken: bool)
    requires UniqueFolders(db.mailboxes) && k < |entries| && Permitted(entries[k].safety, opts) && IsTree(before)
    requires Reshaped(before, Pruned(db, ToSet(removed)), entries[k].folder,
                      MailboxOf(db.mailboxes, entries[k].folder), idOf, io.entry(k), now, moves, gone, taken)
    ensures forall p :: && p in gone * before.files.Keys - ToSet(moves)
                        && IsUnknownMail(p, Begun(entries, k + 1, opts), db, idOf)
                        ==> LossHidden(entries, k + 1, opts, io, p)
  {
    forall p | p in gone * before.files.Keys - ToSet(moves) && IsUnknownMail(p, Begun(entries, k + 1, opts), db, idOf)
      ensures LossHidden(entries, k + 1, opts, io, p)
    {
      UnknownLossIsHidden(entries, k, opts, db, idOf, io, removed, before, now, moves, gone, taken, p);
    }
  }

  lemma DirsGone(
    before: Disk, db: Db, folder: string, mailbox: Option<MailboxId>, idOf: Path -> MaildirId, io: Io, after: Disk,
    moves: seq<Path>, gone: set<Path>, taken: bool)
    requires Reshaped(before, db, folder, mailbox, idOf, io, after, moves, gone, taken)
    ensures before.dirs <= after.dirs + gone
    ensures forall d :: d in after.dirs && d !in before.dirs ==> d in RescueDirs() || AtOrUnder(d, PathOf(folder))
  {
    if Guarded(folder, before).Target? {
      TargetIsPathOf(folder, before);
      assert forall d :: d in MaildirDirs(PathOf(folder)) ==> AtOrUnder(d, PathOf(folder));
    }
  }

  lemma RemovalTracked(
    entries: seq<Entry>, start: Disk, db: Db, idOf: Path -> MaildirId, io: RunIo, opts: Options, k: nat, before: Disk,
    outcome: Outcome, moved: set<Path>, lost: set<Path>, now: Disk, moves: seq<Path>, gone: set<Path>, taken: bool)
    requires UniqueFolders(db.mailboxes) && OnceUnlessProper(entries)
    requires k < |entries| && Permitted(entries[k].safety, opts) && Public(entries[k].folder)
    requires IsTree(before) && Tracked(start.files, before.files, moved, lost)
    requires Accounted(entries[..k], opts, outcome) && AllCleared(before, outcome.removed)
    requires Reshaped(before, Pruned(db, ToSet(outcome.removed)), entries[k].folder,
                      MailboxOf(db.mailboxes, entries[k].folder), idOf, io.entry(k), now, moves, gone, taken)
    ensures Tracked(start.files, now.files, moved + ToSet(moves), lost + (gone * before.files.Keys - ToSet(moves)))
    ensures ToSet(moves) <= Unknown(start.files, [entries[k]], db, idOf)
  {
    var e := entries[k];
    if Guarded(e.folder, before).Target? {
      TargetIsPublic(e.folder, before);
      TargetIsPathOf(e.folder, before);
      if e.folder in outcome.removed {
        RemovedTwiceIsProper(entries, k, opts, outcome);
      }
      MovesWereUnknown([e], start.files, db, idOf, outcome.removed, e, before, moved, lost, moves);
      forall p | p in gone ensures !InRescue(p) {
        assert p[0] == PathOf(e.folder)[0];
      }
      TrackRemoval(start.files, before.files, moved, lost, moves, gone);
    } else {
      assert moved + ToSet(moves) == moved && lost + (gone * before.files.Keys - ToSet(moves)) == lost;
    }
  }

  lemma SkipBooked(entries: seq<Entry>, k: nat, opts: Options, outcome: Outcome, after: Outcome)
    requires k < |entries| && Accounted(entries[..k], opts, outcome) && Entered(outcome, entries[k], opts, after)
    ensures Accounted(entries[..k + 1], opts, after)
  {
    assert entries[..k + 1] == entries[..k] + [entries[k]];
    AccountedStep(entries[..k], entries[k], opts, outcome, after);
  }

  /** An entry that is not permitted only joins the skipped list. */
  lemma SkipStep(
    entries: seq<Entry>, start: Disk, db: Db, idOf: Path -> MaildirId, io: RunIo, opts: Options, k: nat, now: Disk,
    nowDb: Db, outcome: Outcome, moved: set<Path>, lost: set<Path>, after: Outcome)
    requires UniqueFolders(db.mailboxes) && k < |entries|
    requires RunInvariant(entries, start, db, idOf, io, opts, k, now, nowDb, outcome, moved, lost)
    requires !Permitted(entries[k].safety, opts) && Entered(outcome, entries[k], opts, after)
    ensures RunInvariant(entries, start, db, idOf, io, opts, k + 1, now, nowDb, after, moved, lost)
  {
    SkipBooked(entries, k, opts, outcome, after);
    LossesStayExplained(entries, k, opts, outcome.removed, after.removed, io, lost);
    DiskKeptMore(entries, k, k + 1, opts, start, db, idOf, io, now, moved, lost);
  }

  /** An entry whose removal was tried, on the disk side. */
  lemma RemovalExplainsLosses(
    entries: seq<Entry>, opts: Options, io: RunIo, k: nat, outcome: Outcome, after: Outcome, before: Disk, beforeDb: Db,
    mailbox: Option<MailboxId>, idOf: Path -> MaildirId, now: Disk, moves: seq<Path>, gone: set<Path>, taken: bool,
    lost: set<Path>, nowLost: set<Path>)
    requires k < |entries| && Permitted(entries[k].safety, opts)
    requires forall p :: p in lost ==> LossExplained(entries, k, opts, outcome.removed, io, p)
    requires Entered(outcome, entries[k], opts, after) && (taken ==> entries[k].folder in after.removed)
    requires Reshaped(before, beforeDb, entries[k].folder, mailbox, idOf, io.entry(k), now, moves, gone, taken)
    requires nowLost <= lost + gone
    ensures forall p :: p in nowLost ==> LossExplained(entries, k + 1, opts, after.removed, io, p)
  {
    GoneBelow(before, beforeDb, entries[k].folder, mailbox, idOf, io.entry(k), now, moves, gone, taken);
    LossesStayExplained(entries, k, opts, outcome.removed, after.removed, io, lost);
    forall p | p in nowLost ensures LossExplained(entries, k + 1, opts, after.removed, io, p) {
      if p !in lost {
        assert AtOrUnder(p, PathOf(entries[k].folder));
        assert entries[k].folder in after.removed || io.entry(k).removal.StopsAfter?;
      }
    }
  }

  /** An entry whose removal was tried is deferred, or removed with its rows. */
  lemma RemovalBooked(
    entries: seq<Entry>, db: Db, opts: Options, k: nat, beforeDb: Db, outcome: Outcome, after: Outcome, taken: bool)
    requires UniqueFolders(db.mailboxes) && k < |entries| && Permitted(entries[k].safety, opts)
    requires beforeDb == Pruned(db, ToSet(outcome.removed)) && Accounted(entries[..k], opts, outcome)
    requires after == if taken then outcome.(removed := outcome.removed + [entries[k].folder])
                      else outcome.(deferred := outcome.deferred + [entries[k].folder])
    ensures var mailbox := MailboxOf(db.mailboxes, entries[k].folder);
            var nowDb := if taken then Dropped(Cascaded(beforeDb, entries[k].folder, mailbox), mailbox) else beforeDb;
            nowDb == Pruned(db, ToSet(after.removed))
    ensures Accounted(entries[..k + 1], opts, after)
  {
    var e := entries[k];
    PrunedStep(db, ToSet(outcome.removed), e.folder);
    assert ToSet(outcome.removed + [e.folder]) == ToSet(outcome.removed) + {e.folder};
    assert entries[..k + 1] == entries[..k] + [e];
    AccountedStep(entries[..k], e, opts, outcome, after);
  }

  /** What one attempted removal adds to `RunInvariant`, apart from `DiskKept`. */
  lemma RemovalAdvances(
    entries: seq<Entry>, start: Disk, db: Db, idOf: Path -> MaildirId, io: RunIo, opts: Options, k: nat, before: Disk,
    beforeDb: Db, outcome: Outcome, moved: set<Path>, lost: set<Path>, now: Disk, moves: seq<Path>, gone: set<Path>,
    after: Outcome, taken: bool)
    requires UniqueFolders(db.mailboxes) && k < |entries| && Permitted(entries[k].safety, opts)
             && Public(entries[k].folder)
    requires RunInvariant(entries, start, db, idOf, io, opts, k, before, beforeDb, outcome, moved, lost)
    requires Reshaped(before, beforeDb, entries[k].folder, MailboxOf(db.mailboxes, entries[k].folder), idOf,
                      io.entry(k), now, moves, gone, taken)
    requires taken ==> !Guarded(entries[k].folder, before).Refused?
    requires after == if taken then outcome.(removed := outcome.removed + [entries[k].folder])
                      else outcome.(deferred := outcome.deferred + [entries[k].folder])
    ensures var mailbox := MailboxOf(db.mailboxes, entries[k].folder);
            var nowDb := if taken then Dropped(Cascaded(beforeDb, entries[k].folder, mailbox), mailbox) else beforeDb;
            nowDb == Pruned(db, ToSet(after.removed))
    ensures Accounted(entries[..k + 1], opts, after) && AllCleared(now, after.removed)
    ensures forall p :: p in lost + (gone * before.files.Keys - ToSet(moves)) ==>
              LossExplained(entries, k + 1, opts, after.removed, io, p)
  {
    var mailbox := MailboxOf(db.mailboxes, entries[k].folder);
    RemovalBooked(entries, db, opts, k, beforeDb, outcome, after, taken);
    ClearedStep(before, beforeDb, entries[k].folder, mailbox, idOf, io.entry(k), now, moves, gone, taken,
                outcome.removed);
    RemovalExplainsLosses(entries, opts, io, k, outcome, after, before, beforeDb, mailbox, idOf, now, moves, gone,
                          taken, lost, lost + (gone * before.files.Keys - ToSet(moves)));
  }

  // ---------- runs on which only DB writes fail ----------

  function StepOf(opts: Options): Entry -> CleanRuns.Step {
    (e: Entry) => CleanRuns.Step(e.folder, Permitted(e.safety, opts))
  }

  function StepsOf(entries: seq<Entry>, opts: Options): seq<CleanRuns.Step> {
    Map(entries, StepOf(opts))
  }

  /** The run starts, nothing goes wrong on disk, and the path guard refuses no folder name. What can
      fail are the writes to the DB. */
  ghost predicate Undisturbed(entries: seq<Entry>, start: Disk, opts: Options, io: RunIo) {
    && !io.startFails && (forall k: nat :: CleanRuns.Quiet(io.entry(k)))
    && CleanRuns.Suitable(StepsOf(entries, opts), start)
  }

  /** Nor do those fail, before the cursor is to be cleared. */
  ghost predicate Smooth(entries: seq<Entry>, start: Disk, opts: Options, io: RunIo) {
    Undisturbed(entries, start, opts, io) && forall k: nat :: !io.entry(k).cascadeFails && !io.dropFails(k)
  }

  /** Undisturbed, and in an order that takes descendants first. */
  ghost predicate InOrder(entries: seq<Entry>, start: Disk, opts: Options, io: RunIo) {
    Undisturbed(entries, start, opts, io) && CleanRuns.DescendantsFirst(StepsOf(entries, opts))
  }

  /** Nothing below the folder keeps it from going: every maildir there has a permitted entry. */
  ghost predicate Goes(entries: seq<Entry>, start: Disk, opts: Options, e: Entry) {
    CleanRuns.Goes(StepsOf(entries, opts), start, StepOf(opts)(e))
  }

  /** Of the first `k` entries, those that go. */
  ghost function Going(entries: seq<Entry>, k: nat, start: Disk, opts: Options): seq<Entry>
    requires k <= |entries|
  {
    Filter(entries[..k], (e: Entry) => Goes(entries, start, opts, e))
  }

  ghost predicate HasRow(db: Db, folder: string)
    requires UniqueFolders(db.mailboxes)
  {
    folder in IdByFolder(db.mailboxes)
  }

  /** The folder at `i` goes from the disk, and then its rows cannot be cleared. */
  ghost predicate Breaks(entries: seq<Entry>, start: Disk, db: Db, opts: Options, io: RunIo, i: nat)
    requires UniqueFolders(db.mailboxes) && i < |entries|
  {
    && Goes(entries, start, opts, entries[i])
    && (io.entry(i).cascadeFails || (HasRow(db, entries[i].folder) && io.dropFails(i)))
  }

  ghost predicate UnbrokenTo(entries: seq<Entry>, start: Disk, db: Db, opts: Options, io: RunIo, k: nat)
    requires UniqueFolders(db.mailboxes) && k <= |entries|
  {
    forall i: nat :: i < k ==> !Breaks(entries, start, db, opts, io, i)
  }

  /** The outcome is the one that nesting dictates. */
  ghost predicate Decided(entries: seq<Entry>, done: seq<Entry>, start: Disk, opts: Options, outcome: Outcome) {
    && outcome.removed == Map(Filter(done, (e: Entry) => Goes(entries, start, opts, e)), FolderOf())
    && outcome.deferred
       == Map(Filter(done, (e: Entry) => Permitted(e.safety, opts) && !Goes(entries, start, opts, e)), FolderOf())
  }

  ghost predicate OnCourse(
    entries: seq<Entry>, start: Disk, db: Db, idOf: Path -> MaildirId, opts: Options, io: RunIo, k: nat, now: Disk,
    outcome: Outcome, moved: set<Path>)
    requires UniqueFolders(db.mailboxes) && k <= |entries|
  {
    InOrder(entries, start, opts, io) ==>
      && CleanRuns.Settled(StepsOf(entries, opts), start, k, now)
      && Decided(entries, entries[..k], start, opts, outcome)
      && UnbrokenTo(entries, start, db, opts, io, k)
      && moved <= Unknown(start.files, Going(entries, k, start, opts), db, idOf)
  }

  /** How such a run fails at `k`. */
  ghost predicate BrokenAt(
    entries: seq<Entry>, start: Disk, db: Db, idOf: Path -> MaildirId, opts: Options, io: RunIo, k: nat,
    outcome: Outcome, moved: set<Path>)
    requires UniqueFolders(db.mailboxes) && k < |entries|
  {
    InOrder(entries, start, opts, io) ==>
      && Decided(entries, entries[..k], start, opts, outcome)
      && UnbrokenTo(entries, start, db, opts, io, k) && Breaks(entries, start, db, opts, io, k)
      && moved <= Unknown(start.files, Going(entries, k + 1, start, opts), db, idOf)
  }

  lemma CourseStarts(entries: seq<Entry>, start: Disk, db: Db, idOf: Path -> MaildirId, opts: Options, io: RunIo)
    requires UniqueFolders(db.mailboxes)
    ensures OnCourse(entries, start, db, idOf, opts, io, 0, start, NOTHING_DONE, {})
  {
  }

  lemma DecidedStep(
    entries: seq<Entry>, done: seq<Entry>, e: Entry, start: Disk, opts: Options, outcome: Outcome, after: Outcome)
    requires Decided(entries, done, start, opts, outcome)
    requires if !Permitted(e.safety, opts) then after.removed == outcome.removed && after.deferred == outcome.deferred
             else if Goes(entries, start, opts, e) then after == outcome.(removed := outcome.removed + [e.folder])
             else after == outcome.(deferred := outcome.deferred + [e.folder])
    ensures Decided(entries, done + [e], start, opts, after)
  {
    FilterMapSnoc(done, e, (e: Entry) => Goes(entries, start, opts, e), FolderOf());
    FilterMapSnoc(done, e, (e: Entry) => Permitted(e.safety, opts) && !Goes(entries, start, opts, e), FolderOf());
  }

  lemma GoingMore(entries: seq<Entry>, k: nat, start: Disk, opts: Options)
    requires k < |entries|
    ensures forall e :: e in Going(entries, k, start, opts) ==> e in Going(entries, k + 1, start, opts)
    ensures Goes(entries, start, opts, entries[k]) ==> entries[k] in Going(entries, k + 1, start, opts)
  {
    assert entries[..k + 1] == entries[..k] + [entries[k]];
  }

  lemma SkipKeepsCourse(
    entries: seq<Entry>, start: Disk, db: Db, idOf: Path -> MaildirId, opts: Options, io: RunIo, k: nat, now: Disk,
    outcome: Outcome, moved: set<Path>, after: Outcome)
    requires UniqueFolders(db.mailboxes) && k < |entries|
    requires OnCourse(entries, start, db, idOf, opts, io, k, now, outcome, moved)
    requires !Permitted(entries[k].safety, opts) && after.removed == outcome.removed
             && after.deferred == outcome.deferred
    ensures OnCourse(entries, start, db, idOf, opts, io, k + 1, now, after, moved)
  {
    if InOrder(entries, start, opts, io) {
      assert entries[..k + 1] == entries[..k] + [entries[k]];
      CleanRuns.SkipSettles(StepsOf(entries, opts), start, k, now);
      DecidedStep(entries, entries[..k], entries[k], start, opts, outcome, after);
      GoingMore(entries, k, start, opts);
      UnknownGrows(Going(entries, k, start, opts), Going(entries, k + 1, start, opts), start.files, db, idOf);
    }
  }

  /** On an undisturbed run `taken` says that nesting let the entry at `k` go, and only then
      anything moves. */
  ghost predicate StepTaken(
    entries: seq<Entry>, start: Disk, opts: Options, io: RunIo, k: nat, now: Disk, moves: seq<Path>, taken: bool)
    requires k < |entries|
  {
    InOrder(entries, start, opts, io) ==>
      && CleanRuns.Settled(StepsOf(entries, opts), start, k + 1, now)
      && (taken <==> Goes(entries, start, opts, entries[k])) && (!taken ==> moves == [])
  }

  lemma RemovalIsStep(
    entries: seq<Entry>, start: Disk, opts: Options, io: RunIo, k: nat, before: Disk, db: Db,
    mailbox: Option<MailboxId>, idOf: Path -> MaildirId, now: Disk, moves: seq<Path>, gone: set<Path>, taken: bool)
    requires k < |entries| && Permitted(entries[k].safety, opts)
    requires InOrder(entries, start, opts, io) ==> CleanRuns.Settled(StepsOf(entries, opts), start, k, before)
    requires Reshaped(before, db, entries[k].folder, mailbox, idOf, io.entry(k), now, moves, gone, taken)
    requires taken <==> Removable(entries[k].folder, before, db, mailbox, idOf, io.entry(k))
    ensures StepTaken(entries, start, opts, io, k, now, moves, taken)
  {
    if InOrder(entries, start, opts, io) {
      var steps := StepsOf(entries, opts);
      CleanRuns.RemovalStep(steps, start, k, before, db, mailbox, idOf, io.entry(k), now, moves, gone, taken);
      if !taken {
        CleanRuns.NestingDecides(steps, start, k, before, db, mailbox, idOf, io.entry(k));
        NothingMoved(before, now, moves);
      }
    }
  }

  lemma NothingMoved(before: Disk, now: Disk, moves: seq<Path>)
    requires AreSources(before.files, moves) && now == before
    requires now.files == MovedAll(before.files, moves) - {}
    ensures moves == []
  {
    MovesLand(before.files, moves);
    if moves != [] {
      FirstIsMember(moves);
    }
  }

  /** What moves with the entry at `k` was mail of folders that go. */
  lemma MovedOnCourse(
    entries: seq<Entry>, start: Disk, db: Db, idOf: Path -> MaildirId, opts: Options, io: RunIo, k: nat, before: Disk,
    outcome: Outcome, moved: set<Path>, now: Disk, moves: seq<Path>, taken: bool)
    requires UniqueFolders(db.mailboxes) && k < |entries|
    requires OnCourse(entries, start, db, idOf, opts, io, k, before, outcome, moved)
    requires StepTaken(entries, start, opts, io, k, now, moves, taken)
    requires ToSet(moves) <= Unknown(start.files, [entries[k]], db, idOf)
    ensures InOrder(entries, start, opts, io) ==>
              moved + ToSet(moves) <= Unknown(start.files, Going(entries, k + 1, start, opts), db, idOf)
  {
    if InOrder(entries, start, opts, io) {
      var next := Going(entries, k + 1, start, opts);
      GoingMore(entries, k, start, opts);
      UnknownGrows(Going(entries, k, start, opts), next, start.files, db, idOf);
      if taken {
        UnknownGrows([entries[k]], next, start.files, db, idOf);
      }
    }
  }

  lemma DecidedNext(
    entries: seq<Entry>, k: nat, start: Disk, opts: Options, outcome: Outcome, after: Outcome, taken: bool)
    requires k < |entries| && Decided(entries, entries[..k], start, opts, outcome)
    requires Permitted(entries[k].safety, opts) && (taken <==> Goes(entries, start, opts, entries[k]))
    requires after == if taken then outcome.(removed := outcome.removed + [entries[k].folder])
                      else outcome.(deferred := outcome.deferred + [entries[k].folder])
    ensures Decided(entries, entries[..k + 1], start, opts, after)
  {
    assert entries[..k + 1] == entries[..k] + [entries[k]];
    DecidedStep(entries, entries[..k], entries[k], start, opts, outcome, after);
  }

  lemma UnbrokenNext(entries: seq<Entry>, start: Disk, db: Db, opts: Options, io: RunIo, k: nat)
    requires UniqueFolders(db.mailboxes) && k < |entries| && UnbrokenTo(entries, start, db, opts, io, k)
    ensures !Breaks(entries, start, db, opts, io, k) ==> UnbrokenTo(entries, start, db, opts, io, k + 1)
  {
  }

  lemma RemovalKeepsCourse(
    entries: seq<Entry>, start: Disk, db: Db, idOf: Path -> MaildirId, opts: Options, io: RunIo, k: nat, before: Disk,
    outcome: Outcome, moved: set<Path>, now: Disk, moves: seq<Path>, after: Outcome, taken: bool)
    requires UniqueFolders(db.mailboxes) && k < |entries|
    requires OnCourse(entries, start, db, idOf, opts, io, k, before, outcome, moved)
    requires Permitted(entries[k].safety, opts) && StepTaken(entries, start, opts, io, k, now, moves, taken)
    requires ToSet(moves) <= Unknown(start.files, [entries[k]], db, idOf)
    requires taken ==> !(io.entry(k).cascadeFails || (HasRow(db, entries[k].folder) && io.dropFails(k)))
    requires after == if taken then outcome.(removed := outcome.removed + [entries[k].folder])
                      else outcome.(deferred := outcome.deferred + [entries[k].folder])
    ensures OnCourse(entries, start, db, idOf, opts, io, k + 1, now, after, moved + ToSet(moves))
  {
    if InOrder(entries, start, opts, io) {
      DecidedNext(entries, k, start, opts, outcome, after, taken);
      UnbrokenNext(entries, start, db, opts, io, k);
      MovedOnCourse(entries, start, db, idOf, opts, io, k, before, outcome, moved, now, moves, taken);
    }
  }

  // ---------- the loop ----------

  /** `apply`'s loop body for a permitted entry. */
  method ApplyPermitted(
    store: Store, entries: seq<Entry>, opts: Options, io: RunIo, k: nat, outcome: Outcome, mailbox: Option<MailboxId>,
    ghost start: Disk, ghost db: Db, ghost moved: set<Path>, ghost lost: set<Path>)
    returns (r: Result<Outcome, Error>, ghost nowMoved: set<Path>, ghost nowLost: set<Path>)
    requires UniqueFolders(db.mailboxes) && OnceUnlessProper(entries)
    requires k < |entries| && Permitted(entries[k].safety, opts) && Public(entries[k].folder)
    requires mailbox == MailboxOf(db.mailboxes, entries[k].folder)
    requires RunInvariant(entries, start, db, store.idOf, io, opts, k, store.disk, store.db, outcome, moved, lost)
    requires OnCourse(entries, start, db, store.idOf, opts, io, k, store.disk, outcome, moved)
    modifies store
    ensures r.Ok? ==>
              && RunInvariant(entries, start, db, store.idOf, io, opts, k + 1, store.disk, store.db, r.value, nowMoved,
                              nowLost)
              && OnCourse(entries, start, db, store.idOf, opts, io, k + 1, store.disk, r.value, nowMoved)
    ensures r.Err? ==> && FailedAt(entries, start, db, store.idOf, io, opts, store.disk, store.db,
                                   Trace(outcome, k, nowMoved, nowLost))
                       && BrokenAt(entries, start, db, store.idOf, opts, io, k, outcome, nowMoved)
  {
    var entry := entries[k];
    ghost var before, beforeDb := store.disk, store.db;
    var removal;
    ghost var moves, gone;
    removal, moves, gone := ApplyEntry(store, entry.folder, mailbox, io.entry(k), io.dropFails(k));
    nowMoved, nowLost := moved + ToSet(moves), lost + (gone * before.files.Keys - ToSet(moves));
    RemovalKeepsDisk(entries, start, db, store.idOf, io, opts, k, before, outcome, moved, lost,
                     store.disk, moves, gone, removal != Ok(Skipped));
    RemovalIsStep(entries, start, opts, io, k, before, beforeDb, mailbox, store.idOf,
                  store.disk, moves, gone, removal != Ok(Skipped));
    match removal
    case Err(_) =>
      MovedOnCourse(entries, start, db, store.idOf, opts, io, k, before, outcome, moved, store.disk, moves, true);
      ClearedStep(before, beforeDb, entry.folder, mailbox, store.idOf, io.entry(k), store.disk, moves, gone, true,
                  outcome.removed);
      r := Err(DbFailed);
    case Ok(result) =>
      var after := if result == Removed then outcome.(removed := outcome.removed + [entry.folder])
                   else outcome.(deferred := outcome.deferred + [entry.folder]);
      RemovalAdvances(entries, start, db, store.idOf, io, opts, k, before, beforeDb, outcome, moved, lost,
                      store.disk, moves, gone, after, result == Removed);
      RemovalKeepsCourse(entries, start, db, store.idOf, opts, io, k, before, outcome, moved, store.disk, moves,
                         after, result == Removed);
      r := Ok(after);
  }

  /** `apply`'s loop body. */
  method ApplyAt(
    store: Store, entries: seq<Entry>, opts: Options, io: RunIo, k: nat, outcome: Outcome,
    idByFolder: map<string, MailboxId>, ghost start: Disk, ghost db: Db, ghost moved: set<Path>, ghost lost: set<Path>)
    returns (r: Result<Outcome, Error>, ghost nowMoved: set<Path>, ghost nowLost: set<Path>)
    requires UniqueFolders(db.mailboxes) && OnceUnlessProper(entries) && idByFolder == IdByFolder(db.mailboxes)
    requires k < |entries| && Public(entries[k].folder)
    requires RunInvariant(entries, start, db, store.idOf, io, opts, k, store.disk, store.db, outcome, moved, lost)
    requires OnCourse(entries, start, db, store.idOf, opts, io, k, store.disk, outcome, moved)
    modifies store
    ensures r.Ok? ==>
              && RunInvariant(entries, start, db, store.idOf, io, opts, k + 1, store.disk, store.db, r.value, nowMoved,
                              nowLost)
              && OnCourse(entries, start, db, store.idOf, opts, io, k + 1, store.disk, r.value, nowMoved)
    ensures r.Err? ==> && FailedAt(entries, start, db, store.idOf, io, opts, store.disk, store.db,
                                   Trace(outcome, k, nowMoved, nowLost))
                       && BrokenAt(entries, start, db, store.idOf, opts, io, k, outcome, nowMoved)
  {
    var entry := entries[k];
    if !Permitted(entry.safety, opts) {
      var after := outcome.(skipped := outcome.skipped + [(entry.folder, entry.safety)]);
      SkipStep(entries, start, db, store.idOf, io, opts, k, store.disk, store.db, outcome, moved, lost, after);
      SkipKeepsCourse(entries, start, db, store.idOf, opts, io, k, store.disk, outcome, moved, after);
      return Ok(after), moved, lost;
    }
    var mailbox := if entry.folder in idByFolder then Some(idByFolder[entry.folder]) else None;
    r, nowMoved, nowLost := ApplyPermitted(store, entries, opts, io, k, outcome, mailbox, start, db, moved, lost);
  }

  lemma RunStarts(entries: seq<Entry>, start: Disk, db: Db, idOf: Path -> MaildirId, io: RunIo, opts: Options)
    requires UniqueFolders(db.mailboxes) && IsTree(start)
    ensures RunInvariant(entries, start, db, idOf, io, opts, 0, start, db, NOTHING_DONE, {}, {})
  {
    assert entries[..0] == [];
    assert Pruned(db, {}) == db by {
      assert DroppedIds(db, {}) == {};
      assert Pruned(db, {}).messages == db.messages && Pruned(db, {}).localState == db.localState;
    }
    assert ToSet<string>([]) == {};
  }

  /** `apply`'s loop. */
  method ApplyAll(store: Store, entries: seq<Entry>, opts: Options, io: RunIo, idByFolder: map<string, MailboxId>)
    returns (r: Result<Outcome, Error>, ghost trace: Trace)
    requires IsTree(store.disk) && UniqueFolders(store.db.mailboxes) && idByFolder == IdByFolder(store.db.mailboxes)
    requires OnceUnlessProper(entries) && forall k :: 0 <= k < |entries| ==> Public(entries[k].folder)
    modifies store
    ensures r.Ok? ==> && trace == Trace(r.value, |entries|, trace.moved, trace.lost)
                      && RunInvariant(entries, old(store.disk), old(store.db), store.idOf, io, opts, |entries|,
                                      store.disk, store.db, r.value, trace.moved, trace.lost)
                      && OnCourse(entries, old(store.disk), old(store.db), store.idOf, opts, io, |entries|,
                                  store.disk, r.value, trace.moved)
    ensures r.Err? ==> && r.error == DbFailed && trace.at < |entries|
                       && FailedAt(entries, old(store.disk), old(store.db), store.idOf, io, opts, store.disk, store.db,
                                   trace)
                       && BrokenAt(entries, old(store.disk), old(store.db), store.idOf, opts, io, trace.at,
                                   trace.done, trace.moved)
  {
    ghost var start, db := store.disk, store.db;
    var outcome := NOTHING_DONE;
    ghost var moved, lost: set<Path> := {}, {};
    RunStarts(entries, start, db, store.idOf, io, opts);
    CourseStarts(entries, start, db, store.idOf, opts, io);
    for k := 0 to |entries|
      invariant RunInvariant(entries, start, db, store.idOf, io, opts, k, store.disk, store.db, outcome, moved, lost)
      invariant OnCourse(entries, start, db, store.idOf, opts, io, k, store.disk, outcome, moved)
    {
      var step;
      step, moved, lost := ApplyAt(store, entries, opts, io, k, outcome, idByFolder, start, db, moved, lost);
      if step.Err? {
        return Err(DbFailed), Trace(outcome, k, moved, lost);
      }
      outcome := step.value;
    }
    r, trace := Ok(outcome), Trace(outcome, |entries|, moved, lost);
  }

  // ---------- what apply guarantees ----------

  ghost predicate HadRow(db: Db, removed: seq<string>)
    requires UniqueFolders(db.mailboxes)
  {
    exists f :: f in removed && HasRow(db, f)
  }

  /** What `apply` guarantees, however it ends. `DiskKept` speaks of the disk and is unconditional.
      The entries up to `trace.at` are accounted for once each, and the folders removed among them
      are gone from the disk. On success that is all of them, losses are explained, exactly the
      removed folders' rows are gone, and the cursor is cleared exactly if one of them had a row.
      On failure the rows are as `RowsAtFailure` says and the cursor is as it was. */
  ghost predicate Applied(
    entries: seq<Entry>, start: Disk, db: Db, idOf: Path -> MaildirId, opts: Options, io: RunIo, now: Disk, nowDb: Db,
    r: Result<Outcome, Error>, trace: Trace)
    requires UniqueFolders(db.mailboxes)
  {
    && trace.at <= |entries|
    && match r
       case Ok(outcome) =>
         && trace.done == outcome && trace.at == |entries|
         && RunInvariant(entries, start, db, idOf, io, opts, |entries|, now,
                         nowDb.(mailboxCursor := db.mailboxCursor), outcome, trace.moved, trace.lost)
         && nowDb.mailboxCursor == (db.mailboxCursor && !HadRow(db, outcome.removed))
       case Err(NotStarted) => trace == Trace(NOTHING_DONE, 0, {}, {}) && now == start && nowDb == db
       case Err(DbFailed) =>
         && nowDb.mailboxCursor == db.mailboxCursor
         && FailedAt(entries, start, db, idOf, io, opts, now, nowDb, trace)
         && (trace.at == |entries| ==> io.clearFails && HadRow(db, trace.done.removed))
  }

  /** Containment: outside the rescue maildir, a file or directory that is not at or below a
      permitted entry's folder, of the entries the run came to, is exactly as it was, whatever fails
      and however messages are named. */
  lemma OutsideIsUntouched(
    entries: seq<Entry>, start: Disk, db: Db, idOf: Path -> MaildirId, opts: Options, io: RunIo, now: Disk, nowDb: Db,
    r: Result<Outcome, Error>, trace: Trace, p: Path)
    requires UniqueFolders(db.mailboxes) && Applied(entries, start, db, idOf, opts, io, now, nowDb, r, trace)
    requires !InRescue(p) && !Below(entries, Reached(entries, trace.at), opts, p)
    ensures p in now.files <==> p in start.files
    ensures p in start.files ==> Stays(start.files, now.files, p)
    ensures p !in RescueDirs() ==> (p in now.dirs <==> p in start.dirs)
    ensures p in start.dirs ==> p in now.dirs
  {
    var k := Reached(entries, trace.at);
    DiskIsKept(entries, start, db, idOf, opts, io, now, nowDb, r, trace);
    if p in Unknown(start.files, Begun(entries, k, opts), db, idOf) {
      UnknownIsBelow(entries, k, opts, start.files, db, idOf, p);
    }
  }

  lemma UnknownIsBelow(
    entries: seq<Entry>, k: nat, opts: Options, files: map<Path, Content>, db: Db, idOf: Path -> MaildirId, p: Path)
    requires UniqueFolders(db.mailboxes) && k <= |entries| && p in Unknown(files, Begun(entries, k, opts), db, idOf)
    ensures Below(entries, k, opts, p)
  {
    var e :| e in Begun(entries, k, opts) && IsUnknownOf(p, e.folder, db, idOf);
    var i: nat :| i < k && entries[..k][i] == e;
    assert AtOrUnder(p, PathOf(entries[i].folder));
  }

  lemma DiskIsKept(
    entries: seq<Entry>, start: Disk, db: Db, idOf: Path -> MaildirId, opts: Options, io: RunIo, now: Disk, nowDb: Db,
    r: Result<Outcome, Error>, trace: Trace)
    requires UniqueFolders(db.mailboxes) && Applied(entries, start, db, idOf, opts, io, now, nowDb, r, trace)
    ensures DiskKept(entries, Reached(entries, trace.at), opts, start, db, idOf, io, now, trace.moved, trace.lost)
  {
    if r == Err(NotStarted) {
      RunKeepsStart(entries, start, db, idOf, io, opts);
      DiskKeptMore(entries, 0, Reached(entries, 0), opts, start, db, idOf, io, now, trace.moved, trace.lost);
    }
  }

  lemma RunKeepsStart(entries: seq<Entry>, start: Disk, db: Db, idOf: Path -> MaildirId, io: RunIo, opts: Options)
    requires UniqueFolders(db.mailboxes)
    ensures DiskKept(entries, 0, opts, start, db, idOf, io, start, {}, {})
  {
  }

  /** Conservation, message by message: mail that the DB does not know ends where it was or, if its
      basename is its own, in the rescue maildir with its contents, unless it was hidden from the
      removal of a folder containing it. Only entries that the run came to matter. */
  lemma UnknownMailIsKept(
    entries: seq<Entry>, start: Disk, db: Db, idOf: Path -> MaildirId, opts: Options, io: RunIo, now: Disk, nowDb: Db,
    r: Result<Outcome, Error>, trace: Trace, p: Path)
    requires UniqueFolders(db.mailboxes) && Applied(entries, start, db, idOf, opts, io, now, nowDb, r, trace)
    requires p in start.files && !InRescue(p)
    requires var k := Reached(entries, trace.at);
             && IsUnknownMail(p, Begun(entries, k, opts), db, idOf) && !LossHidden(entries, k, opts, io, p)
             && Alone(start.files, Unknown(start.files, Begun(entries, k, opts), db, idOf), p)
    ensures Stays(start.files, now.files, p) || Rescued(start.files, now.files, p)
  {
    DiskIsKept(entries, start, db, idOf, opts, io, now, nowDb, r, trace);
    if p in trace.moved {
      LoneMessageIsRescued(start.files, now.files, trace.moved, trace.lost,
                           Unknown(start.files, Begun(entries, Reached(entries, trace.at), opts), db, idOf), p);
    }
  }

  /** The entry's label asks for a force flag that is not given. */
  ghost predicate LacksFlag(e: Entry, opts: Options) {
    || (e.safety == NeedsForceNonEmpty && !opts.forceNonEmpty)
    || (e.safety == NeedsForceInConfig && !opts.forceInConfig)
  }

  /** Of the entries the run came to, exactly those that lack their flag are skipped, in order, with
      their label; so a safe one never is. */
  lemma SkippedMeans(
    entries: seq<Entry>, start: Disk, db: Db, idOf: Path -> MaildirId, opts: Options, io: RunIo, now: Disk, nowDb: Db,
    r: Result<Outcome, Error>, trace: Trace)
    requires UniqueFolders(db.mailboxes) && Applied(entries, start, db, idOf, opts, io, now, nowDb, r, trace)
    ensures SkipsByFlag(entries[..trace.at], opts, trace.done.skipped)
    ensures forall s :: s in trace.done.skipped ==>
              && s.1 != Safe
              && (s.1 == NeedsForceNonEmpty ==> !opts.forceNonEmpty)
              && (s.1 == NeedsForceInConfig ==> !opts.forceInConfig)
    ensures forall e :: e in entries[..trace.at] ==>
              && (e.safety == NeedsForceNonEmpty && !opts.forceNonEmpty ==> (e.folder, e.safety) in trace.done.skipped)
              && (e.safety == NeedsForceInConfig && !opts.forceInConfig ==> (e.folder, e.safety) in trace.done.skipped)
  {
    AccountIsKept(entries, start, db, idOf, opts, io, now, nowDb, r, trace);
    AccountSkips(entries[..trace.at], opts, trace.done);
  }

  ghost predicate SkipsByFlag(done: seq<Entry>, opts: Options, skipped: seq<(string, Safety)>) {
    exists picked: seq<Entry> ::
      && IsPickOf(picked, done, (e: Entry) => LacksFlag(e, opts)) && |picked| == |skipped|
      && forall i :: 0 <= i < |picked| ==> skipped[i] == (picked[i].folder, picked[i].safety)
  }

  lemma AccountSkips(done: seq<Entry>, opts: Options, outcome: Outcome)
    requires Accounted(done, opts, outcome)
    ensures SkipsByFlag(done, opts, outcome.skipped)
    ensures forall s :: s in outcome.skipped ==>
              exists e :: e in done && LacksFlag(e, opts) && s == (e.folder, e.safety)
    ensures forall e :: e in done && LacksFlag(e, opts) ==> (e.folder, e.safety) in outcome.skipped
  {
    var picked := Filter(done, (e: Entry) => LacksFlag(e, opts));
    FilterAgrees(done, (e: Entry) => !Permitted(e.safety, opts), (e: Entry) => LacksFlag(e, opts));
    FilterPicks(done, (e: Entry) => LacksFlag(e, opts));
    LabelledMembers(picked, outcome.skipped);
  }

  lemma LabelledMembers(picked: seq<Entry>, skipped: seq<(string, Safety)>)
    requires |picked| == |skipped| && forall i :: 0 <= i < |picked| ==>
               skipped[i] == (picked[i].folder, picked[i].safety)
    ensures forall s :: s in skipped ==> exists e :: e in picked && s == (e.folder, e.safety)
    ensures forall e :: e in picked ==> (e.folder, e.safety) in skipped
  {
    forall s | s in skipped ensures exists e :: e in picked && s == (e.folder, e.safety) {
      var i :| 0 <= i < |picked| && skipped[i] == s;
      assert picked[i] in picked;
    }
    forall e | e in picked ensures (e.folder, e.safety) in skipped {
      var i :| 0 <= i < |picked| && picked[i] == e;
      assert skipped[i] == (e.folder, e.safety);
    }
  }

  lemma AccountIsKept(
    entries: seq<Entry>, start: Disk, db: Db, idOf: Path -> MaildirId, opts: Options, io: RunIo, now: Disk, nowDb: Db,
    r: Result<Outcome, Error>, trace: Trace)
    requires UniqueFolders(db.mailboxes) && Applied(entries, start, db, idOf, opts, io, now, nowDb, r, trace)
    ensures Accounted(entries[..trace.at], opts, trace.done)
  {
  }

  /** The row of a folder stays, however the run ends, if every entry for the folder lacks its flag. */
  lemma RowOfSkippedStays(
    entries: seq<Entry>, start: Disk, db: Db, idOf: Path -> MaildirId, opts: Options, io: RunIo, now: Disk, nowDb: Db,
    r: Result<Outcome, Error>, trace: Trace, id: MailboxId)
    requires UniqueFolders(db.mailboxes) && Applied(entries, start, db, idOf, opts, io, now, nowDb, r, trace)
    requires id in db.mailboxes && forall e :: e in entries && e.folder == db.mailboxes[id] ==> LacksFlag(e, opts)
    ensures id in nowDb.mailboxes && nowDb.mailboxes[id] == db.mailboxes[id]
  {
    AccountIsKept(entries, start, db, idOf, opts, io, now, nowDb, r, trace);
    RowsThatAreLeft(entries, start, db, idOf, opts, io, now, nowDb, r, trace);
    var f := db.mailboxes[id];
    forall e | e in entries[..trace.at] && e.folder == f ensures !Permitted(e.safety, opts) {
      assert e in entries;
    }
    assert f !in ToSet(trace.done.removed);
  }

  /** The cursor goes stale exactly when a DB failure ends a run in which it was set and a folder
      that had a row was already removed. */
  lemma StaleCursorIff(
    entries: seq<Entry>, start: Disk, db: Db, idOf: Path -> MaildirId, opts: Options, io: RunIo, now: Disk, nowDb: Db,
    r: Result<Outcome, Error>, trace: Trace)
    requires UniqueFolders(db.mailboxes) && Applied(entries, start, db, idOf, opts, io, now, nowDb, r, trace)
    ensures nowDb.mailboxCursor && nowDb.mailboxes != db.mailboxes
            <==> && r.Err? && db.mailboxCursor
                 && exists id :: id in db.mailboxes && db.mailboxes[id] in trace.done.removed
  {
    RowsThatAreLeft(entries, start, db, idOf, opts, io, now, nowDb, r, trace);
    RowsGoneIff(db, trace.done.removed);
    HadRowMeans(db, trace.done.removed);
  }

  lemma HadRowMeans(db: Db, removed: seq<string>)
    requires UniqueFolders(db.mailboxes)
    ensures HadRow(db, removed) <==> exists id :: id in db.mailboxes && db.mailboxes[id] in removed
  {
    if f :| f in removed && HasRow(db, f) {
      var id := IdByFolder(db.mailboxes)[f];
      assert db.mailboxes[id] == f;
    }
    if id :| id in db.mailboxes && db.mailboxes[id] in removed {
      assert HasRow(db, db.mailboxes[id]);
    }
  }

  /** The folders whose rows, `mailbox_map` aside, are gone: those removed, and one at which dropping
      the row failed after its cascade. */
  ghost function ClearedFolders(entries: seq<Entry>, io: RunIo, r: Result<Outcome, Error>, trace: Trace): set<string> {
    ToSet(trace.done.removed)
    + (if r == Err(DbFailed) && trace.at < |entries| && !io.entry(trace.at).cascadeFails
       then {entries[trace.at].folder} else {})
  }

  /** However a run ends, the other tables lack exactly what belongs to those folders: their
      mailboxes' messages, their local state and their checkpoints. */
  lemma TablesThatAreLeft(
    entries: seq<Entry>, start: Disk, db: Db, idOf: Path -> MaildirId, opts: Options, io: RunIo, now: Disk, nowDb: Db,
    r: Result<Outcome, Error>, trace: Trace)
    requires UniqueFolders(db.mailboxes) && Applied(entries, start, db, idOf, opts, io, now, nowDb, r, trace)
    ensures var cleared := ClearedFolders(entries, io, r, trace);
            && (forall e :: e in nowDb.messages
                            <==> e in db.messages
                                 && !(db.messages[e].mailbox in db.mailboxes
                                    && db.mailboxes[db.messages[e].mailbox] in cleared))
            && (forall e :: e in nowDb.messages ==> nowDb.messages[e] == db.messages[e])
            && (forall m :: m in nowDb.localState <==> m in db.localState && db.localState[m] !in cleared)
            && (forall m :: m in nowDb.localState ==> nowDb.localState[m] == db.localState[m])
            && nowDb.checkpoints == db.checkpoints - cleared
  {
    DbAtEnd(entries, start, db, idOf, opts, io, now, nowDb, r, trace);
    TablesCleared(entries, db, io, nowDb, r, trace);
  }

  lemma TablesCleared(entries: seq<Entry>, db: Db, io: RunIo, nowDb: Db, r: Result<Outcome, Error>, trace: Trace)
    requires UniqueFolders(db.mailboxes)
    requires r == Err(NotStarted) ==> nowDb == db && trace.done.removed == []
    requires r == Err(DbFailed) ==> RowsAtFailure(entries, trace.at, io, db, nowDb, trace.done.removed)
    requires r.Ok? ==> nowDb.(mailboxCursor := db.mailboxCursor) == Pruned(db, ToSet(trace.done.removed))
    ensures var pruned := Pruned(db, ClearedFolders(entries, io, r, trace));
            && nowDb.messages == pruned.messages && nowDb.localState == pruned.localState
            && nowDb.checkpoints == pruned.checkpoints
  {
    if r == Err(NotStarted) {
      NothingCleared(db);
    } else if r == Err(DbFailed) && trace.at < |entries| && !io.entry(trace.at).cascadeFails {
      CascadeAfter(db, ToSet(trace.done.removed), entries[trace.at].folder);
    } else {
      assert ClearedFolders(entries, io, r, trace) == ToSet(trace.done.removed);
      if r.Ok? {
        assert nowDb.messages == nowDb.(mailboxCursor := db.mailboxCursor).messages;
      } else {
        assert r == Err(r.error) && r.error == DbFailed;
      }
    }
  }

  lemma DbAtEnd(
    entries: seq<Entry>, start: Disk, db: Db, idOf: Path -> MaildirId, opts: Options, io: RunIo, now: Disk, nowDb: Db,
    r: Result<Outcome, Error>, trace: Trace)
    requires UniqueFolders(db.mailboxes) && Applied(entries, start, db, idOf, opts, io, now, nowDb, r, trace)
    ensures r == Err(NotStarted) ==> nowDb == db && trace.done.removed == []
    ensures r == Err(DbFailed) ==> RowsAtFailure(entries, trace.at, io, db, nowDb, trace.done.removed)
    ensures r.Ok? ==> nowDb.(mailboxCursor := db.mailboxCursor) == Pruned(db, ToSet(trace.done.removed))
  {
  }

  lemma NothingCleared(db: Db)
    ensures var pruned := Pruned(db, ToSet<string>([]) + {});
            db.messages == pruned.messages && db.localState == pruned.localState && db.checkpoints == pruned.checkpoints
  {
    assert ToSet<string>([]) + {} == {} && DroppedIds(db, {}) == {};
  }

  lemma CascadeAfter(db: Db, removed: set<string>, folder: string)
    requires UniqueFolders(db.mailboxes)
    ensures var cascaded := Cascaded(Pruned(db, removed), folder, MailboxOf(db.mailboxes, folder));
            var more := Pruned(db, removed + {folder});
            cascaded.messages == more.messages && cascaded.localState == more.localState
            && cascaded.checkpoints == more.checkpoints
  {
    PrunedStep(db, removed, folder);
  }

  /** However a run ends, `mailbox_map` lacks exactly the rows of the folders it removed. */
  lemma RowsThatAreLeft(
    entries: seq<Entry>, start: Disk, db: Db, idOf: Path -> MaildirId, opts: Options, io: RunIo, now: Disk, nowDb: Db,
    r: Result<Outcome, Error>, trace: Trace)
    requires UniqueFolders(db.mailboxes) && Applied(entries, start, db, idOf, opts, io, now, nowDb, r, trace)
    ensures nowDb.mailboxes == db.mailboxes - DroppedIds(db, ToSet(trace.done.removed))
    ensures nowDb.mailboxCursor == (db.mailboxCursor && (r.Ok? ==> !HadRow(db, trace.done.removed)))
  {
    if r == Err(NotStarted) {
      assert DroppedIds(db, {}) == {} && ToSet<string>([]) == {};
    }
  }

  lemma RowsGoneIff(db: Db, removed: seq<string>)
    requires UniqueFolders(db.mailboxes)
    ensures db.mailboxes - DroppedIds(db, ToSet(removed)) != db.mailboxes <==> HadRow(db, removed)
  {
    var left := db.mailboxes - DroppedIds(db, ToSet(removed));
    if HadRow(db, removed) {
      var f :| f in removed && f in IdByFolder(db.mailboxes);
      var id := IdByFolder(db.mailboxes)[f];
      assert id in db.mailboxes && id !in left;
    } else {
      forall id | id in db.mailboxes ensures db.mailboxes[id] !in ToSet(removed) {
        assert db.mailboxes[id] in IdByFolder(db.mailboxes);
      }
      assert DroppedIds(db, ToSet(removed)) == {};
    }
  }

  // ---------- apply ----------

  /** `apply` after the loop: the cursor is cleared if a removed folder had a row. */
  method CloseRun(
    store: Store, entries: seq<Entry>, opts: Options, io: RunIo, idByFolder: map<string, MailboxId>, outcome: Outcome,
    ghost start: Disk, ghost db: Db, ghost trace: Trace)
    returns (r: Result<Outcome, Error>)
    requires UniqueFolders(db.mailboxes) && idByFolder == IdByFolder(db.mailboxes)
    requires trace == Trace(outcome, |entries|, trace.moved, trace.lost)
    requires RunInvariant(entries, start, db, store.idOf, io, opts, |entries|, store.disk, store.db, outcome,
                          trace.moved, trace.lost)
    modifies store`db
    ensures Applied(entries, start, db, store.idOf, opts, io, store.disk, store.db, r, trace)
    ensures r == if io.clearFails && HadRow(db, outcome.removed) then Err(DbFailed) else Ok(outcome)
  {
    ghost var nowDb := store.db;
    assert entries[..|entries|] == entries;
    if exists f :: f in outcome.removed && f in idByFolder {
      if io.clearFails {
        return Err(DbFailed);
      }
      store.db := store.db.(mailboxCursor := false);
    }
    assert store.db.(mailboxCursor := db.mailboxCursor) == nowDb;
    r := Ok(outcome);
  }

  /** While only DB writes fail, the run ends where the first such failure strikes a folder that
      went; up to there the outcome is the one that nesting dictates, and the mail of the folders
      that went, and no other, has moved. After the loop only clearing the cursor can fail. */
  ghost predicate SettledByNesting(
    entries: seq<Entry>, start: Disk, db: Db, idOf: Path -> MaildirId, opts: Options, io: RunIo,
    r: Result<Outcome, Error>, trace: Trace)
    requires UniqueFolders(db.mailboxes)
  {
    Undisturbed(entries, start, opts, io) ==>
      && trace.at <= |entries| && UnbrokenTo(entries, start, db, opts, io, trace.at)
      && (trace.at < |entries| ==> Breaks(entries, start, db, opts, io, trace.at))
      && Decided(entries, entries[..trace.at], start, opts, trace.done)
      && trace.moved <= Unknown(start.files, Going(entries, Reached(entries, trace.at), start, opts), db, idOf)
      && r == if trace.at < |entries| || (io.clearFails && HadRow(db, trace.done.removed)) then Err(DbFailed)
              else Ok(trace.done)
  }

  /** A smooth run gets to the end. */
  lemma SmoothRunEnds(
    entries: seq<Entry>, start: Disk, db: Db, idOf: Path -> MaildirId, opts: Options, io: RunIo,
    r: Result<Outcome, Error>, trace: Trace)
    requires UniqueFolders(db.mailboxes)
    requires Smooth(entries, start, opts, io) && SettledByNesting(entries, start, db, idOf, opts, io, r, trace)
    ensures trace.at == |entries| && Decided(entries, entries, start, opts, trace.done)
    ensures r == if io.clearFails && HadRow(db, trace.done.removed) then Err(DbFailed) else Ok(trace.done)
  {
    assert entries[..|entries|] == entries;
  }

  /** `apply` from the loop on. */
  method ApplyEntries(store: Store, entries: seq<Entry>, opts: Options, io: RunIo)
    returns (r: Result<Outcome, Error>, ghost trace: Trace)
    requires IsTree(store.disk) && UniqueFolders(store.db.mailboxes)
    requires OnceUnlessProper(entries) && forall k :: 0 <= k < |entries| ==> Public(entries[k].folder)
    modifies store
    ensures Applied(entries, old(store.disk), old(store.db), store.idOf, opts, io, store.disk, store.db, r, trace)
    ensures r != Err(NotStarted)
    ensures CleanRuns.DescendantsFirst(StepsOf(entries, opts)) ==>
              SettledByNesting(entries, old(store.disk), old(store.db), store.idOf, opts, io, r, trace)
  {
    ghost var start, db := store.disk, store.db;
    var idByFolder := IdByFolder(store.db.mailboxes);
    r, trace := ApplyAll(store, entries, opts, io, idByFolder);
    if r.Ok? {
      r := CloseRun(store, entries, opts, io, idByFolder, r.value, start, db, trace);
    } else {
      FailedKeepsCursor(entries, start, db, store.idOf, io, opts, store.disk, store.db, trace);
    }
  }

  lemma FailedKeepsCursor(
    entries: seq<Entry>, start: Disk, db: Db, idOf: Path -> MaildirId, io: RunIo, opts: Options, now: Disk, nowDb: Db,
    trace: Trace)
    requires UniqueFolders(db.mailboxes) && trace.at <= |entries|
    requires FailedAt(entries, start, db, idOf, io, opts, now, nowDb, trace)
    ensures nowDb.mailboxCursor == db.mailboxCursor
  {
  }

  /** Sorting puts every folder before those above it. */
  lemma ProcessingIsDeepestFirst(entries: seq<Entry>, opts: Options)
    requires forall e :: e in entries ==> Ordinary(e.folder)
    ensures CleanRuns.DescendantsFirst(StepsOf(Processing(entries), opts))
  {
    var ordered := Processing(entries);
    forall i, j | 0 <= i < j < |ordered| ensures !(PathOf(ordered[i].folder) < PathOf(ordered[j].folder)) {
      DeepestFirst(entries, i, j);
      assert ordered[i] in multiset(ordered) && ordered[j] in multiset(ordered);
      CleanRuns.PathsAreSplits(ordered[i].folder);
      CleanRuns.PathsAreSplits(ordered[j].folder);
      Mailboxes.UnderMeansProperPrefix(ordered[j].folder, ordered[i].folder);
    }
  }

  lemma UndisturbedIsOrdinary(entries: seq<Entry>, start: Disk, opts: Options, io: RunIo)
    requires Undisturbed(Processing(entries), start, opts, io)
    ensures forall e :: e in entries ==> Ordinary(e.folder)
  {
    var ordered := Processing(entries);
    forall e | e in entries ensures Ordinary(e.folder) {
      assert e in multiset(ordered);
      var k :| 0 <= k < |ordered| && ordered[k] == e;
      assert StepsOf(ordered, opts)[k] in StepsOf(ordered, opts);
    }
  }

  /** A smooth run of permitted entries defers nothing exactly when every maildir nested below
      one of them has a permitted entry of its own. */
  lemma NothingDeferredIff(entries: seq<Entry>, start: Disk, opts: Options, outcome: Outcome)
    requires Decided(entries, entries, start, opts, outcome)
    ensures outcome.deferred == []
            <==> forall e, d :: e in entries && Permitted(e.safety, opts)
                                && d in start.dirs && Reaches(CLEAR, PathOf(e.folder), d) && IsMaildir(start.dirs, d)
                   ==> exists f :: f in entries && Permitted(f.safety, opts) && PathOf(f.folder) == d
  {
    forall d ensures CleanRuns.Planned(StepsOf(entries, opts), d)
                     <==> exists f :: f in entries && Permitted(f.safety, opts) && PathOf(f.folder) == d {
      PlannedMeansEntry(entries, opts, d);
    }
    FilterIsEmpty(entries, (e: Entry) => Permitted(e.safety, opts) && !Goes(entries, start, opts, e));
  }

  lemma PlannedMeansEntry(entries: seq<Entry>, opts: Options, d: Path)
    ensures CleanRuns.Planned(StepsOf(entries, opts), d)
            <==> exists f :: f in entries && Permitted(f.safety, opts) && PathOf(f.folder) == d
  {
    if f :| f in entries && Permitted(f.safety, opts) && PathOf(f.folder) == d {
      var k :| 0 <= k < |entries| && entries[k] == f;
      assert StepsOf(entries, opts)[k] in StepsOf(entries, opts);
    }
    if s :| s in StepsOf(entries, opts) && s.permitted && PathOf(s.folder) == d {
      var k :| 0 <= k < |entries| && StepsOf(entries, opts)[k] == s;
      assert entries[k] in entries;
    }
  }

  /** A run with no entries does nothing. */
  lemma RunIsNothing(start: Disk, db: Db, idOf: Path -> MaildirId, io: RunIo, opts: Options)
    requires UniqueFolders(db.mailboxes) && IsTree(start)
    ensures Applied([], start, db, idOf, opts, io, start, db, Ok(NOTHING_DONE), Trace(NOTHING_DONE, 0, {}, {}))
    ensures SettledByNesting([], start, db, idOf, opts, io, Ok(NOTHING_DONE), Trace(NOTHING_DONE, 0, {}, {}))
  {
    RunStarts([], start, db, idOf, io, opts);
  }

  lemma SortedEntries(entries: seq<Entry>)
    requires OnceUnlessProper(entries) && forall e :: e in entries ==> Public(e.folder)
    ensures OnceUnlessProper(Processing(entries))
    ensures forall k :: 0 <= k < |Processing(entries)| ==> Public(Processing(entries)[k].folder)
  {
    var ordered := Processing(entries);
    MapMultiset(ordered, entries, FolderOf());
    forall e | e in ordered ensures e in entries {
      assert e in multiset(ordered);
    }
  }

  /** `apply`. */
  method Apply(
    store: Store, plan: Plan, opts: Options, io: RunIo)
    returns (r: Result<Outcome, Error>, ghost trace: Trace)
    requires IsTree(store.disk) && UniqueFolders(store.db.mailboxes)
    requires OnceUnlessProper(plan.entries) && forall e :: e in plan.entries ==> Public(e.folder)
    modifies store
    ensures Applied(Processing(plan.entries), old(store.disk), old(store.db), store.idOf, opts, io,
                    store.disk, store.db, r, trace)
    ensures r == Err(NotStarted) <==> plan.entries != [] && io.startFails
    ensures SettledByNesting(Processing(plan.entries), old(store.disk), old(store.db), store.idOf, opts, io, r, trace)
  {
    var entries := Processing(plan.entries);
    if plan.entries == [] {
      RunIsNothing(store.disk, store.db, store.idOf, io, opts);
      return Ok(NOTHING_DONE), Trace(NOTHING_DONE, 0, {}, {});
    }
    if io.startFails {
      return Err(NotStarted), Trace(NOTHING_DONE, 0, {}, {});
    }
    SortedEntries(plan.entries);
    if Undisturbed(entries, store.disk, opts, io) {
      UndisturbedIsOrdinary(plan.entries, store.disk, opts, io);
      ProcessingIsDeepestFirst(plan.entries, opts);
    }
    r, trace := ApplyEntries(store, entries, opts, io);
  }

  // ---------- an input at which the cursor goes stale ----------

  const ORPHAN := Entry("a", DbOnlyOrphan, 0, false, Safe)
  const ORPHAN_DB := Db(map[], map[], {}, map["id" := "a"], true)
  const BARE_DISK := Disk(map[], {[]})
  const QUIET := Io(false, CLEAR, {}, false, false, {}, false, {}, Completes, false)
  const UNCLEARED := RunIo(false, _ => QUIET, _ => false, true)
  const UNFORCED := Options(false, false)

  /** The one folder is removed with its row, and then the cursor cannot be cleared. */
  method StaleCursorExample(idOf: Path -> MaildirId) returns (store: Store, r: Result<Outcome, Error>)
    ensures r == Err(DbFailed) && store.db.mailboxes == map[] && store.db.mailboxCursor
  {
    store := new Store(BARE_DISK, ORPHAN_DB, idOf);
    RootedFolder();
    assert [ORPHAN][1..] == [] && Processing([ORPHAN]) == [ORPHAN];
    ghost var trace;
    r, trace := Apply(store, Plan([ORPHAN], []), UNFORCED, UNCLEARED);
    OrphanIsRemoved(idOf, r, trace);
    RowsThatAreLeft([ORPHAN], BARE_DISK, ORPHAN_DB, idOf, UNFORCED, UNCLEARED, store.disk, store.db, r, trace);
  }

  lemma OrphanRunIsSmooth()
    ensures Smooth([ORPHAN], BARE_DISK, UNFORCED, UNCLEARED) && Goes([ORPHAN], BARE_DISK, UNFORCED, ORPHAN)
  {
    RootedFolder();
    var steps := StepsOf([ORPHAN], UNFORCED);
    assert steps == [CleanRuns.Step("a", true)];
    assert CleanRuns.Regular(BARE_DISK, "a");
    assert CleanRuns.Suitable(steps, BARE_DISK);
  }

  lemma OrphanIsRemoved(idOf: Path -> MaildirId, r: Result<Outcome, Error>, trace: Trace)
    requires SettledByNesting([ORPHAN], BARE_DISK, ORPHAN_DB, idOf, UNFORCED, UNCLEARED, r, trace)
    ensures r == Err(DbFailed) && trace.done.removed == ["a"]
    ensures ORPHAN_DB.mailboxes - DroppedIds(ORPHAN_DB, ToSet(trace.done.removed)) == map[]
  {
    OrphanRunIsSmooth();
    FilterOne(ORPHAN, (e: Entry) => Goes([ORPHAN], BARE_DISK, UNFORCED, e));
    assert trace.done.removed == ["a"];
    OrphanHasRow();
  }

  lemma OrphanHasRow()
    ensures HadRow(ORPHAN_DB, ["a"]) && ORPHAN_DB.mailboxes - DroppedIds(ORPHAN_DB, ToSet(["a"])) == map[]
  {
    assert "a" in ["a"] && "a" in IdByFolder(ORPHAN_DB.mailboxes);
    assert DroppedIds(ORPHAN_DB, ToSet(["a"])) == {"id"};
  }

  lemma FilterOne(e: Entry, p: Entry -> bool)
    requires p(e)
    ensures Filter([e], p) == [e]
  {
  }

  lemma RootedFolder()
    ensures Split("a", '/') == ["a"] && PathOf("a") == ["a"] && Public("a") && Ordinary("a") && Proper("a")
    ensures IsTree(Disk(map[], {[]}))
  {
    SplitAtom("a", '/');
    OrdinaryIsLexical(["a"], []);
  }
}
