/** `src/maildir_ops/removal.rs`: destroy one folder's tree without losing mail the server lacks. */
module Removal {
  import opened Common
  import opened Text

  /** A path below the maildir root, component by component; the root itself is empty. */
  type Path = seq<string>
  type Content = seq<byte>
  type MailboxId = string
  type MaildirId = string

  const RESCUE_FOLDER_NAME: string := ".jma-rescue"

  /** `is_jma_private`. */
  predicate IsJmaPrivate(name: string) {
    ".jma." <= name || ".jma-" <= name
  }

  /** A directory name the maildir walks descend into. */
  predicate IsPlain(name: string) {
    name !in {"cur", "new", "tmp"} && !IsJmaPrivate(name)
  }

  // ---------- the disk ----------

  datatype Disk = Disk(files: map<Path, Content>, dirs: set<Path>)

  predicate AtOrUnder(p: Path, dir: Path) {
    dir <= p
  }

  function Parent(p: Path): Path {
    if p == [] then [] else p[..|p| - 1]
  }

  ghost predicate ParentsPresent(dirs: set<Path>) {
    forall d {:trigger Parent(d)} :: d in dirs && d != [] ==> Parent(d) in dirs
  }

  ghost predicate IsTree(disk: Disk) {
    && [] in disk.dirs && disk.files.Keys !! disk.dirs
    && ParentsPresent(disk.dirs)
    && [] !in disk.files
    && (forall f {:trigger Parent(f)} :: f in disk.files ==> Parent(f) in disk.dirs)
  }

  predicate IsMaildir(dirs: set<Path>, p: Path) {
    p + ["cur"] in dirs || p + ["new"] in dirs
  }

  /** A message file: `<folder>/cur/<name>` or `<folder>/new/<name>`, dotfiles aside. */
  predicate IsEntryOf(p: Path, folder: Path) {
    && |p| == |folder| + 2 && folder <= p
    && p[|folder|] in {"cur", "new"} && !("." <= p[|folder| + 1])
  }

  function RescuePath(p: Path): Path
    requires p != []
  {
    [RESCUE_FOLDER_NAME, "cur", p[|p| - 1]]
  }

  function RescueDirs(): set<Path> {
    {[RESCUE_FOLDER_NAME], [RESCUE_FOLDER_NAME, "cur"], [RESCUE_FOLDER_NAME, "new"], [RESCUE_FOLDER_NAME, "tmp"]}
  }

  // ---------- moving files to the rescue maildir ----------

  /** `rename` into the rescue maildir, which replaces whatever is at the destination. */
  function Moved(files: map<Path, Content>, p: Path): map<Path, Content> {
    if p in files && p != [] then (files - {p})[RescuePath(p) := files[p]] else files
  }

  /** The files after moving `moves`, in that order. */
  ghost function MovedAll(files: map<Path, Content>, moves: seq<Path>): map<Path, Content> {
    if moves == [] then files
    else Moved(MovedAll(files, moves[..|moves| - 1]), moves[|moves| - 1])
  }

  /** Distinct files, none of them in the rescue maildir already. */
  ghost predicate AreSources(files: map<Path, Content>, moves: seq<Path>) {
    && Distinct(moves)
    && forall m :: m in moves ==> m in files && m != [] && m[0] != RESCUE_FOLDER_NAME
  }

  /** Nothing of different content already has, or is to get, a moved file's new name. */
  ghost predicate NoClash(files: map<Path, Content>, moves: seq<Path>)
    requires AreSources(files, moves)
  {
    && (forall m, n :: m in moves && n in moves && RescuePath(m) == RescuePath(n) ==> files[m] == files[n])
    && (forall m :: m in moves && RescuePath(m) in files ==> files[RescuePath(m)] == files[m])
  }

  /** A path that is neither moved nor moved onto is as it was. */
  lemma {:induction false} OthersStay(files: map<Path, Content>, moves: seq<Path>, p: Path)
    requires p !in moves && forall m :: m in moves && m != [] ==> RescuePath(m) != p
    ensures p in MovedAll(files, moves) <==> p in files
    ensures p in files ==> MovedAll(files, moves)[p] == files[p]
  {
    if moves == [] {
    } else {
      OthersStay(files, moves[..|moves| - 1], p);
    }
  }

  lemma SourcePrefix(files: map<Path, Content>, moves: seq<Path>)
    requires AreSources(files, moves) && moves != []
    ensures var n := |moves| - 1;
            && AreSources(files, moves[..n])
            && moves[n] in MovedAll(files, moves[..n])
            && MovedAll(files, moves[..n])[moves[n]] == files[moves[n]]
  {
    var n := |moves| - 1;
    assert moves[n] in moves && forall m :: m in moves[..n] ==> m in moves;
    assert moves[n] !in moves[..n];
    forall m | m in moves[..n] ensures RescuePath(m) != moves[n] {
      assert RescuePath(m)[0] == RESCUE_FOLDER_NAME;
    }
    OthersStay(files, moves[..n], moves[n]);
  }

  /** A file of the rescue maildir's `cur/`. */
  ghost predicate InRescue(p: Path) {
    |p| == 3 && p[0] == RESCUE_FOLDER_NAME && p[1] == "cur"
  }

  /** Each moved file leaves its place and puts something at its new one, and no other name goes. */
  lemma {:induction false} MovesLand(files: map<Path, Content>, moves: seq<Path>)
    requires AreSources(files, moves)
    ensures forall m :: m in moves ==> RescuePath(m) in MovedAll(files, moves) && m !in MovedAll(files, moves)
    ensures forall p :: p in files && p !in moves ==> p in MovedAll(files, moves)
  {
    if moves == [] {
    } else {
      var n := |moves| - 1;
      SourcePrefix(files, moves);
      MovesLand(files, moves[..n]);
      assert moves == moves[..n] + [moves[n]] && moves[n] in moves;
      forall m | m in moves ensures RescuePath(m) in MovedAll(files, moves) && m !in MovedAll(files, moves) {
        assert m == moves[n] || m in moves[..n];
        assert RescuePath(m) != moves[n] && m != RescuePath(moves[n]);
      }
    }
  }

  /** Where the content of a file is found afterwards. */
  ghost function NewPlace(moves: seq<Path>, p: Path): Path {
    if p in moves && p != [] then RescuePath(p) else p
  }

  ghost predicate KeepsAll(files: map<Path, Content>, moves: seq<Path>) {
    forall p :: p in files ==>
      NewPlace(moves, p) in MovedAll(files, moves) && MovedAll(files, moves)[NewPlace(moves, p)] == files[p]
  }

  lemma {:induction false} NoClashKeeps(files: map<Path, Content>, moves: seq<Path>, p: Path)
    requires AreSources(files, moves) && NoClash(files, moves) && p in files
    ensures NewPlace(moves, p) in MovedAll(files, moves) && MovedAll(files, moves)[NewPlace(moves, p)] == files[p]
  {
    if moves == [] {
    } else {
      var n := |moves| - 1;
      var init, last := moves[..n], moves[n];
      assert last in moves && moves == init + [last];
      SourcePrefix(files, moves);
      if p != last {
        NoClashKeeps(files, init, p);
        assert NewPlace(moves, p) == NewPlace(init, p);
        assert NewPlace(moves, p) == RescuePath(last) ==> files[p] == files[last];
      }
    }
  }

  /** Rescuing keeps every content, at its old or its new place, exactly when no two files of
      different content end up under one name. */
  lemma RescueKeepsAllIffNoClash(files: map<Path, Content>, moves: seq<Path>)
    requires AreSources(files, moves)
    ensures KeepsAll(files, moves) <==> NoClash(files, moves)
  {
    if NoClash(files, moves) {
      forall p | p in files
        ensures NewPlace(moves, p) in MovedAll(files, moves) && MovedAll(files, moves)[NewPlace(moves, p)] == files[p]
      {
        NoClashKeeps(files, moves, p);
      }
    }
    if KeepsAll(files, moves) {
      forall m | m in moves
        ensures NewPlace(moves, m) == RescuePath(m) && MovedAll(files, moves)[RescuePath(m)] == files[m]
      {
      }
      forall m | m in moves && RescuePath(m) in files ensures files[RescuePath(m)] == files[m] {
        assert RescuePath(m) !in moves;
        assert NewPlace(moves, RescuePath(m)) == RescuePath(m);
      }
    }
  }

  /** Two messages of one folder can clash: the same name in `cur/` and in `new/`. */
  lemma SameNameInCurAndNewClashes(folder: string, name: string, a: Content, b: Content)
    requires folder != RESCUE_FOLDER_NAME && a != b
    ensures var files := map[[folder, "cur", name] := a, [folder, "new", name] := b];
            var moves := [[folder, "cur", name], [folder, "new", name]];
            && AreSources(files, moves) && !NoClash(files, moves) && !KeepsAll(files, moves)
  {
    var files := map[[folder, "cur", name] := a, [folder, "new", name] := b];
    var moves := [[folder, "cur", name], [folder, "new", name]];
    assert moves[0] in moves && moves[1] in moves && moves[0][1] != moves[1][1];
    assert RescuePath(moves[0]) == RescuePath(moves[1]);
    RescueKeepsAllIffNoClash(files, moves);
  }

  /** Whatever is there afterwards was there before, at the same place or as a moved file. */
  lemma {:induction false} MovedAllAddsNothing(files: map<Path, Content>, moves: seq<Path>, q: Path)
    requires AreSources(files, moves) && q in MovedAll(files, moves)
    ensures (q in files && q !in moves && MovedAll(files, moves)[q] == files[q])
            || exists m :: m in moves && q == RescuePath(m) && MovedAll(files, moves)[q] == files[m]
  {
    if moves == [] {
    } else {
      var n := |moves| - 1;
      var init, last := moves[..n], moves[n];
      assert last in moves;
      SourcePrefix(files, moves);
      if q != RescuePath(last) {
        MovedAllAddsNothing(files, init, q);
        if m :| m in init && q == RescuePath(m) && MovedAll(files, init)[q] == files[m] {
          assert m in moves;
        }
      }
    }
  }

  /** Rescuing puts nothing at or below a path outside jma's namespace. */
  lemma RescueMissesCleared(files: map<Path, Content>, moves: seq<Path>, cleared: Path)
    requires AreSources(files, moves) && cleared != [] && !IsJmaPrivate(cleared[0])
    requires forall p :: p in files ==> !AtOrUnder(p, cleared)
    ensures forall p :: p in MovedAll(files, moves) || p in RescueDirs() ==> !AtOrUnder(p, cleared)
  {
    forall p | p in MovedAll(files, moves) ensures !AtOrUnder(p, cleared) {
      MovedAllAddsNothing(files, moves, p);
    }
  }

  // ---------- nested maildirs ----------

  /** What a walk cannot see: directories that cannot be listed look empty, and what cannot be
      examined, itself or as its directory's entry, looks absent. */
  datatype Sight = Sight(unlisted: set<Path>, unseen: set<Path>)

  const CLEAR := Sight({}, {})

  /** The walk from `dir` gets to `d`: plain names all the way, each directory on it listed and
      each entry seen. */
  ghost predicate Reaches(sight: Sight, dir: Path, d: Path) {
    && dir < d
    && (forall k :: |dir| <= k < |d| ==> IsPlain(d[k]) && d[..k] !in sight.unlisted)
    && forall k :: |dir| < k <= |d| ==> d[..k] !in sight.unseen
  }

  /** `is_maildir`, which takes a directory it cannot examine for absent. */
  predicate LooksMaildir(dirs: set<Path>, sight: Sight, p: Path) {
    || (p + ["cur"] in dirs && p + ["cur"] !in sight.unseen)
    || (p + ["new"] in dirs && p + ["new"] !in sight.unseen)
  }

  /** `d` is a maildir below `dir` that a walk from there comes across: it has a `cur/` or a `new/`
      that can be seen, no name on the way is one of a message directory or of jma's own, each
      directory down to it is listed and each entry seen. */
  ghost predicate Shown(dirs: set<Path>, sight: Sight, dir: Path, d: Path) {
    && d in dirs && |dir| < |d| && d[..|dir|] == dir
    && (forall k :: |dir| <= k < |d| ==>
          && d[k] != "cur" && d[k] != "new" && d[k] != "tmp"
          && !(|d[k]| >= 5 && d[k][..5] in {".jma.", ".jma-"})
          && d[..k] !in sight.unlisted)
    && (forall k :: |dir| < k <= |d| ==> d[..k] !in sight.unseen)
    && exists sub :: sub in {"cur", "new"} && d + [sub] in dirs && d + [sub] !in sight.unseen
  }

  lemma ShownMeans(dirs: set<Path>, sight: Sight, dir: Path, d: Path)
    ensures Shown(dirs, sight, dir, d) <==> d in dirs && Reaches(sight, dir, d) && LooksMaildir(dirs, sight, d)
  {
    forall c: string ensures IsJmaPrivate(c) <==> |c| >= 5 && c[..5] in {".jma.", ".jma-"} {
      assert ".jma." <= c <==> |c| >= 5 && c[..5] == ".jma.";
      assert ".jma-" <= c <==> |c| >= 5 && c[..5] == ".jma-";
    }
    assert LooksMaildir(dirs, sight, d)
           <==> exists sub :: sub in {"cur", "new"} && d + [sub] in dirs && d + [sub] !in sight.unseen by {
      assert "cur" in {"cur", "new"} && "new" in {"cur", "new"};
    }
  }

  ghost predicate SeesNested(dirs: set<Path>, sight: Sight, dir: Path) {
    exists d :: d in dirs && Reaches(sight, dir, d) && LooksMaildir(dirs, sight, d)
  }

  ghost function Below(dirs: set<Path>, dir: Path): set<Path> {
    set d | d in dirs && dir < d
  }

  lemma {:induction false} PrefixPresent(dirs: set<Path>, d: Path, k: nat)
    requires ParentsPresent(dirs) && d in dirs && k <= |d|
    ensures d[..k] in dirs
    decreases |d|
  {
    if k < |d| {
      PrefixPresent(dirs, Parent(d), k);
      assert Parent(d)[..k] == d[..k];
    } else {
      assert d[..k] == d;
    }
  }

  ghost predicate LeadsToMaildir(dirs: set<Path>, sight: Sight, dir: Path, c: Path)
    requires |c| == |dir| + 1
  {
    IsPlain(c[|dir|]) && c !in sight.unseen && (LooksMaildir(dirs, sight, c) || SeesNested(dirs, sight, c))
  }

  /** A nested maildir is seen through one of the directory's own entries. */
  lemma SeesNestedByChild(dirs: set<Path>, sight: Sight, dir: Path)
    requires ParentsPresent(dirs) && dir !in sight.unlisted
    ensures SeesNested(dirs, sight, dir)
            <==> exists c :: c in dirs && |c| == |dir| + 1 && dir < c && LeadsToMaildir(dirs, sight, dir, c)
  {
    forall c | c in dirs && |c| == |dir| + 1 && dir < c && LeadsToMaildir(dirs, sight, dir, c)
      ensures SeesNested(dirs, sight, dir)
    {
      assert c[..|dir|] == dir && c[..|c|] == c;
      if LooksMaildir(dirs, sight, c) {
        assert Reaches(sight, dir, c);
      } else {
        var d :| d in dirs && Reaches(sight, c, d) && LooksMaildir(dirs, sight, d);
        ReachesThrough(sight, dir, c, d);
      }
    }
    forall d | d in dirs && Reaches(sight, dir, d) && LooksMaildir(dirs, sight, d)
      ensures exists c :: c in dirs && |c| == |dir| + 1 && dir < c && LeadsToMaildir(dirs, sight, dir, c)
    {
      var c := d[..|dir| + 1];
      PrefixPresent(dirs, d, |dir| + 1);
      assert IsPlain(d[|dir|]) && c[|dir|] == d[|dir|];
      if |d| > |dir| + 1 {
        assert Reaches(sight, c, d);
      } else {
        assert c == d;
      }
      assert LeadsToMaildir(dirs, sight, dir, c);
    }
  }

  lemma ReachesThrough(sight: Sight, dir: Path, c: Path, d: Path)
    requires |c| == |dir| + 1 && dir < c && IsPlain(c[|dir|]) && dir !in sight.unlisted && c !in sight.unseen
    requires Reaches(sight, c, d)
    ensures Reaches(sight, dir, d)
  {
    forall k | |dir| <= k < |d| ensures IsPlain(d[k]) && d[..k] !in sight.unlisted {
      if k == |dir| {
        assert d[k] == c[k] && d[..k] == dir;
      }
    }
    assert d[..|c|] == c;
  }

  lemma BelowShrinks(dirs: set<Path>, dir: Path, c: Path)
    requires c in dirs && dir < c
    ensures |Below(dirs, c)| < |Below(dirs, dir)|
  {
    SubsetCardinality(Below(dirs, c) + {c}, Below(dirs, dir));
  }

  /** `contains_nested_maildir`; a directory's entries come in any order, and one that cannot be
      read looks empty. */
  method ContainsNestedMaildir(dirs: set<Path>, sight: Sight, dir: Path) returns (nested: bool)
    requires ParentsPresent(dirs)
    ensures nested <==> SeesNested(dirs, sight, dir)
    ensures nested <==> exists d :: Shown(dirs, sight, dir, d)
    decreases |Below(dirs, dir)|, 0
  {
    forall d ensures Shown(dirs, sight, dir, d)
                     <==> d in dirs && Reaches(sight, dir, d) && LooksMaildir(dirs, sight, d) {
      ShownMeans(dirs, sight, dir, d);
    }
    if dir in sight.unlisted {
      forall d | dir < d ensures !Reaches(sight, dir, d) {
        assert d[..|dir|] == dir;
      }
      return false;
    }
    var children := set d | d in dirs && |d| == |dir| + 1 && dir < d;
    var remaining := children;
    nested := false;
    while remaining != {} && !nested
      invariant remaining <= children
      invariant nested <==> exists c :: c in children && c !in remaining && LeadsToMaildir(dirs, sight, dir, c)
      decreases remaining
    {
      var c :| c in remaining;
      remaining := remaining - {c};
      BelowShrinks(dirs, dir, c);
      nested := EntryLeadsToMaildir(dirs, sight, dir, c);
    }
    SeesNestedByChild(dirs, sight, dir);
  }

  method EntryLeadsToMaildir(dirs: set<Path>, sight: Sight, dir: Path, c: Path) returns (leads: bool)
    requires ParentsPresent(dirs) && |c| == |dir| + 1
    ensures leads <==> LeadsToMaildir(dirs, sight, dir, c)
    decreases |Below(dirs, c)|, 1
  {
    if !IsPlain(c[|dir|]) || c in sight.unseen {
      return false;
    }
    if LooksMaildir(dirs, sight, c) {
      return true;
    }
    leads := ContainsNestedMaildir(dirs, sight, c);
  }

  /** An sight directory hides the maildirs below it from the check. */
  lemma UnreadableFolderHidesNested(folder: string, child: string)
    requires IsPlain(folder) && IsPlain(child)
    ensures var dirs := {[], [folder], [folder, child], [folder, child, "cur"]};
            SeesNested(dirs, CLEAR, [folder]) && !SeesNested(dirs, Sight({[folder]}, {}), [folder])
  {
    var dirs := {[], [folder], [folder, child], [folder, child, "cur"]};
    var d := [folder, child];
    assert d + ["cur"] == [folder, child, "cur"];
    assert Reaches(CLEAR, [folder], d) && LooksMaildir(dirs, CLEAR, d);
    forall e | [folder] < e ensures !Reaches(Sight({[folder]}, {}), [folder], e) {
      assert e[..1] == [folder];
    }
  }

  // ---------- the path guard ----------

  datatype Canonical = At(path: Path) | Missing | Outside | Unresolvable

  /** `fs::canonicalize` of `root/at/components` on a disk without symbolic links. */
  function Canonicalize(components: seq<string>, at: Path, disk: Disk): Canonical {
    if components == [] then At(at)
    else
      var c, rest := components[0], components[1..];
      if c == "" || c == "." then Canonicalize(rest, at, disk)
      else if c == ".." then (if at == [] then Outside else Canonicalize(rest, at[..|at| - 1], disk))
      else if at + [c] in disk.dirs then Canonicalize(rest, at + [c], disk)
      else if at + [c] in disk.files then (if rest == [] then At(at + [c]) else Unresolvable)
      else Missing
  }

  datatype Guard = Refused | Nothing | Target(path: Path)

  /** The path-safety guard: refuse the root, anything outside it, and, for a folder that is not
      there, a name that could escape. */
  function Guarded(folder: string, disk: Disk): Guard {
    var components := Split(folder, '/');
    if |components| > 1 && components[0] == "" then Refused
    else match Canonicalize(components, [], disk)
      case At(p) => if p == [] then Refused else Target(p)
      case Missing => if ".." in components then Refused else Nothing
      case _ => Refused
  }

  lemma {:induction false} CanonicalIsThere(components: seq<string>, at: Path, disk: Disk)
    requires IsTree(disk) && at in disk.dirs
    requires Canonicalize(components, at, disk).At?
    ensures var p := Canonicalize(components, at, disk).path;
            && (p in disk.dirs || p in disk.files)
            && forall c :: c in p ==> c in at || c in components
  {
    if components == [] {
    } else {
      var c, rest := components[0], components[1..];
      if c == "" || c == "." {
        CanonicalIsThere(rest, at, disk);
      } else if c == ".." {
        CanonicalIsThere(rest, Parent(at), disk);
      } else if at + [c] in disk.dirs {
        CanonicalIsThere(rest, at + [c], disk);
      }
    }
  }

  /** Where a folder name points, whatever is on disk. */
  function Lexical(components: seq<string>, at: Path): Path {
    if components == [] then at
    else
      var c, rest := components[0], components[1..];
      if c == "" || c == "." then Lexical(rest, at)
      else if c == ".." then Lexical(rest, Parent(at))
      else Lexical(rest, at + [c])
  }

  function PathOf(folder: string): Path {
    Lexical(Split(folder, '/'), [])
  }

  lemma {:induction false} CanonicalIsLexical(components: seq<string>, at: Path, disk: Disk)
    requires Canonicalize(components, at, disk).At?
    ensures Canonicalize(components, at, disk).path == Lexical(components, at)
  {
    if components == [] {
    } else {
      var c, rest := components[0], components[1..];
      if c == "" || c == "." {
        CanonicalIsLexical(rest, at, disk);
      } else if c == ".." {
        CanonicalIsLexical(rest, Parent(at), disk);
      } else if at + [c] in disk.dirs {
        CanonicalIsLexical(rest, at + [c], disk);
      } else {
        assert Lexical(rest, at + [c]) == at + [c];
      }
    }
  }

  lemma TargetIsPathOf(folder: string, disk: Disk)
    requires Guarded(folder, disk).Target?
    ensures Guarded(folder, disk).path == PathOf(folder)
  {
    CanonicalIsLexical(Split(folder, '/'), [], disk);
  }

  ghost predicate Public(folder: string) {
    forall c :: c in Split(folder, '/') ==> !IsJmaPrivate(c)
  }

  lemma TargetIsPublic(folder: string, disk: Disk)
    requires IsTree(disk) && Public(folder) && Guarded(folder, disk).Target?
    ensures var t := Guarded(folder, disk).path;
            t != [] && !IsJmaPrivate(t[0]) && (t in disk.dirs || t in disk.files)
  {
    CanonicalIsThere(Split(folder, '/'), [], disk);
  }

  /** Ordinary folder names resolve to themselves. */
  ghost predicate Ordinary(folder: string) {
    forall c :: c in Split(folder, '/') ==> c !in {"", ".", ".."}
  }

  /** No file sits where the folder, or a directory on the way to it, should be. */
  ghost predicate Unblocked(path: Path, disk: Disk) {
    forall j :: 0 <= j <= |path| ==> path[..j] !in disk.files
  }

  lemma {:induction false} OrdinaryResolves(components: seq<string>, at: Path, disk: Disk)
    requires IsTree(disk) && at in disk.dirs && Unblocked(at + components, disk)
    requires forall c :: c in components ==> c !in {"", ".", ".."}
    ensures Canonicalize(components, at, disk) == if at + components in disk.dirs then At(at + components) else Missing
    ensures Lexical(components, at) == at + components
  {
    if components == [] {
      assert at + components == at;
    } else {
      var c, rest := components[0], components[1..];
      assert at + [c] + rest == at + components && components == [c] + rest && c in components;
      forall x | x in rest ensures x in components {
      }
      assert (at + components)[..|at| + 1] == at + [c];
      if at + components in disk.dirs {
        PrefixPresent(disk.dirs, at + components, |at| + 1);
      }
      if at + [c] in disk.dirs {
        OrdinaryResolves(rest, at + [c], disk);
      } else {
        OrdinaryIsLexical(rest, at + [c]);
      }
    }
  }

  lemma {:induction false} OrdinaryIsLexical(components: seq<string>, at: Path)
    requires forall c :: c in components ==> c !in {"", ".", ".."}
    ensures Lexical(components, at) == at + components
  {
    if components == [] {
      assert at + components == at;
    } else {
      var c, rest := components[0], components[1..];
      assert at + [c] + rest == at + components && c in components;
      forall x | x in rest ensures x in components {
      }
      OrdinaryIsLexical(rest, at + [c]);
    }
  }

  /** The guard lets an ordinary folder name through: at its own path if that is there. */
  lemma OrdinaryGuard(folder: string, disk: Disk)
    requires IsTree(disk) && Ordinary(folder) && Unblocked(Split(folder, '/'), disk)
    ensures PathOf(folder) == Split(folder, '/') != []
    ensures Guarded(folder, disk) == if PathOf(folder) in disk.dirs then Target(PathOf(folder)) else Nothing
  {
    var components := Split(folder, '/');
    assert [] + components == components && components[0] in components;
    OrdinaryResolves(components, [], disk);
  }

  predicate IsName(c: string) {
    c != "" && c != "."
  }

  /** Going down from `at` to `full`: to a directory, or to a file unless the name goes on behind
      it; a file on the way cannot be passed, and else nothing is there. */
  ghost function Downward(full: Path, at: Path, endsInName: bool, disk: Disk): Canonical {
    if full in disk.dirs || (full in disk.files && endsInName) then At(full)
    else if exists j :: |at| < j <= |full| && full[..j] in disk.files then Unresolvable
    else Missing
  }

  ghost function Parts(components: seq<string>): Path {
    if components == [] then []
    else if IsName(components[0]) then [components[0]] + Parts(components[1..])
    else Parts(components[1..])
  }

  lemma {:induction false} PartsAreNames(components: seq<string>)
    ensures Parts(components) == Filter(components, (c: string) => c != "" && c != ".")
  {
    if components == [] {
    } else {
      PartsAreNames(components[1..]);
      assert components == [components[0]] + components[1..];
      FilterCons(components[0], components[1..], (c: string) => c != "" && c != ".");
    }
  }

  lemma {:induction false} NoParts(components: seq<string>)
    ensures Parts(components) == [] ==> forall c :: c in components ==> !IsName(c)
  {
    if components == [] {
    } else {
      NoParts(components[1..]);
      assert components == [components[0]] + components[1..];
    }
  }

  lemma {:induction false} DownwardResolves(components: seq<string>, at: Path, disk: Disk)
    requires IsTree(disk) && at in disk.dirs && ".." !in components
    ensures Canonicalize(components, at, disk)
            == Downward(at + Parts(components), at, components != [] && IsName(components[|components| - 1]), disk)
  {
    if components == [] {
      assert at + [] == at;
    } else {
      var c, rest := components[0], components[1..];
      var parts := Parts(rest);
      NoParts(rest);
      var endsInName := rest != [] && IsName(rest[|rest| - 1]);
      if !IsName(c) {
        DownwardResolves(rest, at, disk);
        assert rest == [] ==> at + parts == at;
      } else {
        assert at + ([c] + parts) == at + [c] + parts;
        assert rest != [] ==> rest[|rest| - 1] in rest;
        if at + [c] in disk.dirs {
          DownwardResolves(rest, at + [c], disk);
          DownThroughDir(at, c, parts, rest == [] || endsInName, endsInName, disk);
        } else {
          DownOnto(at, c, parts, rest == [], rest == [] || endsInName, disk);
        }
      }
    }
  }

  lemma DownThroughDir(at: Path, c: string, parts: Path, ends: bool, endsBelow: bool, disk: Disk)
    requires IsTree(disk) && at + [c] in disk.dirs && (parts != [] ==> ends == endsBelow)
    ensures Downward(at + [c] + parts, at, ends, disk) == Downward(at + [c] + parts, at + [c], endsBelow, disk)
  {
    var next := at + [c];
    var full := next + parts;
    assert full[..|next|] == next;
    if parts == [] {
      assert full == next;
    } else {
      assert full[..|next|] !in disk.files;
      forall j | |at| < j <= |full| && full[..j] in disk.files ensures j > |next| {
      }
    }
  }

  lemma DownOnto(at: Path, c: string, parts: Path, last: bool, ends: bool, disk: Disk)
    requires IsTree(disk) && at in disk.dirs && at + [c] !in disk.dirs
    requires (last ==> parts == [] && ends) && (!last && parts == [] ==> !ends)
    ensures Downward(at + [c] + parts, at, ends, disk)
            == if at + [c] in disk.files then (if last then At(at + [c]) else Unresolvable) else Missing
  {
    var next := at + [c];
    var full := next + parts;
    assert full[..|next|] == next;
    if next in disk.files {
      if parts == [] {
        assert full == next;
      } else {
        NothingPastFile(next, parts, disk);
      }
    } else {
      NothingBelowMissing(next, disk);
      forall j | |at| < j <= |full| ensures AtOrUnder(full[..j], next) {
      }
      assert AtOrUnder(full, next);
    }
  }

  lemma NothingPastFile(file: Path, more: Path, disk: Disk)
    requires IsTree(disk) && file in disk.files && more != []
    ensures file + more !in disk.dirs && file + more !in disk.files
  {
    var p := file + more;
    assert p[..|file|] == file && Parent(p) == file + more[..|more| - 1] && Parent(p)[..|file|] == file;
    if p in disk.dirs {
      PrefixPresent(disk.dirs, p, |file|);
    } else if p in disk.files {
      PrefixPresent(disk.dirs, Parent(p), |file|);
    }
  }

  /** What the guard makes of a folder name. Absolute names are refused; one that goes up never
      counts as absent; any other is taken for the path of its parts, unless that is the root. */
  lemma GuardMeans(folder: string, disk: Disk)
    requires IsTree(disk)
    ensures var components, guard := Split(folder, '/'), Guarded(folder, disk);
            && (|components| > 1 && components[0] == "" ==> guard == Refused)
            && (".." in components ==> guard != Nothing)
            && (guard.Target? ==> guard.path != [] && guard.path in disk.dirs + disk.files.Keys)
    ensures var components := Split(folder, '/');
            !(|components| > 1 && components[0] == "") && ".." !in components ==>
              Guarded(folder, disk) == GoneDown(components, disk)
  {
    var components := Split(folder, '/');
    if Guarded(folder, disk).Target? {
      CanonicalIsThere(components, [], disk);
    }
    if ".." !in components {
      GoneDownResolves(components, disk);
    }
  }

  lemma GoneDownResolves(components: seq<string>, disk: Disk)
    requires IsTree(disk) && ".." !in components
    ensures GoneDown(components, disk) == GuardAt(Canonicalize(components, [], disk))
  {
    DownwardResolves(components, [], disk);
    PartsAreNames(components);
    assert [] + Parts(components) == Parts(components);
  }

  /** Where the parts of a name lead from the root. */
  ghost function GoneDown(components: seq<string>, disk: Disk): Guard {
    var path := Filter(components, (c: string) => c != "" && c != ".");
    var endsInName := components != [] && components[|components| - 1] != "" && components[|components| - 1] != ".";
    GuardAt(Downward(path, [], endsInName, disk))
  }

  ghost function GuardAt(found: Canonical): Guard {
    match found
    case At(p) => if p == [] then Refused else Target(p)
    case Missing => Nothing
    case Outside => Refused
    case Unresolvable => Refused
  }

  /** There is nothing at `t` or below it. */
  ghost predicate Absent(disk: Disk, t: Path) {
    forall p :: p in disk.files || p in disk.dirs ==> !AtOrUnder(p, t)
  }

  /** Nothing lies below a path that is not there. */
  lemma NothingBelowMissing(t: Path, disk: Disk)
    requires IsTree(disk) && t !in disk.dirs && t !in disk.files
    ensures Absent(disk, t)
  {
    forall p | p in disk.files || p in disk.dirs ensures !AtOrUnder(p, t) {
      var dir := if p in disk.dirs then p else Parent(p);
      if |dir| >= |t| {
        PrefixPresent(disk.dirs, dir, |t|);
        assert dir[..|t|] != t;
      }
      assert AtOrUnder(p, t) ==> p == t || AtOrUnder(Parent(p), t);
    }
  }

  lemma {:induction false} LexicalMembers(components: seq<string>, at: Path)
    ensures forall c :: c in Lexical(components, at) ==> c in at || c in components
  {
    if components == [] {
    } else {
      var c, rest := components[0], components[1..];
      LexicalMembers(rest, at);
      LexicalMembers(rest, Parent(at));
      LexicalMembers(rest, at + [c]);
    }
  }

  lemma {:induction false} LexicalExtends(components: seq<string>, at: Path)
    requires ".." !in components
    ensures at <= Lexical(components, at)
  {
    if components == [] {
    } else {
      LexicalExtends(components[1..], at);
      LexicalExtends(components[1..], at + [components[0]]);
    }
  }

  lemma {:induction false} MissingIsAbsent(components: seq<string>, at: Path, disk: Disk)
    requires IsTree(disk) && ".." !in components && Canonicalize(components, at, disk).Missing?
    ensures Lexical(components, at) != [] && Absent(disk, Lexical(components, at))
  {
    var c, rest := components[0], components[1..];
    if c == "" || c == "." {
      MissingIsAbsent(rest, at, disk);
    } else if at + [c] in disk.dirs {
      MissingIsAbsent(rest, at + [c], disk);
    } else {
      NothingBelowMissing(at + [c], disk);
      LexicalExtends(rest, at + [c]);
      forall p | AtOrUnder(p, Lexical(rest, at + [c])) ensures AtOrUnder(p, at + [c]) {
      }
    }
  }

  /** A name the guard neither refuses nor finds stands for a path with nothing there. */
  lemma NothingMeansAbsent(folder: string, disk: Disk)
    requires IsTree(disk) && Guarded(folder, disk).Nothing?
    ensures PathOf(folder) != [] && Absent(disk, PathOf(folder))
  {
    MissingIsAbsent(Split(folder, '/'), [], disk);
  }

  // ---------- the state DB ----------

  datatype MessageRow = MessageRow(mailbox: MailboxId, maildirId: Option<MaildirId>)

  /** `message_map`, `local_state` (maildir id to folder), `folder_checkpoint`, `mailbox_map` (id
      to folder), and whether the `Mailbox` sync cursor is set. */
  datatype Db = Db(
    messages: map<string, MessageRow>, localState: map<MaildirId, string>, checkpoints: set<string>,
    mailboxes: map<MailboxId, string>, mailboxCursor: bool)

  function Known(db: Db, mailbox: Option<MailboxId>): set<MaildirId> {
    if mailbox.None? then {}
    else set e | e in db.messages && db.messages[e].mailbox == mailbox.value && db.messages[e].maildirId.Some?
           :: db.messages[e].maildirId.value
  }

  function Entries(files: map<Path, Content>, folder: Path): set<Path> {
    set p | p in files && IsEntryOf(p, folder)
  }

  function Strangers(
    files: map<Path, Content>, folder: Path, known: set<MaildirId>, idOf: Path -> MaildirId): (r: set<Path>)
    ensures forall p :: p in r ==> p != []
  {
    set p | p in files && IsEntryOf(p, folder) && idOf(p) !in known
  }

  /** The messages of a folder that the DB does not know. */
  function Unmapped(
    files: map<Path, Content>, db: Db, folder: Path, mailbox: Option<MailboxId>, idOf: Path -> MaildirId): set<Path>
  {
    Strangers(files, folder, Known(db, mailbox), idOf)
  }

  /** The cascade of one removal, which leaves `mailbox_map` to the caller. */
  function Cascaded(db: Db, folder: string, mailbox: Option<MailboxId>): Db {
    db.(messages := map e | e in db.messages && Some(db.messages[e].mailbox) != mailbox :: db.messages[e],
        localState := map m | m in db.localState && db.localState[m] != folder :: db.localState[m],
        checkpoints := db.checkpoints - {folder})
  }

  // ---------- the operations ----------

  /** How `remove_dir_all` ends: completely, or part way after losing some paths. */
  datatype Removal = Completes | StopsAfter(lost: set<Path>)

  /** The times a removal asks for the folder's own `cur/` or `new/`: whether this is a maildir at
      all, whether it can be opened as it is, and whether the rescue can open it. */
  datatype Probe = CurPresent | NewPresent | CurReady | CurOpen

  /** What goes wrong while one folder is removed. A probe in `blind` answers no. A message in
      `badEntries` is listed as an error; one in an unlisted directory is not listed at all. */
  datatype Io = Io(
    canonicalizeFails: bool, sight: Sight, blind: set<Probe>, healFails: bool, rowsUnreadable: bool,
    badEntries: set<Path>, rescueDirFails: bool, badRenames: set<Path>, removal: Removal, cascadeFails: bool)

  /** What `remove_dir_all` takes away; a directory goes only once everything below it is gone. */
  function Gone(disk: Disk, t: Path, removal: Removal): set<Path> {
    match removal
    case Completes =>
      (set p | p in disk.files && AtOrUnder(p, t)) + (set d | d in disk.dirs && AtOrUnder(d, t))
    case StopsAfter(lost) =>
      (set p | p in disk.files && AtOrUnder(p, t) && p in lost)
      + (set d | d in disk.dirs && AtOrUnder(d, t) && d in lost && AllBelowIn(disk, d, lost))
  }

  predicate AllBelowIn(disk: Disk, d: Path, lost: set<Path>) {
    && (forall p :: p in disk.files && AtOrUnder(p, d) ==> p in lost)
    && (forall e :: e in disk.dirs && AtOrUnder(e, d) ==> e in lost)
  }

  datatype RemovalOutcome = Removed | Skipped

  datatype DbError = DbError

  /** Moving `p` to the rescue maildir can work. */
  ghost predicate CanRescue(disk: Disk, io: Io, p: Path)
    requires p != []
  {
    && !io.rescueDirFails && RescueDirs() !! disk.files.Keys
    && p !in io.badRenames && RescuePath(p) !in disk.dirs
  }

  /** `list_cur` or `list_new`, which yields nothing for a directory that cannot be read. */
  function Listed(files: map<Path, Content>, folder: Path, sub: string, io: Io): set<Path> {
    if folder + [sub] in io.sight.unlisted then {}
    else set p | p in files && IsEntryOf(p, folder) && p[|folder|] == sub
  }

  /** The messages of a folder that the rescue would move: not known to the DB, and listed. */
  function ToRescue(
    files: map<Path, Content>, db: Db, folder: Path, mailbox: Option<MailboxId>, idOf: Path -> MaildirId,
    io: Io): (r: set<Path>)
    ensures forall p :: p in r ==> p != []
    ensures r <= Unmapped(files, db, folder, mailbox, idOf)
  {
    set p | p in Unmapped(files, db, folder, mailbox, idOf) && Parent(p) !in io.sight.unlisted
  }

  /** Nothing stands in the way of moving what is listed and unmapped. */
  ghost predicate RescueClear(
    disk: Disk, db: Db, t: Path, mailbox: Option<MailboxId>, idOf: Path -> MaildirId, io: Io)
  {
    && !(mailbox.Some? && io.rowsUnreadable)
    && (forall p :: p in Entries(disk.files, t) && Parent(p) !in io.sight.unlisted ==> p !in io.badEntries)
    && forall p :: p in ToRescue(disk.files, db, t, mailbox, idOf, io) ==> CanRescue(disk, io, p)
  }

  /** The rescue finds a `cur/`. */
  predicate Opened(disk: Disk, t: Path, io: Io) {
    t + ["cur"] in disk.dirs && CurOpen !in io.blind
  }

  /** A folder that the rescue does not find to be a maildir has nothing to rescue. */
  ghost predicate RescueSucceeds(
    ready: Disk, db: Db, t: Path, mailbox: Option<MailboxId>, idOf: Path -> MaildirId, io: Io)
  {
    Opened(ready, t, io) ==> RescueClear(ready, db, t, mailbox, idOf, io)
  }

  function MaildirDirs(t: Path): set<Path> {
    {t + ["cur"], t + ["new"], t + ["tmp"]}
  }

  /** Creating the three subdirectories of a maildir that lost its `cur/`. */
  function Healed(disk: Disk, t: Path): Disk {
    disk.(dirs := disk.dirs + MaildirDirs(t))
  }

  /** The folder passes for a maildir, and one without `cur/`. */
  predicate NeedsHeal(disk: Disk, t: Path, io: Io) {
    && ((t + ["cur"] in disk.dirs && CurPresent !in io.blind) || (t + ["new"] in disk.dirs && NewPresent !in io.blind))
    && !(t + ["cur"] in disk.dirs && CurReady !in io.blind)
  }

  predicate CanHeal(disk: Disk, t: Path) {
    t + ["cur"] !in disk.files && t + ["new"] !in disk.files && t + ["tmp"] !in disk.files
  }

  /** The folder as the rescue finds it. */
  function Ready(disk: Disk, t: Path, io: Io): Disk {
    if NeedsHeal(disk, t, io) then Healed(disk, t) else disk
  }

  ghost predicate HealBlocked(disk: Disk, t: Path, io: Io) {
    NeedsHeal(disk, t, io) && (io.healFails || !CanHeal(disk, t))
  }

  /** Exactly when a removal takes the tree down. */
  ghost predicate Removable(
    folder: string, disk: Disk, db: Db, mailbox: Option<MailboxId>, idOf: Path -> MaildirId, io: Io)
  {
    && !io.canonicalizeFails
    && match Guarded(folder, disk)
       case Refused => false
       case Nothing => true
       case Target(t) =>
         && !SeesNested(disk.dirs, io.sight, t)
         && !HealBlocked(disk, t, io)
         && RescueSucceeds(Ready(disk, t, io), db, t, mailbox, idOf, io)
         && t !in disk.files && io.removal.Completes?
  }

  /** A folder that shows as a maildir without `cur/` is found with all three subdirectories
      afterwards; nothing else changes, nor any other folder. */
  lemma HealMeans(disk: Disk, t: Path, io: Io)
    ensures var shows := || (t + ["cur"] in disk.dirs && CurPresent !in io.blind)
                         || (t + ["new"] in disk.dirs && NewPresent !in io.blind);
            var lacksCur := t + ["cur"] !in disk.dirs || CurReady in io.blind;
            && Ready(disk, t, io).files == disk.files
            && forall d :: d in Ready(disk, t, io).dirs
                 <==> d in disk.dirs || (shows && lacksCur && exists n :: n in {"cur", "new", "tmp"} && d == t + [n])
  {
    forall d ensures d in MaildirDirs(t) <==> exists n :: n in {"cur", "new", "tmp"} && d == t + [n] {
      assert "cur" in {"cur", "new", "tmp"} && "new" in {"cur", "new", "tmp"} && "tmp" in {"cur", "new", "tmp"};
    }
  }

  function MadeDirs(created: bool): set<Path> {
    if created then RescueDirs() else {}
  }

  /** The state of the rescue loop: `moves` done so far on a disk that was `before`. */
  ghost predicate Rescuing(before: Disk, now: Disk, created: bool, io: Io, moves: seq<Path>) {
    && IsTree(now) && now.dirs == before.dirs + MadeDirs(created)
    && AreSources(before.files, moves) && now.files == MovedAll(before.files, moves)
    && (moves != [] ==> created)
    && (created ==> !io.rescueDirFails && RescueDirs() !! before.files.Keys)
    && forall m :: m in moves ==> m !in io.badRenames && RescuePath(m) !in before.dirs
  }

  lemma RescueDirsKeepTree(disk: Disk)
    requires IsTree(disk) && RescueDirs() !! disk.files.Keys
    ensures IsTree(disk.(dirs := disk.dirs + RescueDirs()))
  {
    var all := disk.dirs + RescueDirs();
    forall d | d in all && d != [] ensures Parent(d) in all {
      if d in RescueDirs() {
        assert Parent(d) == [] || Parent(d) == [RESCUE_FOLDER_NAME];
      }
    }
  }

  lemma MovedKeepsTree(disk: Disk, p: Path)
    requires IsTree(disk) && RescueDirs() <= disk.dirs && p != [] && RescuePath(p) !in disk.dirs
    ensures IsTree(disk.(files := Moved(disk.files, p)))
  {
    assert Parent(RescuePath(p)) == [RESCUE_FOLDER_NAME, "cur"];
  }

  lemma RescueDirsCreated(before: Disk, now: Disk, io: Io, moves: seq<Path>)
    requires Rescuing(before, now, false, io, moves)
    requires !io.rescueDirFails && RescueDirs() !! now.files.Keys
    ensures Rescuing(before, now.(dirs := now.dirs + RescueDirs()), true, io, moves)
  {
    RescueDirsKeepTree(now);
    assert before.dirs + {} + RescueDirs() == before.dirs + RescueDirs();
  }

  lemma OneMoreRescued(before: Disk, now: Disk, io: Io, moves: seq<Path>, p: Path)
    requires Rescuing(before, now, true, io, moves)
    requires p in before.files && p !in moves && p != [] && p[0] != RESCUE_FOLDER_NAME
    requires p !in io.badRenames && RescuePath(p) !in now.dirs
    ensures Rescuing(before, now.(files := Moved(now.files, p)), true, io, moves + [p])
  {
    OthersStay(before.files, moves, p);
    MovedKeepsTree(now, p);
    assert (moves + [p])[..|moves|] == moves;
    DistinctConcat(moves, [p]);
  }

  /** The disk after `gone` is taken away. */
  function Without(disk: Disk, gone: set<Path>): Disk {
    Disk(disk.files - gone, disk.dirs - gone)
  }

  lemma GoneKeepsTree(disk: Disk, t: Path, removal: Removal)
    requires IsTree(disk) && t != []
    ensures IsTree(Without(disk, Gone(disk, t, removal)))
    ensures forall p :: p in Gone(disk, t, removal) ==> AtOrUnder(p, t)
  {
    var gone := Gone(disk, t, removal);
    forall p | (p in disk.files || p in disk.dirs) && p != [] && p !in gone ensures Parent(p) !in gone {
      if Parent(p) in gone {
        assert AtOrUnder(Parent(p), t) ==> AtOrUnder(p, t);
        assert AtOrUnder(p, Parent(p));
        assert false;
      }
    }
  }

  lemma HealKeepsTree(disk: Disk, t: Path)
    requires IsTree(disk) && t in disk.dirs && CanHeal(disk, t)
    ensures IsTree(Healed(disk, t))
  {
    forall name | name in {"cur", "new", "tmp"} ensures Parent(t + [name]) == t {
    }
    var dirs := Healed(disk, t).dirs;
    forall d | d in dirs && d != [] ensures Parent(d) in dirs {
      if d !in disk.dirs {
        assert d == t + ["cur"] || d == t + ["new"] || d == t + ["tmp"];
      }
    }
  }

  /** What the removal of one folder may do to the disk. Unmapped messages of that folder move to
      the rescue maildir; deletions stay below the folder, start only once all those listed have
      moved, if the folder could be opened, and no nested maildir is seen, and leave nothing there
      if the folder was `taken` down. */
  ghost predicate Reshaped(
    before: Disk, db: Db, folder: string, mailbox: Option<MailboxId>, idOf: Path -> MaildirId, io: Io, after: Disk,
    moves: seq<Path>, gone: set<Path>, taken: bool)
  {
    && IsTree(after)
    && AreSources(before.files, moves) && after.files == MovedAll(before.files, moves) - gone
    && match Guarded(folder, before)
       case Target(t) =>
         && ToSet(moves) <= ToRescue(before.files, db, t, mailbox, idOf, io)
         && (forall p :: p in gone ==> AtOrUnder(p, t))
         && (gone != {} ==> && (Opened(Ready(before, t, io), t, io) ==>
                                  ToSet(moves) == ToRescue(before.files, db, t, mailbox, idOf, io))
                            && !SeesNested(before.dirs, io.sight, t)
                            && (taken || io.removal.StopsAfter?))
         && after.dirs <= before.dirs + RescueDirs() + MaildirDirs(t) && before.dirs <= after.dirs + gone
         && (SeesNested(before.dirs, io.sight, t) ==> after == before)
         && (taken ==> Absent(after, t))
       case _ => moves == [] && gone == {} && after == before
  }

  // ---------- exactly what a removal leaves ----------

  function Unknowns(
    files: map<Path, Content>, t: Path, sub: string, known: set<MaildirId>, idOf: Path -> MaildirId,
    io: Io): (r: set<Path>)
    ensures forall p :: p in r ==> p != []
  {
    set p | p in Listed(files, t, sub, io) && idOf(p) !in known
  }

  /** `cur/` messages come before `new/` messages, and none of `new/` before all of `cur/` is done. */
  ghost predicate CurFirst(
    files: map<Path, Content>, t: Path, known: set<MaildirId>, idOf: Path -> MaildirId, io: Io, moves: seq<Path>)
  {
    && (forall i, j :: 0 <= i < j < |moves| && moves[j] in Listed(files, t, "cur", io) ==>
          moves[i] in Listed(files, t, "cur", io))
    && (ToSet(moves) * Listed(files, t, "new", io) != {} ==>
          Unknowns(files, t, "cur", known, idOf, io) <= ToSet(moves) && Listed(files, t, "cur", io) !! io.badEntries)
  }

  /** What the rescue may have moved when it ends, `created` saying that it made the rescue maildir. */
  ghost predicate Rescues(
    before: Disk, db: Db, t: Path, mailbox: Option<MailboxId>, idOf: Path -> MaildirId, io: Io, created: bool,
    moves: seq<Path>)
  {
    && AreSources(before.files, moves) && ToSet(moves) <= ToRescue(before.files, db, t, mailbox, idOf, io)
    && (forall m :: m in moves ==> CanRescue(before, io, m))
    && CurFirst(before.files, t, Known(db, mailbox), idOf, io, moves)
    && (created ==> && Opened(before, t, io) && !(mailbox.Some? && io.rowsUnreadable) && !io.rescueDirFails
                    && RescueDirs() !! before.files.Keys && ToRescue(before.files, db, t, mailbox, idOf, io) != {})
    && (moves != [] ==> created)
    && (Opened(before, t, io) && RescueClear(before, db, t, mailbox, idOf, io) ==>
          ToSet(moves) == ToRescue(before.files, db, t, mailbox, idOf, io) && (created ==> moves != []))
  }

  /** `moves` has grown to `now` by the messages `done`. */
  ghost predicate Advanced(moves: seq<Path>, now: seq<Path>, done: set<Path>) {
    && moves <= now && ToSet(now) == ToSet(moves) + done
    && (forall i :: |moves| <= i < |now| ==> now[i] in done)
    && ToSet(moves) !! done
  }

  lemma AdvancedNone(moves: seq<Path>)
    ensures Advanced(moves, moves, {})
  {
  }

  lemma AdvancedOne(moves: seq<Path>, now: seq<Path>, done: set<Path>, p: Path)
    requires Advanced(moves, now, done) && p !in moves && p !in done
    ensures Advanced(moves, now + [p], done + {p}) && p !in now
  {
    assert ToSet(now + [p]) == ToSet(now) + {p};
    assert p !in ToSet(now);
  }

  lemma EntryPath(files: map<Path, Content>, t: Path, sub: string, io: Io, p: Path)
    requires p in Listed(files, t, sub, io) && t != [] && !IsJmaPrivate(t[0])
    ensures p in files && p != [] && p[0] == t[0] && p[0] != RESCUE_FOLDER_NAME
  {
  }

  /** The rescue loop gets past this message. */
  ghost predicate Passes(before: Disk, known: set<MaildirId>, idOf: Path -> MaildirId, io: Io, p: Path) {
    p != [] && p !in io.badEntries && (idOf(p) !in known ==> CanRescue(before, io, p))
  }

  ghost predicate ListedClear(
    before: Disk, t: Path, sub: string, known: set<MaildirId>, idOf: Path -> MaildirId, io: Io)
  {
    forall p :: p in Listed(before.files, t, sub, io) ==> Passes(before, known, idOf, io, p)
  }

  /** The rescue loop over one subdirectory, with `remaining` still to come. */
  ghost predicate ListedSoFar(
    before: Disk, t: Path, sub: string, known: set<MaildirId>, idOf: Path -> MaildirId, io: Io, moves: seq<Path>,
    now: seq<Path>, remaining: set<Path>)
  {
    && remaining <= Listed(before.files, t, sub, io)
    && Advanced(moves, now, Unknowns(before.files, t, sub, known, idOf, io) - remaining)
    && forall p :: p in Listed(before.files, t, sub, io) && p !in remaining ==> Passes(before, known, idOf, io, p)
  }

  lemma ListStarts(
    before: Disk, t: Path, sub: string, known: set<MaildirId>, idOf: Path -> MaildirId, io: Io, moves: seq<Path>)
    requires forall m :: m in moves ==> m !in Listed(before.files, t, sub, io)
    ensures ListedSoFar(before, t, sub, known, idOf, io, moves, moves, Listed(before.files, t, sub, io))
  {
    AdvancedNone(moves);
    assert Unknowns(before.files, t, sub, known, idOf, io) - Listed(before.files, t, sub, io) == {};
  }

  lemma ListStep(
    before: Disk, t: Path, sub: string, known: set<MaildirId>, idOf: Path -> MaildirId, io: Io, moves: seq<Path>,
    now: seq<Path>, remaining: set<Path>, p: Path)
    requires ListedSoFar(before, t, sub, known, idOf, io, moves, now, remaining) && p in remaining
    requires t != [] && !IsJmaPrivate(t[0]) && forall m :: m in moves ==> m !in Listed(before.files, t, sub, io)
    ensures p in before.files && p !in now && p != [] && p[0] != RESCUE_FOLDER_NAME
    ensures idOf(p) !in known ==> p in Unknowns(before.files, t, sub, known, idOf, io)
    ensures Passes(before, known, idOf, io, p) ==>
              ListedSoFar(before, t, sub, known, idOf, io, moves, if idOf(p) !in known then now + [p] else now,
                          remaining - {p})
  {
    EntryPath(before.files, t, sub, io, p);
    var unknowns := Unknowns(before.files, t, sub, known, idOf, io);
    AdvancedOne(moves, now, unknowns - remaining, p);
    if idOf(p) in known {
      assert unknowns - (remaining - {p}) == unknowns - remaining;
    } else {
      assert unknowns - (remaining - {p}) == unknowns - remaining + {p};
    }
  }

  lemma ListedStays(files: map<Path, Content>, moves: seq<Path>, t: Path, sub: string, io: Io)
    requires t != [] && !IsJmaPrivate(t[0]) && forall m :: m in moves ==> m !in Listed(files, t, sub, io)
    requires forall m :: m in moves ==> m in files
    ensures Listed(MovedAll(files, moves), t, sub, io) == Listed(files, t, sub, io)
  {
    forall p | IsEntryOf(p, t) && p[|t|] == sub && t + [sub] !in io.sight.unlisted
      ensures p in MovedAll(files, moves) <==> p in files
    {
      assert p[0] == t[0] && RESCUE_FOLDER_NAME != t[0];
      assert p in moves && t + [sub] !in io.sight.unlisted ==> p in Listed(files, t, sub, io);
      OthersStay(files, moves, p);
    }
  }

  /** The messages and the unmapped ones, subdirectory by subdirectory. */
  lemma UnmappedBySub(before: Disk, db: Db, t: Path, mailbox: Option<MailboxId>, idOf: Path -> MaildirId, io: Io)
    ensures var known := Known(db, mailbox);
            ToRescue(before.files, db, t, mailbox, idOf, io)
            == Unknowns(before.files, t, "cur", known, idOf, io) + Unknowns(before.files, t, "new", known, idOf, io)
    ensures (set p | p in Entries(before.files, t) && Parent(p) !in io.sight.unlisted)
            == Listed(before.files, t, "cur", io) + Listed(before.files, t, "new", io)
    ensures Listed(before.files, t, "cur", io) !! Listed(before.files, t, "new", io)
  {
    forall p | IsEntryOf(p, t) ensures Parent(p) == t + [p[|t|]] {
    }
  }

  /** What the rescue guarantees of `moves`, given that it got as far as `ok` says. */
  ghost predicate RescuedUpTo(
    before: Disk, db: Db, t: Path, mailbox: Option<MailboxId>, idOf: Path -> MaildirId, io: Io, moves: seq<Path>,
    ok: bool)
  {
    && ToSet(moves) <= ToRescue(before.files, db, t, mailbox, idOf, io)
    && CurFirst(before.files, t, Known(db, mailbox), idOf, io, moves)
    && (ok ==> ToSet(moves) == ToRescue(before.files, db, t, mailbox, idOf, io))
    && (ok <==> && ListedClear(before, t, "cur", Known(db, mailbox), idOf, io)
                && ListedClear(before, t, "new", Known(db, mailbox), idOf, io))
  }

  /** After `cur/`: stuck there, or nothing of `new/` begun. */
  lemma RescueHalfDone(
    before: Disk, db: Db, t: Path, mailbox: Option<MailboxId>, idOf: Path -> MaildirId, io: Io, moves: seq<Path>,
    done: set<Path>, ok: bool)
    requires var unknowns := Unknowns(before.files, t, "cur", Known(db, mailbox), idOf, io);
             done <= unknowns && (ok ==> done == unknowns) && Advanced([], moves, done)
    requires ok <==> ListedClear(before, t, "cur", Known(db, mailbox), idOf, io)
    ensures !ok ==> RescuedUpTo(before, db, t, mailbox, idOf, io, moves, false)
    ensures forall m :: m in moves ==> m in Unknowns(before.files, t, "cur", Known(db, mailbox), idOf, io)
                                       && m !in Listed(before.files, t, "new", io)
  {
    UnmappedBySub(before, db, t, mailbox, idOf, io);
    forall m | m in moves ensures m in done {
      assert m in ToSet(moves);
    }
  }

  lemma RescueDone(
    before: Disk, db: Db, t: Path, mailbox: Option<MailboxId>, idOf: Path -> MaildirId, io: Io, first: seq<Path>,
    moves: seq<Path>, done: set<Path>, more: set<Path>, ok: bool)
    requires Advanced([], first, done) && done == Unknowns(before.files, t, "cur", Known(db, mailbox), idOf, io)
    requires forall m :: m in first ==> m in done
    requires var unknowns := Unknowns(before.files, t, "new", Known(db, mailbox), idOf, io);
             more <= unknowns && (ok ==> more == unknowns) && Advanced(first, moves, more)
    requires ListedClear(before, t, "cur", Known(db, mailbox), idOf, io)
    requires ok <==> ListedClear(before, t, "new", Known(db, mailbox), idOf, io)
    ensures RescuedUpTo(before, db, t, mailbox, idOf, io, moves, ok)
  {
    UnmappedBySub(before, db, t, mailbox, idOf, io);
    assert Listed(before.files, t, "cur", io) !! io.badEntries;
    forall i, j | 0 <= i < j < |moves| && moves[j] in Listed(before.files, t, "cur", io)
      ensures moves[i] in Listed(before.files, t, "cur", io)
    {
      assert j < |first| && first[i] == moves[i] && first[i] in first;
    }
  }

  lemma RescueReported(
    before: Disk, db: Db, t: Path, mailbox: Option<MailboxId>, idOf: Path -> MaildirId, io: Io, now: Disk,
    created: bool, moves: seq<Path>, ok: bool)
    requires Rescuing(before, now, created, io, moves) && RescuedUpTo(before, db, t, mailbox, idOf, io, moves, ok)
    requires Opened(before, t, io) && !(mailbox.Some? && io.rowsUnreadable)
    requires created ==> ToRescue(before.files, db, t, mailbox, idOf, io) != {}
    ensures Rescues(before, db, t, mailbox, idOf, io, created, moves)
    ensures now == Disk(MovedAll(before.files, moves), before.dirs + MadeDirs(created))
    ensures ok <==> RescueClear(before, db, t, mailbox, idOf, io)
  {
    UnmappedBySub(before, db, t, mailbox, idOf, io);
    assert ToSet<Path>([]) == {};
    forall p | p in Entries(before.files, t) && Parent(p) !in io.sight.unlisted
      ensures Passes(before, Known(db, mailbox), idOf, io, p)
              <==> p !in io.badEntries
                   && (p in ToRescue(before.files, db, t, mailbox, idOf, io) ==> CanRescue(before, io, p))
    {
    }
  }

  /** Exactly when the disk half takes the tree down. */
  ghost predicate Takes(disk: Disk, db: Db, t: Path, mailbox: Option<MailboxId>, idOf: Path -> MaildirId, io: Io) {
    && !SeesNested(disk.dirs, io.sight, t) && !HealBlocked(disk, t, io)
    && RescueSucceeds(Ready(disk, t, io), db, t, mailbox, idOf, io)
    && t !in disk.files && io.removal.Completes?
  }

  /** Exactly what the disk half leaves of a disk that was `before`: nothing has happened, or the
      folder is healed, some or all of its unmapped mail is moved, and, once that is complete, the
      deletion has taken what it takes. */
  ghost predicate Emptied(
    before: Disk, db: Db, t: Path, mailbox: Option<MailboxId>, idOf: Path -> MaildirId, io: Io, after: Disk,
    created: bool, moves: seq<Path>, gone: set<Path>)
  {
    if SeesNested(before.dirs, io.sight, t) || HealBlocked(before, t, io)
    then !created && moves == [] && gone == {} && after == before
    else
      var ready := Ready(before, t, io);
      var rescued := Disk(MovedAll(ready.files, moves), ready.dirs + MadeDirs(created));
      && Rescues(ready, db, t, mailbox, idOf, io, created, moves)
      && gone == (if RescueSucceeds(ready, db, t, mailbox, idOf, io) && t !in before.files
                  then Gone(rescued, t, io.removal) else {})
      && after == Without(rescued, gone)
  }

  /** Exactly what one removal leaves on disk, whether it ends in `Removed`, `Skipped` or a DB error. */
  ghost predicate Leaves(
    before: Disk, db: Db, folder: string, mailbox: Option<MailboxId>, idOf: Path -> MaildirId, io: Io, after: Disk,
    created: bool, moves: seq<Path>, gone: set<Path>)
  {
    match Guarded(folder, before)
    case Target(t) =>
      if io.canonicalizeFails then !created && moves == [] && gone == {} && after == before
      else Emptied(before, db, t, mailbox, idOf, io, after, created, moves, gone)
    case _ => !created && moves == [] && gone == {} && after == before
  }

  /** Whether the target is a plain file does not change while its messages are moved. */
  lemma TargetFileStays(disk: Disk, moves: seq<Path>, t: Path)
    requires IsTree(disk) && AreSources(disk.files, moves) && t != [] && !IsJmaPrivate(t[0])
    requires forall m :: m in moves ==> IsEntryOf(m, t)
    ensures t in MovedAll(disk.files, moves) <==> t in disk.files
  {
    forall m | m in moves ensures RescuePath(m) != t && m != t {
      assert RescuePath(m)[0] == RESCUE_FOLDER_NAME;
    }
    OthersStay(disk.files, moves, t);
  }

  lemma MovesLeaveTarget(
    before: Disk, db: Db, t: Path, mailbox: Option<MailboxId>, idOf: Path -> MaildirId, io: Io, moves: seq<Path>)
    requires IsTree(before) && AreSources(before.files, moves) && t != [] && !IsJmaPrivate(t[0])
    requires ToSet(moves) <= ToRescue(before.files, db, t, mailbox, idOf, io)
    ensures t in MovedAll(before.files, moves) <==> t in before.files
  {
    forall m | m in moves ensures IsEntryOf(m, t) {
      assert m in ToSet(moves);
    }
    TargetFileStays(before, moves, t);
  }

  /** What comes before the deletion. */
  ghost predicate Prepared(
    before: Disk, db: Db, t: Path, mailbox: Option<MailboxId>, idOf: Path -> MaildirId, io: Io, now: Disk, ready: bool,
    created: bool, moves: seq<Path>)
  {
    if SeesNested(before.dirs, io.sight, t) || HealBlocked(before, t, io)
    then !ready && !created && moves == [] && now == before
    else
      var prepared := Ready(before, t, io);
      && Rescues(prepared, db, t, mailbox, idOf, io, created, moves)
      && now == Disk(MovedAll(prepared.files, moves), prepared.dirs + MadeDirs(created))
      && (ready <==> RescueSucceeds(prepared, db, t, mailbox, idOf, io))
  }

  lemma PreparedEmpties(
    before: Disk, db: Db, t: Path, mailbox: Option<MailboxId>, idOf: Path -> MaildirId, io: Io, now: Disk, ready: bool,
    created: bool, moves: seq<Path>)
    requires IsTree(before) && t != [] && !IsJmaPrivate(t[0])
    requires Prepared(before, db, t, mailbox, idOf, io, now, ready, created, moves)
    ensures ready ==> (t in now.files <==> t in before.files)
    ensures ready && t !in now.files ==>
              Emptied(before, db, t, mailbox, idOf, io, Without(now, Gone(now, t, io.removal)), created, moves,
                      Gone(now, t, io.removal))
    ensures !ready || t in now.files ==> Emptied(before, db, t, mailbox, idOf, io, now, created, moves, {})
    ensures ready <==> && !SeesNested(before.dirs, io.sight, t) && !HealBlocked(before, t, io)
                       && RescueSucceeds(Ready(before, t, io), db, t, mailbox, idOf, io)
  {
    assert now.files - {} == now.files && now.dirs - {} == now.dirs;
    if ready {
      MovesLeaveTarget(before, db, t, mailbox, idOf, io, moves);
    }
  }

  lemma EmptiedReshapes(
    before: Disk, db: Db, folder: string, mailbox: Option<MailboxId>, idOf: Path -> MaildirId, io: Io, after: Disk,
    created: bool, moves: seq<Path>, gone: set<Path>)
    requires IsTree(before) && IsTree(after) && Public(folder) && Guarded(folder, before).Target?
    requires Emptied(before, db, Guarded(folder, before).path, mailbox, idOf, io, after, created, moves, gone)
    ensures var t := Guarded(folder, before).path;
            && Reshaped(before, db, folder, mailbox, idOf, io, after, moves, gone,
                        Takes(before, db, t, mailbox, idOf, io))
            && (!io.canonicalizeFails ==>
                  (Takes(before, db, t, mailbox, idOf, io) <==> Removable(folder, before, db, mailbox, idOf, io)))
  {
    TargetIsPublic(folder, before);
    var t := Guarded(folder, before).path;
    if !SeesNested(before.dirs, io.sight, t) && !HealBlocked(before, t, io) {
      DeletionFits(before, db, t, mailbox, idOf, io, after, created, moves, gone);
    }
  }

  /** Deletions stay below the folder and follow a complete rescue. */
  lemma DeletionFits(
    before: Disk, db: Db, t: Path, mailbox: Option<MailboxId>, idOf: Path -> MaildirId, io: Io, after: Disk,
    created: bool, moves: seq<Path>, gone: set<Path>)
    requires IsTree(before) && t != [] && !IsJmaPrivate(t[0])
    requires !SeesNested(before.dirs, io.sight, t) && !HealBlocked(before, t, io)
    requires Emptied(before, db, t, mailbox, idOf, io, after, created, moves, gone)
    ensures AreSources(before.files, moves) && after.files == MovedAll(before.files, moves) - gone
    ensures ToSet(moves) <= ToRescue(before.files, db, t, mailbox, idOf, io)
    ensures forall p :: p in gone ==> AtOrUnder(p, t)
    ensures gone != {} && Opened(Ready(before, t, io), t, io) ==>
              ToSet(moves) == ToRescue(before.files, db, t, mailbox, idOf, io)
    ensures after.dirs <= before.dirs + RescueDirs() + MaildirDirs(t) && before.dirs <= after.dirs + gone
    ensures Takes(before, db, t, mailbox, idOf, io) ==> Absent(after, t)
    ensures gone != {} ==> Takes(before, db, t, mailbox, idOf, io) || io.removal.StopsAfter?
  {
  }

  // ---------- what a rescue does, message by message ----------

  /** The DB has this id among the messages of the mailbox. */
  ghost predicate HasMessage(db: Db, mailbox: MailboxId, id: MaildirId) {
    exists e :: e in db.messages && db.messages[e].mailbox == mailbox && db.messages[e].maildirId == Some(id)
  }

  /** A message of the folder that is listed and that the DB does not have. */
  ghost predicate IsLoose(
    files: map<Path, Content>, db: Db, t: Path, mailbox: Option<MailboxId>, idOf: Path -> MaildirId, io: Io,
    sub: string, name: string)
  {
    && t + [sub, name] in files && sub in {"cur", "new"} && (name == "" || name[0] != '.')
    && t + [sub] !in io.sight.unlisted
    && (mailbox.Some? ==> !HasMessage(db, mailbox.value, idOf(t + [sub, name])))
  }

  /** Only loose messages leave the folder, and a complete rescue puts a file under the name of each
      into the rescue maildir. */
  ghost predicate TakesLoose(
    before: map<Path, Content>, after: map<Path, Content>, db: Db, t: Path, mailbox: Option<MailboxId>,
    idOf: Path -> MaildirId, io: Io, complete: bool)
  {
    && (forall p :: p in before && p !in after ==>
          exists sub, name :: p == t + [sub, name] && IsLoose(before, db, t, mailbox, idOf, io, sub, name))
    && (complete ==> forall sub, name :: IsLoose(before, db, t, mailbox, idOf, io, sub, name) ==>
          t + [sub, name] !in after && [".jma-rescue", "cur", name] in after)
  }

  lemma KnownMeans(db: Db, mailbox: Option<MailboxId>, id: MaildirId)
    ensures id in Known(db, mailbox) <==> mailbox.Some? && HasMessage(db, mailbox.value, id)
  {
  }

  lemma LooseIsToRescue(
    files: map<Path, Content>, db: Db, t: Path, mailbox: Option<MailboxId>, idOf: Path -> MaildirId, io: Io, p: Path)
    ensures p in ToRescue(files, db, t, mailbox, idOf, io)
            <==> exists sub, name :: p == t + [sub, name] && IsLoose(files, db, t, mailbox, idOf, io, sub, name)
  {
    KnownMeans(db, mailbox, idOf(p));
    if p in ToRescue(files, db, t, mailbox, idOf, io) {
      var sub, name := p[|t|], p[|t| + 1];
      assert p == t + [sub, name] && Parent(p) == t + [sub];
      assert IsLoose(files, db, t, mailbox, idOf, io, sub, name);
    }
    if sub, name :| p == t + [sub, name] && IsLoose(files, db, t, mailbox, idOf, io, sub, name) {
      assert p[|t|] == sub && p[|t| + 1] == name && Parent(p) == t + [sub];
    }
  }

  lemma LooseIsTaken(
    before: Disk, db: Db, t: Path, mailbox: Option<MailboxId>, idOf: Path -> MaildirId, io: Io, created: bool,
    moves: seq<Path>, ok: bool)
    requires Rescues(before, db, t, mailbox, idOf, io, created, moves)
    requires ok <==> RescueSucceeds(before, db, t, mailbox, idOf, io)
    ensures TakesLoose(before.files, MovedAll(before.files, moves), db, t, mailbox, idOf, io, ok
            && Opened(before, t, io))
  {
    MovesLand(before.files, moves);
    forall p | p in before.files && p !in MovedAll(before.files, moves)
      ensures exists sub, name :: p == t + [sub, name] && IsLoose(before.files, db, t, mailbox, idOf, io, sub, name)
    {
      assert p in ToSet(moves);
      LooseIsToRescue(before.files, db, t, mailbox, idOf, io, p);
    }
    if ok && Opened(before, t, io) {
      forall sub, name | IsLoose(before.files, db, t, mailbox, idOf, io, sub, name)
        ensures t + [sub, name] in moves && RescuePath(t + [sub, name]) == [".jma-rescue", "cur", name]
      {
        LooseIsToRescue(before.files, db, t, mailbox, idOf, io, t + [sub, name]);
        assert t + [sub, name] in ToSet(moves);
      }
    }
  }

  class Store {
    var disk: Disk
    var db: Db
    const idOf: Path -> MaildirId

    constructor (disk: Disk, db: Db, idOf: Path -> MaildirId)
      ensures this.disk == disk && this.db == db && this.idOf == idOf
    {
      this.disk, this.db, this.idOf := disk, db, idOf;
    }

    /** One step of the rescue loop: create the rescue maildir if need be, then rename. */
    method RescueEntry(ghost before: Disk, p: Path, created: bool, io: Io, ghost moves: seq<Path>)
      returns (ok: bool, nowCreated: bool, ghost nowMoved: seq<Path>)
      requires Rescuing(before, disk, created, io, moves)
      requires p in before.files && p !in moves && p != [] && p[0] != RESCUE_FOLDER_NAME
      modifies this`disk
      ensures Rescuing(before, disk, nowCreated, io, nowMoved)
      ensures nowMoved == if ok then moves + [p] else moves
      ensures created ==> nowCreated
      ensures ok <==> CanRescue(before, io, p)
    {
      nowCreated, nowMoved := created, moves;
      if !created {
        if io.rescueDirFails || !(RescueDirs() !! disk.files.Keys) {
          return false, nowCreated, nowMoved;
        }
        RescueDirsCreated(before, disk, io, moves);
        disk := disk.(dirs := disk.dirs + RescueDirs());
        nowCreated := true;
      }
      if p in io.badRenames || RescuePath(p) in disk.dirs {
        return false, nowCreated, nowMoved;
      }
      OneMoreRescued(before, disk, io, moves, p);
      nowMoved := moves + [p];
      disk := disk.(files := Moved(disk.files, p));
      ok := true;
    }

    /** One listed message: an error, known to the DB, or to be rescued. */
    method TakeEntry(ghost before: Disk, p: Path, known: set<MaildirId>, io: Io, created: bool, ghost moves: seq<Path>)
      returns (ok: bool, nowCreated: bool, ghost nowMoved: seq<Path>)
      requires Rescuing(before, disk, created, io, moves)
      requires p in before.files && p !in moves && p != [] && p[0] != RESCUE_FOLDER_NAME
      modifies this`disk
      ensures Rescuing(before, disk, nowCreated, io, nowMoved)
      ensures nowMoved == if ok && idOf(p) !in known then moves + [p] else moves
      ensures (created ==> nowCreated) && (nowCreated ==> created || idOf(p) !in known)
      ensures ok <==> Passes(before, known, idOf, io, p)
    {
      nowCreated, nowMoved := created, moves;
      if p in io.badEntries {
        return false, nowCreated, nowMoved;
      }
      if idOf(p) in known {
        return true, nowCreated, nowMoved;
      }
      ok, nowCreated, nowMoved := RescueEntry(before, p, nowCreated, io, nowMoved);
    }

    /** The rescue loop over one subdirectory: its messages come in any order until one is stuck. */
    method RescueListed(
      ghost before: Disk, t: Path, sub: string, known: set<MaildirId>, io: Io, created: bool, ghost moves: seq<Path>)
      returns (ok: bool, nowCreated: bool, ghost nowMoved: seq<Path>, ghost done: set<Path>)
      requires Rescuing(before, disk, created, io, moves) && t != [] && !IsJmaPrivate(t[0])
      requires forall m :: m in moves ==> m !in Listed(before.files, t, sub, io)
      modifies this`disk
      ensures Rescuing(before, disk, nowCreated, io, nowMoved) && (created ==> nowCreated)
      ensures nowCreated ==> created || Unknowns(before.files, t, sub, known, idOf, io) != {}
      ensures done <= Unknowns(before.files, t, sub, known, idOf, io) && Advanced(moves, nowMoved, done)
      ensures ok ==> done == Unknowns(before.files, t, sub, known, idOf, io)
      ensures ok <==> ListedClear(before, t, sub, known, idOf, io)
    {
      nowCreated, nowMoved, done := created, moves, {};
      ListedStays(before.files, moves, t, sub, io);
      var remaining := Listed(disk.files, t, sub, io);
      ghost var unknowns := Unknowns(before.files, t, sub, known, idOf, io);
      ListStarts(before, t, sub, known, idOf, io, moves);
      while remaining != {}
        invariant Rescuing(before, disk, nowCreated, io, nowMoved)
        invariant (created ==> nowCreated) && (nowCreated ==> created || unknowns != {})
        invariant ListedSoFar(before, t, sub, known, idOf, io, moves, nowMoved, remaining)
        invariant done == unknowns - remaining
        decreases remaining
      {
        var p :| p in remaining;
        ListStep(before, t, sub, known, idOf, io, moves, nowMoved, remaining, p);
        ok, nowCreated, nowMoved := TakeEntry(before, p, known, io, nowCreated, nowMoved);
        if !ok {
          return false, nowCreated, nowMoved, done;
        }
        remaining := remaining - {p};
        done := unknowns - remaining;
      }
      ok := true;
    }

    /** `rescue_unmapped_files`: `cur/` first, then `new/`. A folder that does not show a `cur/` has
        nothing to rescue as far as this can see. */
    method RescueUnmappedFiles(t: Path, mailbox: Option<MailboxId>, io: Io)
      returns (ok: bool, ghost created: bool, ghost moves: seq<Path>)
      requires IsTree(disk) && t != [] && !IsJmaPrivate(t[0])
      modifies this`disk
      ensures IsTree(disk) && disk == Disk(MovedAll(old(disk).files, moves), old(disk).dirs + MadeDirs(created))
      ensures Rescues(old(disk), db, t, mailbox, idOf, io, created, moves)
      ensures ok <==> RescueSucceeds(old(disk), db, t, mailbox, idOf, io)
      ensures moves != [] ==> forall n :: n in {"cur", "new", "tmp"} ==> [".jma-rescue", n] in disk.dirs
      ensures TakesLoose(old(disk).files, disk.files, db, t, mailbox, idOf, io, ok && Opened(old(disk), t, io))
    {
      ghost var was := disk;
      created, moves, ok := RescueAll(t, mailbox, io);
      LooseIsTaken(was, db, t, mailbox, idOf, io, created, moves, ok);
    }

    /** The loops of it. */
    method RescueAll(t: Path, mailbox: Option<MailboxId>, io: Io)
      returns (ghost created: bool, ghost moves: seq<Path>, ok: bool)
      requires IsTree(disk) && t != [] && !IsJmaPrivate(t[0])
      modifies this`disk
      ensures IsTree(disk) && disk == Disk(MovedAll(old(disk).files, moves), old(disk).dirs + MadeDirs(created))
      ensures Rescues(old(disk), db, t, mailbox, idOf, io, created, moves)
      ensures ok <==> RescueSucceeds(old(disk), db, t, mailbox, idOf, io)
    {
      created, moves := false, [];
      if !Opened(disk, t, io) {
        return created, moves, true;
      }
      if mailbox.Some? && io.rowsUnreadable {
        return created, moves, false;
      }
      ghost var before := disk;
      var known := Known(db, mailbox);
      var made := false;
      ghost var done, more := {}, {};
      UnmappedBySub(before, db, t, mailbox, idOf, io);
      ok, made, moves, done := RescueListed(before, t, "cur", known, io, made, moves);
      RescueHalfDone(before, db, t, mailbox, idOf, io, moves, done, ok);
      if ok {
        ghost var first := moves;
        ok, made, moves, more := RescueListed(before, t, "new", known, io, made, moves);
        RescueDone(before, db, t, mailbox, idOf, io, first, moves, done, more, ok);
      }
      created := made;
      RescueReported(before, db, t, mailbox, idOf, io, disk, created, moves, ok);
    }

    /** Everything before the deletion; `ready` says that it may go ahead. */
    method Prepare(t: Path, mailbox: Option<MailboxId>, io: Io)
      returns (ready: bool, ghost created: bool, ghost moves: seq<Path>)
      requires IsTree(disk) && t != [] && !IsJmaPrivate(t[0])
      modifies this`disk
      ensures IsTree(disk)
      ensures Prepared(old(disk), db, t, mailbox, idOf, io, disk, ready, created, moves)
    {
      created, moves := false, [];
      var nested := ContainsNestedMaildir(disk.dirs, io.sight, t);
      if nested {
        return false, created, moves;
      }
      if NeedsHeal(disk, t, io) {
        if io.healFails || !CanHeal(disk, t) {
          return false, created, moves;
        }
        assert Parent(t + ["cur"]) == t && Parent(t + ["new"]) == t;
        HealKeepsTree(disk, t);
        disk := Healed(disk, t);
      }
      ready, created, moves := RescueUnmappedFiles(t, mailbox, io);
    }

    /** `remove_dir_all`. */
    method Delete(t: Path, removal: Removal)
      requires IsTree(disk) && t != []
      modifies this`disk
      ensures IsTree(disk) && disk == Without(old(disk), Gone(old(disk), t, removal))
    {
      GoneKeepsTree(disk, t, removal);
      disk := Without(disk, Gone(disk, t, removal));
    }

    /** The disk half: nested check, heal, rescue, then delete. */
    method TakeDown(t: Path, mailbox: Option<MailboxId>, io: Io)
      returns (taken: bool, ghost created: bool, ghost moves: seq<Path>, ghost gone: set<Path>)
      requires IsTree(disk) && t != [] && !IsJmaPrivate(t[0]) && (t in disk.dirs || t in disk.files)
      modifies this`disk
      ensures IsTree(disk) && Emptied(old(disk), db, t, mailbox, idOf, io, disk, created, moves, gone)
      ensures taken <==> Takes(old(disk), db, t, mailbox, idOf, io)
    {
      gone := {};
      var ready;
      ready, created, moves := Prepare(t, mailbox, io);
      PreparedEmpties(old(disk), db, t, mailbox, idOf, io, disk, ready, created, moves);
      if !ready {
        return false, created, moves, gone;
      }
      if t in disk.files {
        return false, created, moves, gone;
      }
      gone := Gone(disk, t, io.removal);
      Delete(t, io.removal);
      taken := io.removal.Completes?;
    }

    /** `remove_maildir_tree`. `moves` are the files rescued and `gone` what was deleted: only
        below the folder, and only once all its unmapped messages are out. */
    method RemoveMaildirTree(folder: string, mailbox: Option<MailboxId>, io: Io)
      returns (r: Result<RemovalOutcome, DbError>, ghost created: bool, ghost moves: seq<Path>, ghost gone: set<Path>)
      requires IsTree(disk) && Public(folder)
      modifies this
      ensures Leaves(old(disk), old(db), folder, mailbox, idOf, io, disk, created, moves, gone)
      ensures Reshaped(old(disk), old(db), folder, mailbox, idOf, io, disk, moves, gone, r != Ok(Skipped))
      ensures db == if r == Ok(Removed) then Cascaded(old(db), folder, mailbox) else old(db)
      ensures r == Ok(Skipped) <==> !Removable(folder, old(disk), old(db), mailbox, idOf, io)
      ensures r.Err? <==> io.cascadeFails && Removable(folder, old(disk), old(db), mailbox, idOf, io)
    {
      created, moves, gone := false, [], {};
      if io.canonicalizeFails {
        return Ok(Skipped), created, moves, gone;
      }
      var guard := Guarded(folder, disk);
      if guard.Refused? {
        return Ok(Skipped), created, moves, gone;
      }
      if guard.Target? {
        TargetIsPublic(folder, disk);
        var taken;
        taken, created, moves, gone := TakeDown(guard.path, mailbox, io);
        EmptiedReshapes(old(disk), old(db), folder, mailbox, idOf, io, disk, created, moves, gone);
        if !taken {
          return Ok(Skipped), created, moves, gone;
        }
      }
      if io.cascadeFails {
        return Err(DbError), created, moves, gone;
      }
      db := Cascaded(db, folder, mailbox);
      r := Ok(Removed);
    }
  }
}
