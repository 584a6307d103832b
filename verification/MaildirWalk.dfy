/** `src/maildir_ops/drift.rs`: the recursive walk that finds the maildirs under the root. */
module MaildirWalk {
  import opened Common
  import opened Text
  import opened Removal

  ghost function MaildirsBelow(dirs: set<Path>, sight: Sight, dir: Path): (r: set<Path>)
    ensures forall d :: d in r ==> dir < d
  {
    set d | d in dirs && Reaches(sight, dir, d) && LooksMaildir(dirs, sight, d)
  }

  /** Those that lie at or below one entry of the directory. */
  ghost function Through(dirs: set<Path>, sight: Sight, dir: Path, c: Path): set<Path> {
    set d | d in MaildirsBelow(dirs, sight, dir) && c <= d
  }

  lemma ThroughEntry(dirs: set<Path>, sight: Sight, dir: Path, c: Path)
    requires dir !in sight.unlisted && c in dirs && |c| == |dir| + 1 && dir < c
    ensures Through(dirs, sight, dir, c)
            == if !IsPlain(c[|dir|]) || c in sight.unseen then {}
               else (if LooksMaildir(dirs, sight, c) then {c} else {}) + MaildirsBelow(dirs, sight, c)
  {
    forall d | c <= d
      ensures Reaches(sight, dir, d) <==> IsPlain(c[|dir|]) && c !in sight.unseen && (d == c || Reaches(sight, c, d))
    {
      assert d[|dir|] == c[|dir|] && d[..|dir|] == dir && d[..|c|] == c;
      if d != c && IsPlain(c[|dir|]) && c !in sight.unseen && Reaches(sight, c, d) {
        ReachesThrough(sight, dir, c, d);
      }
    }
  }

  lemma ThroughSomeEntry(dirs: set<Path>, sight: Sight, dir: Path, d: Path)
    requires ParentsPresent(dirs) && d in MaildirsBelow(dirs, sight, dir)
    ensures d[..|dir| + 1] in Children(dirs, dir) && d in Through(dirs, sight, dir, d[..|dir| + 1])
  {
    PrefixPresent(dirs, d, |dir| + 1);
  }

  function Children(dirs: set<Path>, dir: Path): set<Path> {
    set d | d in dirs && |d| == |dir| + 1 && dir < d
  }

  /** `walk_for_maildirs`; entries come in any order, and an unlisted directory looks empty. */
  method WalkForMaildirs(dirs: set<Path>, sight: Sight, dir: Path, found: set<Path>) returns (r: set<Path>)
    requires ParentsPresent(dirs)
    ensures r == found + MaildirsBelow(dirs, sight, dir)
    decreases |Below(dirs, dir)|
  {
    r := found;
    if dir in sight.unlisted {
      forall d | dir < d ensures !Reaches(sight, dir, d) {
        assert d[..|dir|] == dir;
      }
      return;
    }
    var remaining := Children(dirs, dir);
    ghost var below := MaildirsBelow(dirs, sight, dir);
    while remaining != {}
      invariant remaining <= Children(dirs, dir)
      invariant found <= r <= found + below
      invariant forall c :: c in Children(dirs, dir) - remaining ==> Through(dirs, sight, dir, c) <= r
      decreases remaining
    {
      var c :| c in remaining;
      remaining := remaining - {c};
      BelowShrinks(dirs, dir, c);
      ThroughEntry(dirs, sight, dir, c);
      if IsPlain(c[|dir|]) && c !in sight.unseen {
        if LooksMaildir(dirs, sight, c) {
          r := r + {c};
        }
        r := WalkForMaildirs(dirs, sight, c, r);
      }
    }
    forall d | d in below ensures d in r {
      ThroughSomeEntry(dirs, sight, dir, d);
    }
  }

  /** The folder names of the maildirs the walk can get to. */
  ghost function FolderNames(dirs: set<Path>, sight: Sight): set<string> {
    set d | d in MaildirsBelow(dirs, sight, []) :: Join(d, '/')
  }

  /** `find_maildir_folders`. */
  method FindMaildirFolders(dirs: set<Path>, sight: Sight) returns (folders: set<string>)
    requires ParentsPresent(dirs)
    ensures folders == FolderNames(dirs, sight)
    ensures folders == set d | d in dirs && Shown(dirs, sight, [], d) :: Join(d, '/')
  {
    forall d ensures Shown(dirs, sight, [], d)
                     <==> d in dirs && Reaches(sight, [], d) && LooksMaildir(dirs, sight, d) {
      ShownMeans(dirs, sight, [], d);
    }
    var found := WalkForMaildirs(dirs, sight, [], {});
    folders := set d | d in found :: Join(d, '/');
  }
}
