/** `src/daemon/runner.rs`: folding the triggers of one window into one cycle and its scan scope. */
module Runner {
  import opened Common

  type Path = string

  datatype SyncTrigger =
    | RemoteChange
    | LocalChange(paths: seq<Path>)
    | LocalStructuralChange(candidates: seq<Path>, messagePaths: seq<Path>)
    | Initial
    | Manual

  /** What a run of triggers adds up to, whichever way it is later summarised. */
  datatype Tally = Tally(
    initial: bool, manual: bool, remote: bool, structural: bool,
    candidates: seq<Path>, structuralPaths: seq<Path>, changePaths: seq<Path>)

  const NOTHING := Tally(false, false, false, false, [], [], [])

  ghost function Added(t: Tally, trigger: SyncTrigger): Tally {
    match trigger
    case Initial => t.(initial := true)
    case Manual => t.(manual := true)
    case RemoteChange => t.(remote := true)
    case LocalStructuralChange(c, m) =>
      t.(structural := true, candidates := t.candidates + c, structuralPaths := t.structuralPaths + m)
    case LocalChange(p) => t.(changePaths := t.changePaths + p)
  }

  ghost function Counted(triggers: seq<SyncTrigger>): Tally {
    if triggers == [] then NOTHING
    else Added(Counted(triggers[..|triggers| - 1]), triggers[|triggers| - 1])
  }

  ghost function Summary(t: Tally): SyncTrigger {
    if t.initial then Initial
    else if t.manual then Manual
    else if t.remote then RemoteChange
    else if t.structural then LocalStructuralChange(t.candidates, t.structuralPaths + t.changePaths)
    else LocalChange(t.changePaths)
  }

  /** `coalesce_triggers`. */
  method CoalesceTriggers(first: SyncTrigger, rest: seq<SyncTrigger>) returns (r: SyncTrigger)
    ensures r == Coalesced([first] + rest)
    ensures IsBroadest(r, [first] + rest)
  {
    CoalescedKind([first] + rest);
    var localChangePaths: seq<Path>, structuralCandidates: seq<Path>, structuralMessagePaths: seq<Path> := [], [], [];
    var hasInitial, hasManual, hasRemote, hasStructural := false, false, false, false;
    var all := [first] + rest;
    for i := 0 to |all|
      invariant Counted(all[..i]) == Tally(hasInitial, hasManual, hasRemote, hasStructural,
                                           structuralCandidates, structuralMessagePaths, localChangePaths)
    {
      assert all[..i + 1][..i] == all[..i];
      match all[i]
      case Initial => hasInitial := true;
      case Manual => hasManual := true;
      case RemoteChange => hasRemote := true;
      case LocalStructuralChange(c, m) =>
        hasStructural := true;
        structuralCandidates := structuralCandidates + c;
        structuralMessagePaths := structuralMessagePaths + m;
      case LocalChange(p) => localChangePaths := localChangePaths + p;
    }
    assert all[..|all|] == all;
    if hasInitial {
      r := Initial;
    } else if hasManual {
      r := Manual;
    } else if hasRemote {
      r := RemoteChange;
    } else if hasStructural {
      r := LocalStructuralChange(structuralCandidates, structuralMessagePaths + localChangePaths);
    } else {
      r := LocalChange(localChangePaths);
    }
  }

  ghost function Coalesced(triggers: seq<SyncTrigger>): SyncTrigger {
    Summary(Counted(triggers))
  }

  /** `r` is of the kind that wins: initial over manual over remote over structural over local. */
  ghost predicate IsBroadest(r: SyncTrigger, triggers: seq<SyncTrigger>) {
    && (r == Initial <==> Initial in triggers)
    && (r == Manual <==> Initial !in triggers && Manual in triggers)
    && (r == RemoteChange <==> Initial !in triggers && Manual !in triggers && RemoteChange in triggers)
    && (r.LocalStructuralChange? <==>
          && Initial !in triggers && Manual !in triggers && RemoteChange !in triggers
          && exists t :: t in triggers && t.LocalStructuralChange?)
  }

  /** The tally knows which kinds these triggers have. */
  ghost predicate KnowsKinds(t: Tally, triggers: seq<SyncTrigger>) {
    && (t.initial <==> Initial in triggers) && (t.manual <==> Manual in triggers)
    && (t.remote <==> RemoteChange in triggers)
    && (t.structural <==> exists x :: x in triggers && x.LocalStructuralChange?)
  }

  lemma AddedKind(t: Tally, triggers: seq<SyncTrigger>, last: SyncTrigger)
    requires KnowsKinds(t, triggers)
    ensures KnowsKinds(Added(t, last), triggers + [last])
  {
    var all := triggers + [last];
    assert forall x :: x in all <==> x in triggers || x == last;
  }

  lemma {:induction false} CountedKinds(triggers: seq<SyncTrigger>)
    ensures KnowsKinds(Counted(triggers), triggers)
  {
    if triggers == [] {
    } else {
      var init, last := triggers[..|triggers| - 1], triggers[|triggers| - 1];
      assert triggers == init + [last];
      CountedKinds(init);
      AddedKind(Counted(init), init, last);
    }
  }

  lemma CoalescedKind(triggers: seq<SyncTrigger>)
    ensures IsBroadest(Coalesced(triggers), triggers)
  {
    CountedKinds(triggers);
  }

  /** How broad a look a trigger asks for. */
  ghost function Breadth(t: SyncTrigger): nat {
    match t
    case LocalChange(_) => 0
    case LocalStructuralChange(_, _) => 1
    case RemoteChange => 2
    case Manual => 3
    case Initial => 4
  }

  ghost function PathsOf(t: SyncTrigger): seq<Path> {
    match t
    case LocalChange(p) => p
    case LocalStructuralChange(_, m) => m
    case _ => []
  }

  ghost function CandidatesOf(t: SyncTrigger): seq<Path> {
    if t.LocalStructuralChange? then t.candidates else []
  }

  ghost function AllPaths(triggers: seq<SyncTrigger>): multiset<Path> {
    if triggers == [] then multiset{}
    else AllPaths(triggers[..|triggers| - 1]) + multiset(PathsOf(triggers[|triggers| - 1]))
  }

  ghost function AllCandidates(triggers: seq<SyncTrigger>): seq<Path> {
    if triggers == [] then []
    else AllCandidates(triggers[..|triggers| - 1]) + CandidatesOf(triggers[|triggers| - 1])
  }

  lemma AddedBreadth(t: Tally, trigger: SyncTrigger)
    ensures Breadth(Summary(Added(t, trigger)))
            == if Breadth(trigger) > Breadth(Summary(t)) then Breadth(trigger) else Breadth(Summary(t))
  {
  }

  /** The coalesced trigger is exactly as broad as the broadest of the window. */
  lemma {:induction false} CoalescedIsBroadest(triggers: seq<SyncTrigger>)
    ensures forall t :: t in triggers ==> Breadth(t) <= Breadth(Coalesced(triggers))
    ensures triggers != [] ==> exists t :: t in triggers && Breadth(t) == Breadth(Coalesced(triggers))
    ensures triggers == [] ==> Breadth(Coalesced(triggers)) == 0
  {
    if triggers == [] {
    } else {
      var init, last := triggers[..|triggers| - 1], triggers[|triggers| - 1];
      assert triggers == init + [last];
      CoalescedIsBroadest(init);
      AddedBreadth(Counted(init), last);
      assert last in triggers;
    }
  }

  /** The tally has these paths, in some order, and these candidates. */
  ghost predicate Carries(t: Tally, paths: multiset<Path>, candidates: seq<Path>) {
    && multiset(t.structuralPaths) + multiset(t.changePaths) == paths
    && t.candidates == candidates
    && (!t.structural ==> t.candidates == [] && t.structuralPaths == [])
  }

  lemma AddedCarries(t: Tally, trigger: SyncTrigger, paths: multiset<Path>, candidates: seq<Path>)
    requires Carries(t, paths, candidates)
    ensures Carries(Added(t, trigger), paths + multiset(PathsOf(trigger)), candidates + CandidatesOf(trigger))
  {
  }

  lemma {:induction false} CountedCarriesAll(triggers: seq<SyncTrigger>)
    ensures Carries(Counted(triggers), AllPaths(triggers), AllCandidates(triggers))
  {
    if triggers == [] {
    } else {
      var init := triggers[..|triggers| - 1];
      CountedCarriesAll(init);
      AddedCarries(Counted(init), triggers[|triggers| - 1], AllPaths(init), AllCandidates(init));
    }
  }

  /** As long as the coalesced trigger carries paths at all, it carries every path of every
      trigger, and every candidate in order. */
  lemma CoalescedCarriesAll(triggers: seq<SyncTrigger>)
    ensures Breadth(Coalesced(triggers)) <= 1 ==>
              && multiset(PathsOf(Coalesced(triggers))) == AllPaths(triggers)
              && CandidatesOf(Coalesced(triggers)) == AllCandidates(triggers)
    ensures Breadth(Coalesced(triggers)) > 1 ==>
              PathsOf(Coalesced(triggers)) == [] && CandidatesOf(Coalesced(triggers)) == []
  {
    CountedCarriesAll(triggers);
    var t := Counted(triggers);
    assert multiset(t.structuralPaths + t.changePaths) == multiset(t.structuralPaths) + multiset(t.changePaths);
  }

  lemma {:induction false} AllPathsConcat(a: seq<SyncTrigger>, b: seq<SyncTrigger>)
    ensures AllPaths(a + b) == AllPaths(a) + AllPaths(b)
  {
    if b == [] {
      assert a + b == a;
    } else {
      var init, last := b[..|b| - 1], b[|b| - 1];
      AllPathsConcat(a, init);
      assert (a + b)[..|a + b| - 1] == a + init && (a + b)[|a + b| - 1] == last;
      assert AllPaths(a + b) == AllPaths(a + init) + multiset(PathsOf(last));
    }
  }

  lemma {:induction false} AllCandidatesConcat(a: seq<SyncTrigger>, b: seq<SyncTrigger>)
    ensures AllCandidates(a + b) == AllCandidates(a) + AllCandidates(b)
  {
    if b == [] {
      assert a + b == a;
    } else {
      var init, last := b[..|b| - 1], b[|b| - 1];
      AllCandidatesConcat(a, init);
      assert (a + b)[..|a + b| - 1] == a + init && (a + b)[|a + b| - 1] == last;
      assert AllCandidates(a + b) == AllCandidates(a + init) + CandidatesOf(last);
    }
  }

  lemma SingleTrigger(t: SyncTrigger)
    ensures AllPaths([t]) == multiset(PathsOf(t)) && AllCandidates([t]) == CandidatesOf(t)
  {
    assert [t][..0] == [];
  }

  // ---------- coalescing in stages ----------

  /** Each window coalesced by itself. */
  ghost function Staged(windows: seq<seq<SyncTrigger>>): seq<SyncTrigger> {
    Map(windows, (w: seq<SyncTrigger>) => Coalesced(w))
  }

  lemma StagedConcat(w: seq<SyncTrigger>, rest: seq<seq<SyncTrigger>>)
    ensures Staged([w] + rest) == [Coalesced(w)] + Staged(rest)
  {
  }

  /** While each window carries paths, nothing they carry is lost between the stages. */
  lemma {:induction false} StagedCarries(windows: seq<seq<SyncTrigger>>)
    requires forall w :: w in windows ==> Breadth(Coalesced(w)) <= 1
    ensures AllPaths(Staged(windows)) == AllPaths(Flatten(windows))
    ensures AllCandidates(Staged(windows)) == AllCandidates(Flatten(windows))
  {
    if windows == [] {
      assert Flatten(windows) == [] && Staged(windows) == [];
    } else {
      var w, rest := windows[0], windows[1..];
      assert windows == [w] + rest;
      StagedCarries(rest);
      StagedConcat(w, rest);
      CoalescedCarriesAll(w);
      SingleTrigger(Coalesced(w));
      AllPathsConcat(w, Flatten(rest));
      AllPathsConcat([Coalesced(w)], Staged(rest));
      AllCandidatesConcat(w, Flatten(rest));
      AllCandidatesConcat([Coalesced(w)], Staged(rest));
    }
  }

  lemma StagedBreadth(windows: seq<seq<SyncTrigger>>)
    requires forall w :: w in windows ==> w != []
    ensures Breadth(Coalesced(Staged(windows))) == Breadth(Coalesced(Flatten(windows)))
    ensures forall w :: w in windows ==> Breadth(Coalesced(w)) <= Breadth(Coalesced(Flatten(windows)))
  {
    var all, staged := Flatten(windows), Staged(windows);
    CoalescedIsBroadest(all);
    CoalescedIsBroadest(staged);
    forall i | 0 <= i < |windows|
      ensures Breadth(staged[i]) <= Breadth(Coalesced(all))
      ensures forall t :: t in windows[i] ==> Breadth(t) <= Breadth(Coalesced(staged))
    {
      var w := windows[i];
      assert w in windows && staged[i] == Coalesced(w) && staged[i] in staged;
      CoalescedIsBroadest(w);
      var broadest :| broadest in w && Breadth(broadest) == Breadth(staged[i]);
      FlattenMembers(windows, broadest);
    }
    forall t | t in all ensures Breadth(t) <= Breadth(Coalesced(staged)) {
      FlattenMembers(windows, t);
    }
    forall w | w in windows ensures Breadth(Coalesced(w)) <= Breadth(Coalesced(all)) {
      var i :| 0 <= i < |windows| && windows[i] == w;
      assert staged[i] == Coalesced(w);
    }
  }

  /** Coalescing in stages, however the window is split up: the same kind of trigger, the same
      candidates, and the same paths. */
  lemma CoalescingInStages(windows: seq<seq<SyncTrigger>>)
    requires forall w :: w in windows ==> w != []
    ensures var direct, staged := Coalesced(Flatten(windows)), Coalesced(Staged(windows));
            && Breadth(staged) == Breadth(direct)
            && multiset(PathsOf(staged)) == multiset(PathsOf(direct))
            && CandidatesOf(staged) == CandidatesOf(direct)
  {
    StagedBreadth(windows);
    CoalescedCarriesAll(Flatten(windows));
    CoalescedCarriesAll(Staged(windows));
    if Breadth(Coalesced(Flatten(windows))) <= 1 {
      StagedCarries(windows);
    }
  }

  datatype ScanScope = Full | Paths(paths: seq<Path>)

  /** The scope the session picks for a cycle. */
  function ScopeOf(t: SyncTrigger): ScanScope {
    if t.LocalChange? then Paths(t.paths) else Full
  }

  /** A cycle walks everything unless all it absorbs are local changes; then it looks at exactly
      their paths. */
  lemma CycleScope(triggers: seq<SyncTrigger>)
    ensures var scope := ScopeOf(Coalesced(triggers));
            && (scope.Paths? <==> forall t :: t in triggers ==> t.LocalChange?)
            && (scope.Paths? ==> multiset(scope.paths) == AllPaths(triggers))
  {
    CoalescedKind(triggers);
    CoalescedCarriesAll(triggers);
    LocalIffAllLocal(triggers, Coalesced(triggers));
  }

  lemma LocalIffAllLocal(triggers: seq<SyncTrigger>, r: SyncTrigger)
    requires IsBroadest(r, triggers)
    ensures r.LocalChange? <==> forall t :: t in triggers ==> t.LocalChange?
  {
    if r.LocalChange? {
      forall t | t in triggers ensures t.LocalChange? {
        assert t == Initial || t == Manual || t == RemoteChange || t.LocalStructuralChange? || t.LocalChange?;
      }
    }
  }

  ghost predicate Covers(scope: ScanScope, p: Path) {
    scope.Full? || p in scope.paths
  }

  /** Whatever a cycle absorbs, it looks at every path its triggers carried. */
  lemma CycleCoversItsTriggers(triggers: seq<SyncTrigger>, t: SyncTrigger, p: Path)
    requires t in triggers && Covers(ScopeOf(t), p)
    ensures Covers(ScopeOf(Coalesced(triggers)), p)
  {
    CoalescedIsBroadest(triggers);
    CoalescedCarriesAll(triggers);
    if Coalesced(triggers).LocalChange? {
      assert Breadth(t) == 0;
      PathIsCarried(triggers, t, p);
      assert p in multiset(PathsOf(Coalesced(triggers)));
    }
  }

  lemma {:induction false} PathIsCarried(triggers: seq<SyncTrigger>, t: SyncTrigger, p: Path)
    requires t in triggers && p in PathsOf(t)
    ensures p in AllPaths(triggers)
  {
    var n := |triggers| - 1;
    if t in triggers[..n] {
      PathIsCarried(triggers[..n], t, p);
    } else {
      assert triggers[n] == t;
    }
  }
}
