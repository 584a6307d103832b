/** `src/janitor/rebindfolders.rs`: find the mailbox each orphan folder belongs to, or refuse. */
module RebindFolders {
  import opened Common
  import opened Text
  import Mailboxes

  type Id = string
  type MessageId = string

  // ---------- exact search for perfect matchings ----------

  /** One distinct id per list, each taken from its own list. */
  ghost predicate IsMatching(feasibility: seq<seq<Id>>, m: seq<Id>) {
    && |m| == |feasibility|
    && Distinct(m)
    && forall i :: 0 <= i < |m| ==> m[i] in feasibility[i]
  }

  ghost predicate OnlyMatching(feasibility: seq<seq<Id>>, m: seq<Id>) {
    IsMatching(feasibility, m) && forall other :: IsMatching(feasibility, other) ==> other == m
  }

  ghost predicate NoRepeats(feasibility: seq<seq<Id>>) {
    forall i :: 0 <= i < |feasibility| ==> Distinct(feasibility[i])
  }

  ghost predicate IsPartial(feasibility: seq<seq<Id>>, current: seq<Id>) {
    && |current| <= |feasibility|
    && Distinct(current)
    && forall i :: 0 <= i < |current| ==> current[i] in feasibility[i]
  }

  /** The uncapped search: every completion of `current`, in visiting order. */
  ghost function Completions(feasibility: seq<seq<Id>>, current: seq<Id>): seq<seq<Id>>
    requires |current| <= |feasibility|
    decreases |feasibility| - |current|, 0
  {
    if |current| == |feasibility| then [current] else CompletionsFrom(feasibility, current, 0)
  }

  /** The completions whose next id is taken at position `k` or later of its list. */
  ghost function CompletionsFrom(feasibility: seq<seq<Id>>, current: seq<Id>, k: nat): seq<seq<Id>>
    requires |current| < |feasibility| && k <= |feasibility[|current|]|
    decreases |feasibility| - |current| - 1, 1, |feasibility[|current|]| - k
  {
    var list := feasibility[|current|];
    if k == |list| then []
    else
      (if list[k] in current then [] else Completions(feasibility, current + [list[k]]))
      + CompletionsFrom(feasibility, current, k + 1)
  }

  /** What a collection holding `found` becomes when `more` is offered and `cap` is the limit. */
  ghost function Capped<T>(found: seq<T>, more: seq<T>, cap: nat): seq<T> {
    if |found| >= cap then found
    else if |more| <= cap - |found| then found + more
    else found + more[..cap - |found|]
  }

  lemma CappedAppend<T>(found: seq<T>, a: seq<T>, b: seq<T>, cap: nat)
    ensures Capped(Capped(found, a, cap), b, cap) == Capped(found, a + b, cap)
  {
    if |found| < cap {
      var room := cap - |found|;
      if |a| + |b| <= room {
        assert found + a + b == found + (a + b);
      } else if |a| < room {
        assert (a + b)[..room] == a + b[..room - |a|];
        assert found + a + b[..room - |a|] == found + (a + b)[..room];
      } else {
        assert (a + b)[..room] == a[..room];
        assert |a| == room ==> a[..room] == a && (b == [] ==> a + b == a);
      }
    }
  }

  class MatchingSearch {
    var current: seq<Id>
    var used: set<Id>
    var found: seq<seq<Id>>

    constructor ()
      ensures current == [] && used == {} && found == []
    {
      current, used, found := [], {}, [];
    }

    /** `enumerate_matchings`. Every exit restores `current` and `used`; `found` gains the
        completions of `current` in order, up to the cap. */
    method Enumerate(feasibility: seq<seq<Id>>, i: nat, cap: nat)
      requires i == |current| <= |feasibility|
      requires used == ToSet(current)
      modifies this
      ensures current == old(current) && used == old(used)
      ensures found == Capped(old(found), Completions(feasibility, current), cap)
      decreases |feasibility| - i
    {
      if |found| >= cap {
        return;
      }
      if i == |feasibility| {
        found := found + [current];
        return;
      }
      ghost var goal := Capped(found, CompletionsFrom(feasibility, current, 0), cap);
      for k := 0 to |feasibility[i]|
        invariant current == old(current) && used == old(used)
        invariant |found| < cap
        invariant Capped(found, CompletionsFrom(feasibility, current, k), cap) == goal
      {
        var candidate := feasibility[i][k];
        if candidate !in used {
          CappedAppend(found, Completions(feasibility, current + [candidate]),
                       CompletionsFrom(feasibility, current, k + 1), cap);
          used := used + {candidate};
          current := current + [candidate];
          Enumerate(feasibility, i + 1, cap);
          current := current[..|current| - 1];
          used := used - {candidate};
          assert current == old(current);
          if |found| >= cap {
            return;
          }
        }
      }
    }
  }

  /** Whatever the search reaches is a matching that extends where it started. */
  lemma {:induction false} CompletionsSound(feasibility: seq<seq<Id>>, current: seq<Id>, m: seq<Id>)
    requires IsPartial(feasibility, current) && m in Completions(feasibility, current)
    ensures IsMatching(feasibility, m) && current <= m
    decreases |feasibility| - |current|, 0
  {
    if |current| < |feasibility| {
      CompletionsFromSound(feasibility, current, 0, m);
    }
  }

  lemma {:induction false} CompletionsFromSound(feasibility: seq<seq<Id>>, current: seq<Id>, k: nat, m: seq<Id>)
    requires IsPartial(feasibility, current)
    requires |current| < |feasibility| && k <= |feasibility[|current|]|
    requires m in CompletionsFrom(feasibility, current, k)
    ensures IsMatching(feasibility, m) && current <= m
    ensures m[|current|] in feasibility[|current|][k..]
    decreases |feasibility| - |current| - 1, 1, |feasibility[|current|]| - k
  {
    var list := feasibility[|current|];
    if m in CompletionsFrom(feasibility, current, k + 1) {
      CompletionsFromSound(feasibility, current, k + 1, m);
    } else {
      var next := current + [list[k]];
      CompletionsSound(feasibility, next, m);
      assert next[|current|] == m[|current|];
      assert list[k..][0] == list[k];
    }
  }

  /** No matching that extends `current` is missed. */
  lemma {:induction false} CompletionsComplete(feasibility: seq<seq<Id>>, current: seq<Id>, m: seq<Id>)
    requires |current| <= |feasibility| && IsMatching(feasibility, m) && current <= m
    ensures m in Completions(feasibility, current)
    decreases |feasibility| - |current|
  {
    var i := |current|;
    if i == |feasibility| {
      assert m == current;
    } else {
      var k :| 0 <= k < |feasibility[i]| && feasibility[i][k] == m[i];
      assert m[i] !in current;
      CompletionsComplete(feasibility, current + [m[i]], m);
      CompletionsFromReaches(feasibility, current, 0, k, m);
    }
  }

  lemma {:induction false} CompletionsFromReaches(
    feasibility: seq<seq<Id>>, current: seq<Id>, j: nat, k: nat, m: seq<Id>)
    requires |current| < |feasibility| && j <= k < |feasibility[|current|]|
    requires feasibility[|current|][k] !in current
    requires m in Completions(feasibility, current + [feasibility[|current|][k]])
    ensures m in CompletionsFrom(feasibility, current, j)
    decreases k - j
  {
    if j < k {
      CompletionsFromReaches(feasibility, current, j + 1, k, m);
    }
  }

  /** With no id repeated inside a list, no matching is reached twice. */
  lemma {:induction false} CompletionsDistinct(feasibility: seq<seq<Id>>, current: seq<Id>)
    requires IsPartial(feasibility, current) && NoRepeats(feasibility)
    ensures Distinct(Completions(feasibility, current))
    decreases |feasibility| - |current|, 0
  {
    if |current| < |feasibility| {
      CompletionsFromDistinct(feasibility, current, 0);
    }
  }

  lemma {:induction false} CompletionsFromDistinct(feasibility: seq<seq<Id>>, current: seq<Id>, k: nat)
    requires IsPartial(feasibility, current) && NoRepeats(feasibility)
    requires |current| < |feasibility| && k <= |feasibility[|current|]|
    ensures Distinct(CompletionsFrom(feasibility, current, k))
    decreases |feasibility| - |current| - 1, 1, |feasibility[|current|]| - k
  {
    var list := feasibility[|current|];
    if k < |list| {
      CompletionsFromDistinct(feasibility, current, k + 1);
      if list[k] !in current {
        var next := current + [list[k]];
        CompletionsDistinct(feasibility, next);
        forall m | m in Completions(feasibility, next)
          ensures m !in CompletionsFrom(feasibility, current, k + 1)
        {
          CompletionsSound(feasibility, next, m);
          assert m[|current|] == next[|current|] == list[k];
          if m in CompletionsFrom(feasibility, current, k + 1) {
            CompletionsFromSound(feasibility, current, k + 1, m);
          }
        }
        DistinctConcat(Completions(feasibility, next), CompletionsFrom(feasibility, current, k + 1));
      }
    }
  }

  /** `unique_perfect_matching`. An answer is always the only matching there is; and when no
      list repeats an id, the only matching, if there is one, is always answered. */
  method UniquePerfectMatching(feasibility: seq<seq<Id>>) returns (r: Option<seq<Id>>)
    ensures feasibility == [] ==> r == None
    ensures r.Some? ==> OnlyMatching(feasibility, r.value)
    ensures feasibility != [] && NoRepeats(feasibility)
            ==> forall m :: r == Some(m) <==> OnlyMatching(feasibility, m)
  {
    if feasibility == [] {
      return None;
    }
    var search := new MatchingSearch();
    search.Enumerate(feasibility, 0, 2);
    ghost var all := Completions(feasibility, []);
    forall m ensures m in all <==> IsMatching(feasibility, m) {
      if m in all {
        CompletionsSound(feasibility, [], m);
      }
      if IsMatching(feasibility, m) {
        CompletionsComplete(feasibility, [], m);
      }
    }
    if NoRepeats(feasibility) {
      CompletionsDistinct(feasibility, []);
      assert |all| >= 2 ==> all[0] != all[1] && all[0] in all && all[1] in all;
    }
    if |search.found| == 1 {
      assert all == [search.found[0]];
      r := Some(search.found[0]);
    } else {
      assert |all| == 0 || |all| >= 2;
      r := None;
    }
  }

  // ---------- cross-mapping ----------

  type Mailbox = Mailboxes.Mailbox

  datatype SkipReason =
    | NoMessageIds
    | NoServerMatches
    | AmbiguousAcrossSamples(perGroup: seq<seq<Id>>)

  datatype SkippedFolder = SkippedFolder(folder: string, reason: SkipReason)

  datatype ResolveSource = Consensus | CrossMapping | Explicit

  datatype Candidate = Candidate(
    folder: string, mailboxId: Id, serverName: string, remotePath: string,
    parent: Option<Id>, sampleCount: nat, source: ResolveSource)

  /** `id` is unclaimed and every group that kept anything kept `id`; some group did. */
  ghost predicate Feasible(perGroup: seq<seq<Id>>, unclaimed: set<Id>, id: Id) {
    && id in unclaimed
    && (exists g :: g in perGroup && g != [])
    && forall g :: g in perGroup && g != [] ==> id in g
  }

  /** `strict_feasibility`. */
  function StrictFeasibility(perGroup: seq<seq<Id>>, unclaimed: set<Id>): (r: seq<Id>)
    ensures forall id :: id in r <==> Feasible(perGroup, unclaimed, id)
    ensures forall i, j :: 0 <= i < j < |r| ==> LexLeq(r[i], r[j])
  {
    var nonEmpty := Filter(perGroup, (g: seq<Id>) => g != []);
    if nonEmpty == [] then
      assert forall g :: g in perGroup ==> g == [];
      []
    else
      assert nonEmpty[0] in nonEmpty;
      var kept := Filter(nonEmpty[0], id => (forall g | g in nonEmpty :: id in g) && id in unclaimed);
      var r := SortBy(kept, (id: Id) => id);
      assert forall id :: id in r <==> id in multiset(r);
      assert forall id :: id in kept <==> id in multiset(kept);
      assert SortedBy(r, (id: Id) => id) by {
        SortBySorted(kept, (id: Id) => id);
      }
      r
  }

  lemma StrictFeasibilityDistinct(perGroup: seq<seq<Id>>, unclaimed: set<Id>)
    requires forall g :: g in perGroup ==> Distinct(g)
    ensures Distinct(StrictFeasibility(perGroup, unclaimed))
  {
    var nonEmpty := Filter(perGroup, (g: seq<Id>) => g != []);
    if nonEmpty != [] {
      assert nonEmpty[0] in nonEmpty;
      var r := StrictFeasibility(perGroup, unclaimed);
      assert multiset(r) <= multiset(nonEmpty[0]);
      DistinctMultiset(nonEmpty[0]);
      MultisetDistinct(r);
    }
  }

  /** One distinct unclaimed mailbox for each skipped folder, feasible for that folder. */
  ghost predicate Assigns(skipped: seq<SkippedFolder>, unclaimed: set<Id>, a: seq<Id>) {
    && |a| == |skipped|
    && Distinct(a)
    && forall i :: 0 <= i < |a| ==>
         skipped[i].reason.AmbiguousAcrossSamples? && Feasible(skipped[i].reason.perGroup, unclaimed, a[i])
  }

  /** The conditions under which cross-mapping has no choice left but `a`. */
  ghost predicate Forced(
    skipped: seq<SkippedFolder>, serverCount: nat, diskCount: nat, unclaimed: set<Id>, a: seq<Id>)
  {
    && serverCount == diskCount
    && skipped != []
    && |skipped| == |unclaimed|
    && Assigns(skipped, unclaimed, a)
    && forall b :: Assigns(skipped, unclaimed, b) ==> b == a
  }

  function Targets(candidates: seq<Candidate>): seq<Id> {
    Map(candidates, (c: Candidate) => c.mailboxId)
  }

  /** Server mailboxes neither in `mailbox_map` nor bound earlier in this cycle. */
  function Unclaimed(server: set<Id>, known: set<Id>, candidates: seq<Candidate>): set<Id> {
    server - known - ToSet(Targets(candidates))
  }

  /** The guards of `cross_resolve_ambiguous` and its search: the forced assignment, if any. */
  method ForcedAssignment(skipped: seq<SkippedFolder>, serverCount: nat, diskCount: nat, unclaimed: set<Id>)
    returns (r: Option<seq<Id>>)
    requires forall s, g :: s in skipped && s.reason.AmbiguousAcrossSamples? && g in s.reason.perGroup
                            ==> Distinct(g)
    ensures forall a :: r == Some(a) <==> Forced(skipped, serverCount, diskCount, unclaimed, a)
  {
    if serverCount != diskCount {
      return None;
    }
    if exists s :: s in skipped && !s.reason.AmbiguousAcrossSamples? {
      var s :| s in skipped && !s.reason.AmbiguousAcrossSamples?;
      var i :| 0 <= i < |skipped| && skipped[i] == s;
      return None;
    }
    if skipped == [] || |skipped| != |unclaimed| {
      return None;
    }
    var feasibility := Feasibilities(skipped, unclaimed);
    FeasibilitiesMean(skipped, unclaimed);
    r := UniquePerfectMatching(feasibility);
    assert forall i :: 0 <= i < |skipped| ==> skipped[i] in skipped;
    forall a ensures OnlyMatching(feasibility, a) <==> Forced(skipped, serverCount, diskCount, unclaimed, a) {
    }
  }

  function Feasibilities(skipped: seq<SkippedFolder>, unclaimed: set<Id>): seq<seq<Id>> {
    Map(skipped, (s: SkippedFolder) =>
      if s.reason.AmbiguousAcrossSamples? then StrictFeasibility(s.reason.perGroup, unclaimed) else [])
  }

  /** Choosing from the feasibility lists is assigning each folder a mailbox all its samples allow. */
  lemma FeasibilitiesMean(skipped: seq<SkippedFolder>, unclaimed: set<Id>)
    requires forall s :: s in skipped ==>
               s.reason.AmbiguousAcrossSamples? && forall g :: g in s.reason.perGroup ==> Distinct(g)
    ensures var feasibility := Feasibilities(skipped, unclaimed);
            && (forall i :: 0 <= i < |feasibility| ==> Distinct(feasibility[i]))
            && forall a :: IsMatching(feasibility, a) <==> Assigns(skipped, unclaimed, a)
  {
    var feasibility := Feasibilities(skipped, unclaimed);
    forall i | 0 <= i < |feasibility| ensures Distinct(feasibility[i]) {
      assert skipped[i] in skipped;
      StrictFeasibilityDistinct(skipped[i].reason.perGroup, unclaimed);
    }
    forall a ensures IsMatching(feasibility, a) <==> Assigns(skipped, unclaimed, a) {
      assert forall i :: 0 <= i < |skipped| ==> skipped[i] in skipped;
    }
  }

  /** `c` binds `folder` to the mailbox `id`, under the names and the parent that this mailbox has. */
  ghost predicate Binds(
    c: Candidate, folder: string, id: Id, byId: map<Id, Mailbox>, remotePaths: map<Id, string>)
  {
    && c.folder == folder && id in byId && id in remotePaths && c.mailboxId == byId[id].id
    && c.serverName == byId[id].name && c.parent == byId[id].parent && c.remotePath == remotePaths[id]
    && c.sampleCount == 0 && c.source == CrossMapping
  }

  /** `c` gives the folder of `s` a server mailbox that neither `mailbox_map` nor an earlier candidate
      has, and that every sample group which kept anything kept, there being one. */
  ghost predicate Suits(c: Candidate, s: SkippedFolder, before: seq<Candidate>, known: set<Id>, server: set<Id>) {
    && c.folder == s.folder && c.mailboxId in server && c.mailboxId !in known
    && (forall k :: 0 <= k < |before| ==> before[k].mailboxId != c.mailboxId)
    && s.reason.AmbiguousAcrossSamples? && (exists g :: g in s.reason.perGroup && g != [])
    && forall g :: g in s.reason.perGroup && g != [] ==> c.mailboxId in g
  }

  /** `after` is `before` followed by one candidate per skipped folder, in order, each binding its
      own folder to its own mailbox in `a`. */
  ghost predicate Promoted(
    before: seq<Candidate>, skipped: seq<SkippedFolder>, a: seq<Id>, byId: map<Id, Mailbox>,
    remotePaths: map<Id, string>, after: seq<Candidate>)
  {
    && |a| == |skipped| && |after| == |before| + |skipped| && after[..|before|] == before
    && forall i :: 0 <= i < |skipped| ==> Binds(after[|before| + i], skipped[i].folder, a[i], byId, remotePaths)
  }

  class RebindPlan {
    var candidates: seq<Candidate>
    var skipped: seq<SkippedFolder>

    constructor (candidates: seq<Candidate>, skipped: seq<SkippedFolder>)
      ensures this.candidates == candidates && this.skipped == skipped
    {
      this.candidates, this.skipped := candidates, skipped;
    }

    /** The tail of `cross_resolve_ambiguous`: promote each skipped folder, then drop the skips. */
    method PromoteAll(matching: seq<Id>, byId: map<Id, Mailbox>, remotePaths: map<Id, string>)
      requires |matching| == |skipped| && forall id :: id in matching ==> id in byId && id in remotePaths
      modifies this
      ensures Promoted(old(candidates), old(skipped), matching, byId, remotePaths, candidates)
      ensures skipped == []
    {
      var ambiguous := skipped;
      var promoted := set s | s in ambiguous :: s.folder;
      for i := 0 to |ambiguous|
        invariant skipped == old(skipped)
        invariant Promoted(old(candidates), ambiguous[..i], matching[..i], byId, remotePaths, candidates)
      {
        var mb := byId[matching[i]];
        candidates := candidates + [Candidate(ambiguous[i].folder, mb.id, mb.name, remotePaths[matching[i]],
                                              mb.parent, 0, CrossMapping)];
      }
      assert ambiguous[..|ambiguous|] == ambiguous && matching[..|ambiguous|] == matching;
      var keep := (s: SkippedFolder) => s.folder !in promoted;
      FilterNone(skipped, keep);
      skipped := Filter(skipped, keep);
    }

    /** `cross_resolve_ambiguous`: all or nothing. A forced assignment promotes every skipped
        folder to its mailbox; anything else leaves the plan as it was. */
    method CrossResolveAmbiguous(
      known: set<Id>, byId: map<Id, Mailbox>, remotePaths: map<Id, string>, diskCount: nat)
      returns (ghost choice: Option<seq<Id>>)
      requires forall id :: id in byId ==> byId[id].id == id && id in remotePaths
      requires forall s, g :: s in skipped && s.reason.AmbiguousAcrossSamples? && g in s.reason.perGroup
                              ==> Distinct(g)
      modifies this
      ensures forall a :: choice == Some(a)
                <==> Forced(old(skipped), |byId|, diskCount, Unclaimed(byId.Keys, known, old(candidates)), a)
      ensures choice.None? ==> candidates == old(candidates) && skipped == old(skipped)
      ensures choice.Some? ==>
                Promoted(old(candidates), old(skipped), choice.value, byId, remotePaths, candidates) && skipped == []
      ensures choice.Some? ==> forall i :: 0 <= i < |old(skipped)| ==>
                Suits(candidates[|old(candidates)| + i], old(skipped)[i], old(candidates), known, byId.Keys)
    {
      var unclaimed := Unclaimed(byId.Keys, known, candidates);
      var assignment := ForcedAssignment(skipped, |byId|, diskCount, unclaimed);
      choice := assignment;
      if assignment.Some? {
        AssignedAreListed(skipped, byId.Keys, known, candidates, assignment.value);
        ghost var was, skips := candidates, skipped;
        PromoteAll(assignment.value, byId, remotePaths);
        PromotedMeans(was, skips, known, byId, remotePaths, assignment.value, candidates);
      }
    }
  }

  lemma AssignedAreListed(
    skipped: seq<SkippedFolder>, server: set<Id>, known: set<Id>, candidates: seq<Candidate>, a: seq<Id>)
    requires Assigns(skipped, Unclaimed(server, known, candidates), a)
    ensures forall id :: id in a ==> id in server
  {
    forall id | id in a ensures id in server {
      var i :| 0 <= i < |a| && a[i] == id;
      assert Feasible(skipped[i].reason.perGroup, Unclaimed(server, known, candidates), a[i]);
    }
  }

  /** Each folder gets a mailbox that is its own, unclaimed, and kept by all of its samples. */
  lemma PromotedMeans(
    before: seq<Candidate>, skipped: seq<SkippedFolder>, known: set<Id>, byId: map<Id, Mailbox>,
    remotePaths: map<Id, string>, a: seq<Id>, after: seq<Candidate>)
    requires Assigns(skipped, Unclaimed(byId.Keys, known, before), a)
    requires Promoted(before, skipped, a, byId, remotePaths, after)
    requires forall id :: id in byId ==> byId[id].id == id
    ensures forall i :: 0 <= i < |skipped| ==> Suits(after[|before| + i], skipped[i], before, known, byId.Keys)
  {
    forall i | 0 <= i < |skipped| ensures Suits(after[|before| + i], skipped[i], before, known, byId.Keys) {
      assert Binds(after[|before| + i], skipped[i].folder, a[i], byId, remotePaths);
      forall k | 0 <= k < |before| ensures before[k].mailboxId != a[i] {
        assert Targets(before)[k] in Targets(before);
      }
    }
  }

  /** Counting makes the forced assignment a bijection onto the unclaimed mailboxes. */
  lemma ForcedIsBijection(skipped: seq<SkippedFolder>, serverCount: nat, diskCount: nat, unclaimed: set<Id>, a: seq<Id>)
    requires Forced(skipped, serverCount, diskCount, unclaimed, a)
    ensures Distinct(a) && ToSet(a) == unclaimed
    ensures forall i, g :: 0 <= i < |a| && g in skipped[i].reason.perGroup && g != [] ==> a[i] in g
  {
    DistinctCardinality(a);
    assert ToSet(a) <= unclaimed;
    SubsetCardinality(ToSet(a), unclaimed);
  }

  lemma PromotedTargets(
    before: seq<Candidate>, skipped: seq<SkippedFolder>, a: seq<Id>, byId: map<Id, Mailbox>,
    remotePaths: map<Id, string>, after: seq<Candidate>)
    requires forall id :: id in byId ==> byId[id].id == id
    requires Promoted(before, skipped, a, byId, remotePaths, after)
    ensures Targets(after) == Targets(before) + a
  {
    forall i | 0 <= i < |after| ensures Targets(after)[i] == (Targets(before) + a)[i] {
      if i < |before| {
        assert after[..|before|][i] == before[i];
      } else {
        assert Binds(after[|before| + (i - |before|)], skipped[i - |before|].folder, a[i - |before|], byId,
                     remotePaths);
      }
    }
  }

  /** Promotion never makes two folders claim one mailbox, nor one that is already mapped. */
  lemma PromotionKeepsTargetsDistinct(
    before: seq<Candidate>, skipped: seq<SkippedFolder>, byId: map<Id, Mailbox>, remotePaths: map<Id, string>,
    known: set<Id>, diskCount: nat, a: seq<Id>, after: seq<Candidate>)
    requires forall id :: id in byId ==> byId[id].id == id
    requires Forced(skipped, |byId|, diskCount, Unclaimed(byId.Keys, known, before), a)
    requires Promoted(before, skipped, a, byId, remotePaths, after)
    requires Distinct(Targets(before)) && ToSet(Targets(before)) !! known
    ensures Distinct(Targets(after)) && ToSet(Targets(after)) !! known
    ensures ToSet(Targets(after)) == ToSet(Targets(before)) + Unclaimed(byId.Keys, known, before)
  {
    ForcedIsBijection(skipped, |byId|, diskCount, Unclaimed(byId.Keys, known, before), a);
    PromotedTargets(before, skipped, a, byId, remotePaths, after);
    JoinedTargets(Targets(before), a, known);
  }

  lemma JoinedTargets(targets: seq<Id>, a: seq<Id>, known: set<Id>)
    requires Distinct(targets) && ToSet(targets) !! known && Distinct(a) && ToSet(a) !! known + ToSet(targets)
    ensures Distinct(targets + a) && ToSet(targets + a) == ToSet(targets) + ToSet(a) && ToSet(targets + a) !! known
  {
    forall x | x in targets ensures x !in a {
      assert x in ToSet(targets) && x !in ToSet(a);
    }
    DistinctConcat(targets, a);
  }

  /** What the count guard adds once the first two guards hold: as many claimed server mailboxes
      as there are bound folders and consensus binds together. */
  lemma CountGuard(server: set<Id>, known: set<Id>, candidates: seq<Candidate>, boundFolders: nat, ambiguous: nat)
    requires |server| == boundFolders + |candidates| + ambiguous
    ensures ambiguous == |Unclaimed(server, known, candidates)|
            <==> |server * (known + ToSet(Targets(candidates)))| == boundFolders + |candidates|
  {
    var claimed := server * (known + ToSet(Targets(candidates)));
    assert Unclaimed(server, known, candidates) == server - claimed;
    assert server == claimed + (server - claimed);
    assert |server| == |claimed| + |server - claimed|;
  }

  // ---------- probing one folder ----------

  datatype FoundEmail = FoundEmail(messageIds: Option<seq<MessageId>>, mailboxIds: set<Id>)

  ghost predicate Matches(e: FoundEmail, sample: MessageId) {
    e.messageIds.Some? && sample in e.messageIds.value
  }

  /** Every mailbox holding an email that matches `sample`. */
  ghost function Holding(emails: seq<FoundEmail>, sample: MessageId): set<Id> {
    set e, id | e in emails && Matches(e, sample) && id in e.mailboxIds :: id
  }

  ghost predicate IsMatched(emails: seq<FoundEmail>, sample: MessageId) {
    exists e :: e in emails && Matches(e, sample)
  }

  ghost predicate HeldByAll(emails: seq<FoundEmail>, samples: set<MessageId>, id: Id) {
    forall s :: s in samples ==> id in Holding(emails, s)
  }

  ghost function AllHolding(emails: seq<FoundEmail>): set<Id> {
    set e, id | e in emails && id in e.mailboxIds :: id
  }

  /** The mailboxes that hold every sample the server knows; none when it knows no sample. */
  ghost function Narrowed(emails: seq<FoundEmail>, samples: seq<MessageId>): set<Id> {
    if forall s :: s in samples ==> !IsMatched(emails, s) then {}
    else set id | id in AllHolding(emails)
               && forall s :: s in samples && IsMatched(emails, s) ==> id in Holding(emails, s)
  }

  /** The emails binned under `s` once `emails[..i]` and the first `j` ids of `emails[i]` are seen. */
  ghost predicate Binned(emails: seq<FoundEmail>, i: nat, j: nat, s: MessageId, x: FoundEmail)
    requires i <= |emails|
    requires j > 0 ==> i < |emails| && emails[i].messageIds.Some? && j <= |emails[i].messageIds.value|
  {
    || (x in emails[..i] && Matches(x, s))
    || (j > 0 && x == emails[i] && s in emails[i].messageIds.value[..j])
  }

  ghost predicate InBin(bins: map<MessageId, seq<FoundEmail>>, s: MessageId, x: FoundEmail) {
    s in bins && x in bins[s]
  }

  ghost predicate BinsAre(
    emails: seq<FoundEmail>, i: nat, j: nat, sampleSet: set<MessageId>, bins: map<MessageId, seq<FoundEmail>>)
    requires i <= |emails|
    requires j > 0 ==> i < |emails| && emails[i].messageIds.Some? && j <= |emails[i].messageIds.value|
  {
    && bins.Keys <= sampleSet
    && (forall s :: s in bins ==> bins[s] != [])
    && (forall s, x :: s in sampleSet ==> (InBin(bins, s, x) <==> Binned(emails, i, j, s, x)))
  }

  lemma BinnedNextId(emails: seq<FoundEmail>, i: nat, j: nat)
    requires i < |emails| && emails[i].messageIds.Some? && j < |emails[i].messageIds.value|
    ensures forall s, x :: Binned(emails, i, j + 1, s, x)
              <==> Binned(emails, i, j, s, x) || (x == emails[i] && s == emails[i].messageIds.value[j])
  {
    var ids := emails[i].messageIds.value;
    assert ids[..j + 1] == ids[..j] + [ids[j]];
  }

  function AddToBin(
    bins: map<MessageId, seq<FoundEmail>>, s: MessageId, e: FoundEmail): map<MessageId, seq<FoundEmail>>
  {
    bins[s := (if s in bins then bins[s] else []) + [e]]
  }

  lemma BinsNextId(
    emails: seq<FoundEmail>, i: nat, j: nat, sampleSet: set<MessageId>, bins: map<MessageId, seq<FoundEmail>>)
    requires i < |emails| && emails[i].messageIds.Some? && j < |emails[i].messageIds.value|
    requires BinsAre(emails, i, j, sampleSet, bins)
    ensures var s := emails[i].messageIds.value[j];
            BinsAre(emails, i, j + 1, sampleSet, if s in sampleSet then AddToBin(bins, s, emails[i]) else bins)
  {
    var s := emails[i].messageIds.value[j];
    var next := if s in sampleSet then AddToBin(bins, s, emails[i]) else bins;
    BinnedNextId(emails, i, j);
    forall t, x | t in sampleSet ensures InBin(next, t, x) <==> Binned(emails, i, j + 1, t, x) {
      assert InBin(bins, t, x) <==> Binned(emails, i, j, t, x);
    }
  }

  lemma BinsNextEmail(emails: seq<FoundEmail>, i: nat, sampleSet: set<MessageId>, bins: map<MessageId, seq<FoundEmail>>)
    requires i < |emails|
    requires BinsAre(emails, i, if emails[i].messageIds.Some? then |emails[i].messageIds.value| else 0, sampleSet, bins)
    ensures BinsAre(emails, i + 1, 0, sampleSet, bins)
  {
    BinnedNextEmail(emails, i);
    var j := if emails[i].messageIds.Some? then |emails[i].messageIds.value| else 0;
    forall t, x | t in sampleSet ensures InBin(bins, t, x) <==> Binned(emails, i + 1, 0, t, x) {
      assert InBin(bins, t, x) <==> Binned(emails, i, j, t, x);
    }
  }

  lemma BinnedNextEmail(emails: seq<FoundEmail>, i: nat)
    requires i < |emails|
    ensures emails[i].messageIds.None? ==>
              forall s, x :: Binned(emails, i + 1, 0, s, x) <==> Binned(emails, i, 0, s, x)
    ensures emails[i].messageIds.Some? ==>
              forall s, x :: Binned(emails, i + 1, 0, s, x) <==> Binned(emails, i, |emails[i].messageIds.value|, s, x)
  {
    assert emails[..i + 1] == emails[..i] + [emails[i]];
    if emails[i].messageIds.Some? {
      var ids := emails[i].messageIds.value;
      assert ids[..|ids|] == ids;
    }
  }

  /** `intersect_mailboxes_by_sample`. The last loop takes the samples in any order. */
  method IntersectMailboxesBySample(emails: seq<FoundEmail>, samples: seq<MessageId>) returns (r: set<Id>)
    ensures r == Narrowed(emails, samples)
  {
    var sampleSet := ToSet(samples);
    var bySample: map<MessageId, seq<FoundEmail>> := map[];
    for i := 0 to |emails|
      invariant BinsAre(emails, i, 0, sampleSet, bySample)
    {
      var email := emails[i];
      if email.messageIds.Some? {
        var ids := email.messageIds.value;
        for j := 0 to |ids|
          invariant BinsAre(emails, i, j, sampleSet, bySample)
        {
          BinsNextId(emails, i, j, sampleSet, bySample);
          if ids[j] in sampleSet {
            bySample := AddToBin(bySample, ids[j], email);
          }
        }
      }
      BinsNextEmail(emails, i, sampleSet, bySample);
    }
    assert emails[..|emails|] == emails;
    var intersection: Option<set<Id>> := None;
    var remaining := bySample.Keys;
    while remaining != {}
      invariant remaining <= bySample.Keys
      invariant intersection.None? <==> remaining == bySample.Keys
      invariant intersection.Some? ==>
        forall id :: id in intersection.value <==> HeldByAll(emails, bySample.Keys - remaining, id)
      decreases remaining
    {
      var s :| s in remaining;
      var union := set e, id | e in bySample[s] && id in e.mailboxIds :: id;
      assert union == Holding(emails, s) by {
        forall e ensures e in bySample[s] <==> e in emails && Matches(e, s) {
          assert InBin(bySample, s, e) <==> Binned(emails, |emails|, 0, s, e);
        }
      }
      intersection := Some(if intersection.None? then union else intersection.value * union);
      remaining := remaining - {s};
    }
    forall s ensures s in samples && IsMatched(emails, s) <==> s in bySample {
      if s in samples && IsMatched(emails, s) {
        var e :| e in emails && Matches(e, s);
        assert Binned(emails, |emails|, 0, s, e) && InBin(bySample, s, e);
      }
      if s in bySample {
        var e := bySample[s][0];
        assert InBin(bySample, s, e) && Binned(emails, |emails|, 0, s, e);
      }
    }
    if intersection.None? {
      r := {};
    } else {
      r := intersection.value;
      var s :| s in bySample;
      assert Holding(emails, s) <= AllHolding(emails);
    }
  }

  datatype ProbeOutcome = Bind(id: Id, sampleCount: nat) | Skip(reason: SkipReason)

  /** Every group narrows, among the mailboxes the server still lists, to the one mailbox `x`. */
  ghost predicate AgreeOn(emails: seq<FoundEmail>, groups: seq<seq<MessageId>>, server: set<Id>, x: Id) {
    forall i :: 0 <= i < |groups| ==> Narrowed(emails, groups[i]) * server == {x}
  }

  /** `probe_folder` after sampling. `hits` says whether the query found any email at all. */
  method ProbeFolder(groups: seq<seq<MessageId>>, hits: bool, emails: seq<FoundEmail>, server: set<Id>)
    returns (outcome: ProbeOutcome)
    ensures outcome == Skip(NoMessageIds) <==> groups == []
    ensures outcome == Skip(NoServerMatches) <==> groups != [] && !hits
    ensures forall x :: outcome == Bind(x, |Flatten(groups)|)
                        <==> groups != [] && hits && AgreeOn(emails, groups, server, x)
    ensures outcome.Bind? ==> outcome.sampleCount == |Flatten(groups)|
    ensures outcome.Skip? && outcome.reason.AmbiguousAcrossSamples? ==>
              && |outcome.reason.perGroup| == |groups|
              && forall i :: 0 <= i < |groups| ==>
                   Lists(outcome.reason.perGroup[i], Narrowed(emails, groups[i]) * server)
  {
    if groups == [] {
      return Skip(NoMessageIds);
    }
    if !hits {
      return Skip(NoServerMatches);
    }
    var perGroup: seq<seq<Id>> := [];
    for i := 0 to |groups|
      invariant |perGroup| == i
      invariant forall k :: 0 <= k < i ==> Lists(perGroup[k], Narrowed(emails, groups[k]) * server)
    {
      var narrowed := IntersectMailboxesBySample(emails, groups[i]);
      var list := SortedList(narrowed * server);
      perGroup := perGroup + [list];
    }
    var first := perGroup[0];
    if |first| == 1 && forall g | g in perGroup :: g == first {
      outcome := Bind(first[0], |Flatten(groups)|);
      forall i | 0 <= i < |groups| ensures Narrowed(emails, groups[i]) * server == {first[0]} {
        assert perGroup[i] in perGroup && ToSet([first[0]]) == {first[0]};
      }
    } else {
      outcome := Skip(AmbiguousAcrossSamples(perGroup));
      forall x ensures !AgreeOn(emails, groups, server, x) {
        if AgreeOn(emails, groups, server, x) {
          AgreementMakesSingletons(emails, groups, server, x, perGroup);
          assert false;
        }
      }
    }
  }

  /** The count guard is not redundant: two folders whose samples agree on one mailbox are both bound
      to it, and of three folders and three mailboxes one folder and two mailboxes are left. */
  lemma CountGuardCanFail()
    ensures exists emails: seq<FoundEmail>, f: seq<seq<MessageId>>, g: seq<seq<MessageId>>, server: set<Id>, x: Id ::
              && f != [] && g != [] && AgreeOn(emails, f, server, x) && AgreeOn(emails, g, server, x)
              && |server| == |BoundTo(x)| + 1 && |Unclaimed(server, {}, BoundTo(x))| == 2
  {
    var e0, e1 := FoundEmail(Some(["m"]), {"a"}), FoundEmail(Some(["n"]), {"a"});
    var emails, server: set<Id> := [e0, e1], {"a", "b", "c"};
    assert emails[0] == e0 && emails[1] == e1;
    OneSampleAgrees(emails, "m", e0, server);
    OneSampleAgrees(emails, "n", e1, server);
    assert Targets(BoundTo("a")) == ["a", "a"] && ToSet(Targets(BoundTo("a"))) == {"a"};
    assert Unclaimed(server, {}, BoundTo("a")) == {"b", "c"};
    assert AgreeOn(emails, [["m"]], server, "a") && AgreeOn(emails, [["n"]], server, "a");
  }

  function BoundTo(x: Id): seq<Candidate> {
    [Candidate("f", x, x, x, None, 1, Consensus), Candidate("g", x, x, x, None, 1, Consensus)]
  }

  lemma OneSampleAgrees(emails: seq<FoundEmail>, sample: MessageId, e: FoundEmail, server: set<Id>)
    requires e in emails && Matches(e, sample) && "a" in server
    requires forall x :: x in emails ==> x.mailboxIds == {"a"}
    ensures AgreeOn(emails, [[sample]], server, "a")
  {
    assert Holding(emails, sample) == {"a"} && AllHolding(emails) == {"a"};
    assert sample in [sample] && IsMatched(emails, sample);
    assert Narrowed(emails, [sample]) == {"a"};
  }

  lemma AgreementMakesSingletons(
    emails: seq<FoundEmail>, groups: seq<seq<MessageId>>, server: set<Id>, x: Id, perGroup: seq<seq<Id>>)
    requires AgreeOn(emails, groups, server, x) && |perGroup| == |groups|
    requires forall i :: 0 <= i < |groups| ==> Lists(perGroup[i], Narrowed(emails, groups[i]) * server)
    ensures forall g :: g in perGroup ==> g == [x]
    ensures groups != [] ==> perGroup[0] in perGroup
  {
    forall i | 0 <= i < |perGroup| ensures perGroup[i] == [x] {
      DistinctCardinality(perGroup[i]);
      assert perGroup[i][0] in ToSet(perGroup[i]);
    }
  }

  /** Consensus never disagrees with pooling: if the groups agree on `x`, one intersection over
      all their samples together also keeps exactly `x`. */
  lemma {:induction false} ConsensusAgreesWithPooling(
    emails: seq<FoundEmail>, groups: seq<seq<MessageId>>, server: set<Id>, x: Id)
    requires groups != [] && AgreeOn(emails, groups, server, x)
    ensures Narrowed(emails, Flatten(groups)) * server == {x}
  {
    var flat := Flatten(groups);
    forall s ensures s in flat <==> exists i :: 0 <= i < |groups| && s in groups[i] {
      FlattenMembers(groups, s);
    }
    assert x in Narrowed(emails, groups[0]) * server;
    var w :| w in groups[0] && IsMatched(emails, w);
    assert w in flat;
    forall s | s in flat && IsMatched(emails, s) ensures x in Holding(emails, s) {
      var i :| 0 <= i < |groups| && s in groups[i];
      assert x in Narrowed(emails, groups[i]) * server;
    }
    forall y | y in Narrowed(emails, flat) * server ensures y == x {
      assert y in Narrowed(emails, groups[0]) * server;
    }
  }

  /** Pooling is weaker: two groups of one sample each can pool to one mailbox without agreeing. */
  lemma PoolingIsWeaker()
    ensures exists emails: seq<FoundEmail>, groups: seq<seq<MessageId>>, server: set<Id>, x: Id ::
              groups != [] && Narrowed(emails, Flatten(groups)) * server == {x} && !AgreeOn(emails, groups, server, x)
  {
    var e0, e1 := FoundEmail(Some(["m"]), {"a", "b"}), FoundEmail(Some(["n"]), {"b"});
    var emails, groups, server: set<Id> := [e0, e1], [["m"], ["n"]], {"a", "b"};
    assert emails[0] == e0 && emails[1] == e1;
    assert Matches(e0, "m") && Matches(e1, "n") && !Matches(e0, "n") && !Matches(e1, "m");
    assert Holding(emails, "m") == {"a", "b"} && Holding(emails, "n") == {"b"};
    assert IsMatched(emails, "m") && IsMatched(emails, "n");
    assert Flatten(groups) == ["m", "n"] by {
      assert groups[1..] == [["n"]] && Flatten([["n"]]) == ["n"] + Flatten([]);
    }
    assert AllHolding(emails) == {"a", "b"};
    assert Narrowed(emails, Flatten(groups)) == {"b"};
    assert groups[0] == ["m"] && Narrowed(emails, ["m"]) == {"a", "b"};
    assert "a" in Narrowed(emails, groups[0]) * server;
    assert !AgreeOn(emails, groups, server, "b");
  }

  function AtLeastOne(n: nat): nat {
    if n < 1 then 1 else n
  }

  /** `sample_message_id_groups` once the folder's ids are collected and shuffled. */
  function SampleGroups(shuffled: seq<MessageId>, groupCount: nat, samplesPerGroup: nat): seq<seq<MessageId>> {
    var count, size := AtLeastOne(groupCount), AtLeastOne(samplesPerGroup);
    Chunks(Truncated(shuffled, size * count), size)
  }

  /** `Vec::truncate`. */
  function Truncated<T>(s: seq<T>, limit: nat): (r: seq<T>)
    ensures r <= s && |r| == Min(|s|, limit)
    ensures 0 < limit ==> (r == [] <==> s == [])
  {
    if |s| <= limit then s else s[..limit]
  }

  /** At most `groupCount` groups, all but the last full, and no id votes in two groups. */
  lemma SampleGroupsAreDisjoint(shuffled: seq<MessageId>, groupCount: nat, samplesPerGroup: nat)
    requires Distinct(shuffled)
    ensures var groups := SampleGroups(shuffled, groupCount, samplesPerGroup);
            && |groups| <= AtLeastOne(groupCount)
            && Flatten(groups) <= shuffled
            && |Flatten(groups)| == Min(|shuffled|, AtLeastOne(samplesPerGroup) * AtLeastOne(groupCount))
            && (forall i :: 0 <= i < |groups| - 1 ==> |groups[i]| == AtLeastOne(samplesPerGroup))
            && (|groups| > 0 ==> 0 < |groups[|groups| - 1]| <= AtLeastOne(samplesPerGroup))
            && (groups == [] <==> shuffled == [])
            && (forall i, j :: 0 <= i < j < |groups| ==> ToSet(groups[i]) !! ToSet(groups[j]))
  {
    var count, size := AtLeastOne(groupCount), AtLeastOne(samplesPerGroup);
    PositiveProduct(size, count);
    var taken := Truncated(shuffled, size * count);
    assert Distinct(taken);
    assert size * count == count * size;
    ChunksAreDisjoint(taken, size, count);
  }

  lemma PositiveProduct(a: nat, b: nat)
    requires 0 < a && 0 < b
    ensures 0 < a * b
  {
  }

  lemma ChunksAreDisjoint(taken: seq<MessageId>, size: nat, count: nat)
    requires Distinct(taken) && 0 < size && |taken| <= count * size
    ensures var groups := Chunks(taken, size);
            && |groups| <= count && Flatten(groups) == taken
            && (forall i :: 0 <= i < |groups| - 1 ==> |groups[i]| == size)
            && (|groups| > 0 ==> 0 < |groups[|groups| - 1]| <= size)
            && (groups == [] <==> taken == [])
            && (forall i, j :: 0 <= i < j < |groups| ==> ToSet(groups[i]) !! ToSet(groups[j]))
  {
    var groups := Chunks(taken, size);
    ChunksPartition(taken, size);
    ChunksCount(taken, size, count);
    assert |groups| > 0 ==> groups[|groups| - 1] in groups;
    forall i, j | 0 <= i < j < |groups| ensures ToSet(groups[i]) !! ToSet(groups[j]) {
      DistinctPieces(groups, i, j);
    }
  }

  /** The ids the files of a folder yield, each at its first appearance; `None` is a file without a
      usable id, or one that could not be read. */
  ghost function FirstSeen(parsed: seq<Option<MessageId>>): seq<MessageId> {
    if parsed == [] then []
    else
      var before, last := FirstSeen(parsed[..|parsed| - 1]), parsed[|parsed| - 1];
      if last.None? || last.value in before then before else before + [last.value]
  }

  lemma {:induction false} FirstSeenHolds(parsed: seq<Option<MessageId>>)
    ensures Distinct(FirstSeen(parsed))
    ensures forall id :: id in FirstSeen(parsed) <==> Some(id) in parsed
  {
    if parsed == [] {
    } else {
      var init, last := parsed[..|parsed| - 1], parsed[|parsed| - 1];
      FirstSeenHolds(init);
      assert parsed == init + [last];
      if last.Some? && last.value !in FirstSeen(init) {
        DistinctConcat(FirstSeen(init), [last.value]);
      }
    }
  }

  /** The collecting loop of `sample_message_id_groups`: `cur/`, then `new/`, through one `seen` set. */
  method CollectIds(cur: seq<Option<MessageId>>, recent: seq<Option<MessageId>>) returns (ids: seq<MessageId>)
    ensures ids == FirstSeen(cur + recent)
  {
    ids := [];
    var seen: set<MessageId> := {};
    var parsed := cur + recent;
    for i := 0 to |parsed|
      invariant ids == FirstSeen(parsed[..i]) && seen == ToSet(ids)
    {
      assert parsed[..i + 1][..i] == parsed[..i];
      if parsed[i].Some? && parsed[i].value !in seen {
        seen := seen + {parsed[i].value};
        ids := ids + [parsed[i].value];
      }
    }
    assert parsed[..|parsed|] == parsed;
  }

  /** At most `count` groups, none empty, all of `size` but the last, and together as many as there
      are, up to all they can hold. */
  ghost predicate Sized(groups: seq<seq<MessageId>>, count: nat, size: nat, available: nat) {
    && |groups| <= count && (forall g :: g in groups ==> 0 < |g| <= size)
    && (forall i :: 0 <= i < |groups| - 1 ==> |groups[i]| == size)
    && |Flatten(groups)| == Min(available, size * count)
  }

  /** `sample_message_id_groups`, whatever order the shuffle gives: at most the asked number of
      groups, all full but the last and none empty; only ids of the folder's files, and no id twice;
      and no groups only if no file has an id. */
  method SampleMessageIdGroups(
    cur: seq<Option<MessageId>>, recent: seq<Option<MessageId>>, groupCount: nat, samplesPerGroup: nat,
    shuffle: seq<MessageId> -> seq<MessageId>)
    returns (groups: seq<seq<MessageId>>)
    requires forall s :: multiset(shuffle(s)) == multiset(s)
    ensures Sized(groups, if groupCount == 0 then 1 else groupCount,
                  if samplesPerGroup == 0 then 1 else samplesPerGroup,
                  |set p | p in cur + recent && p.Some? :: p.value|)
    ensures forall id :: id in Flatten(groups) ==> Some(id) in cur + recent
    ensures Distinct(Flatten(groups)) && forall i, j :: 0 <= i < j < |groups| ==> ToSet(groups[i]) !! ToSet(groups[j])
    ensures groups == [] <==> forall p :: p in cur + recent ==> p == None
  {
    var ids := CollectIds(cur, recent);
    AvailableIds(cur + recent, ids);
    if ids == [] {
      return [];
    }
    var shuffled := shuffle(ids);
    ShuffledIds(ids, shuffled);
    groups := SampleGroups(shuffled, groupCount, samplesPerGroup);
    SampleGroupsAreDisjoint(shuffled, groupCount, samplesPerGroup);
    GroupSizes(groups, AtLeastOne(samplesPerGroup));
  }

  lemma AvailableIds(parsed: seq<Option<MessageId>>, ids: seq<MessageId>)
    requires ids == FirstSeen(parsed)
    ensures Distinct(ids) && (forall id :: id in ids <==> Some(id) in parsed)
    ensures |set p | p in parsed && p.Some? :: p.value| == |ids|
    ensures ids == [] <==> forall p :: p in parsed ==> p == None
  {
    FirstSeenHolds(parsed);
    assert (set p | p in parsed && p.Some? :: p.value) == ToSet(ids);
    DistinctCardinality(ids);
    if ids != [] {
      assert ids[0] in ids;
    }
    forall p | p in parsed && p.Some? ensures p.value in ids {
      assert p == Some(p.value);
    }
  }

  lemma ShuffledIds(ids: seq<MessageId>, shuffled: seq<MessageId>)
    requires Distinct(ids) && multiset(shuffled) == multiset(ids)
    ensures Distinct(shuffled) && |shuffled| == |ids| && forall id :: id in shuffled <==> id in ids
  {
    assert |multiset(shuffled)| == |multiset(ids)|;
    DistinctMultiset(ids);
    forall id ensures id in shuffled <==> id in ids {
      assert id in shuffled <==> id in multiset(shuffled);
      assert id in ids <==> id in multiset(ids);
    }
    MultisetDistinct(shuffled);
  }

  lemma GroupSizes(groups: seq<seq<MessageId>>, size: nat)
    requires 0 < size && forall i :: 0 <= i < |groups| - 1 ==> |groups[i]| == size
    requires |groups| > 0 ==> 0 < |groups[|groups| - 1]| <= size
    ensures forall g :: g in groups ==> 0 < |g| <= size
  {
  }

  lemma DistinctPieces<T>(ss: seq<seq<T>>, i: nat, j: nat)
    requires i < j < |ss| && Distinct(Flatten(ss))
    ensures ToSet(ss[i]) !! ToSet(ss[j])
  {
    DistinctSplit(ss[0], Flatten(ss[1..]));
    if i == 0 {
      forall x | x in ss[j] ensures x !in ss[0] {
        assert x in ss[1..][j - 1];
        FlattenMembers(ss[1..], x);
        assert x in ToSet(Flatten(ss[1..]));
      }
    } else {
      DistinctPieces(ss[1..], i - 1, j - 1);
    }
  }
}
