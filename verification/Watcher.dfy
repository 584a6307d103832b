/** `src/daemon/watcher.rs`: turning a batch of file-system events into a trigger, or dropping it. */
module Watcher {
  import opened Common
  import opened Text
  import opened SelfWrites
  import Runner

  /** The `/cur/` and `/new/` substring tests. */
  predicate Contains(s: string, sub: string) {
    exists i: nat | i <= |s| :: sub <= s[i..]
  }

  /** `Path::file_name`: the last component, empty and `.` ones aside. */
  function FileName(path: Path): string {
    LastName(Split(path, '/'))
  }

  function LastName(components: seq<string>): string {
    if components == [] then ""
    else
      var last := components[|components| - 1];
      if last == "" || last == "." then LastName(components[..|components| - 1]) else last
  }

  /** `is_maildir_message_path`. */
  predicate IsMaildirMessagePath(path: Path) {
    && (Contains(path, "/cur/") || Contains(path, "/new/"))
    && FileName(path) != "" && '0' <= FileName(path)[0] <= '9'
  }

  // ---------- what counts as a message ----------

  ghost predicate Holds(s: string, sub: string) {
    exists before: string, after: string :: s == before + sub + after
  }

  /** The k-th component is the last one that is a name, and starts with a digit. */
  ghost predicate EndsInDigitName(components: seq<string>, k: nat) {
    && k < |components| && components[k] != "" && '0' <= components[k][0] <= '9'
    && forall j :: k < j < |components| ==> components[j] == "" || components[j] == "."
  }

  /** A path through `/cur/` or `/new/` whose file name starts with a digit. */
  ghost predicate IsMessage(p: Path) {
    (Holds(p, "/cur/") || Holds(p, "/new/")) && exists k: nat :: EndsInDigitName(Split(p, '/'), k)
  }

  lemma ContainsMeans(s: string, sub: string)
    ensures Contains(s, sub) <==> Holds(s, sub)
  {
    if i: nat :| i <= |s| && sub <= s[i..] {
      assert s == s[..i] + sub + s[i + |sub|..];
    }
    if before, after :| s == before + sub + after {
      assert s[|before|..] == sub + after;
    }
  }

  lemma {:induction false} LastNameMeans(components: seq<string>)
    ensures LastName(components) != "" && '0' <= LastName(components)[0] <= '9'
            <==> exists k: nat :: EndsInDigitName(components, k)
  {
    if components == [] {
    } else {
      var n := |components| - 1;
      var init, last := components[..n], components[n];
      LastNameMeans(init);
      assert components == init + [last];
      if last == "" || last == "." {
        forall k: nat ensures EndsInDigitName(components, k) <==> EndsInDigitName(init, k) {
          NotTheLast(init, last, k);
        }
      } else {
        assert EndsInDigitName(components, n) <==> '0' <= last[0] <= '9';
        assert forall k: nat :: EndsInDigitName(components, k) ==> k == n;
      }
    }
  }

  lemma NotTheLast(init: seq<string>, last: string, k: nat)
    requires last == "" || last == "."
    ensures EndsInDigitName(init + [last], k) <==> EndsInDigitName(init, k)
  {
    var all := init + [last];
    assert forall j :: 0 <= j < |init| ==> all[j] == init[j];
    assert all[|init|] == last;
  }

  lemma MessageMeans(p: Path)
    ensures IsMaildirMessagePath(p) <==> IsMessage(p)
  {
    ContainsMeans(p, "/cur/");
    ContainsMeans(p, "/new/");
    LastNameMeans(Split(p, '/'));
  }

  /** What the file system and `classify` say about a batch: which non-message paths are structural
      candidates, whether those candidates are a real folder change, and which paths still exist. */
  datatype Oracle = Oracle(isCandidate: Path -> bool, fires: seq<Path> -> bool, exists_: Path -> bool)

  /** `batch_might_emit_changes`. */
  predicate BatchMightEmitChanges(paths: seq<Path>, o: Oracle) {
    exists p :: p in paths && (Contains(p, "/cur/") || !o.exists_(p))
  }

  function MessagePaths(paths: seq<Path>): seq<Path> {
    Filter(paths, (p: Path) => IsMaildirMessagePath(p))
  }

  function Candidates(paths: seq<Path>, o: Oracle): seq<Path> {
    Filter(Filter(paths, (p: Path) => !IsMaildirMessagePath(p)), o.isCandidate)
  }

  /** These message paths cannot matter: none is in a `cur/`, and each still exists. */
  ghost predicate AllLiveNew(messages: seq<Path>, o: Oracle) {
    forall p :: p in messages ==> !Holds(p, "/cur/") && o.exists_(p)
  }

  ghost predicate AreMessages(messages: seq<Path>, paths: seq<Path>) {
    IsPickOf(messages, paths, (p: Path) => IsMessage(p)) && forall p :: p in messages <==> p in paths && IsMessage(p)
  }

  ghost predicate AreCandidates(candidates: seq<Path>, paths: seq<Path>, o: Oracle) {
    IsPickOf(candidates, paths, (p: Path) => !IsMessage(p) && o.isCandidate(p))
  }

  /** The trigger of a batch with these message paths and candidates: messages ride along unless they
      cannot matter or are all our own echoes. */
  ghost function TriggerFor(
    messages: seq<Path>, candidates: seq<Path>, o: Oracle, echoes: bool): Option<Runner.SyncTrigger>
  {
    var kept := if AllLiveNew(messages, o) || echoes then [] else messages;
    if candidates != [] && o.fires(candidates) then Some(Runner.LocalStructuralChange(candidates, kept))
    else if kept != [] then Some(Runner.LocalChange(kept))
    else None
  }

  lemma KeptIsCovered(messages: seq<Path>, candidates: seq<Path>, o: Oracle, echoes: bool, p: Path)
    requires p in messages && !echoes && (Holds(p, "/cur/") || !o.exists_(p))
    ensures var t := TriggerFor(messages, candidates, o, echoes);
            t.Some? && Runner.Covers(Runner.ScopeOf(t.value), p)
  {
  }

  lemma MightEmitMeans(messages: seq<Path>, o: Oracle)
    ensures BatchMightEmitChanges(messages, o) <==> !AllLiveNew(messages, o)
  {
    forall p ensures Contains(p, "/cur/") <==> Holds(p, "/cur/") {
      ContainsMeans(p, "/cur/");
    }
  }

  lemma PartitionMeans(paths: seq<Path>, o: Oracle)
    ensures AreMessages(MessagePaths(paths), paths) && AreCandidates(Candidates(paths, o), paths, o)
  {
    forall p ensures IsMaildirMessagePath(p) <==> IsMessage(p) {
      MessageMeans(p);
    }
    FilterAgrees(paths, (p: Path) => IsMaildirMessagePath(p), (p: Path) => IsMessage(p));
    FilterPicks(paths, (p: Path) => IsMessage(p));
    FilterBoth(paths, (p: Path) => !IsMaildirMessagePath(p), o.isCandidate,
               (p: Path) => !IsMessage(p) && o.isCandidate(p));
    FilterPicks(paths, (p: Path) => !IsMessage(p) && o.isCandidate(p));
  }

  /** `classify_batch`. The cache is consulted, and consumed, only for a batch that might matter. */
  method ClassifyBatch(
    paths: seq<Path>, o: Oracle, cache: SelfWriteCache?, now: int)
    returns (t: Option<Runner.SyncTrigger>, ghost messages: seq<Path>, ghost candidates: seq<Path>)
    modifies if cache == null then {} else {cache}
    ensures AreMessages(messages, paths) && AreCandidates(candidates, paths, o)
    ensures var echoes := cache != null && old(AllLive(cache.entries, messages, now, cache.ttl));
            && t == TriggerFor(messages, candidates, o, echoes)
            && (cache != null ==>
                  cache.entries == if echoes && !AllLiveNew(messages, o)
                                   then old(cache.entries) - ToSet(messages) else old(cache.entries))
  {
    var found, nominated := MessagePaths(paths), Candidates(paths, o);
    messages, candidates := found, nominated;
    PartitionMeans(paths, o);
    MightEmitMeans(found, o);
    forall p ensures IsMaildirMessagePath(p) <==> IsMessage(p) {
      MessageMeans(p);
    }
    var kept := found;
    if found == [] {
    } else if !BatchMightEmitChanges(found, o) {
      kept := [];
    } else if cache != null {
      var echoes := cache.MatchesAll(found, now);
      if echoes {
        kept := [];
      }
    }
    if nominated != [] && o.fires(nominated) {
      return Some(Runner.LocalStructuralChange(nominated, kept)), messages, candidates;
    }
    t := if kept != [] then Some(Runner.LocalChange(kept)) else None;
  }

  /** From event to scan: a `cur/` change that is not wholly our own echo reaches the channel, and
      whatever cycle absorbs it looks at that path. */
  method ChangeReachesAScan(
    paths: seq<Path>, o: Oracle, cache: SelfWriteCache?, now: int, p: Path, before: seq<Runner.SyncTrigger>,
    after: seq<Runner.SyncTrigger>) returns (scope: Option<Runner.ScanScope>, ghost messages: seq<Path>)
    requires p in paths && IsMessage(p)
    modifies if cache == null then {} else {cache}
    ensures AreMessages(messages, paths)
    ensures (Holds(p, "/cur/") || !o.exists_(p))
            && !(cache != null && old(AllLive(cache.entries, messages, now, cache.ttl)))
            ==> scope.Some? && Runner.Covers(scope.value, p)
  {
    var t;
    ghost var candidates;
    ghost var held := if cache == null then map[] else cache.entries;
    t, messages, candidates := ClassifyBatch(paths, o, cache, now);
    ghost var echoes := cache != null && AllLive(held, messages, now, cache.ttl);
    if !echoes && (Holds(p, "/cur/") || !o.exists_(p)) {
      KeptIsCovered(messages, candidates, o, echoes, p);
    }
    if t == None {
      return None, messages;
    }
    scope := CycleFor(before, t.value, after, p);
  }

  /** The scope of the cycle that absorbs `t` among others. */
  method CycleFor(before: seq<Runner.SyncTrigger>, t: Runner.SyncTrigger, after: seq<Runner.SyncTrigger>, ghost p: Path)
    returns (scope: Option<Runner.ScanScope>)
    ensures scope.Some? && (Runner.Covers(Runner.ScopeOf(t), p) ==> Runner.Covers(scope.value, p))
  {
    var window := before + [t] + after;
    var merged := Runner.CoalesceTriggers(window[0], window[1..]);
    assert [window[0]] + window[1..] == window && t in window;
    scope := Some(Runner.ScopeOf(merged));
    if Runner.Covers(Runner.ScopeOf(t), p) {
      Runner.CycleCoversItsTriggers(window, t, p);
    }
  }
}
