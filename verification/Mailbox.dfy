/** `src/jmap/mailbox.rs`: server paths of the mailbox tree, and selecting subtrees of it. */
module Mailboxes {
  import opened Common
  import opened Text

  type Id = string

  datatype Mailbox = Mailbox(id: Id, name: string, parent: Option<Id>, role: Option<string>)

  const MAX_MAILBOX_CHAIN_DEPTH: nat := 64

  // ---------- depth of the parent chain ----------

  function ParentOf(p: Id, byId: map<Id, Mailbox>): Option<Id> {
    if p in byId then byId[p].parent else None
  }

  /** Parent links followed from `link`, at most `fuel` of them. */
  function Links(link: Option<Id>, byId: map<Id, Mailbox>, fuel: nat): (n: nat)
    ensures n <= fuel
    decreases fuel
  {
    if fuel == 0 || link.None? then 0 else 1 + Links(ParentOf(link.value, byId), byId, fuel - 1)
  }

  /** The chain from `link` ends after exactly `n` links. */
  ghost predicate EndsAfter(link: Option<Id>, byId: map<Id, Mailbox>, n: nat)
    decreases n
  {
    if link.None? then n == 0 else n > 0 && EndsAfter(ParentOf(link.value, byId), byId, n - 1)
  }

  function ChainDepth(mb: Mailbox, byId: map<Id, Mailbox>): nat {
    Links(mb.parent, byId, MAX_MAILBOX_CHAIN_DEPTH + 1)
  }

  /** `parent_chain_depth`. */
  method ParentChainDepth(mb: Mailbox, byId: map<Id, Mailbox>) returns (depth: nat)
    ensures depth == ChainDepth(mb, byId)
  {
    depth := 0;
    var current := mb.parent;
    while current.Some?
      invariant depth <= MAX_MAILBOX_CHAIN_DEPTH
      invariant depth + Links(current, byId, MAX_MAILBOX_CHAIN_DEPTH + 1 - depth) == ChainDepth(mb, byId)
      decreases MAX_MAILBOX_CHAIN_DEPTH - depth
    {
      depth := depth + 1;
      if depth > MAX_MAILBOX_CHAIN_DEPTH {
        break;
      }
      current := ParentOf(current.value, byId);
    }
  }

  /** The depth is exact up to the cap and the cap itself beyond, cycles included. */
  lemma {:induction false} LinksMeasures(link: Option<Id>, byId: map<Id, Mailbox>, fuel: nat)
    ensures forall n: nat :: EndsAfter(link, byId, n) ==> Links(link, byId, fuel) == Min(n, fuel)
    ensures (forall n: nat :: n < fuel ==> !EndsAfter(link, byId, n)) ==> Links(link, byId, fuel) == fuel
    decreases fuel
  {
    if link.Some? && fuel > 0 {
      var next := ParentOf(link.value, byId);
      LinksMeasures(next, byId, fuel - 1);
      forall n: nat | EndsAfter(link, byId, n) ensures Links(link, byId, fuel) == Min(n, fuel) {
        assert EndsAfter(next, byId, n - 1);
      }
      if forall n: nat :: n < fuel ==> !EndsAfter(link, byId, n) {
        forall n: nat | n < fuel - 1 ensures !EndsAfter(next, byId, n) {
          assert !EndsAfter(link, byId, n + 1);
        }
      }
    } else {
      assert link.None? ==> EndsAfter(link, byId, 0);
    }
  }

  // ---------- remote paths ----------

  /** `compose_remote_path`. */
  function ComposeRemotePath(parent: Option<Id>, name: string, paths: map<Id, string>): string {
    if parent.Some? && parent.value in paths then paths[parent.value] + ['/'] + name else name
  }

  /** The paths after processing `order`, one mailbox at a time. */
  ghost function Composed(order: seq<Id>, byId: map<Id, Mailbox>): map<Id, string>
    requires forall id :: id in order ==> id in byId
  {
    if order == [] then map[]
    else
      var before, mb := Composed(order[..|order| - 1], byId), byId[order[|order| - 1]];
      before[order[|order| - 1] := ComposeRemotePath(mb.parent, mb.name, before)]
  }

  /** An order `sort_by_key(parent_chain_depth)` can leave behind, whatever the map iteration. */
  ghost predicate SortedByDepth(order: seq<Id>, byId: map<Id, Mailbox>) {
    && (forall id :: id in order ==> id in byId)
    && (forall i, j :: 0 <= i < j < |order| ==> ChainDepth(byId[order[i]], byId) <= ChainDepth(byId[order[j]], byId))
  }

  ghost predicate Processes(order: seq<Id>, byId: map<Id, Mailbox>) {
    SortedByDepth(order, byId) && Distinct(order) && ToSet(order) == byId.Keys
  }

  /** Names from the root, or from just below a missing parent, down to `mb`. */
  ghost function AncestorNames(mb: Mailbox, byId: map<Id, Mailbox>, n: nat): (r: seq<string>)
    requires EndsAfter(mb.parent, byId, n)
    ensures r != []
    decreases n
  {
    (if mb.parent.Some? && mb.parent.value in byId then AncestorNames(byId[mb.parent.value], byId, n - 1) else [])
    + [mb.name]
  }

  lemma {:induction false} ComposedKeys(order: seq<Id>, byId: map<Id, Mailbox>)
    requires forall id :: id in order ==> id in byId
    ensures Composed(order, byId).Keys == ToSet(order)
  {
    if order == [] {
    } else {
      ComposedKeys(order[..|order| - 1], byId);
      assert order == order[..|order| - 1] + [order[|order| - 1]];
    }
  }

  /** Once composed, a path stays as it is. */
  lemma {:induction false} ComposedAt(order: seq<Id>, byId: map<Id, Mailbox>, i: nat)
    requires (forall id :: id in order ==> id in byId) && Distinct(order) && i < |order|
    ensures order[i] in Composed(order, byId)
    ensures Composed(order, byId)[order[i]]
            == ComposeRemotePath(byId[order[i]].parent, byId[order[i]].name, Composed(order[..i], byId))
  {
    ComposedKeys(order, byId);
    var n := |order| - 1;
    if i < n {
      var init := order[..n];
      assert order == init + [order[n]] && init[i] == order[i] && order[i] != order[n];
      ComposedAt(init, byId, i);
      assert init[..i] == order[..i];
    } else {
      assert order[..i] == order[..n];
    }
  }

  /** A mailbox within one link of the cap comes after its parent. */
  lemma ParentComesFirst(order: seq<Id>, byId: map<Id, Mailbox>, i: nat, n: nat) returns (j: nat)
    requires Processes(order, byId) && i < |order|
    requires var mb := byId[order[i]];
             mb.parent.Some? && mb.parent.value in byId && EndsAfter(mb.parent, byId, n)
    requires n <= MAX_MAILBOX_CHAIN_DEPTH + 1
    ensures j < i && order[j] == byId[order[i]].parent.value
  {
    var mb := byId[order[i]];
    var p := mb.parent.value;
    LinksMeasures(mb.parent, byId, MAX_MAILBOX_CHAIN_DEPTH + 1);
    LinksMeasures(byId[p].parent, byId, MAX_MAILBOX_CHAIN_DEPTH + 1);
    assert EndsAfter(byId[p].parent, byId, n - 1);
    assert ChainDepth(byId[p], byId) < ChainDepth(mb, byId);
    assert p in ToSet(order);
    j :| 0 <= j < |order| && order[j] == p;
  }

  /** Up to one link beyond the cap, a path is the join of the ancestors' names whatever the order. */
  lemma {:induction false} PathIsJoinOfNames(order: seq<Id>, byId: map<Id, Mailbox>, id: Id, n: nat)
    requires Processes(order, byId) && id in byId
    requires EndsAfter(byId[id].parent, byId, n) && n <= MAX_MAILBOX_CHAIN_DEPTH + 1
    ensures id in Composed(order, byId)
    ensures Composed(order, byId)[id] == Join(AncestorNames(byId[id], byId, n), '/')
    decreases n
  {
    ComposedOnParent(order, byId, id, n);
    JoinedNames(byId[id], byId, n);
    if byId[id].parent.Some? && byId[id].parent.value in byId {
      PathIsJoinOfNames(order, byId, byId[id].parent.value, n - 1);
    }
  }

  /** Composing at its turn finds the parent's final path. */
  lemma ComposedOnParent(order: seq<Id>, byId: map<Id, Mailbox>, id: Id, n: nat)
    requires Processes(order, byId) && id in byId
    requires EndsAfter(byId[id].parent, byId, n) && n <= MAX_MAILBOX_CHAIN_DEPTH + 1
    ensures var mb, composed := byId[id], Composed(order, byId);
            && id in composed
            && (if mb.parent.Some? && mb.parent.value in byId
                then mb.parent.value in composed && composed[id] == composed[mb.parent.value] + ['/'] + mb.name
                else composed[id] == mb.name)
  {
    var mb := byId[id];
    assert id in ToSet(order);
    var i: nat :| i < |order| && order[i] == id;
    ComposedAt(order, byId, i);
    if mb.parent.Some? && mb.parent.value in byId {
      var j := ParentComesFirst(order, byId, i, n);
      ComposedSoFar(order, byId, i, j);
    } else {
      ComposedKeys(order[..i], byId);
    }
  }

  lemma JoinedNames(mb: Mailbox, byId: map<Id, Mailbox>, n: nat)
    requires EndsAfter(mb.parent, byId, n)
    ensures !(mb.parent.Some? && mb.parent.value in byId) ==> Join(AncestorNames(mb, byId, n), '/') == mb.name
    ensures mb.parent.Some? && mb.parent.value in byId ==>
              && n > 0
              && EndsAfter(byId[mb.parent.value].parent, byId, n - 1)
              && Join(AncestorNames(mb, byId, n), '/')
                 == Join(AncestorNames(byId[mb.parent.value], byId, n - 1), '/') + ['/'] + mb.name
  {
    if mb.parent.Some? && mb.parent.value in byId {
      JoinConcat(AncestorNames(byId[mb.parent.value], byId, n - 1), [mb.name], '/');
    }
  }

  lemma ComposedSoFar(order: seq<Id>, byId: map<Id, Mailbox>, i: nat, j: nat)
    requires (forall id :: id in order ==> id in byId) && Distinct(order) && j < i <= |order|
    ensures order[j] in Composed(order[..i], byId) && order[j] in Composed(order, byId)
    ensures Composed(order[..i], byId)[order[j]] == Composed(order, byId)[order[j]]
  {
    ComposedAt(order, byId, j);
    assert order[..i][..j] == order[..j] && order[..i][j] == order[j];
    ComposedAt(order[..i], byId, j);
  }

  lemma ShallowestExists(ids: set<Id>, byId: map<Id, Mailbox>) returns (id: Id)
    requires ids != {} && ids <= byId.Keys
    ensures id in ids && forall x :: x in ids ==> ChainDepth(byId[id], byId) <= ChainDepth(byId[x], byId)
    decreases ids
  {
    id :| id in ids;
    if x :| x in ids && ChainDepth(byId[x], byId) < ChainDepth(byId[id], byId) {
      var rest := ids - {id};
      assert x in rest;
      var least := ShallowestExists(rest, byId);
      id := least;
    }
  }

  /** `build_remote_paths`: mailboxes shallowest first, equally deep ones in any order. */
  method ComposeByDepth(byId: map<Id, Mailbox>) returns (paths: map<Id, string>, ghost order: seq<Id>)
    ensures Processes(order, byId) && paths == Composed(order, byId)
  {
    paths, order := map[], [];
    var remaining := byId.Keys;
    while remaining != {}
      invariant SortedSoFar(order, remaining, byId)
      invariant paths == Composed(order, byId)
      decreases remaining
    {
      ghost var least := ShallowestExists(remaining, byId);
      var id :| id in remaining
                && forall x :: x in remaining ==> ChainDepth(byId[id], byId) <= ChainDepth(byId[x], byId);
      SortedOneMore(order, remaining, id, byId);
      paths := paths[id := ComposeRemotePath(byId[id].parent, byId[id].name, paths)];
      assert (order + [id])[..|order|] == order;
      order := order + [id];
      remaining := remaining - {id};
    }
  }

  /** `order` holds, by depth, all but the deeper `remaining` mailboxes. */
  ghost predicate SortedSoFar(order: seq<Id>, remaining: set<Id>, byId: map<Id, Mailbox>) {
    && remaining <= byId.Keys && ToSet(order) == byId.Keys - remaining
    && SortedByDepth(order, byId) && Distinct(order)
    && forall x, y :: x in order && y in remaining ==> ChainDepth(byId[x], byId) <= ChainDepth(byId[y], byId)
  }

  lemma SortedOneMore(order: seq<Id>, remaining: set<Id>, id: Id, byId: map<Id, Mailbox>)
    requires SortedSoFar(order, remaining, byId) && id in remaining
    requires forall x :: x in remaining ==> ChainDepth(byId[id], byId) <= ChainDepth(byId[x], byId)
    ensures SortedSoFar(order + [id], remaining - {id}, byId)
  {
    assert id !in ToSet(order);
    DistinctConcat(order, [id]);
    assert ToSet(order + [id]) == ToSet(order) + {id};
  }

  /** What that promises: an entry for every mailbox, cycles or not, and the full path for every
      mailbox within one link of the cap. */
  method BuildRemotePaths(byId: map<Id, Mailbox>) returns (paths: map<Id, string>)
    ensures paths.Keys == byId.Keys
    ensures forall id, n: nat :: id in byId && EndsAfter(byId[id].parent, byId, n) && n <= MAX_MAILBOX_CHAIN_DEPTH + 1
              ==> paths[id] == Join(AncestorNames(byId[id], byId, n), '/')
  {
    ghost var order;
    paths, order := ComposeByDepth(byId);
    ComposedKeys(order, byId);
    forall id, n: nat | id in byId && EndsAfter(byId[id].parent, byId, n) && n <= MAX_MAILBOX_CHAIN_DEPTH + 1
      ensures paths[id] == Join(AncestorNames(byId[id], byId, n), '/')
    {
      PathIsJoinOfNames(order, byId, id, n);
    }
  }

  /** Some sorted order of any set of mailboxes. */
  lemma OrderOf(ids: set<Id>, byId: map<Id, Mailbox>) returns (order: seq<Id>)
    requires ids <= byId.Keys
    ensures SortedByDepth(order, byId) && Distinct(order) && ToSet(order) == ids
    decreases ids
  {
    if ids == {} {
      order := [];
    } else {
      var id := ShallowestExists(ids, byId);
      var rest := OrderOf(ids - {id}, byId);
      forall x | x in rest ensures x in ToSet(rest) {
      }
      order := [id] + rest;
      DistinctConcat([id], rest);
      assert ToSet(order) == {id} + ToSet(rest);
    }
  }

  /** Beyond that depth the iteration order shows: some order leaves the bare leaf name. */
  lemma DeeperPathCanLoseAncestors(byId: map<Id, Mailbox>, id: Id, n: nat) returns (order: seq<Id>)
    requires id in byId && EndsAfter(byId[id].parent, byId, n) && n > MAX_MAILBOX_CHAIN_DEPTH + 1
    ensures Processes(order, byId) && id in Composed(order, byId)
    ensures Composed(order, byId)[id] == byId[id].name
    ensures Composed(order, byId)[id] != Join(AncestorNames(byId[id], byId, n), '/')
  {
    var cap := MAX_MAILBOX_CHAIN_DEPTH + 1;
    var shallow := set x | x in byId && ChainDepth(byId[x], byId) < cap;
    LinksMeasures(byId[id].parent, byId, cap);
    var p := byId[id].parent.value;
    assert p in byId;
    LinksMeasures(byId[p].parent, byId, cap);
    assert EndsAfter(byId[p].parent, byId, n - 1);
    assert ChainDepth(byId[id], byId) == cap && ChainDepth(byId[p], byId) == cap;
    var low;
    low, order := OrderThrough(byId, shallow, id, cap);
    ComposedAt(order, byId, |low|);
    ComposedKeys(low, byId);
    assert p !in shallow && p !in ToSet(low);
    JoinedNames(byId[id], byId, n);
  }

  /** An order in which `id` comes right after the mailboxes shallower than it. */
  lemma OrderThrough(
    byId: map<Id, Mailbox>, shallow: set<Id>, id: Id, depth: nat)
    returns (low: seq<Id>, order: seq<Id>)
    requires id in byId && ChainDepth(byId[id], byId) == depth
    requires forall x :: x in byId ==> ChainDepth(byId[x], byId) <= depth
    requires shallow == set x | x in byId && ChainDepth(byId[x], byId) < depth
    ensures Processes(order, byId) && |low| < |order| && order[..|low|] == low && order[|low|] == id
            && ToSet(low) == shallow
  {
    low := OrderOf(shallow, byId);
    var high := OrderOf(byId.Keys - shallow - {id}, byId);
    order := low + [id] + high;
    forall x | x in low ensures x in shallow {
      assert x in ToSet(low);
    }
    forall x | x in high ensures x in byId.Keys - shallow - {id} && ChainDepth(byId[x], byId) == depth {
      assert x in ToSet(high);
    }
    DistinctConcat(low, [id]);
    DistinctConcat(low + [id], high);
    assert ToSet(order) == ToSet(low) + {id} + ToSet(high);
  }

  // ---------- selecting mailboxes ----------

  datatype SelectionInput = SelectionInput(path: string, role: Option<string>)

  function AsciiLower(c: char): char {
    if 'A' <= c <= 'Z' then c + 32 as char else c
  }

  predicate EqIgnoreAsciiCase(a: string, b: string) {
    |a| == |b| && forall i | 0 <= i < |a| :: AsciiLower(a[i]) == AsciiLower(b[i])
  }

  /** `matches_filter_entry`. */
  predicate MatchesFilterEntry(entries: seq<string>, path: string, role: Option<string>, caseInsensitive: bool) {
    exists entry | entry in entries ::
      || (entry == "INBOX" && role == Some("inbox"))
      || (if caseInsensitive then EqIgnoreAsciiCase(entry, path) else entry == path)
  }

  /** `is_path_under`. */
  predicate IsPathUnder(path: string, ancestor: string) {
    |path| > |ancestor| && path[|ancestor|] == '/' && ancestor <= path
  }

  /** `get_matching_mailboxes`. */
  function GetMatchingMailboxes(
    entries: seq<string>, mailboxes: seq<SelectionInput>, caseInsensitive: bool): set<string>
  {
    if entries == [] then set m | m in mailboxes :: m.path
    else set m | m in mailboxes && MatchesFilterEntry(entries, m.path, m.role, caseInsensitive) :: m.path
  }

  /** `get_matching_mailbox_subtrees`. */
  function GetMatchingMailboxSubtrees(matched: set<string>, mailboxes: seq<SelectionInput>): set<string> {
    set m | m in mailboxes && m.path !in matched && (exists a | a in matched :: IsPathUnder(m.path, a)) :: m.path
  }

  /** `get_selected_mailboxes`. */
  function GetSelectedMailboxes(
    entries: seq<string>, mailboxes: seq<SelectionInput>, caseInsensitive: bool, includeSubtrees: bool): set<string>
  {
    var selected := GetMatchingMailboxes(entries, mailboxes, caseInsensitive);
    if includeSubtrees then selected + GetMatchingMailboxSubtrees(selected, mailboxes) else selected
  }

  /** The same ASCII letter in either case, or the same character. */
  ghost predicate SameLetter(a: char, b: char) {
    || a == b
    || ('A' <= a <= 'Z' && b as int == a as int + 32)
    || ('A' <= b <= 'Z' && a as int == b as int + 32)
  }

  /** A config entry picks a mailbox: by its whole path, in any ASCII case if so configured, or by
      the inbox role under the name `INBOX`. */
  ghost predicate Picks(entry: string, path: string, role: Option<string>, caseInsensitive: bool) {
    || (entry == "INBOX" && role == Some("inbox"))
    || (if caseInsensitive then |entry| == |path| && forall i :: 0 <= i < |path| ==> SameLetter(entry[i], path[i])
        else entry == path)
  }

  lemma EqIgnoreCaseMeans(a: string, b: string)
    ensures EqIgnoreAsciiCase(a, b) <==> |a| == |b| && forall i :: 0 <= i < |b| ==> SameLetter(a[i], b[i])
  {
    forall x: char, y: char ensures AsciiLower(x) == AsciiLower(y) <==> SameLetter(x, y) {
    }
  }

  lemma MatchMeansPicked(entries: seq<string>, path: string, role: Option<string>, caseInsensitive: bool)
    ensures MatchesFilterEntry(entries, path, role, caseInsensitive)
            <==> exists entry :: entry in entries && Picks(entry, path, role, caseInsensitive)
  {
    forall entry ensures EqIgnoreAsciiCase(entry, path)
                         <==> |entry| == |path| && forall i :: 0 <= i < |path| ==> SameLetter(entry[i], path[i]) {
      EqIgnoreCaseMeans(entry, path);
    }
  }

  /** Some entry picks a mailbox that has this path or, with subtrees, one above it. */
  ghost predicate Chosen(
    entries: seq<string>, mailboxes: seq<SelectionInput>, caseInsensitive: bool, includeSubtrees: bool, path: string)
  {
    exists m, entry :: m in mailboxes && entry in entries && Picks(entry, m.path, m.role, caseInsensitive)
                       && (m.path == path || (includeSubtrees && Split(m.path, '/') < Split(path, '/')))
  }

  /** What is selected: of the mailboxes' paths, all if there are no entries, else those chosen. */
  lemma SelectedMeans(
    entries: seq<string>, mailboxes: seq<SelectionInput>, caseInsensitive: bool, includeSubtrees: bool, path: string)
    ensures path in GetSelectedMailboxes(entries, mailboxes, caseInsensitive, includeSubtrees)
            <==> && (exists m :: m in mailboxes && m.path == path)
                 && (entries == [] || Chosen(entries, mailboxes, caseInsensitive, includeSubtrees, path))
  {
    var matched := GetMatchingMailboxes(entries, mailboxes, caseInsensitive);
    forall p ensures p in matched
                     <==> exists m :: m in mailboxes && m.path == p && (entries == []
                            || exists entry :: entry in entries && Picks(entry, p, m.role, caseInsensitive)) {
      forall m ensures MatchesFilterEntry(entries, p, m, caseInsensitive)
                       <==> exists entry :: entry in entries && Picks(entry, p, m, caseInsensitive) {
        MatchMeansPicked(entries, p, m, caseInsensitive);
      }
    }
    forall a ensures IsPathUnder(path, a) <==> Split(a, '/') < Split(path, '/') {
      UnderMeansProperPrefix(path, a);
    }
    if entries != [] {
      MatchedOrUnder(entries, mailboxes, caseInsensitive, includeSubtrees, path, matched);
    }
  }

  lemma MatchedOrUnder(
    entries: seq<string>, mailboxes: seq<SelectionInput>, caseInsensitive: bool, includeSubtrees: bool, path: string,
    matched: set<string>)
    requires forall p :: p in matched
                     <==> exists m :: m in mailboxes && m.path == p && (entries == []
                            || exists entry :: entry in entries && Picks(entry, p, m.role, caseInsensitive))
    requires entries != []
    ensures Chosen(entries, mailboxes, caseInsensitive, includeSubtrees, path)
            <==> path in matched || (includeSubtrees && exists a :: a in matched && Split(a, '/') < Split(path, '/'))
  {
    if Chosen(entries, mailboxes, caseInsensitive, includeSubtrees, path) {
      var m, entry :| m in mailboxes && entry in entries && Picks(entry, m.path, m.role, caseInsensitive)
                      && (m.path == path || (includeSubtrees && Split(m.path, '/') < Split(path, '/')));
      assert m.path in matched;
    }
    if path in matched {
      var m :| m in mailboxes && m.path == path
               && exists entry :: entry in entries && Picks(entry, path, m.role, caseInsensitive);
    }
    if includeSubtrees {
      forall a | a in matched && Split(a, '/') < Split(path, '/')
        ensures Chosen(entries, mailboxes, caseInsensitive, includeSubtrees, path)
      {
        var m :| m in mailboxes && m.path == a
                 && exists entry :: entry in entries && Picks(entry, a, m.role, caseInsensitive);
      }
    }
  }

  /** Being under a path is a matter of whole segments. */
  lemma UnderMeansProperPrefix(path: string, ancestor: string)
    ensures IsPathUnder(path, ancestor) <==> Split(ancestor, '/') < Split(path, '/')
  {
    if IsPathUnder(path, ancestor) {
      var rest := path[|ancestor| + 1..];
      assert path == ancestor + ['/'] + rest;
      SplitConcat(ancestor, rest, '/');
    }
    if Split(ancestor, '/') < Split(path, '/') {
      var rest := Split(path, '/')[|Split(ancestor, '/')|..];
      assert Split(path, '/') == Split(ancestor, '/') + rest;
      JoinConcat(Split(ancestor, '/'), rest, '/');
      JoinSplit(path, '/');
      JoinSplit(ancestor, '/');
      assert path == ancestor + ['/'] + Join(rest, '/');
    }
  }

  lemma UnderIsTransitive(a: string, b: string, c: string)
    requires IsPathUnder(a, b) && IsPathUnder(b, c)
    ensures IsPathUnder(a, c)
  {
  }

  /** With subtrees on, one pass selects everything at or below a match, and nothing else; the
      result is closed under descendants, so a second pass would add nothing. */
  lemma SelectionIsSubtreeClosure(entries: seq<string>, mailboxes: seq<SelectionInput>, caseInsensitive: bool)
    ensures var matched := GetMatchingMailboxes(entries, mailboxes, caseInsensitive);
            var selected := GetSelectedMailboxes(entries, mailboxes, caseInsensitive, true);
            && (forall m :: m in mailboxes ==>
                  (m.path in selected <==> m.path in matched || exists a :: a in matched && IsPathUnder(m.path, a)))
            && (forall m, a :: m in mailboxes && a in selected && IsPathUnder(m.path, a) ==> m.path in selected)
            && GetMatchingMailboxSubtrees(selected, mailboxes) == {}
  {
    var matched := GetMatchingMailboxes(entries, mailboxes, caseInsensitive);
    var selected := GetSelectedMailboxes(entries, mailboxes, caseInsensitive, true);
    forall m, a | m in mailboxes && a in selected && IsPathUnder(m.path, a) ensures m.path in selected {
      if a !in matched {
        var top :| top in matched && IsPathUnder(a, top);
        UnderIsTransitive(m.path, a, top);
      }
    }
  }
}
