/** `src/jmap/email.rs`: paging `Email/query`, chunking `Email/set`, and CRLF normalisation. */
module JmapEmail {
  import opened Common

  type EmailId = string

  // ---------- Email/query paging ----------

  const QUERY_PAGE_SIZE: nat := 1000

  /** A server whose list does not change while it is paged. `pageLen` is how many ids it is
      willing to return at a position; `total` is what it reports for `calculateTotal`. */
  datatype Server = Server(list: seq<EmailId>, total: Option<nat>, pageLen: nat -> nat)
  {
    function Slot(position: nat): nat {
      if position >= |list| then 0 else Min(QUERY_PAGE_SIZE, |list| - position)
    }

    /** `query_page`. */
    function Page(position: nat): (ids: seq<EmailId>)
      ensures |ids| <= Slot(position)
    {
      if position >= |list| then []
      else list[position..position + Min(pageLen(position), Slot(position))]
    }

    ghost predicate FullAt(position: nat) {
      |Page(position)| == Slot(position)
    }

    /** The server returns at least one id wherever there is one. */
    ghost predicate Progresses() {
      forall position: nat :: position < |list| ==> pageLen(position) >= 1
    }
  }

  /** `(start..end).step_by(QUERY_PAGE_SIZE)`. */
  function Positions(start: nat, end: nat): seq<nat>
    decreases end - start
  {
    if start >= end then [] else [start] + Positions(start + QUERY_PAGE_SIZE, end)
  }

  /** `p` is the start, or whole pages beyond it, and before the end. */
  ghost predicate IsPlanned(p: nat, start: nat, end: nat) {
    start <= p < end && (p - start) % QUERY_PAGE_SIZE == 0
  }

  lemma {:induction false} PositionsArePlanned(start: nat, end: nat)
    ensures forall p :: p in Positions(start, end) <==> IsPlanned(p, start, end)
    decreases end - start
  {
    if start >= end {
    } else {
      var next := start + QUERY_PAGE_SIZE;
      PositionsArePlanned(next, end);
      forall p: nat | p != start ensures IsPlanned(p, start, end) <==> IsPlanned(p, next, end) {
        if p >= next {
          assert p - start == p - next + QUERY_PAGE_SIZE;
        }
      }
    }
  }

  /** The first page is at 0; the pages planned from it on are each as full as can be. */
  ghost predicate PlannedPagesFull(server: Server) {
    forall p: nat :: IsPlanned(p, |server.Page(0)|, |server.list|) ==> server.FullAt(p)
  }

  ghost function Collected(server: Server, positions: seq<nat>): multiset<EmailId> {
    if positions == [] then multiset{}
    else multiset(server.Page(positions[0])) + Collected(server, positions[1..])
  }

  lemma {:induction false} CollectedTakesAny(server: Server, positions: seq<nat>, k: nat)
    requires k < |positions|
    ensures Collected(server, positions)
            == multiset(server.Page(positions[k])) + Collected(server, positions[..k] + positions[k + 1..])
  {
    if k == 0 {
      assert positions[..0] + positions[1..] == positions[1..];
    } else {
      var rest := positions[..k] + positions[k + 1..];
      assert rest[0] == positions[0] && rest[1..] == positions[1..][..k - 1] + positions[1..][k..];
      CollectedTakesAny(server, positions[1..], k - 1);
    }
  }

  ghost predicate AllFull(server: Server, positions: seq<nat>) {
    forall p :: p in positions ==> server.FullAt(p)
  }

  /** The planned pages bring in as many ids as are missing exactly when every one is full. */
  lemma {:induction false} PlannedSizes(server: Server, start: nat)
    requires start <= |server.list|
    ensures |Collected(server, Positions(start, |server.list|))| <= |server.list| - start
    ensures |Collected(server, Positions(start, |server.list|))| == |server.list| - start
            <==> AllFull(server, Positions(start, |server.list|))
    decreases |server.list| - start
  {
    var n := |server.list|;
    if start < n {
      var next := start + QUERY_PAGE_SIZE;
      var all, tail := Positions(start, n), Positions(next, n);
      assert all == [start] + tail && all[1..] == tail;
      assert AllFull(server, all) <==> server.FullAt(start) && AllFull(server, tail);
      assert |Collected(server, all)| == |server.Page(start)| + |Collected(server, tail)|;
      if next <= n {
        PlannedSizes(server, next);
      }
    }
  }

  lemma FullPage(server: Server, start: nat, next: nat)
    requires start <= next == Min(start + QUERY_PAGE_SIZE, |server.list|) && server.FullAt(start)
    ensures server.list[start..] == server.Page(start) + server.list[next..]
  {
  }

  lemma {:induction false} PlannedContents(server: Server, start: nat)
    requires start <= |server.list| && AllFull(server, Positions(start, |server.list|))
    ensures Collected(server, Positions(start, |server.list|)) == multiset(server.list[start..])
    decreases |server.list| - start
  {
    if start < |server.list| {
      var next := Min(start + QUERY_PAGE_SIZE, |server.list|);
      var all, tail := Positions(start, |server.list|), Positions(next, |server.list|);
      assert tail == Positions(start + QUERY_PAGE_SIZE, |server.list|);
      assert all == [start] + tail && all[1..] == tail;
      assert start in all && forall p :: p in tail ==> p in all;
      FullPage(server, start, next);
      PlannedContents(server, next);
    }
  }

  /** The `total`-known branch of `query_mailbox`: the planned pages may complete in any order. */
  method FanOut(server: Server, first: seq<EmailId>, total: nat) returns (ids: seq<EmailId>)
    ensures multiset(ids) == multiset(first) + Collected(server, Positions(|first|, total))
  {
    ids := first;
    var pending := Positions(|first|, total);
    while pending != []
      invariant multiset(ids) + Collected(server, pending)
                == multiset(first) + Collected(server, Positions(|first|, total))
      decreases |pending|
    {
      var k :| 0 <= k < |pending|;
      CollectedTakesAny(server, pending, k);
      ids := ids + server.Page(pending[k]);
      pending := pending[..k] + pending[k + 1..];
    }
  }

  /** The branch without `total`: walk on by what was returned until a page comes back empty. */
  method WalkSerially(server: Server, first: seq<EmailId>) returns (ids: seq<EmailId>)
    requires first == server.Page(0)
    ensures ids <= server.list
    ensures server.Progresses() ==> ids == server.list
  {
    ids := first;
    var position := |first|;
    while true
      invariant position == |ids| <= |server.list| && ids == server.list[..position]
      decreases |server.list| - position
    {
      var page := server.Page(position);
      ids := ids + page;
      if |page| == 0 {
        break;
      }
      position := position + |page|;
    }
  }

  /** `query_mailbox`. With an honest `total` every id is collected exactly once if and only if
      each planned page is full; without one, any server that progresses is read in order. */
  method QueryMailbox(server: Server) returns (ids: seq<EmailId>)
    ensures server.total == None ==> ids <= server.list
    ensures server.total == None && server.Progresses() ==> ids == server.list
    ensures server.total == Some(|server.list|) ==>
              (multiset(ids) == multiset(server.list) <==> PlannedPagesFull(server))
  {
    PositionsArePlanned(|server.Page(0)|, |server.list|);
    var first := server.Page(0);
    match server.total
    case Some(total) =>
      if total > |first| {
        ids := FanOut(server, first, total);
      } else {
        ids := first;
      }
      if total == |server.list| {
        PlannedSizes(server, |first|);
        if AllFull(server, Positions(|first|, total)) {
          PlannedContents(server, |first|);
          assert server.list == first + server.list[|first|..];
        }
        assert |multiset(server.list)| == total && |multiset(first)| == |first|;
      }
    case None =>
      ids := WalkSerially(server, first);
  }

  /** A server that clamps its pages to fewer ids than the client asks for, and reports a total, is
      read completely exactly when two of its pages hold the whole list; without a total always. */
  lemma ClampedPagesSufficeIff(server: Server, clamp: nat)
    requires 1 <= clamp < QUERY_PAGE_SIZE && forall position :: server.pageLen(position) == clamp
    ensures PlannedPagesFull(server) <==> |server.list| <= 2 * clamp
    ensures server.Progresses()
  {
    var n, first := |server.list|, |server.Page(0)|;
    PositionsArePlanned(first, n);
    assert server.pageLen(0) == clamp && first == Min(clamp, n);
    if n > clamp {
      assert first == clamp && server.pageLen(clamp) == clamp;
      var positions := Positions(clamp, n);
      assert positions[0] == clamp && clamp in positions;
      assert server.FullAt(clamp) <==> n <= 2 * clamp;
      if n <= 2 * clamp {
        assert positions == [clamp] + Positions(clamp + QUERY_PAGE_SIZE, n) == [clamp];
      }
    } else {
      assert Positions(first, n) == [];
    }
  }

  // ---------- Email/set: the state chain across chunks ----------

  datatype Outcome = Outcome(
    failedUpdates: set<EmailId>, failedDestroys: set<EmailId>, chainOld: Option<string>, chainNew: Option<string>)

  const NO_OUTCOME := Outcome({}, {}, None, None)

  function Merged(acc: Outcome, o: Outcome): Outcome {
    var chain :=
      if acc.chainNew.None? && o.chainOld.Some? && o.chainNew.Some? && acc.chainOld.None? then (o.chainOld, o.chainNew)
      else if acc.chainNew.Some? && o.chainOld == acc.chainNew && o.chainNew.Some? then (acc.chainOld, o.chainNew)
      else (acc.chainOld, None);
    Outcome(acc.failedUpdates + o.failedUpdates, acc.failedDestroys + o.failedDestroys, chain.0, chain.1)
  }

  /** Chunk outcomes folded in order, starting from the default. */
  ghost function Folded(outcomes: seq<Outcome>): Outcome {
    if outcomes == [] then NO_OUTCOME
    else Merged(Folded(outcomes[..|outcomes| - 1]), outcomes[|outcomes| - 1])
  }

  class EmailSetOutcome {
    var failedUpdates: set<EmailId>
    var failedDestroys: set<EmailId>
    var chainOld: Option<string>
    var chainNew: Option<string>

    constructor ()
      ensures Value() == NO_OUTCOME
    {
      failedUpdates, failedDestroys, chainOld, chainNew := {}, {}, None, None;
    }

    function Value(): Outcome
      reads this
    {
      Outcome(failedUpdates, failedDestroys, chainOld, chainNew)
    }

    /** `EmailSetOutcome::merge`: `take()` leaves `chain_new` empty before the match decides. */
    method Merge(other: Outcome)
      modifies this
      ensures Value() == Merged(old(Value()), other)
    {
      failedUpdates := failedUpdates + other.failedUpdates;
      failedDestroys := failedDestroys + other.failedDestroys;
      var taken := chainNew;
      chainNew := None;
      match (taken, other.chainOld, other.chainNew)
      case (None, Some(oOld), Some(oNew)) =>
        if chainOld.None? {
          chainOld, chainNew := Some(oOld), Some(oNew);
        }
      case (Some(prevNew), Some(oOld), Some(oNew)) =>
        if prevNew == oOld {
          chainNew := Some(oNew);
        }
      case _ =>
    }
  }

  ghost predicate HasBoth(o: Outcome) {
    o.chainOld.Some? && o.chainNew.Some?
  }

  /** The outcomes from the first one that carries both states. */
  ghost function FromFirstState(outcomes: seq<Outcome>): seq<Outcome> {
    if outcomes == [] || HasBoth(outcomes[0]) then outcomes else FromFirstState(outcomes[1..])
  }

  /** Each chunk started from the state the one before it ended in. */
  ghost predicate Linked(outcomes: seq<Outcome>) {
    && (forall i :: 0 <= i < |outcomes| ==> HasBoth(outcomes[i]))
    && (forall i :: 0 < i < |outcomes| ==> outcomes[i].chainOld == outcomes[i - 1].chainNew)
  }

  /** The chain of `folded` runs from the start of `suffix` to its end if `suffix` is linked, and has
      no new state otherwise. */
  ghost predicate Spans(folded: Outcome, suffix: seq<Outcome>) {
    && (folded.chainNew.Some? <==> suffix != [] && Linked(suffix))
    && (suffix != [] ==> HasBoth(suffix[0]) && folded.chainOld == suffix[0].chainOld)
    && (suffix == [] ==> folded.chainOld == None)
    && (folded.chainNew.Some? ==> folded.chainNew == suffix[|suffix| - 1].chainNew)
  }

  lemma {:induction false} FromFirstStateSnoc(outcomes: seq<Outcome>, o: Outcome)
    ensures FromFirstState(outcomes + [o])
            == if FromFirstState(outcomes) != [] then FromFirstState(outcomes) + [o]
               else if HasBoth(o) then [o] else []
  {
    if outcomes == [] {
      assert [o][1..] == [] && outcomes + [o] == [o];
    } else if !HasBoth(outcomes[0]) {
      FromFirstStateSnoc(outcomes[1..], o);
      assert (outcomes + [o])[1..] == outcomes[1..] + [o];
    }
  }

  /** The cursor may be advanced exactly when the chunks from the first one with states are
      unbroken; the chain then spans that suffix, which need not start at the first chunk. */
  lemma {:induction false} ChainSpansSuffix(outcomes: seq<Outcome>)
    ensures Spans(Folded(outcomes), FromFirstState(outcomes))
  {
    if outcomes == [] {
    } else {
      var init, o := outcomes[..|outcomes| - 1], outcomes[|outcomes| - 1];
      ChainSpansSuffix(init);
      FromFirstStateSnoc(init, o);
      assert outcomes == init + [o];
      SpansSnoc(Folded(init), FromFirstState(init), o);
    }
  }

  lemma SpansSnoc(folded: Outcome, suffix: seq<Outcome>, o: Outcome)
    requires Spans(folded, suffix)
    ensures Spans(Merged(folded, o), if suffix != [] then suffix + [o] else if HasBoth(o) then [o] else [])
  {
    if suffix != [] {
      LinkedSnoc(suffix, o);
    }
  }

  lemma LinkedSnoc(chunks: seq<Outcome>, o: Outcome)
    requires chunks != []
    ensures Linked(chunks + [o]) <==> Linked(chunks) && HasBoth(o) && o.chainOld == chunks[|chunks| - 1].chainNew
  {
    var all := chunks + [o];
    assert all[|chunks|] == o && forall i :: 0 <= i < |chunks| ==> all[i] == chunks[i];
  }

  /** `i` is the first chunk that reported both states. */
  ghost predicate FirstWithBoth(outcomes: seq<Outcome>, i: nat) {
    i < |outcomes| && HasBoth(outcomes[i]) && forall k :: 0 <= k < i ==> !HasBoth(outcomes[k])
  }

  lemma {:induction false} FromFirstStateIs(outcomes: seq<Outcome>, i: nat)
    requires FirstWithBoth(outcomes, i)
    ensures FromFirstState(outcomes) == outcomes[i..]
  {
    if i > 0 {
      FromFirstStateIs(outcomes[1..], i - 1);
    }
  }

  lemma {:induction false} NoStateNoSuffix(outcomes: seq<Outcome>)
    requires forall o :: o in outcomes ==> !HasBoth(o)
    ensures FromFirstState(outcomes) == []
  {
    if outcomes == [] {
    } else {
      assert outcomes[0] in outcomes;
      NoStateNoSuffix(outcomes[1..]);
    }
  }

  /** The chain's old state is that of the very first chunk exactly when that chunk reported both
      states, or when the first that did happens to start from the same state; if none did, when
      the first chunk reported no old state either. */
  lemma ChainOldIsFirstChunks(outcomes: seq<Outcome>)
    requires outcomes != []
    ensures forall i: nat :: FirstWithBoth(outcomes, i) ==>
              && Folded(outcomes).chainOld == outcomes[i].chainOld
              && (Folded(outcomes).chainOld == outcomes[0].chainOld
                  <==> HasBoth(outcomes[0]) || outcomes[0].chainOld == outcomes[i].chainOld)
    ensures (forall o :: o in outcomes ==> !HasBoth(o)) ==>
              (Folded(outcomes).chainOld == outcomes[0].chainOld <==> outcomes[0].chainOld == None)
  {
    ChainSpansSuffix(outcomes);
    forall i: nat | FirstWithBoth(outcomes, i)
      ensures Folded(outcomes).chainOld == outcomes[i].chainOld && (HasBoth(outcomes[0]) ==> i == 0)
    {
      FromFirstStateIs(outcomes, i);
    }
    if forall o :: o in outcomes ==> !HasBoth(o) {
      NoStateNoSuffix(outcomes);
    }
  }

  function Stated(before: Option<string>, after: Option<string>): Outcome {
    Outcome({}, {}, before, after)
  }

  /** A first chunk without states makes an intact chain start later; and the two old states can
      agree although the first chunk lacks its new one. */
  lemma ChainCanStartLater(s: string, t: string)
    requires s != t
    ensures var late := [Stated(None, None), Stated(Some(s), Some(t))];
            && Folded(late).chainNew == Some(t) && Folded(late).chainOld == Some(s) != late[0].chainOld
    ensures var lucky := [Stated(Some(s), None), Stated(Some(s), Some(t))];
            && Folded(lucky).chainNew == Some(t) && Folded(lucky).chainOld == lucky[0].chainOld && !HasBoth(lucky[0])
  {
    var late, lucky := [Stated(None, None), Stated(Some(s), Some(t))],
        [Stated(Some(s), None), Stated(Some(s), Some(t))];
    FoldTwo(late[0], late[1]);
    FoldTwo(lucky[0], lucky[1]);
    assert late == [late[0], late[1]] && lucky == [lucky[0], lucky[1]];
  }

  lemma FoldTwo(a: Outcome, b: Outcome)
    ensures Folded([a, b]) == Merged(Merged(NO_OUTCOME, a), b)
  {
    assert [a, b][..1] == [a] && [a][..0] == [];
    assert Folded([a]) == Merged(Folded([]), a);
  }

  lemma {:induction false} BrokenChainStaysBroken(outcomes: seq<Outcome>, more: seq<Outcome>)
    requires Folded(outcomes).chainOld.Some? && Folded(outcomes).chainNew.None?
    ensures Folded(outcomes + more).chainNew.None? && Folded(outcomes + more).chainOld == Folded(outcomes).chainOld
  {
    if more == [] {
      assert outcomes + more == outcomes;
    } else {
      BrokenChainStaysBroken(outcomes, more[..|more| - 1]);
      assert (outcomes + more)[..|outcomes + more| - 1] == outcomes + more[..|more| - 1];
    }
  }

  lemma {:induction false} FoldedFailures(outcomes: seq<Outcome>)
    ensures Folded(outcomes).failedUpdates == set o, id | o in outcomes && id in o.failedUpdates :: id
    ensures Folded(outcomes).failedDestroys == set o, id | o in outcomes && id in o.failedDestroys :: id
  {
    if outcomes == [] {
    } else {
      FoldedFailures(outcomes[..|outcomes| - 1]);
      assert outcomes == outcomes[..|outcomes| - 1] + [outcomes[|outcomes| - 1]];
    }
  }

  datatype EmailSetOp =
    | Keywords(emailId: EmailId, keywords: map<string, bool>)
    | SetMailboxes(emailId: EmailId, targets: seq<string>)
    | Destroy(emailId: EmailId)

  /** What the server answered to each chunk of `ops`, in order. */
  ghost function Answers(
    ops: seq<EmailSetOp>, chunkSize: nat, respond: (nat, seq<EmailSetOp>) -> Outcome): seq<Outcome>
    requires 0 < chunkSize
  {
    var chunks := Chunks(ops, chunkSize);
    seq(|chunks|, i requires 0 <= i < |chunks| => respond(i, chunks[i]))
  }

  /** `set_email_batch`: one call per chunk, folded. `respond` is the server, call by call. */
  method SetEmailBatch(ops: seq<EmailSetOp>, chunkSize: nat, respond: (nat, seq<EmailSetOp>) -> Outcome)
    returns (r: Outcome)
    requires 0 < chunkSize
    ensures r == Folded(Answers(ops, chunkSize, respond))
    ensures Flatten(Chunks(ops, chunkSize)) == ops
  {
    ChunksPartition(ops, chunkSize);
    if ops == [] {
      return NO_OUTCOME;
    }
    var combined := new EmailSetOutcome();
    var chunks := Chunks(ops, chunkSize);
    ghost var answers := Answers(ops, chunkSize, respond);
    for i := 0 to |chunks|
      invariant combined.Value() == Folded(answers[..i])
    {
      combined.Merge(respond(i, chunks[i]));
      assert answers[..i + 1][..i] == answers[..i];
    }
    assert answers[..|chunks|] == answers;
    r := combined.Value();
  }

  // ---------- CRLF normalisation ----------

  ghost function Normalized(prev: byte, input: seq<byte>): seq<byte>
    decreases |input|
  {
    if input == [] then []
    else (if input[0] == LF && prev != CR then [CR, LF] else [input[0]]) + Normalized(input[0], input[1..])
  }

  lemma NormalizedStep(prev: byte, input: seq<byte>, i: nat, out: seq<byte>)
    requires i < |input|
    ensures out + Normalized(prev, input[i..])
            == (if input[i] == LF && prev != CR then out + [CR] else out) + [input[i]]
               + Normalized(input[i], input[i + 1..])
  {
    var b, rest := input[i], Normalized(input[i], input[i + 1..]);
    assert input[i..][0] == b && input[i..][1..] == input[i + 1..];
    if b == LF && prev != CR {
      assert [CR, LF] + rest == [CR] + ([LF] + rest);
    }
  }

  /** `normalize_crlf`. */
  method NormalizeCrlf(input: seq<byte>) returns (out: seq<byte>)
    ensures out == Normalized(0, input)
  {
    out := [];
    var prev: byte := 0;
    for i := 0 to |input|
      invariant out + Normalized(prev, input[i..]) == Normalized(0, input)
    {
      var b := input[i];
      NormalizedStep(prev, input, i, out);
      if b == LF && prev != CR {
        out := out + [CR];
      }
      out := out + [b];
      prev := b;
    }
  }

  /** No LF in `s` without a CR right before it, `s` being preceded by `prev`. */
  ghost predicate NoBareLfAfter(prev: byte, s: seq<byte>)
    decreases |s|
  {
    s == [] || ((s[0] == LF ==> prev == CR) && NoBareLfAfter(s[0], s[1..]))
  }

  ghost predicate NoBareLf(s: seq<byte>) {
    && (s != [] ==> s[0] != LF)
    && forall i, j :: 0 <= i < j < |s| && j == i + 1 && s[j] == LF ==> s[i] == CR
  }

  lemma {:induction false} NoBareLfByIndex(prev: byte, s: seq<byte>)
    ensures NoBareLfAfter(prev, s)
            <==> && (s != [] && s[0] == LF ==> prev == CR)
                 && forall i, j :: 0 <= i < j < |s| && j == i + 1 && s[j] == LF ==> s[i] == CR
    decreases |s|
  {
    if s == [] {
    } else {
      var t := s[1..];
      NoBareLfByIndex(s[0], t);
      if NoBareLfAfter(prev, s) {
        forall i, j | 0 <= i < j < |s| && j == i + 1 && s[j] == LF ensures s[i] == CR {
          assert s[j] == t[i];
          assert i > 0 ==> s[i] == t[i - 1];
        }
      } else if s[0] == LF ==> prev == CR {
        if t != [] && t[0] == LF && s[0] != CR {
          assert s[1] == LF;
        } else {
          var i, j :| 0 <= i < j < |t| && j == i + 1 && t[j] == LF && t[i] != CR;
          assert s[j + 1] == LF && s[i + 1] != CR;
        }
      }
    }
  }

  lemma {:induction false} NormalizedHasNoBareLf(prev: byte, input: seq<byte>)
    ensures NoBareLfAfter(prev, Normalized(prev, input))
    decreases |input|
  {
    if input == [] {
    } else {
      NormalizedHasNoBareLf(input[0], input[1..]);
      NoBareLfPrepend(prev, input[0], Normalized(input[0], input[1..]));
    }
  }

  lemma NoBareLfPrepend(prev: byte, b: byte, rest: seq<byte>)
    requires NoBareLfAfter(b, rest)
    ensures NoBareLfAfter(prev, (if b == LF && prev != CR then [CR, LF] else [b]) + rest)
  {
    assert ([b] + rest)[1..] == rest;
    if b == LF && prev != CR {
      assert ([CR, LF] + rest)[1..] == [LF] + rest;
    }
  }

  /** Input that already has no bare LF is left alone. */
  lemma {:induction false} NormalizedFixesWireForm(prev: byte, input: seq<byte>)
    requires NoBareLfAfter(prev, input)
    ensures Normalized(prev, input) == input
    decreases |input|
  {
    if input == [] {
    } else {
      NormalizedFixesWireForm(input[0], input[1..]);
    }
  }

  /** Line breaks reduced to a single LF; everything else untouched. */
  ghost function UnixForm(s: seq<byte>): seq<byte> {
    if s == [] then []
    else if |s| >= 2 && s[0] == CR && s[1] == LF then UnixForm(s[1..])
    else [s[0]] + UnixForm(s[1..])
  }

  /** Normalising changes nothing but the line breaks. */
  lemma {:induction false} NormalizedKeepsContent(prev: byte, input: seq<byte>)
    ensures UnixForm([prev] + Normalized(prev, input)) == UnixForm([prev] + input)
    decreases |input|
  {
    if input == [] {
    } else {
      var rest := Normalized(input[0], input[1..]);
      var tail := [input[0]] + rest;
      NormalizedKeepsContent(input[0], input[1..]);
      assert [input[0]] + input[1..] == input;
      assert ([prev] + input)[1..] == input;
      assert ([prev] + tail)[1..] == tail;
      if input[0] == LF && prev != CR {
        var broken := [CR] + tail;
        assert broken[1..] == tail && UnixForm(broken) == UnixForm(tail);
        assert ([prev] + broken)[1..] == broken;
        assert Normalized(prev, input) == broken;
      } else {
        assert Normalized(prev, input) == tail;
      }
    }
  }

  /** What `normalize_crlf` promises: wire form, same content, and a second pass does nothing. */
  lemma NormalizeCrlfLaws(input: seq<byte>)
    ensures NoBareLf(Normalized(0, input))
    ensures UnixForm(Normalized(0, input)) == UnixForm(input)
    ensures Normalized(0, Normalized(0, input)) == Normalized(0, input)
    ensures Normalized(0, input) == input <==> NoBareLf(input)
  {
    var out := Normalized(0, input);
    NormalizedHasNoBareLf(0, input);
    NoBareLfByIndex(0, out);
    NoBareLfByIndex(0, input);
    NormalizedKeepsContent(0, input);
    assert UnixForm([0 as byte] + out) == [0 as byte] + UnixForm(out) by {
      assert ([0 as byte] + out)[1..] == out;
    }
    assert UnixForm([0 as byte] + input) == [0 as byte] + UnixForm(input) by {
      assert ([0 as byte] + input)[1..] == input;
    }
    assert UnixForm(out) == ([0 as byte] + UnixForm(out))[1..];
    NormalizedFixesWireForm(0, out);
    if NoBareLf(input) {
      NormalizedFixesWireForm(0, input);
    }
  }
}
