/** `src/janitor/remotededupe.rs`: plan and apply the destruction of server-side duplicates. */
module RemoteDedupe {
  import opened Common
  import opened Text
  import JmapEmail

  type EmailId = string
  type MessageId = string
  type BlobId = string

  /** The bytes behind a blob; equality of digests is read as equality of these. */
  type Content = seq<byte>

  datatype Email = Email(id: EmailId, blobId: BlobId, size: nat, messageIds: Option<seq<MessageId>>)

  datatype Member = Member(emailId: EmailId, blobId: BlobId, size: nat)

  /** One `(folder, mailbox)` argument together with what the server returned for it. */
  datatype Fetched = Fetched(folder: string, mailboxId: string, emails: seq<Email>)

  datatype Group = Group(
    folder: string, mailboxId: string, messageId: MessageId, blobId: BlobId,
    survivor: EmailId, destroy: seq<EmailId>)

  datatype SkipReason = SizeMismatch | ContentMismatch

  datatype SkippedGroup = SkippedGroup(
    folder: string, messageId: MessageId, reason: SkipReason, members: seq<(EmailId, BlobId)>)

  // ---------- classifying one group ----------

  datatype Classification =
    | Single
    | SizeMatched(group: Group, verify: seq<Member>)
    | Skipped(skipped: SkippedGroup)

  function Ids(members: seq<Member>): seq<EmailId> {
    Map(members, (m: Member) => m.emailId)
  }

  function Named(members: seq<Member>): seq<(EmailId, BlobId)> {
    Map(members, (m: Member) => (m.emailId, m.blobId))
  }

  /** The ids and blobs of these members, in order. */
  ghost predicate Lists(pairs: seq<(EmailId, BlobId)>, members: seq<Member>) {
    |pairs| == |members|
    && forall i :: 0 <= i < |pairs| ==> pairs[i].0 == members[i].emailId && pairs[i].1 == members[i].blobId
  }

  /** The survivor order: locally bound before unbound, then by id. */
  ghost predicate NoLater(bound: set<EmailId>, a: EmailId, b: EmailId) {
    (a in bound && b !in bound) || ((a in bound <==> b in bound) && LexLeq(a, b))
  }

  /** `position(..).unwrap_or(0)`: the first bound member, else the first member. */
  function SurvivorIndex(sorted: seq<Member>, bound: set<EmailId>): (i: nat)
    requires sorted != []
    ensures i < |sorted|
    ensures sorted[i].emailId in bound ==> forall k :: 0 <= k < i ==> sorted[k].emailId !in bound
    ensures sorted[i].emailId !in bound ==> i == 0 && forall m :: m in sorted ==> m.emailId !in bound
  {
    if sorted[0].emailId in bound || |sorted| == 1 then 0
    else
      assert sorted == [sorted[0]] + sorted[1..];
      var i := SurvivorIndex(sorted[1..], bound);
      if sorted[1..][i].emailId in bound then i + 1 else 0
  }

  /** `classify_group`, as a release build runs it. */
  function ClassifyGroup(
    f: Fetched, messageId: MessageId, members: seq<Member>, bound: set<EmailId>): (c: Classification)
    ensures c.Single? <==> |members| < 2
    ensures c.Skipped? <==> |members| >= 2 && exists m, n :: m in members && n in members && m.size != n.size
    ensures c.Skipped? ==> && c.skipped.folder == f.folder && c.skipped.messageId == messageId
                           && c.skipped.reason == SizeMismatch && Lists(c.skipped.members, members)
    ensures c.SizeMatched? ==>
              && multiset(c.verify) == multiset(members)
              && c.group == Group(f.folder, f.mailboxId, messageId, c.verify[0].blobId,
                                  c.verify[0].emailId, Ids(c.verify[1..]))
              && forall m :: m in members ==> NoLater(bound, c.group.survivor, m.emailId)
  {
    if |members| < 2 then Single
    else if exists m :: m in members && m.size != members[0].size then
      Skipped(SkippedGroup(f.folder, messageId, SizeMismatch, Named(members)))
    else
      var key := (m: Member) => m.emailId;
      var sorted := SortBy(members, key);
      var i := SurvivorIndex(sorted, bound);
      var rest := sorted[..i] + sorted[i + 1..];
      assert members[0] in members;
      assert multiset([sorted[i]] + rest) == multiset(members) by {
        PutFirst(sorted, i);
      }
      assert forall m :: m in members ==> NoLater(bound, sorted[i].emailId, m.emailId) by {
        SurvivorIsLeast(members, sorted, bound);
      }
      assert ([sorted[i]] + rest)[1..] == rest;
      SizeMatched(
        Group(f.folder, f.mailboxId, messageId, sorted[i].blobId, sorted[i].emailId, Ids(rest)),
        [sorted[i]] + rest)
  }

  lemma SurvivorIsLeast(members: seq<Member>, sorted: seq<Member>, bound: set<EmailId>)
    requires members != [] && sorted == SortBy(members, (m: Member) => m.emailId)
    ensures forall m :: m in members ==> NoLater(bound, sorted[SurvivorIndex(sorted, bound)].emailId, m.emailId)
  {
    SortBySorted(members, (m: Member) => m.emailId);
    LeastOfSorted(sorted, bound);
    forall m | m in members ensures m in sorted {
      assert m in multiset(members) && m in multiset(sorted);
    }
  }

  lemma LeastOfSorted(sorted: seq<Member>, bound: set<EmailId>)
    requires sorted != [] && SortedBy(sorted, (m: Member) => m.emailId)
    ensures forall m :: m in sorted ==> NoLater(bound, sorted[SurvivorIndex(sorted, bound)].emailId, m.emailId)
  {
    var i := SurvivorIndex(sorted, bound);
    forall k | 0 <= k < |sorted| ensures NoLater(bound, sorted[i].emailId, sorted[k].emailId) {
      assert sorted[k] in sorted;
      LexReflexive(sorted[k].emailId);
    }
  }

  /** `blobs_byte_equal`. */
  method BlobsByteEqual(members: seq<Member>, content: BlobId -> Content) returns (equal: bool)
    ensures equal <==> SameBytes(members, content)
  {
    if |members| < 2 {
      return true;
    }
    var reference := content(members[0].blobId);
    for i := 1 to |members|
      invariant forall k :: 0 <= k < i ==> content(members[k].blobId) == reference
    {
      if content(members[i].blobId) != reference {
        return false;
      }
    }
    return true;
  }

  ghost predicate SameBytes(members: seq<Member>, content: BlobId -> Content) {
    forall i, j :: 0 <= i < |members| && 0 <= j < |members| ==> content(members[i].blobId) == content(members[j].blobId)
  }

  // ---------- building the plan ----------

  /** The first Message-ID the server reports for `e` is `mid`. */
  ghost predicate StartsWith(e: Email, mid: MessageId) {
    e.messageIds.Some? && |e.messageIds.value| > 0 && e.messageIds.value[0] == mid
  }

  function FirstId(e: Email): (r: Option<MessageId>)
    ensures forall mid :: r == Some(mid) <==> StartsWith(e, mid)
  {
    if e.messageIds.Some? && e.messageIds.value != [] then Some(e.messageIds.value[0]) else None
  }

  function ToMember(e: Email): Member {
    Member(e.id, e.blobId, e.size)
  }

  /** The members filed under `mid`, in fetch order. */
  ghost function MembersOf(emails: seq<Email>, mid: MessageId): seq<Member> {
    if emails == [] then []
    else
      var last := emails[|emails| - 1];
      MembersOf(emails[..|emails| - 1], mid) + (if FirstId(last) == Some(mid) then [ToMember(last)] else [])
  }

  lemma {:induction false} MemberIsFetched(emails: seq<Email>, mid: MessageId, m: Member) returns (e: Email)
    requires m in MembersOf(emails, mid)
    ensures e in emails && FirstId(e) == Some(mid) && ToMember(e) == m
  {
    var last := emails[|emails| - 1];
    if FirstId(last) == Some(mid) && ToMember(last) == m {
      e := last;
    } else {
      e := MemberIsFetched(emails[..|emails| - 1], mid, m);
    }
  }

  ghost function MessageIdsOf(emails: seq<Email>): set<MessageId> {
    set e | e in emails && FirstId(e).Some? :: FirstId(e).value
  }

  datatype Verdict = Ignored | Acted(group: Group) | Refused(skipped: SkippedGroup)

  /** What becomes of the group of `mid` in one folder. */
  ghost function VerdictOn(f: Fetched, mid: MessageId, bound: set<EmailId>, content: BlobId -> Content): Verdict {
    var c := ClassifyGroup(f, mid, MembersOf(f.emails, mid), bound);
    match c
    case Single => Ignored
    case Skipped(s) => Refused(s)
    case SizeMatched(group, verify) =>
      if SameBytes(verify, content) then Acted(group)
      else Refused(SkippedGroup(f.folder, mid, ContentMismatch, Named(verify)))
  }

  /** A group of one is left alone; one with equal sizes and equal bytes is acted on; any other is
      refused, with the reason and all its members on record. */
  lemma VerdictMeans(f: Fetched, mid: MessageId, bound: set<EmailId>, content: BlobId -> Content)
    ensures var v, members := VerdictOn(f, mid, bound, content), MembersOf(f.emails, mid);
            var sizesDiffer := exists m, n :: m in members && n in members && m.size != n.size;
            var bytesDiffer := exists m, n :: m in members && n in members && content(m.blobId) != content(n.blobId);
            && (v.Ignored? <==> |members| < 2)
            && (v.Acted? <==> |members| >= 2 && !sizesDiffer && !bytesDiffer)
            && (v.Refused? ==>
                  && v.skipped.folder == f.folder && v.skipped.messageId == mid
                  && (v.skipped.reason == SizeMismatch <==> sizesDiffer)
                  && exists listed :: multiset(listed) == multiset(members) && Lists(v.skipped.members, listed))
  {
    var members := MembersOf(f.emails, mid);
    var c := ClassifyGroup(f, mid, members, bound);
    if c.SizeMatched? {
      SameBytesOfPermutation(members, c.verify, content);
      assert Lists(Named(c.verify), c.verify);
    }
  }

  lemma SameBytesOfPermutation(members: seq<Member>, verify: seq<Member>, content: BlobId -> Content)
    requires multiset(members) == multiset(verify)
    ensures SameBytes(verify, content)
            <==> forall m, n :: m in members && n in members ==> content(m.blobId) == content(n.blobId)
  {
    assert forall m :: m in verify <==> m in multiset(verify);
    assert forall m :: m in members <==> m in multiset(members);
    if SameBytes(verify, content) {
      forall m, n | m in members && n in members ensures content(m.blobId) == content(n.blobId) {
        assert m in verify && n in verify;
      }
    }
  }

  ghost function Judge(bound: set<EmailId>, content: BlobId -> Content): (Fetched, MessageId) -> Verdict {
    (f, mid) => VerdictOn(f, mid, bound, content)
  }

  /** The verdicts, other than to ignore, on the groups `mids` of one folder. */
  ghost function Verdicts(f: Fetched, mids: set<MessageId>, judge: (Fetched, MessageId) -> Verdict): multiset<Verdict> {
    multiset(set mid | mid in mids && judge(f, mid) != Ignored :: judge(f, mid))
  }

  ghost function PlanVerdicts(fetched: seq<Fetched>, judge: (Fetched, MessageId) -> Verdict): multiset<Verdict> {
    if fetched == [] then multiset{}
    else
      var last := fetched[|fetched| - 1];
      PlanVerdicts(fetched[..|fetched| - 1], judge) + Verdicts(last, MessageIdsOf(last.emails), judge)
  }

  /** A verdict that does something names the group it is about. */
  ghost predicate Names(judge: (Fetched, MessageId) -> Verdict) {
    forall f, mid ::
      && (judge(f, mid).Acted? ==> judge(f, mid).group.messageId == mid)
      && (judge(f, mid).Refused? ==> judge(f, mid).skipped.messageId == mid)
  }

  lemma NextVerdict(f: Fetched, mids: set<MessageId>, mid: MessageId, judge: (Fetched, MessageId) -> Verdict)
    requires mid !in mids && Names(judge)
    ensures Verdicts(f, mids + {mid}, judge)
            == Verdicts(f, mids, judge) + (if judge(f, mid) == Ignored then multiset{} else multiset{judge(f, mid)})
  {
    var before := set m | m in mids && judge(f, m) != Ignored :: judge(f, m);
    var after := set m | m in mids + {mid} && judge(f, m) != Ignored :: judge(f, m);
    assert judge(f, mid) != Ignored ==> judge(f, mid) !in before;
    assert after == if judge(f, mid) == Ignored then before else before + {judge(f, mid)};
  }

  lemma JudgeNames(bound: set<EmailId>, content: BlobId -> Content)
    ensures Names(Judge(bound, content))
  {
    forall f, mid
      ensures var v := Judge(bound, content)(f, mid);
              && (v.Acted? ==> v.group.messageId == mid)
              && (v.Refused? ==> v.skipped.messageId == mid)
    {
      VerdictNames(f, mid, bound, content);
    }
  }

  lemma VerdictNames(f: Fetched, mid: MessageId, bound: set<EmailId>, content: BlobId -> Content)
    ensures var v := VerdictOn(f, mid, bound, content);
            && (v.Acted? ==> v.group.messageId == mid)
            && (v.Refused? ==> v.skipped.messageId == mid)
  {
    var c := ClassifyGroup(f, mid, MembersOf(f.emails, mid), bound);
    assert c.SizeMatched? ==> c.group.messageId == mid;
    assert c.Skipped? ==> c.skipped.messageId == mid;
  }

  class Plan {
    var groups: seq<Group>
    var skipped: seq<SkippedGroup>

    constructor ()
      ensures groups == [] && skipped == []
    {
      groups, skipped := [], [];
    }

    ghost function Contents(): multiset<Verdict>
      reads this
    {
      multiset(Map(groups, (g: Group) => Acted(g))) + multiset(Map(skipped, (s: SkippedGroup) => Refused(s)))
    }

    /** File one Message-ID group of folder `f` in the plan. */
    method Add(f: Fetched, mid: MessageId, members: seq<Member>, bound: set<EmailId>, content: BlobId -> Content)
      requires members == MembersOf(f.emails, mid)
      modifies this
      ensures Contents() == old(Contents())
                          + (if VerdictOn(f, mid, bound, content) == Ignored then multiset{}
                             else multiset{VerdictOn(f, mid, bound, content)})
    {
      match ClassifyGroup(f, mid, members, bound)
      case Single =>
      case Skipped(s) => Refuse(s);
      case SizeMatched(group, verify) =>
        var equal := BlobsByteEqual(verify, content);
        if equal {
          Act(group);
        } else {
          Refuse(SkippedGroup(group.folder, group.messageId, ContentMismatch, Named(verify)));
        }
    }

    method Act(g: Group)
      modifies this`groups
      ensures groups == old(groups) + [g]
      ensures Contents() == old(Contents()) + multiset{Acted(g)}
    {
      groups := groups + [g];
      assert Map(groups, (g: Group) => Acted(g)) == Map(old(groups), (g: Group) => Acted(g)) + [Acted(g)];
    }

    method Refuse(s: SkippedGroup)
      modifies this`skipped
      ensures skipped == old(skipped) + [s]
      ensures Contents() == old(Contents()) + multiset{Refused(s)}
    {
      skipped := skipped + [s];
      assert Map(skipped, (s: SkippedGroup) => Refused(s))
             == Map(old(skipped), (s: SkippedGroup) => Refused(s)) + [Refused(s)];
    }
  }

  /** `build_plan` once everything is fetched; each folder's groups are taken in any order. */
  method BuildPlan(fetched: seq<Fetched>, bound: set<EmailId>, content: BlobId -> Content) returns (plan: Plan)
    ensures fresh(plan)
    ensures plan.Contents() == PlanVerdicts(fetched, Judge(bound, content))
  {
    plan := new Plan();
    JudgeNames(bound, content);
    for i := 0 to |fetched|
      invariant fresh(plan)
      invariant plan.Contents() == PlanVerdicts(fetched[..i], Judge(bound, content))
    {
      assert fetched[..i + 1][..i] == fetched[..i];
      PlanFolder(plan, fetched[i], bound, content, Judge(bound, content));
    }
    assert fetched[..|fetched|] == fetched;
  }

  /** The groups of one folder, taken in any order. */
  method PlanFolder(
    plan: Plan, f: Fetched, bound: set<EmailId>, content: BlobId -> Content,
    ghost judge: (Fetched, MessageId) -> Verdict)
    requires Names(judge) && forall mid :: judge(f, mid) == VerdictOn(f, mid, bound, content)
    modifies plan
    ensures plan.Contents() == old(plan.Contents()) + Verdicts(f, MessageIdsOf(f.emails), judge)
  {
    var byMsgid := GroupByMessageId(f.emails);
    var remaining := byMsgid.Keys;
    while remaining != {}
      invariant remaining <= byMsgid.Keys
      invariant plan.Contents() == old(plan.Contents()) + Verdicts(f, byMsgid.Keys - remaining, judge)
      decreases remaining
    {
      var mid :| mid in remaining;
      PlanGroup(plan, f, byMsgid, remaining, mid, bound, content, judge);
      remaining := remaining - {mid};
    }
    assert byMsgid.Keys - {} == MessageIdsOf(f.emails);
  }

  /** One group more. */
  method PlanGroup(
    plan: Plan, f: Fetched, byMsgid: map<MessageId, seq<Member>>, ghost remaining: set<MessageId>, mid: MessageId,
    bound: set<EmailId>, content: BlobId -> Content, ghost judge: (Fetched, MessageId) -> Verdict)
    requires Names(judge) && judge(f, mid) == VerdictOn(f, mid, bound, content)
    requires Groups(byMsgid, f.emails) && mid in remaining && remaining <= byMsgid.Keys
    modifies plan
    ensures forall before ::
              old(plan.Contents()) == before + Verdicts(f, byMsgid.Keys - remaining, judge) ==>
                plan.Contents() == before + Verdicts(f, byMsgid.Keys - (remaining - {mid}), judge)
  {
    OneGroupMore(f, byMsgid, remaining, mid, judge);
    plan.Add(f, mid, byMsgid[mid], bound, content);
  }

  lemma OneGroupMore(
    f: Fetched, byMsgid: map<MessageId, seq<Member>>, remaining: set<MessageId>, mid: MessageId,
    judge: (Fetched, MessageId) -> Verdict)
    requires Names(judge) && Groups(byMsgid, f.emails) && mid in remaining && remaining <= byMsgid.Keys
    ensures Verdicts(f, byMsgid.Keys - (remaining - {mid}), judge)
            == Verdicts(f, byMsgid.Keys - remaining, judge)
               + (if judge(f, mid) == Ignored then multiset{} else multiset{judge(f, mid)})
    ensures byMsgid[mid] == MembersOf(f.emails, mid)
  {
    NextVerdict(f, byMsgid.Keys - remaining, mid, judge);
    assert byMsgid.Keys - (remaining - {mid}) == byMsgid.Keys - remaining + {mid};
    assert Filed(byMsgid, f.emails, mid);
  }

  ghost predicate Filed(byMsgid: map<MessageId, seq<Member>>, emails: seq<Email>, mid: MessageId) {
    MembersOf(emails, mid) == if mid in byMsgid then byMsgid[mid] else []
  }

  /** `byMsgid` files each email under its first Message-ID, in order. */
  ghost predicate Groups(byMsgid: map<MessageId, seq<Member>>, emails: seq<Email>) {
    byMsgid.Keys == MessageIdsOf(emails) && forall mid :: Filed(byMsgid, emails, mid)
  }

  function FileOne(byMsgid: map<MessageId, seq<Member>>, e: Email): map<MessageId, seq<Member>> {
    var key := FirstId(e);
    if key.None? then byMsgid
    else byMsgid[key.value := (if key.value in byMsgid then byMsgid[key.value] else []) + [ToMember(e)]]
  }

  lemma GroupsStep(byMsgid: map<MessageId, seq<Member>>, emails: seq<Email>, e: Email)
    requires Groups(byMsgid, emails)
    ensures Groups(FileOne(byMsgid, e), emails + [e])
  {
    MessageIdsSnoc(emails, e);
    forall mid ensures Filed(FileOne(byMsgid, e), emails + [e], mid) {
      assert Filed(byMsgid, emails, mid);
      FiledStep(byMsgid, emails, e, mid);
    }
  }

  lemma FiledStep(byMsgid: map<MessageId, seq<Member>>, emails: seq<Email>, e: Email, mid: MessageId)
    requires Filed(byMsgid, emails, mid)
    ensures Filed(FileOne(byMsgid, e), emails + [e], mid)
  {
    assert (emails + [e])[..|emails|] == emails;
  }

  lemma MessageIdsSnoc(emails: seq<Email>, e: Email)
    ensures MessageIdsOf(emails + [e]) == MessageIdsOf(emails) + (if FirstId(e).Some? then {FirstId(e).value} else {})
  {
  }

  method GroupByMessageId(emails: seq<Email>) returns (byMsgid: map<MessageId, seq<Member>>)
    ensures Groups(byMsgid, emails)
  {
    byMsgid := map[];
    for i := 0 to |emails|
      invariant Groups(byMsgid, emails[..i])
    {
      GroupsStep(byMsgid, emails[..i], emails[i]);
      assert emails[..i + 1] == emails[..i] + [emails[i]];
      byMsgid := FileOne(byMsgid, emails[i]);
    }
    assert emails[..|emails|] == emails;
  }

  // ---------- no content is lost ----------

  /** `g` is a group the plan acts on, found in `fetched[i]`. */
  ghost predicate ActsOn(fetched: seq<Fetched>, judge: (Fetched, MessageId) -> Verdict, i: nat, g: Group) {
    && i < |fetched|
    && g.messageId in MessageIdsOf(fetched[i].emails)
    && judge(fetched[i], g.messageId) == Acted(g)
  }

  ghost predicate Destroyed(fetched: seq<Fetched>, judge: (Fetched, MessageId) -> Verdict, id: EmailId) {
    exists i: nat, g :: ActsOn(fetched, judge, i, g) && id in g.destroy
  }

  /** The plan holds exactly the groups that `ActsOn`, and so `Destroyed`, speak about. */
  lemma {:induction false} PlanActs(fetched: seq<Fetched>, judge: (Fetched, MessageId) -> Verdict, g: Group)
    requires Names(judge)
    ensures Acted(g) in PlanVerdicts(fetched, judge) <==> exists i: nat :: ActsOn(fetched, judge, i, g)
  {
    if fetched == [] {
    } else {
      var n := |fetched| - 1;
      var init, last := fetched[..n], fetched[n];
      PlanActs(init, judge, g);
      ActsOnLast(fetched, judge, g);
      ActsOnInit(fetched, judge, g);
    }
  }

  lemma ActsOnInit(fetched: seq<Fetched>, judge: (Fetched, MessageId) -> Verdict, g: Group)
    requires fetched != []
    ensures var n := |fetched| - 1;
            forall i: nat :: ActsOn(fetched[..n], judge, i, g) <==> i < n && ActsOn(fetched, judge, i, g)
  {
  }

  lemma ActsOnLast(fetched: seq<Fetched>, judge: (Fetched, MessageId) -> Verdict, g: Group)
    requires fetched != [] && Names(judge)
    ensures var n := |fetched| - 1;
            Acted(g) in Verdicts(fetched[n], MessageIdsOf(fetched[n].emails), judge) <==> ActsOn(fetched, judge, n, g)
  {
  }

  /** Every fetch of an id shows the one email the server keeps under it. */
  ghost predicate OneView(fetched: seq<Fetched>, server: map<EmailId, Email>) {
    forall i, e :: 0 <= i < |fetched| && e in fetched[i].emails ==> e.id in server && server[e.id] == e
  }

  /** No group lists its survivor a second time. */
  ghost predicate SurvivorsOnce(fetched: seq<Fetched>, judge: (Fetched, MessageId) -> Verdict) {
    forall i: nat, g :: ActsOn(fetched, judge, i, g) ==> g.survivor !in g.destroy
  }

  ghost predicate DistinctIds(fetched: seq<Fetched>) {
    forall i, mid :: 0 <= i < |fetched| ==> Distinct(Ids(MembersOf(fetched[i].emails, mid)))
  }

  /** The same Message-ID, if any, and the same bytes. */
  ghost predicate Twins(a: Email, b: Email, content: BlobId -> Content) {
    && (forall mid :: StartsWith(a, mid) <==> StartsWith(b, mid))
    && a.size == b.size && content(a.blobId) == content(b.blobId)
  }

  lemma DistinctIdsKeepSurvivors(fetched: seq<Fetched>, bound: set<EmailId>, content: BlobId -> Content)
    requires DistinctIds(fetched)
    ensures SurvivorsOnce(fetched, Judge(bound, content))
  {
    var judge := Judge(bound, content);
    forall i: nat, g | ActsOn(fetched, judge, i, g) ensures g.survivor !in g.destroy {
      var members := MembersOf(fetched[i].emails, g.messageId);
      var verify := ClassifyGroup(fetched[i], g.messageId, members, bound).verify;
      SameMultisetDistinctIds(members, verify);
      forall k | 0 <= k < |g.destroy| ensures g.destroy[k] != g.survivor {
        assert Ids(verify)[0] == g.survivor && Ids(verify)[k + 1] == g.destroy[k];
      }
    }
  }

  lemma SameMultisetDistinctIds(a: seq<Member>, b: seq<Member>)
    requires multiset(a) == multiset(b) && Distinct(Ids(a))
    ensures Distinct(Ids(b))
  {
    MapMultiset(a, b, (m: Member) => m.emailId);
    DistinctMultiset(Ids(a));
    forall x | x in Ids(b) ensures multiset(Ids(b))[x] <= 1 {
      assert x in multiset(Ids(b)) && x in Ids(a);
    }
    MultisetDistinct(Ids(b));
  }

  /** Within a group, the survivor is a twin of everything destroyed for it, and comes before it. */
  lemma SurvivorIsEarlierTwin(
    fetched: seq<Fetched>, bound: set<EmailId>, content: BlobId -> Content, server: map<EmailId, Email>, i: nat,
    g: Group, id: EmailId)
    requires OneView(fetched, server) && ActsOn(fetched, Judge(bound, content), i, g) && id in g.destroy
    ensures id in server && g.survivor in server
    ensures Twins(server[id], server[g.survivor], content)
    ensures NoLater(bound, g.survivor, id)
  {
    var members := MembersOf(fetched[i].emails, g.messageId);
    var verify := ClassifyGroup(fetched[i], g.messageId, members, bound).verify;
    var k :| 0 <= k < |g.destroy| && g.destroy[k] == id;
    var loser, winner := verify[k + 1], verify[0];
    assert loser in multiset(verify) && winner in multiset(verify);
    assert loser in members && winner in members;
    var e := MemberIsFetched(fetched[i].emails, g.messageId, loser);
    var f := MemberIsFetched(fetched[i].emails, g.messageId, winner);
  }

  ghost function Earlier(server: map<EmailId, Email>, bound: set<EmailId>, id: EmailId): set<EmailId> {
    set other | other in server && other != id && NoLater(bound, other, id)
  }

  lemma EarlierShrinks(server: map<EmailId, Email>, bound: set<EmailId>, a: EmailId, b: EmailId)
    requires a in server && a != b && NoLater(bound, a, b)
    ensures |Earlier(server, bound, a)| < |Earlier(server, bound, b)|
  {
    forall x | x in Earlier(server, bound, a) ensures x in Earlier(server, bound, b) {
      if x == b {
        LexAntisymmetric(a, b);
        assert false;
      }
      if (x in bound <==> a in bound) && (a in bound <==> b in bound) {
        LexTransitive(x, a, b);
      }
    }
    assert Earlier(server, bound, a) + {a} <= Earlier(server, bound, b);
    SubsetCardinality(Earlier(server, bound, a) + {a}, Earlier(server, bound, b));
  }

  /** However the mailboxes overlap, everything destroyed leaves an undestroyed twin behind. */
  lemma {:induction false} TwinSurvives(
    fetched: seq<Fetched>, bound: set<EmailId>, content: BlobId -> Content, server: map<EmailId, Email>, id: EmailId)
    returns (twin: EmailId)
    requires OneView(fetched, server) && SurvivorsOnce(fetched, Judge(bound, content))
    requires Destroyed(fetched, Judge(bound, content), id)
    ensures id in server && twin in server && twin != id
    ensures !Destroyed(fetched, Judge(bound, content), twin)
    ensures Twins(server[id], server[twin], content)
    decreases |Earlier(server, bound, id)|
  {
    var i: nat, g :| ActsOn(fetched, Judge(bound, content), i, g) && id in g.destroy;
    SurvivorIsEarlierTwin(fetched, bound, content, server, i, g, id);
    twin := g.survivor;
    if Destroyed(fetched, Judge(bound, content), twin) {
      EarlierShrinks(server, bound, twin, id);
      twin := TwinSurvives(fetched, bound, content, server, twin);
    }
  }

  /** The law in full, for plans over groups whose ids are distinct: whatever subset of the
      destroys the server carries out, each email it removes still has a twin on the server. */
  lemma NoContentIsLost(
    fetched: seq<Fetched>, bound: set<EmailId>, content: BlobId -> Content, server: map<EmailId, Email>,
    groups: seq<Group>, carriedOut: set<EmailId>)
    requires OneView(fetched, server) && DistinctIds(fetched)
    requires forall g :: g in groups ==> Acted(g) in PlanVerdicts(fetched, Judge(bound, content))
    requires forall id :: id in carriedOut ==> exists g :: g in groups && id in g.destroy
    ensures forall id :: id in carriedOut ==>
              id in server
              && exists twin :: twin in server && twin !in carriedOut && Twins(server[id], server[twin], content)
  {
    DistinctIdsKeepSurvivors(fetched, bound, content);
    JudgeNames(bound, content);
    forall id | id in carriedOut ensures Destroyed(fetched, Judge(bound, content), id) {
      var g :| g in groups && id in g.destroy;
      PlanActs(fetched, Judge(bound, content), g);
    }
    forall id | id in carriedOut
      ensures id in server
              && exists twin :: twin in server && twin !in carriedOut && Twins(server[id], server[twin], content)
    {
      var twin := TwinSurvives(fetched, bound, content, server, id);
    }
  }

  /** Without distinct ids the law fails: an id fetched twice is its own duplicate. */
  lemma RepeatedIdIsDestroyed(e: Email, mid: MessageId, content: BlobId -> Content)
    requires FirstId(e) == Some(mid)
    ensures var fetched := [Fetched("f", "m", [e, e])];
            OneView(fetched, map[e.id := e]) && Destroyed(fetched, Judge({}, content), e.id)
  {
    var f := Fetched("f", "m", [e, e]);
    var g := Group("f", "m", mid, e.blobId, e.id, [e.id]);
    assert MembersOf(f.emails, mid) == [ToMember(e), ToMember(e)] by {
      assert f.emails[..1] == [e] && [e][..0] == [];
      assert MembersOf([e], mid) == [ToMember(e)];
    }
    RepeatedVerdict(f, mid, ToMember(e), content);
    assert f.emails[0] == e;
    assert ActsOn([f], Judge({}, content), 0, g) && e.id in g.destroy;
  }

  lemma RepeatedVerdict(f: Fetched, mid: MessageId, m: Member, content: BlobId -> Content)
    requires MembersOf(f.emails, mid) == [m, m]
    ensures Judge({}, content)(f, mid)
            == Acted(Group(f.folder, f.mailboxId, mid, m.blobId, m.emailId, [m.emailId]))
  {
    RepeatedMember(f, mid, m);
  }

  lemma TwoAlike(s: seq<Member>, m: Member)
    requires multiset(s) == multiset([m, m])
    ensures s == [m, m]
  {
    assert |multiset(s)| == |s| == 2;
    assert s[0] in multiset(s) && s[1] in multiset(s);
  }

  lemma RepeatedMember(f: Fetched, mid: MessageId, m: Member)
    ensures ClassifyGroup(f, mid, [m, m], {})
            == SizeMatched(Group(f.folder, f.mailboxId, mid, m.blobId, m.emailId, [m.emailId]), [m, m])
  {
    var c := ClassifyGroup(f, mid, [m, m], {});
    assert c.SizeMatched?;
    TwoAlike(c.verify, m);
    assert Ids([m, m][1..]) == [m.emailId];
  }

  /** How often `id` was fetched among the emails that start with this Message-ID. */
  ghost function TimesFetched(f: Fetched, mid: MessageId, id: EmailId): nat {
    multiset(Ids(MembersOf(f.emails, mid)))[id]
  }

  lemma FetchedOnceIffSpared(f: Fetched, bound: set<EmailId>, content: BlobId -> Content, g: Group)
    requires VerdictOn(f, g.messageId, bound, content) == Acted(g)
    ensures TimesFetched(f, g.messageId, g.survivor) == 1 <==> g.survivor !in g.destroy
  {
    var verify := ActedMembers(f, bound, content, g);
    SurvivorCount(verify, MembersOf(f.emails, g.messageId), g.survivor, g.destroy);
  }

  lemma SurvivorCount(verify: seq<Member>, members: seq<Member>, survivor: EmailId, destroy: seq<EmailId>)
    requires multiset(verify) == multiset(members) && |verify| == |destroy| + 1
    requires verify[0].emailId == survivor && forall k :: 0 <= k < |destroy| ==> verify[k + 1].emailId == destroy[k]
    ensures multiset(Ids(members))[survivor] == 1 <==> survivor !in destroy
  {
    MapMultiset(verify, members, (m: Member) => m.emailId);
    assert Ids(verify) == [survivor] + destroy;
    assert Ids(members) == Map(members, (m: Member) => m.emailId);
    assert Ids(verify) == Map(verify, (m: Member) => m.emailId);
  }

  /** When no email sits in two of the mailboxes, a group keeps a copy where it was exactly when its
      survivor was fetched once. */
  lemma SeparateMailboxesKeepACopy(
    fetched: seq<Fetched>, bound: set<EmailId>, content: BlobId -> Content, server: map<EmailId, Email>, i: nat,
    g: Group)
    requires OneView(fetched, server) && ActsOn(fetched, Judge(bound, content), i, g)
    requires forall j, k, e :: 0 <= j < k < |fetched| && e in fetched[j].emails ==> e !in fetched[k].emails
    ensures (exists e :: e in fetched[i].emails && FirstId(e) == Some(g.messageId)
                         && !Destroyed(fetched, Judge(bound, content), e.id))
            <==> TimesFetched(fetched[i], g.messageId, g.survivor) == 1
  {
    var judge := Judge(bound, content);
    FetchedOnceIffSpared(fetched[i], bound, content, g);
    if g.survivor in g.destroy {
      forall e | e in fetched[i].emails && FirstId(e) == Some(g.messageId) ensures Destroyed(fetched, judge, e.id) {
        EveryMemberIsNamed(fetched, bound, content, i, g, e);
      }
    } else {
      var e := InFolder(fetched, bound, content, server, i, g, g.survivor);
      forall j: nat, h | ActsOn(fetched, judge, j, h) ensures e.id !in h.destroy {
        if e.id in h.destroy {
          var f := InFolder(fetched, bound, content, server, j, h, e.id);
        }
      }
    }
  }

  /** A group's survivor and destroys are all of its emails. */
  lemma EveryMemberIsNamed(
    fetched: seq<Fetched>, bound: set<EmailId>, content: BlobId -> Content, i: nat, g: Group, e: Email)
    requires ActsOn(fetched, Judge(bound, content), i, g)
    requires e in fetched[i].emails && FirstId(e) == Some(g.messageId)
    ensures e.id == g.survivor || e.id in g.destroy
  {
    var verify := ActedMembers(fetched[i], bound, content, g);
    MemberIsNamed(fetched[i].emails, g, verify, e);
  }

  lemma MemberIsNamed(emails: seq<Email>, g: Group, verify: seq<Member>, e: Email)
    requires multiset(verify) == multiset(MembersOf(emails, g.messageId)) && |verify| == |g.destroy| + 1
    requires verify[0].emailId == g.survivor
             && forall k :: 0 <= k < |g.destroy| ==> verify[k + 1].emailId == g.destroy[k]
    requires e in emails && FirstId(e) == Some(g.messageId)
    ensures e.id == g.survivor || e.id in g.destroy
  {
    FetchedIsMember(emails, g.messageId, e);
    assert ToMember(e) in multiset(verify);
    var k :| 0 <= k < |verify| && verify[k] == ToMember(e);
    assert k > 0 ==> g.destroy[k - 1] == e.id;
  }

  lemma ActedMembers(
    f: Fetched, bound: set<EmailId>, content: BlobId -> Content, g: Group)
    returns (verify: seq<Member>)
    requires VerdictOn(f, g.messageId, bound, content) == Acted(g)
    ensures multiset(verify) == multiset(MembersOf(f.emails, g.messageId)) && |verify| == |g.destroy| + 1
    ensures verify[0].emailId == g.survivor
            && forall k :: 0 <= k < |g.destroy| ==> verify[k + 1].emailId == g.destroy[k]
  {
    verify := ClassifyGroup(f, g.messageId, MembersOf(f.emails, g.messageId), bound).verify;
  }

  lemma {:induction false} FetchedIsMember(emails: seq<Email>, mid: MessageId, e: Email)
    requires e in emails && FirstId(e) == Some(mid)
    ensures ToMember(e) in MembersOf(emails, mid)
  {
    var n := |emails| - 1;
    if e != emails[n] {
      FetchedIsMember(emails[..n], mid, e);
    }
  }

  lemma InFolder(
    fetched: seq<Fetched>, bound: set<EmailId>, content: BlobId -> Content, server: map<EmailId, Email>, i: nat,
    g: Group, id: EmailId) returns (e: Email)
    requires OneView(fetched, server) && ActsOn(fetched, Judge(bound, content), i, g)
    requires id == g.survivor || id in g.destroy
    ensures e in fetched[i].emails && e.id == id && FirstId(e) == Some(g.messageId)
    ensures id in server && e == server[id]
  {
    var members := MembersOf(fetched[i].emails, g.messageId);
    var verify := ClassifyGroup(fetched[i], g.messageId, members, bound).verify;
    var k :| 0 <= k < |verify| && verify[k].emailId == id by {
      if id in g.destroy {
        var j :| 0 <= j < |g.destroy| && g.destroy[j] == id;
        assert verify[j + 1].emailId == id;
      } else {
        assert verify[0].emailId == id;
      }
    }
    assert verify[k] in multiset(verify) && verify[k] in members;
    e := MemberIsFetched(fetched[i].emails, g.messageId, verify[k]);
  }

  // ---------- applying the plan ----------

  datatype DedupeOutcome = DedupeOutcome(attempted: nat, failed: set<EmailId>)

  /** How often the groups destroy `id`. */
  ghost function TimesDestroyed(groups: seq<Group>, id: EmailId): nat {
    if groups == [] then 0 else multiset(groups[0].destroy)[id] + TimesDestroyed(groups[1..], id)
  }

  /** `ops` destroys exactly what the groups destroy, each id as often as they do. */
  ghost predicate Carries(ops: seq<JmapEmail.EmailSetOp>, groups: seq<Group>) {
    && (forall op :: op in ops <==> exists g, id :: g in groups && id in g.destroy && op == JmapEmail.Destroy(id))
    && forall id :: multiset(ops)[JmapEmail.Destroy(id)] == TimesDestroyed(groups, id)
  }

  function DestroyOps(groups: seq<Group>): seq<JmapEmail.EmailSetOp> {
    Map(Flatten(Map(groups, (g: Group) => g.destroy)), (id: EmailId) => JmapEmail.Destroy(id))
  }

  /** `destroy_count`. */
  function DestroyCount(groups: seq<Group>): nat {
    if groups == [] then 0 else |groups[0].destroy| + DestroyCount(groups[1..])
  }

  lemma {:induction false} DestroyOpsCarry(groups: seq<Group>)
    ensures Carries(DestroyOps(groups), groups) && |DestroyOps(groups)| == DestroyCount(groups)
  {
    if groups == [] {
    } else {
      var g, rest := groups[0], groups[1..];
      DestroyOpsCarry(rest);
      DestroyOpsHead(groups);
      DestroyedByOne(g.destroy);
      assert groups == [g] + rest;
      CarriesMore(DestroysOf(g.destroy), DestroyOps(rest), g, rest);
    }
  }

  ghost function DestroysOf(ids: seq<EmailId>): seq<JmapEmail.EmailSetOp> {
    Map(ids, (id: EmailId) => JmapEmail.Destroy(id))
  }

  lemma DestroyOpsHead(groups: seq<Group>)
    requires groups != []
    ensures DestroyOps(groups) == DestroysOf(groups[0].destroy) + DestroyOps(groups[1..])
  {
    var destroy := (g: Group) => g.destroy;
    assert Map(groups, destroy) == [groups[0].destroy] + Map(groups[1..], destroy);
    assert Flatten(Map(groups, destroy)) == groups[0].destroy + Flatten(Map(groups[1..], destroy));
    MapConcat(groups[0].destroy, Flatten(Map(groups[1..], destroy)), (id: EmailId) => JmapEmail.Destroy(id));
  }

  lemma {:induction false} DestroyedByOne(ids: seq<EmailId>)
    ensures forall op :: op in DestroysOf(ids) <==> exists id :: id in ids && op == JmapEmail.Destroy(id)
    ensures forall id :: multiset(DestroysOf(ids))[JmapEmail.Destroy(id)] == multiset(ids)[id]
  {
    if ids == [] {
    } else {
      var init, last := ids[..|ids| - 1], ids[|ids| - 1];
      DestroyedByOne(init);
      assert ids == init + [last];
      assert DestroysOf(ids) == DestroysOf(init) + [JmapEmail.Destroy(last)];
    }
  }

  lemma CarriesMore(a: seq<JmapEmail.EmailSetOp>, b: seq<JmapEmail.EmailSetOp>, g: Group, rest: seq<Group>)
    requires forall op :: op in a <==> exists id :: id in g.destroy && op == JmapEmail.Destroy(id)
    requires forall id :: multiset(a)[JmapEmail.Destroy(id)] == multiset(g.destroy)[id]
    requires Carries(b, rest)
    ensures Carries(a + b, [g] + rest)
  {
    var groups := [g] + rest;
    assert groups[0] == g && groups[1..] == rest;
    forall op ensures op in a + b <==> exists h, id :: h in groups && id in h.destroy && op == JmapEmail.Destroy(id) {
      if op in a {
        var id :| id in g.destroy && op == JmapEmail.Destroy(id);
        assert g in groups;
      }
      if op in b {
        var h, id :| h in rest && id in h.destroy && op == JmapEmail.Destroy(id);
        assert h in groups;
      }
    }
  }

  ghost function FailedIds(
    ops: seq<JmapEmail.EmailSetOp>, chunkSize: nat, respond: (nat, seq<JmapEmail.EmailSetOp>) -> JmapEmail.Outcome):
    set<EmailId>
    requires 0 < chunkSize
  {
    set o, id | o in JmapEmail.Answers(ops, chunkSize, respond) && id in o.failedDestroys :: id
  }

  /** `apply_destroys`, chunked by `set_email_batch`; `respond` is the server, call by call. `ops` is
      what it is asked. */
  method ApplyDestroys(
    groups: seq<Group>, chunkSize: nat, respond: (nat, seq<JmapEmail.EmailSetOp>) -> JmapEmail.Outcome)
    returns (outcome: DedupeOutcome, ghost ops: seq<JmapEmail.EmailSetOp>)
    requires 0 < chunkSize
    ensures Carries(ops, groups) && outcome.attempted == |ops|
    ensures outcome.failed == FailedIds(ops, chunkSize, respond)
  {
    var sent := DestroyOps(groups);
    ops := sent;
    DestroyOpsCarry(groups);
    JmapEmail.FoldedFailures(JmapEmail.Answers(ops, chunkSize, respond));
    if DestroyCount(groups) == 0 {
      return DedupeOutcome(0, {}), ops;
    }
    var answer := JmapEmail.SetEmailBatch(sent, chunkSize, respond);
    outcome := DedupeOutcome(DestroyCount(groups), answer.failedDestroys);
  }

  /** From fetch to destruction, under distinct ids per group: every email that is asked to be
      destroyed has a twin that is not. */
  ghost predicate LeavesTwins(ops: seq<JmapEmail.EmailSetOp>, server: map<EmailId, Email>, content: BlobId -> Content) {
    forall id :: JmapEmail.Destroy(id) in ops ==>
      id in server && exists twin :: twin in server && JmapEmail.Destroy(twin) !in ops
                                     && Twins(server[id], server[twin], content)
  }

  lemma PlannedDestroysLeaveTwins(
    fetched: seq<Fetched>, bound: set<EmailId>, content: BlobId -> Content, server: map<EmailId, Email>,
    groups: seq<Group>, ops: seq<JmapEmail.EmailSetOp>)
    requires OneView(fetched, server) && DistinctIds(fetched) && Carries(ops, groups)
    requires forall g :: g in groups ==> Acted(g) in PlanVerdicts(fetched, Judge(bound, content))
    ensures LeavesTwins(ops, server, content)
  {
    var asked := set g, id | g in groups && id in g.destroy :: id;
    NoContentIsLost(fetched, bound, content, server, groups, asked);
    forall id ensures id in asked <==> JmapEmail.Destroy(id) in ops {
    }
  }

  /** `run`: plan, and apply unless this is a dry run or there is nothing to destroy. */
  method Run(
    fetched: seq<Fetched>, bound: set<EmailId>, content: BlobId -> Content, dryRun: bool, chunkSize: nat,
    respond: (nat, seq<JmapEmail.EmailSetOp>) -> JmapEmail.Outcome)
    returns (plan: Plan, outcome: Option<DedupeOutcome>, ghost ops: seq<JmapEmail.EmailSetOp>)
    requires 0 < chunkSize
    ensures fresh(plan) && plan.Contents() == PlanVerdicts(fetched, Judge(bound, content))
    ensures outcome.None? <==> dryRun || forall g :: g in plan.groups ==> g.destroy == []
    ensures outcome.None? ==> ops == []
    ensures outcome.Some? ==> Carries(ops, plan.groups) && outcome.value.attempted == |ops|
                              && outcome.value.failed == FailedIds(ops, chunkSize, respond)
    ensures forall server :: OneView(fetched, server) && DistinctIds(fetched) ==> LeavesTwins(ops, server, content)
  {
    plan := BuildPlan(fetched, bound, content);
    outcome, ops := None, [];
    NothingToDestroyIff(plan.groups);
    if !dryRun && DestroyCount(plan.groups) != 0 {
      var result;
      result, ops := ApplyDestroys(plan.groups, chunkSize, respond);
      outcome := Some(result);
      forall g | g in plan.groups ensures Acted(g) in PlanVerdicts(fetched, Judge(bound, content)) {
        GroupIsContained(plan, g);
      }
      forall server | OneView(fetched, server) && DistinctIds(fetched) ensures LeavesTwins(ops, server, content) {
        PlannedDestroysLeaveTwins(fetched, bound, content, server, plan.groups, ops);
      }
    }
  }

  lemma GroupIsContained(plan: Plan, g: Group)
    requires g in plan.groups
    ensures Acted(g) in plan.Contents()
  {
    var k :| 0 <= k < |plan.groups| && plan.groups[k] == g;
    assert Map(plan.groups, (h: Group) => Acted(h))[k] == Acted(g);
  }

  lemma {:induction false} NothingToDestroyIff(groups: seq<Group>)
    ensures DestroyCount(groups) == 0 <==> forall g :: g in groups ==> g.destroy == []
  {
    if groups == [] {
    } else {
      NothingToDestroyIff(groups[1..]);
      assert groups == [groups[0]] + groups[1..];
    }
  }

  /** Every answer names only ids of its own call. */
  ghost predicate AnswersToThePoint(
    respond: (nat, seq<JmapEmail.EmailSetOp>) -> JmapEmail.Outcome, ops: seq<JmapEmail.EmailSetOp>, chunkSize: nat)
    requires 0 < chunkSize
  {
    var chunks := Chunks(ops, chunkSize);
    forall i, id :: 0 <= i < |chunks| && id in respond(i, chunks[i]).failedDestroys ==>
      JmapEmail.Destroy(id) in chunks[i]
  }

  /** A server that answers to the point reports failures among the attempts only. */
  lemma FailuresWereAttempted(
    groups: seq<Group>, ops: seq<JmapEmail.EmailSetOp>, chunkSize: nat,
    respond: (nat, seq<JmapEmail.EmailSetOp>) -> JmapEmail.Outcome)
    requires 0 < chunkSize && Carries(ops, groups) && AnswersToThePoint(respond, ops, chunkSize)
    ensures forall id :: id in FailedIds(ops, chunkSize, respond) ==> exists g :: g in groups && id in g.destroy
    ensures |FailedIds(ops, chunkSize, respond)| <= |ops|
  {
    var chunks, failed := Chunks(ops, chunkSize), FailedIds(ops, chunkSize, respond);
    ChunksPartition(ops, chunkSize);
    forall id | id in failed ensures JmapEmail.Destroy(id) in ops {
      var i :| 0 <= i < |chunks| && id in respond(i, chunks[i]).failedDestroys;
      FlattenMembers(chunks, JmapEmail.Destroy(id));
    }
    var asked := set id | id in failed :: JmapEmail.Destroy(id);
    SameCount(failed, asked);
    SubsetCardinality(asked, ToSet(ops));
    DistinctCardinality(ops);
  }

  lemma {:induction false} SameCount(ids: set<EmailId>, ops: set<JmapEmail.EmailSetOp>)
    requires ops == set id | id in ids :: JmapEmail.Destroy(id)
    ensures |ids| == |ops|
  {
    if ids == {} {
      assert ops == {};
    } else {
      var id :| id in ids;
      SameCount(ids - {id}, ops - {JmapEmail.Destroy(id)});
    }
  }

  /** A server that rejects `ids` whatever it is asked. */
  function Rejecting(ids: set<EmailId>): (nat, seq<JmapEmail.EmailSetOp>) -> JmapEmail.Outcome {
    (_, _) => JmapEmail.Outcome({}, ids, None, None)
  }

  /** One that lists an id nobody asked about can report more failures than attempts, where
      `succeeded()` underflows. */
  lemma StrayFailureUnderflows(g: Group, ops: seq<JmapEmail.EmailSetOp>, asked: EmailId, stray: EmailId)
    requires g.destroy == [asked] && stray != asked && ops == [JmapEmail.Destroy(asked)]
    ensures Carries(ops, [g]) && !AnswersToThePoint(Rejecting({asked, stray}), ops, 1)
    ensures |ops| == 1 < |FailedIds(ops, 1, Rejecting({asked, stray}))|
  {
    var answer := JmapEmail.Outcome({}, {asked, stray}, None, None);
    assert [g][0] == g && [g][1..] == [];
    assert Chunks(ops, 1) == [ops];
    assert JmapEmail.Answers(ops, 1, Rejecting({asked, stray})) == [answer];
    assert FailedIds(ops, 1, Rejecting({asked, stray})) == answer.failedDestroys by {
      assert answer in [answer];
    }
    assert |{asked, stray}| == 2;
    assert [ops][0] == ops && stray in Rejecting({asked, stray})(0, ops).failedDestroys;
    assert JmapEmail.Destroy(stray) !in ops;
  }

  /** `succeeded()`, the difference of the two counts, is the number of attempts that did not fail
      exactly when the attempts that failed twice balance the failures that were never attempted. */
  lemma SucceededIsExact(attempts: seq<EmailId>, failed: set<EmailId>)
    ensures var failing := Filter(attempts, id => id in failed);
            |attempts| - |failed| == |Filter(attempts, id => id !in failed)|
            <==> |failing| - |ToSet(failing)| == |failed - ToSet(attempts)|
    ensures failed <= ToSet(attempts) ==>
              && |failed| <= |attempts|
              && (|attempts| - |failed| == |Filter(attempts, id => id !in failed)|
                  <==> Distinct(Filter(attempts, id => id in failed)))
  {
    var failing := Filter(attempts, id => id in failed);
    FilterSplits(attempts, failed);
    assert failed == ToSet(failing) + (failed - ToSet(attempts));
    assert ToSet(failing) !! failed - ToSet(attempts);
    DistinctCardinality(failing);
  }

  lemma {:induction false} FilterSplits(s: seq<EmailId>, failed: set<EmailId>)
    ensures |s| == |Filter(s, id => id in failed)| + |Filter(s, id => id !in failed)|
  {
    if s == [] {
    } else {
      FilterSplits(s[1..], failed);
    }
  }
}
