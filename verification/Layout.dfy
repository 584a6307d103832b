/** `src/maildir_ops/layout.rs`: mailbox trees to folder names, and back. */
module Layout {
  import opened Common
  import opened Text
  import Mailboxes

  type Id = string

  type Mailbox = Mailboxes.Mailbox

  datatype FolderLayout = Flat | MaildirPP | Fs

  /** A rename rule; the pattern form is its regex test and its replacement. */
  datatype Rule =
    | MapDirectly(source: string, renamed: string)
    | Pattern(matches: string -> bool, replace: string -> string)

  datatype Definition = Definition(layout: FolderLayout, separator: char, nameCap: nat, rules: seq<Rule>)

  datatype Error =
    | Cycle(id: Id)
    | UnknownParent(id: Id, parent: Id)
    | BadSegment(id: Id)
    | RuleTooLong
    | PathTooLong

  // ---------- the parent chain ----------

  /** The ids a walk from `mb` can ever see. */
  ghost function Universe(mb: Mailbox, byId: map<Id, Mailbox>): set<Id> {
    {mb.id} + set k | k in byId :: byId[k].id
  }

  /** Leaf-first chain from `cur`, given the ids already passed. */
  ghost function Walk(cur: Mailbox, seen: set<Id>, byId: map<Id, Mailbox>): Result<seq<Mailbox>, Error>
    decreases Universe(cur, byId) + (set k | k in byId :: byId[k].id) - seen
  {
    if cur.id in seen then Err(Cycle(cur.id))
    else if cur.parent.None? then Ok([cur])
    else if cur.parent.value !in byId then Err(UnknownParent(cur.id, cur.parent.value))
    else
      assert cur.id in Universe(cur, byId) - seen;
      match Walk(byId[cur.parent.value], seen + {cur.id}, byId)
      case Ok(rest) => Ok([cur] + rest)
      case Err(e) => Err(e)
  }

  /** The leaf-first chain of ancestors is complete and repeats no id. */
  ghost predicate IsChain(chain: seq<Mailbox>, mb: Mailbox, byId: map<Id, Mailbox>) {
    && chain != [] && chain[0] == mb
    && chain[|chain| - 1].parent.None?
    && (forall i :: 0 <= i < |chain| - 1 ==>
          chain[i].parent.Some? && chain[i].parent.value in byId && chain[i + 1] == byId[chain[i].parent.value])
    && (forall i, j :: 0 <= i < j < |chain| ==> chain[i].id != chain[j].id)
  }

  ghost predicate Avoids(chain: seq<Mailbox>, seen: set<Id>) {
    forall m :: m in chain ==> m.id !in seen
  }

  lemma {:induction false} WalkSound(cur: Mailbox, seen: set<Id>, byId: map<Id, Mailbox>)
    requires Walk(cur, seen, byId).Ok?
    ensures IsChain(Walk(cur, seen, byId).value, cur, byId) && Avoids(Walk(cur, seen, byId).value, seen)
    decreases Universe(cur, byId) + (set k | k in byId :: byId[k].id) - seen
  {
    if cur.parent.Some? {
      var next, passed := byId[cur.parent.value], seen + {cur.id};
      assert cur.id in Universe(cur, byId) - seen;
      WalkSound(next, passed, byId);
      var rest := Walk(next, passed, byId).value;
      var c := [cur] + rest;
      forall i, j | 0 <= i < j < |c| ensures c[i].id != c[j].id {
        assert rest[j - 1] in rest && rest[j - 1].id !in passed;
      }
    }
  }

  lemma {:induction false} WalkComplete(c: seq<Mailbox>, cur: Mailbox, seen: set<Id>, byId: map<Id, Mailbox>)
    requires IsChain(c, cur, byId) && Avoids(c, seen)
    ensures Walk(cur, seen, byId) == Ok(c)
    decreases |c|
  {
    assert cur in c;
    if cur.parent.None? {
      assert c == [cur];
    } else {
      ChainTail(c, cur, byId);
      var passed := seen + {cur.id};
      forall m | m in c[1..] ensures m.id !in passed {
        var i :| 0 <= i < |c[1..]| && c[1..][i] == m;
        assert c[i + 1] in c;
      }
      WalkComplete(c[1..], byId[cur.parent.value], passed, byId);
      assert c == [cur] + c[1..];
    }
  }

  /** The walk succeeds exactly when a complete, repetition-free ancestor chain exists, and then
      returns it: an unknown parent and a cycle are the only ways to fail. */
  lemma WalkFindsChain(mb: Mailbox, byId: map<Id, Mailbox>)
    ensures forall c: seq<Mailbox> :: Walk(mb, {}, byId) == Ok(c) <==> IsChain(c, mb, byId)
  {
    forall c: seq<Mailbox> ensures Walk(mb, {}, byId) == Ok(c) <==> IsChain(c, mb, byId) {
      if Walk(mb, {}, byId) == Ok(c) {
        WalkSound(mb, {}, byId);
      }
      if IsChain(c, mb, byId) {
        WalkComplete(c, mb, {}, byId);
      }
    }
  }

  lemma ChainTail(c: seq<Mailbox>, cur: Mailbox, byId: map<Id, Mailbox>)
    requires IsChain(c, cur, byId) && cur.parent.Some?
    ensures cur.parent.value in byId && IsChain(c[1..], byId[cur.parent.value], byId)
    ensures forall i :: 0 <= i < |c[1..]| ==> c[1..][i].id == c[i + 1].id && c[i + 1].id != cur.id
  {
    assert |c| > 1 && c[1] == byId[c[0].parent.value];
    var t := c[1..];
    forall i | 0 <= i < |t| - 1
      ensures t[i].parent.Some? && t[i].parent.value in byId && t[i + 1] == byId[t[i].parent.value]
    {
      assert t[i] == c[i + 1] && t[i + 1] == c[i + 2];
    }
  }

  ghost function Prepend(chain: seq<Mailbox>, r: Result<seq<Mailbox>, Error>): Result<seq<Mailbox>, Error> {
    match r
    case Ok(rest) => Ok(chain + rest)
    case Err(e) => Err(e)
  }

  /** One link of the walk moves from what is to come to what is done. */
  lemma PrependLink(chain: seq<Mailbox>, cur: Mailbox, seen: set<Id>, byId: map<Id, Mailbox>)
    requires cur.id !in seen && cur.parent.Some? && cur.parent.value in byId
    ensures Prepend(chain + [cur], Walk(byId[cur.parent.value], seen + {cur.id}, byId))
            == Prepend(chain, Walk(cur, seen, byId))
  {
    var r := Walk(byId[cur.parent.value], seen + {cur.id}, byId);
    if r.Ok? {
      assert chain + [cur] + r.value == chain + ([cur] + r.value);
    }
  }

  /** The walk shared by `resolve_folder_path` and `path_was_resolved_by_rule`, leaf first. It
      stops on every input: a parent cycle runs into the seen set. */
  method ParentChain(mb: Mailbox, byId: map<Id, Mailbox>) returns (r: Result<seq<Mailbox>, Error>)
    ensures r == Walk(mb, {}, byId)
    ensures r.Ok? ==> IsChain(r.value, mb, byId)
  {
    if Walk(mb, {}, byId).Ok? {
      WalkSound(mb, {}, byId);
    }
    var chain: seq<Mailbox> := [];
    var seen: set<Id> := {};
    var cur := mb;
    ghost var ids := set k | k in byId :: byId[k].id;
    assert Walk(mb, {}, byId).Ok? ==> chain + Walk(mb, {}, byId).value == Walk(mb, {}, byId).value;
    while true
      invariant Prepend(chain, Walk(cur, seen, byId)) == Walk(mb, {}, byId)
      decreases Universe(cur, byId) + ids - seen
    {
      if cur.id in seen {
        return Err(Cycle(cur.id));
      }
      ghost var before := Universe(cur, byId) + ids - seen;
      assert cur.id in before;
      match cur.parent
      case None =>
        return Ok(chain + [cur]);
      case Some(pid) =>
        if pid !in byId {
          return Err(UnknownParent(cur.id, pid));
        }
        PrependLink(chain, cur, seen, byId);
        chain, seen, cur := chain + [cur], seen + {cur.id}, byId[pid];
    }
  }

  // ---------- segments and joined names ----------

  function Segment(m: Mailbox): string {
    if m.role == Some("inbox") then "INBOX" else m.name
  }

  /** `validate_segment_for_layout`. */
  predicate ValidSegment(name: string, layout: FolderLayout, separator: char) {
    match layout
    case Flat => separator !in name
    case MaildirPP => separator !in name && !("." <= name)
    case Fs => name !in {"cur", "new", "tmp"} && !("." <= name)
  }

  function Utf8Len(c: char): nat {
    if c as int < 0x80 then 1 else if c as int < 0x800 then 2 else if c as int < 0x1_0000 then 3 else 4
  }

  /** `str::len`, in bytes. */
  function ByteLen(s: string): nat {
    if s == "" then 0 else Utf8Len(s[0]) + ByteLen(s[1..])
  }

  lemma {:induction false} ByteLenConcat(a: string, b: string)
    ensures ByteLen(a + b) == ByteLen(a) + ByteLen(b)
  {
    if a == "" {
      assert a + b == b;
    } else {
      assert (a + b)[1..] == a[1..] + b;
      ByteLenConcat(a[1..], b);
    }
  }

  function LayoutSeparator(layout: FolderLayout, separator: char): char {
    if layout.Fs? then '/' else separator
  }

  function LayoutPrefix(layout: FolderLayout): string {
    if layout.MaildirPP? then "." else ""
  }

  function LayoutJoin(segments: seq<string>, layout: FolderLayout, separator: char): string {
    LayoutPrefix(layout) + Join(segments, LayoutSeparator(layout, separator))
  }

  /** `maybe_match_rename_rules`: the first rule that applies to the '/'-joined path. */
  function MatchRules(path: string, rules: seq<Rule>): Option<string> {
    if rules == [] then None
    else match rules[0]
      case MapDirectly(source, renamed) => if path == source then Some(renamed) else MatchRules(path, rules[1..])
      case Pattern(matches, replace) => if matches(path) then Some(replace(path)) else MatchRules(path, rules[1..])
  }

  /** Root-first segments of a leaf-first chain. */
  ghost function Segments(chain: seq<Mailbox>): seq<string> {
    if chain == [] then [] else Segments(chain[1..]) + [Segment(chain[0])]
  }

  /** The mailbox `validate_segment_for_layout` rejects first, walking from the root. */
  ghost function FirstBad(chain: seq<Mailbox>, d: Definition): Option<Id> {
    if chain == [] then None
    else
      var above := FirstBad(chain[1..], d);
      if above.Some? then above
      else if ValidSegment(Segment(chain[0]), d.layout, d.separator) then None
      else Some(chain[0].id)
  }

  /** The folder name of a complete chain. */
  ghost function NameOf(chain: seq<Mailbox>, d: Definition): Result<string, Error> {
    var bad, segments := FirstBad(chain, d), Segments(chain);
    if bad.Some? then Err(BadSegment(bad.value))
    else
      var byRule := MatchRules(Join(segments, '/'), d.rules);
      if byRule.Some? then (if ByteLen(byRule.value) > d.nameCap then Err(RuleTooLong) else Ok(byRule.value))
      else
        var plain := LayoutJoin(segments, d.layout, d.separator);
        if !d.layout.Fs? && ByteLen(plain) > d.nameCap then Err(PathTooLong) else Ok(plain)
  }

  ghost function Resolved(mb: Mailbox, byId: map<Id, Mailbox>, d: Definition): Result<string, Error> {
    match Walk(mb, {}, byId)
    case Err(e) => Err(e)
    case Ok(chain) => NameOf(chain, d)
  }

  // ---------- what a folder name is ----------

  /** The segment of a mailbox: `INBOX` under the inbox role, its name otherwise. */
  ghost predicate StandsFor(seg: string, m: Mailbox) {
    && (m.role == Some("inbox") ==> seg == "INBOX")
    && (m.role != Some("inbox") ==> seg == m.name)
  }

  /** One segment per ancestor of a leaf-first chain, the root's first. */
  ghost predicate Names(segs: seq<string>, chain: seq<Mailbox>) {
    |segs| == |chain| && forall i :: 0 <= i < |segs| ==> StandsFor(segs[i], chain[|chain| - 1 - i])
  }

  /** What a layout allows as a segment. */
  ghost predicate Fits(seg: string, d: Definition) {
    && (d.layout != Fs ==> forall i :: 0 <= i < |seg| ==> seg[i] != d.separator)
    && (d.layout != Flat ==> seg == "" || seg[0] != '.')
    && (d.layout == Fs ==> seg != "cur" && seg != "new" && seg != "tmp")
  }

  /** How long a string is in UTF-8: a byte each, and more beyond each of three thresholds. */
  ghost function Bytes(s: string): nat {
    |s| + |Filter(s, (c: char) => c as int >= 0x80)| + |Filter(s, (c: char) => c as int >= 0x800)|
    + |Filter(s, (c: char) => c as int >= 0x1_0000)|
  }

  /** The layout's own name for these segments. */
  ghost predicate IsJoined(name: string, segs: seq<string>, d: Definition) {
    match d.layout
    case Flat => name == Join(segs, d.separator)
    case MaildirPP => name == ['.'] + Join(segs, d.separator)
    case Fs => name == Join(segs, '/')
  }

  ghost predicate Applies(rule: Rule, path: string) {
    match rule
    case MapDirectly(source, _) => source == path
    case Pattern(matches, _) => matches(path)
  }

  /** `name` is what the first rule that applies to the path makes of it. */
  ghost predicate RuleGives(rules: seq<Rule>, path: string, name: string) {
    exists k: nat :: k < |rules| && Applies(rules[k], path) && (forall j :: 0 <= j < k ==> !Applies(rules[j], path))
                     && Yields(rules[k], path, name)
  }

  ghost predicate Yields(rule: Rule, path: string, name: string) {
    match rule
    case MapDirectly(_, renamed) => name == renamed
    case Pattern(_, replace) => name == replace(path)
  }

  ghost predicate NoRule(rules: seq<Rule>, path: string) {
    forall rule :: rule in rules ==> !Applies(rule, path)
  }

  /** The name for these segments before any cap, and whether a cap applies to it. */
  ghost predicate Named(segs: seq<string>, d: Definition, name: string) {
    var path := Join(segs, '/');
    RuleGives(d.rules, path, name) || (NoRule(d.rules, path) && IsJoined(name, segs, d))
  }

  ghost predicate TooLong(segs: seq<string>, d: Definition, name: string) {
    Bytes(name) > d.nameCap && (d.layout == Fs ==> !NoRule(d.rules, Join(segs, '/')))
  }

  /** The answer for segments that all fit. */
  ghost predicate AnswersGood(r: Result<string, Error>, segs: seq<string>, d: Definition) {
    exists name :: Named(segs, d, name) &&
      r == if !TooLong(segs, d, name) then Ok(name)
           else if NoRule(d.rules, Join(segs, '/')) then Err(PathTooLong) else Err(RuleTooLong)
  }

  /** The answer for segments of which some do not fit. */
  ghost predicate AnswersBad(r: Result<string, Error>, segs: seq<string>, chain: seq<Mailbox>, d: Definition)
    requires |segs| == |chain|
  {
    exists i :: 0 <= i < |segs| && !Fits(segs[i], d) && (forall j :: 0 <= j < i ==> Fits(segs[j], d))
                && r == Err(BadSegment(chain[|chain| - 1 - i].id))
  }

  /** What `resolve_folder_path` answers once the walk to the root has given `chain`. */
  ghost predicate Answers(r: Result<string, Error>, chain: seq<Mailbox>, d: Definition) {
    exists segs :: Names(segs, chain) &&
      if forall i :: 0 <= i < |segs| ==> Fits(segs[i], d) then AnswersGood(r, segs, d)
      else AnswersBad(r, segs, chain, d)
  }

  lemma FitsIsValid(m: Mailbox, seg: string, d: Definition)
    ensures StandsFor(Segment(m), m)
    ensures StandsFor(seg, m) ==> seg == Segment(m)
    ensures Fits(seg, d) <==> ValidSegment(seg, d.layout, d.separator)
  {
  }

  lemma {:induction false} SegmentsAreNames(chain: seq<Mailbox>)
    ensures Names(Segments(chain), chain)
  {
    if chain == [] {
    } else {
      SegmentsAreNames(chain[1..]);
      var above, segs := Segments(chain[1..]), Segments(chain);
      forall i | 0 <= i < |segs| ensures StandsFor(segs[i], chain[|chain| - 1 - i]) {
        if i < |above| {
          assert segs[i] == above[i] && chain[1..][|above| - 1 - i] == chain[|chain| - 1 - i];
        }
      }
    }
  }

  lemma {:induction false} ByteLenIsBytes(s: string)
    ensures ByteLen(s) == Bytes(s)
  {
    if s == "" {
    } else {
      var c, rest := s[0], s[1..];
      ByteLenIsBytes(rest);
      assert s == [c] + rest;
      FilterCons(c, rest, (x: char) => x as int >= 0x80);
      FilterCons(c, rest, (x: char) => x as int >= 0x800);
      FilterCons(c, rest, (x: char) => x as int >= 0x1_0000);
    }
  }

  lemma {:induction false} MatchMeans(path: string, rules: seq<Rule>)
    ensures MatchRules(path, rules).None? <==> NoRule(rules, path)
    ensures MatchRules(path, rules).Some? ==> RuleGives(rules, path, MatchRules(path, rules).value)
  {
    if rules == [] {
    } else {
      var rest := rules[1..];
      MatchMeans(path, rest);
      assert rules == [rules[0]] + rest;
      if Applies(rules[0], path) {
      } else if MatchRules(path, rest).Some? {
        LaterRule(rules[0], rest, path, MatchRules(path, rest).value);
      }
    }
  }

  lemma LaterRule(rule: Rule, rest: seq<Rule>, path: string, name: string)
    requires !Applies(rule, path) && RuleGives(rest, path, name)
    ensures RuleGives([rule] + rest, path, name)
  {
    var rules := [rule] + rest;
    var k: nat :| k < |rest| && Applies(rest[k], path) && (forall j :: 0 <= j < k ==> !Applies(rest[j], path))
                  && Yields(rest[k], path, name);
    assert rules[k + 1] == rest[k];
    forall j | 0 <= j < k + 1 ensures !Applies(rules[j], path) {
      assert j > 0 ==> rules[j] == rest[j - 1];
    }
  }

  /** The bad segment found first is the one nearest the root. */
  lemma {:induction false} FirstBadMeans(chain: seq<Mailbox>, d: Definition)
    ensures var segs, bad := Segments(chain), FirstBad(chain, d);
            && |segs| == |chain|
            && (bad.None? <==> forall i :: 0 <= i < |segs| ==> Fits(segs[i], d))
            && (bad.Some? ==> exists i :: 0 <= i < |segs| && !Fits(segs[i], d)
                                          && (forall j :: 0 <= j < i ==> Fits(segs[j], d))
                                          && bad == Some(chain[|chain| - 1 - i].id))
  {
    if chain == [] {
    } else {
      var rest := chain[1..];
      FirstBadMeans(rest, d);
      var above, segs, n := Segments(rest), Segments(chain), |chain| - 1;
      FitsIsValid(chain[0], segs[n], d);
      assert forall i :: 0 <= i < n ==> segs[i] == above[i] && rest[|rest| - 1 - i] == chain[|chain| - 1 - i];
      if FirstBad(rest, d).Some? {
        var i :| 0 <= i < n && !Fits(above[i], d) && (forall j :: 0 <= j < i ==> Fits(above[j], d))
                 && FirstBad(rest, d) == Some(rest[|rest| - 1 - i].id);
        assert !Fits(segs[i], d);
      }
    }
  }

  lemma NameOfMeans(chain: seq<Mailbox>, d: Definition)
    ensures Answers(NameOf(chain, d), chain, d)
  {
    var segs := Segments(chain);
    SegmentsAreNames(chain);
    FirstBadMeans(chain, d);
    if FirstBad(chain, d).None? {
      GoodNameMeans(segs, d, NameOf(chain, d));
    } else {
      assert NameOf(chain, d) == Err(BadSegment(FirstBad(chain, d).value));
    }
  }

  lemma GoodNameMeans(segs: seq<string>, d: Definition, r: Result<string, Error>)
    requires var byRule := MatchRules(Join(segs, '/'), d.rules);
             r == if byRule.Some?
                  then (if ByteLen(byRule.value) > d.nameCap then Err(RuleTooLong) else Ok(byRule.value))
                  else
                    var plain := LayoutJoin(segs, d.layout, d.separator);
                    if !d.layout.Fs? && ByteLen(plain) > d.nameCap then Err(PathTooLong) else Ok(plain)
    ensures AnswersGood(r, segs, d)
  {
    var byRule := MatchRules(Join(segs, '/'), d.rules);
    MatchMeans(Join(segs, '/'), d.rules);
    if byRule.Some? {
      ByteLenIsBytes(byRule.value);
      NamedIsAnswered(segs, d, byRule.value, r);
    } else {
      var plain := LayoutJoin(segs, d.layout, d.separator);
      ByteLenIsBytes(plain);
      JoinedByLayout(segs, d);
      NamedIsAnswered(segs, d, plain, r);
    }
  }

  lemma JoinedByLayout(segs: seq<string>, d: Definition)
    ensures IsJoined(LayoutJoin(segs, d.layout, d.separator), segs, d)
  {
  }

  lemma NamedIsAnswered(segs: seq<string>, d: Definition, name: string, r: Result<string, Error>)
    requires Named(segs, d, name)
    requires r == if !TooLong(segs, d, name) then Ok(name)
                  else if NoRule(d.rules, Join(segs, '/')) then Err(PathTooLong) else Err(RuleTooLong)
    ensures AnswersGood(r, segs, d)
  {
  }

  /** `resolve_folder_path`. */
  method ResolveFolderPath(mb: Mailbox, byId: map<Id, Mailbox>, d: Definition) returns (r: Result<string, Error>)
    ensures r == Resolved(mb, byId, d)
    ensures forall chain :: IsChain(chain, mb, byId) ==> Answers(r, chain, d)
    ensures (r.Ok? || r.error.BadSegment? || r.error.RuleTooLong? || r.error.PathTooLong?) ==>
              exists chain :: IsChain(chain, mb, byId)
  {
    ResolvedMeans(mb, byId, d);
    var walked := ParentChain(mb, byId);
    if walked.Err? {
      return Err(walked.error);
    }
    r := NameChain(walked.value, d);
  }

  /** The rest of it: the segments from the root down, then a rule or the layout. */
  method NameChain(chain: seq<Mailbox>, d: Definition) returns (r: Result<string, Error>)
    ensures r == NameOf(chain, d)
  {
    var segments: seq<string> := [];
    var i := |chain|;
    assert chain[|chain|..] == [];
    while i > 0
      invariant 0 <= i <= |chain|
      invariant segments == Segments(chain[i..])
      invariant FirstBad(chain[i..], d) == None
    {
      i := i - 1;
      assert chain[i..][1..] == chain[i + 1..];
      BadStays(chain, i, d);
      var raw := Segment(chain[i]);
      if !ValidSegment(raw, d.layout, d.separator) {
        return Err(BadSegment(chain[i].id));
      }
      segments := segments + [raw];
    }
    assert chain[0..] == chain;
    var byRule := MatchRules(Join(segments, '/'), d.rules);
    if byRule.Some? {
      if ByteLen(byRule.value) > d.nameCap {
        return Err(RuleTooLong);
      }
      return Ok(byRule.value);
    }
    var result := match d.layout
      case Flat => Join(segments, d.separator)
      case MaildirPP => "." + Join(segments, d.separator)
      case Fs => Join(segments, '/');
    assert result == LayoutJoin(segments, d.layout, d.separator);
    if (d.layout.Flat? || d.layout.MaildirPP?) && ByteLen(result) > d.nameCap {
      return Err(PathTooLong);
    }
    r := Ok(result);
  }

  lemma {:induction false} BadStays(chain: seq<Mailbox>, i: nat, d: Definition)
    requires i <= |chain|
    ensures FirstBad(chain[i..], d).Some? ==> FirstBad(chain, d) == FirstBad(chain[i..], d)
  {
    if i > 0 {
      assert chain[1..][i - 1..] == chain[i..];
      BadStays(chain[1..], i - 1, d);
    } else {
      assert chain[0..] == chain;
    }
  }

  lemma ResolvedMeans(mb: Mailbox, byId: map<Id, Mailbox>, d: Definition)
    ensures forall chain :: IsChain(chain, mb, byId) ==> Answers(Resolved(mb, byId, d), chain, d)
    ensures var r := Resolved(mb, byId, d);
            r.Ok? || r.error.BadSegment? || r.error.RuleTooLong? || r.error.PathTooLong? ==>
              exists chain :: IsChain(chain, mb, byId)
  {
    WalkFindsChain(mb, byId);
    WalkErrors(mb, {}, byId);
    if Walk(mb, {}, byId).Ok? {
      NameOfMeans(Walk(mb, {}, byId).value, d);
    }
  }

  lemma {:induction false} WalkErrors(cur: Mailbox, seen: set<Id>, byId: map<Id, Mailbox>)
    ensures var r := Walk(cur, seen, byId); r.Err? ==> r.error.Cycle? || r.error.UnknownParent?
    decreases Universe(cur, byId) + (set k | k in byId :: byId[k].id) - seen
  {
    if cur.id !in seen && cur.parent.Some? && cur.parent.value in byId {
      assert cur.id in Universe(cur, byId) - seen;
      WalkErrors(byId[cur.parent.value], seen + {cur.id}, byId);
    }
  }

  /** `path_was_resolved_by_rule`. */
  method PathWasResolvedByRule(mb: Mailbox, byId: map<Id, Mailbox>, d: Definition) returns (byRule: bool)
    ensures byRule <==> !RuleFree(mb, byId, d)
    ensures forall folder, chain, segs ::
              Resolved(mb, byId, d) == Ok(folder) && IsChain(chain, mb, byId) && Names(segs, chain) ==>
                if byRule then RuleGives(d.rules, Join(segs, '/'), folder) else IsJoined(folder, segs, d)
  {
    RuleFreeMeans(mb, byId, d);
    forall folder, chain, segs | Resolved(mb, byId, d) == Ok(folder) && IsChain(chain, mb, byId) && Names(segs, chain)
      ensures if RuleFree(mb, byId, d) then IsJoined(folder, segs, d) else RuleGives(d.rules, Join(segs, '/'), folder)
    {
      ResolvedByRuleOrLayout(mb, byId, d, folder, chain, segs);
    }
    byRule := SomeRuleMatches(mb, byId, d);
  }

  method SomeRuleMatches(mb: Mailbox, byId: map<Id, Mailbox>, d: Definition) returns (byRule: bool)
    ensures byRule
            <==> Walk(mb, {}, byId).Ok? && MatchRules(Join(Segments(Walk(mb, {}, byId).value), '/'), d.rules).Some?
  {
    if d.rules == [] {
      return false;
    }
    var walked := ParentChain(mb, byId);
    if walked.Err? {
      return false;
    }
    var chain := walked.value;
    var segments: seq<string> := [];
    var i := |chain|;
    assert chain[|chain|..] == [];
    while i > 0
      invariant 0 <= i <= |chain|
      invariant segments == Segments(chain[i..])
    {
      i := i - 1;
      assert chain[i..][1..] == chain[i + 1..];
      segments := segments + [Segment(chain[i])];
    }
    assert chain[0..] == chain;
    byRule := MatchRules(Join(segments, '/'), d.rules).Some?;
  }

  /** No rename rule applies to this mailbox's own path. */
  ghost predicate RuleFree(mb: Mailbox, byId: map<Id, Mailbox>, d: Definition) {
    forall chain, segs :: IsChain(chain, mb, byId) && Names(segs, chain) ==> NoRule(d.rules, Join(segs, '/'))
  }

  lemma OneNaming(chain: seq<Mailbox>, segs: seq<string>)
    requires Names(segs, chain)
    ensures segs == Segments(chain)
  {
    SegmentsAreNames(chain);
    var own := Segments(chain);
    forall i | 0 <= i < |segs| ensures segs[i] == own[i] {
      assert StandsFor(segs[i], chain[|chain| - 1 - i]) && StandsFor(own[i], chain[|chain| - 1 - i]);
    }
  }

  lemma RuleFreeMeans(mb: Mailbox, byId: map<Id, Mailbox>, d: Definition)
    ensures RuleFree(mb, byId, d)
            <==> (Walk(mb, {}, byId).Ok? ==> MatchRules(Join(Segments(Walk(mb, {}, byId).value), '/'), d.rules).None?)
  {
    WalkFindsChain(mb, byId);
    if Walk(mb, {}, byId).Ok? {
      var chain := Walk(mb, {}, byId).value;
      SegmentsAreNames(chain);
      MatchMeans(Join(Segments(chain), '/'), d.rules);
      assert IsChain(chain, mb, byId);
      forall segs | Names(segs, chain) ensures segs == Segments(chain) {
        OneNaming(chain, segs);
      }
    }
  }

  lemma ResolvedByRuleOrLayout(
    mb: Mailbox, byId: map<Id, Mailbox>, d: Definition, folder: string, chain: seq<Mailbox>, segs: seq<string>)
    requires Resolved(mb, byId, d) == Ok(folder) && IsChain(chain, mb, byId) && Names(segs, chain)
    ensures if RuleFree(mb, byId, d) then IsJoined(folder, segs, d) else RuleGives(d.rules, Join(segs, '/'), folder)
  {
    WalkFindsChain(mb, byId);
    RuleFreeMeans(mb, byId, d);
    OneNaming(chain, segs);
    MatchMeans(Join(segs, '/'), d.rules);
    JoinedByLayout(segs, d);
  }

  // ---------- decomposing a folder name ----------

  /** `decompose_joined`. */
  function DecomposeJoined(s: string, sep: char, parentPrefix: string): (string, Option<string>) {
    var segments := Split(s, sep);
    if |segments| == 1 then (s, None)
    else (segments[|segments| - 1], Some(parentPrefix + Join(segments[..|segments| - 1], sep)))
  }

  /** `decompose_folder_string`. */
  function DecomposeFolderString(folder: string, layout: FolderLayout, separator: char): (string, Option<string>) {
    if folder == "" then ("", None)
    else match layout
      case Flat => DecomposeJoined(folder, separator, "")
      case MaildirPP => DecomposeJoined(if "." <= folder then folder[1..] else folder, separator, ".")
      case Fs => DecomposeJoined(folder, '/', "")
  }

  /** A Maildir++ name that lacks the leading dot is decomposed all the same: it comes out whole,
      with no parent, only if it holds no separator. */
  lemma UndottedIsSplitAnyway(folder: string, separator: char)
    requires folder != "" && !("." <= folder)
    ensures DecomposeFolderString(folder, MaildirPP, separator) == (folder, None) <==> separator !in folder
  {
    if separator !in folder {
      SplitAtom(folder, separator);
    } else {
      JoinSplit(folder, separator);
      var segments := Split(folder, separator);
      assert segments[0] in segments && segments[0] != folder;
    }
  }

  /** Under `Fs` no segment holds a '/', which the mailbox-name validator guarantees upstream. */
  ghost predicate SlashFree(chain: seq<Mailbox>) {
    forall m :: m in chain && m.role != Some("inbox") ==> '/' !in m.name
  }

  lemma {:induction false} ValidChain(chain: seq<Mailbox>, d: Definition)
    requires FirstBad(chain, d).None? && (d.layout.Fs? ==> SlashFree(chain))
    ensures |Segments(chain)| == |chain|
    ensures forall seg :: seg in Segments(chain) ==> LayoutSeparator(d.layout, d.separator) !in seg
  {
    if chain == [] {
    } else {
      ValidChain(chain[1..], d);
      assert chain[0] in chain;
    }
  }

  /** A joined name splits back into exactly its segments. */
  lemma SegmentsOfName(chain: seq<Mailbox>, d: Definition, folder: string)
    requires chain != [] && FirstBad(chain, d).None? && (d.layout.Fs? ==> SlashFree(chain))
    requires folder == LayoutJoin(Segments(chain), d.layout, d.separator)
    ensures Split(folder[|LayoutPrefix(d.layout)|..], LayoutSeparator(d.layout, d.separator)) == Segments(chain)
  {
    ValidChain(chain, d);
    SplitJoin(Segments(chain), LayoutSeparator(d.layout, d.separator));
    assert folder[|LayoutPrefix(d.layout)|..] == Join(Segments(chain), LayoutSeparator(d.layout, d.separator));
  }

  /** Decomposition of a joined name, segment by segment. */
  lemma DecomposeName(chain: seq<Mailbox>, d: Definition, folder: string)
    requires chain != [] && FirstBad(chain, d).None? && (d.layout.Fs? ==> SlashFree(chain))
    requires folder == LayoutJoin(Segments(chain), d.layout, d.separator)
    ensures DecomposeFolderString(folder, d.layout, d.separator)
            == (Segment(chain[0]),
                if |chain| == 1 then None else Some(LayoutJoin(Segments(chain[1..]), d.layout, d.separator)))
  {
    var sep := LayoutSeparator(d.layout, d.separator);
    SegmentsOfName(chain, d, folder);
    ValidChain(chain, d);
    var segments := Segments(chain);
    assert segments[..|segments| - 1] == Segments(chain[1..]);
    if folder == "" {
      SplitAtom("", sep);
      assert segments == [""];
    }
    if |chain| == 1 {
      assert segments == [Segment(chain[0])];
    }
  }

  /** The decomposition law: where no rename rule applies to the mailbox or its parent, the
      resolved name decomposes into the mailbox's own segment and its parent's resolved name. */
  lemma DecomposeInvertsResolve(mb: Mailbox, byId: map<Id, Mailbox>, d: Definition)
    requires Resolved(mb, byId, d).Ok? && RuleFree(mb, byId, d)
    requires d.layout.Fs? ==> SlashFree(Walk(mb, {}, byId).value)
    ensures var (leaf, parent) := DecomposeFolderString(Resolved(mb, byId, d).value, d.layout, d.separator);
            && StandsFor(leaf, mb)
            && (mb.parent.None? <==> parent.None?)
            && (mb.parent.Some? ==>
                  && mb.parent.value in byId
                  && (RuleFree(byId[mb.parent.value], byId, d) ==>
                        Resolved(byId[mb.parent.value], byId, d) == Ok(parent.value)))
  {
    var chain := Walk(mb, {}, byId).value;
    WalkFindsChain(mb, byId);
    RuleFreeMeans(mb, byId, d);
    assert IsChain(chain, mb, byId);
    assert |chain| > 1 ==> chain[0].parent.Some?;
    DecomposeName(chain, d, Resolved(mb, byId, d).value);
    if mb.parent.Some? {
      ChainTail(chain, mb, byId);
      var above := byId[mb.parent.value];
      WalkFindsChain(above, byId);
      RuleFreeMeans(above, byId, d);
      assert Walk(above, {}, byId) == Ok(chain[1..]);
      assert FirstBad(chain[1..], d).None?;
      SegmentsNonEmpty(chain[1..]);
      ParentNameShorter(Segments(chain[1..]), Segment(mb), d.layout, d.separator);
    }
  }

  lemma ParentNameShorter(above: seq<string>, leaf: string, layout: FolderLayout, separator: char)
    requires above != []
    ensures ByteLen(LayoutJoin(above, layout, separator)) <= ByteLen(LayoutJoin(above + [leaf], layout, separator))
  {
    var sep := LayoutSeparator(layout, separator);
    var joined := Join(above, sep);
    JoinConcat(above, [leaf], sep);
    assert Join([leaf], sep) == leaf;
    assert joined + [sep] + leaf == joined + ([sep] + leaf);
    LongerJoin(LayoutPrefix(layout), joined, [sep] + leaf);
  }

  lemma LongerJoin(prefix: string, short: string, rest: string)
    ensures ByteLen(prefix + short) <= ByteLen(prefix + (short + rest))
  {
    ByteLenConcat(prefix, short);
    ByteLenConcat(prefix, short + rest);
    ByteLenConcat(short, rest);
  }

  lemma SegmentsNonEmpty(chain: seq<Mailbox>)
    requires chain != []
    ensures Segments(chain) != []
  {
  }

  /** Where no rule applies, two mailboxes share a folder name only if their segments agree all
      the way up to the root. */
  lemma EqualNamesEqualSegments(a: Mailbox, b: Mailbox, byId: map<Id, Mailbox>, d: Definition)
    requires Resolved(a, byId, d).Ok? && RuleFree(a, byId, d)
    requires Resolved(b, byId, d) == Resolved(a, byId, d) && RuleFree(b, byId, d)
    requires d.layout.Fs? ==> SlashFree(Walk(a, {}, byId).value) && SlashFree(Walk(b, {}, byId).value)
    ensures exists segs, up, over ::
              IsChain(up, a, byId) && IsChain(over, b, byId) && Names(segs, up) && Names(segs, over)
  {
    WalkFindsChain(a, byId);
    WalkFindsChain(b, byId);
    RuleFreeMeans(a, byId, d);
    RuleFreeMeans(b, byId, d);
    var ca, cb := Walk(a, {}, byId).value, Walk(b, {}, byId).value;
    assert IsChain(ca, a, byId) && IsChain(cb, b, byId);
    SegmentsOfName(ca, d, Resolved(a, byId, d).value);
    SegmentsOfName(cb, d, Resolved(a, byId, d).value);
    SegmentsAreNames(ca);
    SegmentsAreNames(cb);
  }

  /** Where no rule applies, the resolved name splits, at the layout's separator and behind its
      prefix, into one segment per ancestor, the root's first. */
  lemma ResolvedNameSplits(mb: Mailbox, byId: map<Id, Mailbox>, d: Definition, chain: seq<Mailbox>)
    requires Resolved(mb, byId, d).Ok? && RuleFree(mb, byId, d) && IsChain(chain, mb, byId)
    requires d.layout.Fs? ==> SlashFree(chain)
    ensures var name := Resolved(mb, byId, d).value;
            match d.layout
            case Flat => Names(Split(name, d.separator), chain)
            case MaildirPP => name != "" && name[0] == '.' && Names(Split(name[1..], d.separator), chain)
            case Fs => Names(Split(name, '/'), chain)
  {
    WalkFindsChain(mb, byId);
    RuleFreeMeans(mb, byId, d);
    assert Walk(mb, {}, byId) == Ok(chain);
    SegmentsOfName(chain, d, Resolved(mb, byId, d).value);
    SegmentsAreNames(chain);
  }

  /** Decomposing cuts at the last separator: the leaf holds none, and what is before it, with the
      layout's prefix, is the parent; without a separator there is no parent. */
  lemma DecomposeMeans(folder: string, layout: FolderLayout, separator: char)
    ensures var (leaf, parent) := DecomposeFolderString(folder, layout, separator);
            var sep := if layout == Fs then '/' else separator;
            var body := if layout == MaildirPP && folder != "" && folder[0] == '.' then folder[1..] else folder;
            && sep !in leaf
            && (parent.None? <==> sep !in body) && (parent.None? ==> leaf == body)
            && (parent.Some? ==>
                  if layout == MaildirPP
                  then parent.value != "" && parent.value[0] == '.' && body == parent.value[1..] + [sep] + leaf
                  else body == parent.value + [sep] + leaf)
  {
    var sep := if layout == Fs then '/' else separator;
    var body := if layout == MaildirPP && folder != "" && folder[0] == '.' then folder[1..] else folder;
    CutAtLast(body, sep);
    if folder != "" {
      var prefix := if layout == MaildirPP then "." else "";
      assert "." <= folder <==> folder[0] == '.';
      assert DecomposeFolderString(folder, layout, separator) == DecomposeJoined(body, sep, prefix);
      PrefixedParent(body, sep, prefix);
    }
  }

  lemma PrefixedParent(body: string, sep: char, prefix: string)
    ensures var (leaf, parent) := DecomposeJoined(body, sep, prefix);
            && sep !in leaf && (parent.None? <==> sep !in body) && (parent.None? ==> leaf == body)
            && (parent.Some? ==> prefix <= parent.value && body == parent.value[|prefix|..] + [sep] + leaf)
  {
    CutAtLast(body, sep);
    var segs := Split(body, sep);
    var above := Join(segs[..|segs| - 1], sep);
    assert (prefix + above)[|prefix|..] == above;
  }

  lemma CutAtLast(body: string, sep: char)
    ensures var segs := Split(body, sep);
            var leaf, above := segs[|segs| - 1], Join(segs[..|segs| - 1], sep);
            && segs != [] && sep !in leaf && (|segs| == 1 <==> sep !in body) && (|segs| == 1 ==> leaf == body)
            && (|segs| > 1 ==> body == above + [sep] + leaf)
  {
    var segs := Split(body, sep);
    var n := |segs| - 1;
    JoinSplit(body, sep);
    assert segs == segs[..n] + [segs[n]] && segs[n] in segs;
    if n > 0 {
      JoinConcat(segs[..n], [segs[n]], sep);
      assert sep in body;
    }
    if sep !in body {
      SplitAtom(body, sep);
    }
  }
}
