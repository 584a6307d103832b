/** `src/maildir_ops/headers.rs`: the bounded, chunked read of a message's header section. */
module Headers {
  import opened Common

  const HEADER_SOFT_CAP: nat := 64 * 1024
  const HEADER_HARD_CAP: nat := 1024 * 1024

  predicate CrlfCrlfAt(buf: seq<byte>, i: nat) {
    i + 4 <= |buf| && buf[i] == CR && buf[i + 1] == LF && buf[i + 2] == CR && buf[i + 3] == LF
  }

  predicate LfLfAt(buf: seq<byte>, i: nat) {
    i + 2 <= |buf| && buf[i] == LF && buf[i + 1] == LF
  }

  /** An end-of-headers marker starts at `i`: the bytes 13 10 13 10, or 10 10. */
  ghost predicate MarkerAt(buf: seq<byte>, i: nat) {
    || (i + 4 <= |buf| && buf[i] == 13 && buf[i + 1] == 10 && buf[i + 2] == 13 && buf[i + 3] == 10)
    || (i + 2 <= |buf| && buf[i] == 10 && buf[i + 1] == 10)
  }

  ghost predicate HasMarker(buf: seq<byte>) {
    exists i: nat :: MarkerAt(buf, i)
  }

  ghost predicate FirstMarkerAt(buf: seq<byte>, i: nat) {
    MarkerAt(buf, i) && forall k: nat :: k < i ==> !MarkerAt(buf, k)
  }

  /** `contains_end_of_headers`: two passes of `windows(..).any(..)`. */
  predicate ContainsEndOfHeaders(buf: seq<byte>): (found: bool)
    ensures found <==> HasMarker(buf)
  {
    var found :=
      || (exists i: nat | i < |buf| :: CrlfCrlfAt(buf, i))
      || (exists i: nat | i < |buf| :: LfLfAt(buf, i));
    assert HasMarker(buf) ==> found by {
      if i: nat :| MarkerAt(buf, i) {
        assert CrlfCrlfAt(buf, i) || LfLfAt(buf, i);
      }
    }
    assert found ==> HasMarker(buf) by {
      if i: nat :| i < |buf| && CrlfCrlfAt(buf, i) {
        assert MarkerAt(buf, i);
      } else if i: nat :| i < |buf| && LfLfAt(buf, i) {
        assert MarkerAt(buf, i);
      }
    }
    found
  }

  /** An open file whose reads may come back short for no reason. */
  class File {
    const bytes: seq<byte>
    var position: nat

    constructor (bytes: seq<byte>)
      ensures this.bytes == bytes && position == 0
    {
      this.bytes, position := bytes, 0;
    }

    method Read(want: nat) returns (chunk: seq<byte>)
      requires position <= |bytes|
      modifies this
      ensures old(position) <= position <= |bytes| && |chunk| <= want
      ensures chunk == bytes[old(position)..position]
      ensures chunk == [] <==> want == 0 || old(position) == |bytes|
    {
      var available := Min(want, |bytes| - position);
      var n: nat := 0;
      if available > 0 {
        n :| 1 <= n <= available;
      }
      chunk := bytes[position..position + n];
      position := position + n;
    }

    /** `read_fill`: loop over short reads until `want` bytes or end of file. */
    method ReadFill(want: nat) returns (chunk: seq<byte>)
      requires position <= |bytes|
      modifies this
      ensures position == Min(old(position) + want, |bytes|)
      ensures chunk == bytes[old(position)..position]
    {
      chunk := [];
      while |chunk| < want
        invariant old(position) <= position <= |bytes| && |chunk| <= want
        invariant chunk == bytes[old(position)..position]
        decreases want - |chunk|
      {
        var more := Read(want - |chunk|);
        if more == [] {
          break;
        }
        chunk := chunk + more;
      }
    }
  }

  /** The three-byte overlap: what is not in `buf[..prior]` nor in the overlapped rest is nowhere. */
  lemma OverlapSuffices(buf: seq<byte>, prior: nat)
    requires prior <= |buf|
    requires !HasMarker(buf[..prior])
    ensures HasMarker(buf) <==> HasMarker(buf[if prior < 3 then 0 else prior - 3..])
  {
    var from := if prior < 3 then 0 else prior - 3;
    var tail := buf[from..];
    forall i: nat | i < from ensures !MarkerAt(buf, i) {
      assert !MarkerAt(buf[..prior], i);
    }
    forall j: nat ensures MarkerAt(tail, j) <==> MarkerAt(buf, from + j) {
    }
    if i: nat :| MarkerAt(buf, i) {
      assert i >= from && MarkerAt(tail, i - from);
    }
  }

  /** Markers never overlap, so a prefix that holds one holds the first one of the whole. */
  lemma PrefixMarker(buf: seq<byte>, whole: seq<byte>)
    requires buf <= whole && (HasMarker(buf) || buf == whole)
    ensures HasMarker(buf) <==> HasMarker(whole)
    ensures forall i: nat :: FirstMarkerAt(buf, i) <==> FirstMarkerAt(whole, i)
  {
    forall i: nat | MarkerAt(buf, i) ensures MarkerAt(whole, i) {
    }
    forall i: nat, j: nat | i < j && MarkerAt(whole, i) && MarkerAt(buf, j) ensures MarkerAt(buf, i) {
      assert MarkerAt(whole, j);
    }
  }

  ghost function Capped(bytes: seq<byte>, hardCap: nat): seq<byte> {
    bytes[..Min(hardCap, |bytes|)]
  }

  /** `read_headers_section`: reads a prefix, and the caps never hide or move the marker. */
  method ReadHeadersSection(f: File, softCap: nat, hardCap: nat) returns (buf: seq<byte>)
    requires f.position == 0 && 1 <= softCap <= hardCap
    modifies f
    ensures buf <= f.bytes && |buf| <= hardCap
    ensures HasMarker(buf) <==> HasMarker(Capped(f.bytes, hardCap))
    ensures forall i: nat :: FirstMarkerAt(buf, i) <==> FirstMarkerAt(Capped(f.bytes, hardCap), i)
  {
    buf := f.ReadFill(softCap);
    if |buf| < softCap || ContainsEndOfHeaders(buf) {
      assert |buf| < softCap ==> buf == Capped(f.bytes, hardCap);
      PrefixMarker(buf, Capped(f.bytes, hardCap));
      return;
    }
    while |buf| < hardCap
      invariant f.position == |buf| <= |f.bytes| && |buf| <= hardCap && buf == f.bytes[..|buf|]
      invariant !HasMarker(buf)
      decreases hardCap - |buf|
    {
      var prior := |buf|;
      var chunk := f.ReadFill(Min(prior + softCap, hardCap) - prior);
      assert f.bytes[..f.position] == f.bytes[..prior] + f.bytes[prior..f.position];
      ghost var before := buf;
      buf := buf + chunk;
      if |chunk| == 0 {
        assert buf == Capped(f.bytes, hardCap);
        break;
      }
      var scanFrom := if prior < 3 then 0 else prior - 3;
      assert buf[..prior] == before;
      OverlapSuffices(buf, prior);
      if ContainsEndOfHeaders(buf[scanFrom..]) {
        break;
      }
    }
    PrefixMarker(buf, Capped(f.bytes, hardCap));
  }

  /** A header parser that looks no further than the end of the header section. */
  ghost predicate StopsAtMarker<T(!new)>(parse: seq<byte> -> T) {
    forall a, b, i: nat :: FirstMarkerAt(a, i) && FirstMarkerAt(b, i) && a[..i + 2] == b[..i + 2] ==>
      parse(a) == parse(b)
  }

  /** `parse_message_id_from_file` and `parse_subject_from_file`: nothing without a complete header
      section, and otherwise what the parser makes of the file up to the hard cap, wherever the
      chunks fell. */
  method ParseFromFile<T(!new)>(f: File, parse: seq<byte> -> Option<T>) returns (r: Option<T>)
    requires f.position == 0 && StopsAtMarker(parse)
    modifies f
    ensures var whole := Capped(f.bytes, HEADER_HARD_CAP);
            r == if HasMarker(whole) then parse(whole) else None
  {
    var raw := ReadHeadersSection(f, HEADER_SOFT_CAP, HEADER_HARD_CAP);
    if !ContainsEndOfHeaders(raw) {
      return None;
    }
    var whole := Capped(f.bytes, HEADER_HARD_CAP);
    ghost var i := FirstMarker(raw);
    assert FirstMarkerAt(whole, i);
    assert raw[..i + 2] == whole[..i + 2];
    r := parse(raw);
  }

  lemma FirstMarker(buf: seq<byte>) returns (i: nat)
    requires HasMarker(buf)
    ensures FirstMarkerAt(buf, i) && i + 2 <= |buf|
  {
    var n: nat :| MarkerAt(buf, n);
    i := 0;
    while !MarkerAt(buf, i)
      invariant i <= n && forall k: nat :: k < i ==> !MarkerAt(buf, k)
      decreases n - i
    {
      i := i + 1;
    }
  }
}
