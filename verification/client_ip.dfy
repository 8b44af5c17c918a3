/**
  Client address extraction (movies/utils/ip.py): the first entry of the
  X-Forwarded-For header, stripped of whitespace, or else the peer address.
  The request metadata is a read-only map from header names to their text.
*/
module ClientIp {
  import opened Wrappers

  /** Django's `request.META`. */
  type Meta = map<string, string>

  const ForwardedForHeader := "HTTP_X_FORWARDED_FOR"
  const RemoteAddrHeader := "REMOTE_ADDR"

  /** Python's `str.isspace` for one character: exactly what `str.strip()` removes. */
  predicate IsSpace(c: char)
  {
    || ('\t' <= c <= '\r')                  // tab, line feed, vertical tab, form feed, carriage return
    || ('\U{1C}' <= c <= '\U{1F}')          // file, group, record and unit separators
    || c == ' ' || c == '\U{85}' || c == '\U{A0}' || c == '\U{1680}'
    || ('\U{2000}' <= c <= '\U{200A}')
    || c == '\U{2028}' || c == '\U{2029}' || c == '\U{202F}' || c == '\U{205F}' || c == '\U{3000}'
  }

  /** Every character of `s` from index `from` up to (not including) `to` is whitespace. */
  predicate SpaceIn(s: string, from: nat, to: nat)
    requires from <= to <= |s|
  {
    forall i :: from <= i < to ==> IsSpace(s[i])
  }

  /** Neither the first nor the last character is whitespace. */
  predicate NoSurroundingSpace(s: string)
  {
    s == [] || (!IsSpace(s[0]) && !IsSpace(s[|s| - 1]))
  }

  /** `s.split(',')[0]`: everything before the first comma, or all of `s` when it has none. */
  function FirstField(s: string): (f: string)
    ensures f <= s
    ensures ',' !in f
    ensures |f| == |s| || s[|f|] == ','
  {
    if s == [] || s[0] == ',' then [] else [s[0]] + FirstField(s[1..])
  }

  /** `s.lstrip()`: drops the longest all-whitespace prefix. */
  function StripLeading(s: string): (r: string)
    ensures |r| <= |s| && r == s[|s| - |r|..]
    ensures SpaceIn(s, 0, |s| - |r|)
    ensures r == [] || !IsSpace(r[0])
  {
    if s != [] && IsSpace(s[0]) then StripLeading(s[1..]) else s
  }

  /** `s.rstrip()`: drops the longest all-whitespace suffix. */
  function StripTrailing(s: string): (r: string)
    ensures r <= s
    ensures SpaceIn(s, |r|, |s|)
    ensures r == [] || !IsSpace(r[|r| - 1])
  {
    if s != [] && IsSpace(s[|s| - 1]) then StripTrailing(s[..|s| - 1]) else s
  }

  /** `s` is `lead` whitespace characters, then `r`, then `trail` whitespace characters. */
  predicate PaddedBy(s: string, r: string, lead: nat, trail: nat)
  {
    lead + |r| + trail == |s| && r == s[lead..lead + |r|] &&
    SpaceIn(s, 0, lead) && SpaceIn(s, lead + |r|, |s|)
  }

  /** `s.strip()`. */
  function Strip(s: string): (r: string)
    ensures NoSurroundingSpace(r)
    ensures exists lead: nat, trail: nat :: PaddedBy(s, r, lead, trail)
  {
    var l := StripLeading(s);
    var r := StripTrailing(l);
    StripParts(s, l, r);
    r
  }

  /** Whitespace dropped from the front of `s` to leave `l`, then from the back of `l` to leave `r`, pads `r` within `s`. */
  lemma StripParts(s: string, l: string, r: string)
    requires |l| <= |s| && l == s[|s| - |l|..] && SpaceIn(s, 0, |s| - |l|)
    requires r <= l && SpaceIn(l, |r|, |l|)
    ensures PaddedBy(s, r, |s| - |l|, |l| - |r|)
  {
    var lead := |s| - |l|;
    forall i | 0 <= i < |r|
      ensures r[i] == s[lead + i]
    {
      assert r[i] == l[i];
    }
    assert r == s[lead..lead + |r|];
    forall i | lead + |r| <= i < |s|
      ensures IsSpace(s[i])
    {
      assert s[i] == l[i - lead];
    }
  }

  /**
    The first comma-separated field of `h` (its first `len` characters, which
    hold no comma and are followed by a comma or by nothing) is `r` padded by
    whitespace.
  */
  predicate FieldPaddedBy(h: string, r: string, lead: nat, trail: nat)
  {
    var len := lead + |r| + trail;
    len <= |h| && ',' !in h[..len] && (len == |h| || h[len] == ',') &&
    PaddedBy(h[..len], r, lead, trail)
  }

  /** `r` is the first comma-separated field of `h` with its surrounding whitespace removed. */
  ghost predicate IsTrimmedFirstField(h: string, r: string)
  {
    NoSurroundingSpace(r) && exists lead: nat, trail: nat :: FieldPaddedBy(h, r, lead, trail)
  }

  /** `get_client_ip`: the forwarded-for header's first entry when the header is non-empty, else REMOTE_ADDR. */
  function GetClientIp(meta: Meta): (ip: Option<string>)
    ensures ForwardedForHeader in meta && meta[ForwardedForHeader] != [] ==>
              ip.Some? && IsTrimmedFirstField(meta[ForwardedForHeader], ip.value) && ',' !in ip.value
    ensures !(ForwardedForHeader in meta && meta[ForwardedForHeader] != []) ==>
              ip == (if RemoteAddrHeader in meta then Some(meta[RemoteAddrHeader]) else None)
  {
    if ForwardedForHeader in meta && meta[ForwardedForHeader] != [] then
      var h := meta[ForwardedForHeader];
      var f := FirstField(h);
      var r := Strip(f);
      FirstFieldStripped(h, f, r);
      Some(r)
    else if RemoteAddrHeader in meta then
      Some(meta[RemoteAddrHeader])
    else
      None
  }

  lemma FirstFieldStripped(h: string, f: string, r: string)
    requires f == FirstField(h) && r == Strip(f)
    ensures IsTrimmedFirstField(h, r) && ',' !in r
  {
    var lead: nat, trail: nat :| PaddedBy(f, r, lead, trail);
    var len := lead + |r| + trail;
    assert len == |f| && h[..len] == f;
    assert PaddedBy(h[..len], r, lead, trail);
    assert FieldPaddedBy(h, r, lead, trail);
    SliceCommaFree(f, lead, lead + |r|);
  }

  lemma SliceCommaFree(s: string, i: nat, j: nat)
    requires i <= j <= |s| && ',' !in s
    ensures ',' !in s[i..j]
  {
    forall k | 0 <= k < j - i
      ensures s[i..j][k] != ','
    {
      assert s[i + k] in s;
    }
  }

  /** Any prefix that holds no comma and ends at a comma or at the end of `h` is `FirstField(h)`. */
  lemma {:induction false} FirstFieldAt(h: string, len: nat)
    requires len <= |h| && ',' !in h[..len] && (len == |h| || h[len] == ',')
    ensures FirstField(h) == h[..len]
  {
    if len > 0 {
      assert h[0] == h[..len][0];
      assert h[1..][..len - 1] == h[1..len];
      assert h[..len][1..len] == h[1..len];
      SliceCommaFree(h[..len], 1, len);
      FirstFieldAt(h[1..], len - 1);
      assert h[..len] == [h[0]] + h[1..len];
    }
  }

  /** A prefix of `lead` whitespace characters followed by a non-space (or nothing) is what `lstrip` removes. */
  lemma {:induction false} StripLeadingPadded(s: string, lead: nat)
    requires lead <= |s| && SpaceIn(s, 0, lead) && (lead == |s| || !IsSpace(s[lead]))
    ensures StripLeading(s) == s[lead..]
    decreases lead
  {
    if lead > 0 {
      StripLeadingPadded(s[1..], lead - 1);
      assert s[1..][lead - 1..] == s[lead..];
    }
  }

  /** A suffix of whitespace preceded by a non-space (or nothing) is what `rstrip` removes. */
  lemma {:induction false} StripTrailingPadded(s: string, keep: nat)
    requires keep <= |s| && SpaceIn(s, keep, |s|) && (keep == 0 || !IsSpace(s[keep - 1]))
    ensures StripTrailing(s) == s[..keep]
    decreases |s| - keep
  {
    if keep < |s| {
      StripTrailingPadded(s[..|s| - 1], keep);
      assert s[..|s| - 1][..keep] == s[..keep];
    }
  }

  /** Whatever way `s` is split into whitespace, `r` and whitespace, `r` is `s.strip()` once it has no surrounding space. */
  lemma PaddedIsStrip(s: string, r: string, lead: nat, trail: nat)
    requires PaddedBy(s, r, lead, trail) && NoSurroundingSpace(r)
    ensures Strip(s) == r
  {
    if r == [] {
      PaddingAllSpace(s, lead, trail);
      SpaceOnlyStripped(s);
    } else {
      var l := StripLeading(s);
      assert l == s[lead..] by {
        assert s[lead] == r[0];
        StripLeadingPadded(s, lead);
      }
      assert l[..|r|] == r;
      StripTrailingPadded(l, |r|);
    }
  }

  lemma SpaceOnlyStripped(s: string)
    requires SpaceIn(s, 0, |s|)
    ensures Strip(s) == []
  {
    StripLeadingPadded(s, |s|);
  }

  lemma PaddingAllSpace(s: string, lead: nat, trail: nat)
    requires PaddedBy(s, [], lead, trail)
    ensures SpaceIn(s, 0, |s|)
  {
  }

  /** `IsTrimmedFirstField` holds of exactly one text: the stripped first field. */
  lemma TrimmedFirstFieldIsStripped(h: string, r: string)
    requires IsTrimmedFirstField(h, r)
    ensures r == Strip(FirstField(h))
  {
    var lead: nat, trail: nat :| FieldPaddedBy(h, r, lead, trail);
    FirstFieldAt(h, lead + |r| + trail);
    PaddedIsStrip(h[..lead + |r| + trail], r, lead, trail);
  }

  /** The field `IsTrimmedFirstField` describes is unique, so it pins down `GetClientIp`'s header result. */
  lemma TrimmedFirstFieldUnique(h: string, r1: string, r2: string)
    requires IsTrimmedFirstField(h, r1) && IsTrimmedFirstField(h, r2)
    ensures r1 == r2
  {
    TrimmedFirstFieldIsStripped(h, r1);
    TrimmedFirstFieldIsStripped(h, r2);
  }

  /** A non-empty header with no comma and no surrounding whitespace is returned as it is. */
  lemma PlainHeaderUnchanged(meta: Meta)
    requires ForwardedForHeader in meta && meta[ForwardedForHeader] != []
    requires ',' !in meta[ForwardedForHeader] && NoSurroundingSpace(meta[ForwardedForHeader])
    ensures GetClientIp(meta) == Some(meta[ForwardedForHeader])
  {
    var h := meta[ForwardedForHeader];
    assert h[..|h|] == h && h[0..|h|] == h;
    assert FieldPaddedBy(h, h, 0, 0);
    TrimmedFirstFieldUnique(h, GetClientIp(meta).value, h);
  }
}
