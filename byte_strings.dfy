/**
 * Byte strings as Go's []byte and string hold them, and the few operations
 * of Go's bytes and strings packages that the ESI tag parser relies on:
 * strings.Contains, bytes.ToLower and bytes.TrimSpace.
 */
module ByteStrings {

  newtype byte = b: int | 0 <= b < 256

  type Bytes = seq<byte>

  const LF: byte := 0x0A
  const CR: byte := 0x0D
  const DQUOTE: byte := 0x22
  const SQUOTE: byte := 0x27
  const EQUALS: byte := 0x3D

  predicate IsLowerLetter(b: byte) { 0x61 <= b <= 0x7A }

  predicate IsUpperLetter(b: byte) { 0x41 <= b <= 0x5A }

  /** `sub` is the piece of `s` that starts at offset `i`. */
  predicate OccursAt(s: Bytes, sub: Bytes, i: nat)
  {
    i + |sub| <= |s| && s[i..i + |sub|] == sub
  }

  /** strings.Contains: `sub` occurs somewhere in `s` (the empty string occurs everywhere). */
  function Contains(s: Bytes, sub: Bytes): (r: bool)
    ensures r <==> exists i: nat :: OccursAt(s, sub, i)
    decreases |s|
  {
    if |sub| > |s| then false
    else if s[..|sub|] == sub then assert OccursAt(s, sub, 0); true
    else
      var rest := Contains(s[1..], sub);
      assert forall i: nat :: OccursAt(s[1..], sub, i) <==> OccursAt(s, sub, i + 1);
      assert !OccursAt(s, sub, 0);
      assert forall i: nat :: OccursAt(s, sub, i) ==> i >= 1 && OccursAt(s[1..], sub, i - 1);
      rest
  }

  /**
   * bytes.ToLower on ASCII letters. Only the ASCII mapping is modelled: the
   * parser applies it to names that are lower-case ASCII already.
   */
  function ToLower(s: Bytes): (r: Bytes)
    ensures |r| == |s|
    ensures forall i :: 0 <= i < |r| ==> !IsUpperLetter(r[i])
    ensures (forall i :: 0 <= i < |s| ==> IsLowerLetter(s[i])) ==> r == s
  {
    if |s| == 0 then []
    else [if IsUpperLetter(s[0]) then s[0] + 0x20 else s[0]] + ToLower(s[1..])
  }

  // ---------------------------------------------------------------------
  // White space as unicode.IsSpace defines it, on UTF-8 encoded bytes:
  // '\t', '\n', '\v', '\f', '\r', ' ' (one byte), U+0085 and U+00A0 (two
  // bytes), U+1680, U+2000..U+200A, U+2028, U+2029, U+202F, U+205F and
  // U+3000 (three bytes).
  // ---------------------------------------------------------------------

  predicate IsAsciiSpace(b: byte) { 0x09 <= b <= 0x0D || b == 0x20 }

  predicate IsSpace2(b0: byte, b1: byte) { b0 == 0xC2 && (b1 == 0x85 || b1 == 0xA0) }

  predicate IsSpace3(b0: byte, b1: byte, b2: byte)
  {
    || (b0 == 0xE1 && b1 == 0x9A && b2 == 0x80)
    || (b0 == 0xE2 && b1 == 0x80 && (0x80 <= b2 <= 0x8A || b2 == 0xA8 || b2 == 0xA9 || b2 == 0xAF))
    || (b0 == 0xE2 && b1 == 0x81 && b2 == 0x9F)
    || (b0 == 0xE3 && b1 == 0x80 && b2 == 0x80)
  }

  /** The width in bytes of the white-space rune `s` starts with; 0 when it starts with none. */
  function LeadingSpace(s: Bytes): (w: nat)
    ensures w <= |s| && w <= 3
  {
    if |s| >= 1 && IsAsciiSpace(s[0]) then 1
    else if |s| >= 2 && IsSpace2(s[0], s[1]) then 2
    else if |s| >= 3 && IsSpace3(s[0], s[1], s[2]) then 3
    else 0
  }

  /** The width in bytes of the white-space rune `s` ends with; 0 when it ends with none. */
  function TrailingSpace(s: Bytes): (w: nat)
    ensures w <= |s| && w <= 3
  {
    var n := |s|;
    if n >= 1 && IsAsciiSpace(s[n - 1]) then 1
    else if n >= 2 && IsSpace2(s[n - 2], s[n - 1]) then 2
    else if n >= 3 && IsSpace3(s[n - 3], s[n - 2], s[n - 1]) then 3
    else 0
  }

  /** `s` is a run of white-space runes, read from the front. */
  predicate AllSpace(s: Bytes)
    decreases |s|
  {
    |s| == 0 || (LeadingSpace(s) > 0 && AllSpace(s[LeadingSpace(s)..]))
  }

  /** `s` is a run of white-space runes, read from the back. */
  predicate AllSpaceBack(s: Bytes)
    decreases |s|
  {
    |s| == 0 || (TrailingSpace(s) > 0 && AllSpaceBack(s[..|s| - TrailingSpace(s)]))
  }

  /** A leading white-space rune followed by white space is white space. */
  lemma AllSpaceExtend(s: Bytes, k: nat)
    requires 0 < LeadingSpace(s) <= k <= |s|
    requires AllSpace(s[LeadingSpace(s)..][..k - LeadingSpace(s)])
    ensures AllSpace(s[..k])
  {
    var w := LeadingSpace(s);
    var p := s[..k];
    assert p[..w] == s[..w];
    assert LeadingSpace(p) == w;
    assert p[w..] == s[w..][..k - w];
  }

  /** White space followed by a trailing white-space rune is white space. */
  lemma AllSpaceBackExtend(s: Bytes, k: nat)
    requires 0 < TrailingSpace(s) && k <= |s| - TrailingSpace(s)
    requires AllSpaceBack(s[..|s| - TrailingSpace(s)][k..])
    ensures AllSpaceBack(s[k..])
  {
    var w := TrailingSpace(s);
    var t := s[k..];
    assert t[|t| - w..] == s[|s| - w..];
    assert TrailingSpace(t) == w;
    assert t[..|t| - w] == s[..|s| - w][k..];
  }

  /** bytes.TrimLeftFunc(s, unicode.IsSpace). */
  function TrimLeft(s: Bytes): (r: Bytes)
    ensures LeadingSpace(r) == 0
    ensures |r| <= |s| && r == s[|s| - |r|..]
    decreases |s|
  {
    var w := LeadingSpace(s);
    if w == 0 then s else TrimLeft(s[w..])
  }

  /** bytes.TrimRightFunc(s, unicode.IsSpace). */
  function TrimRight(s: Bytes): (r: Bytes)
    ensures TrailingSpace(r) == 0
    ensures |r| <= |s| && r == s[..|r|]
    decreases |s|
  {
    var w := TrailingSpace(s);
    if w == 0 then s else TrimRight(s[..|s| - w])
  }

  /** TrimLeft removes white space and nothing else. */
  lemma {:induction false} TrimLeftRemovesOnlySpace(s: Bytes)
    ensures AllSpace(s[..|s| - |TrimLeft(s)|])
    decreases |s|
  {
    var w := LeadingSpace(s);
    if w > 0 {
      TrimLeftRemovesOnlySpace(s[w..]);
      AllSpaceExtend(s, |s| - |TrimLeft(s)|);
    }
  }

  /** TrimRight removes white space and nothing else. */
  lemma {:induction false} TrimRightRemovesOnlySpace(s: Bytes)
    ensures AllSpaceBack(s[|TrimRight(s)|..])
    decreases |s|
  {
    var w := TrailingSpace(s);
    if w > 0 {
      TrimRightRemovesOnlySpace(s[..|s| - w]);
      AllSpaceBackExtend(s, |TrimRight(s)|);
    }
  }

  /** A string that does not start with white space keeps that property when cut short. */
  lemma LeadingSpaceOfPrefix(s: Bytes, k: nat)
    requires k <= |s| && LeadingSpace(s) == 0
    ensures LeadingSpace(s[..k]) == 0
  {
  }

  /**
   * bytes.TrimSpace: the piece of `s` left after removing all leading and
   * trailing white-space runes.
   */
  function TrimSpace(s: Bytes): (r: Bytes)
    ensures LeadingSpace(r) == 0 && TrailingSpace(r) == 0
    ensures exists i: nat :: OccursAt(s, r, i)
  {
    var left := TrimLeft(s);
    var r := TrimRight(left);
    LeadingSpaceOfPrefix(left, |r|);
    assert OccursAt(s, r, |s| - |left|);
    r
  }

  /** A sequence is its first k elements, the m after them, and the rest. */
  lemma SplitInThree(s: Bytes, k: nat, m: nat)
    requires k + m <= |s|
    ensures s == s[..k] + s[k..][..m] + s[k..][m..]
  {
  }

  /** `s` splits into what TrimLeft cuts, the piece TrimSpace keeps, and what TrimRight cuts. */
  lemma TrimSpaceSplits(s: Bytes)
    ensures var left := TrimLeft(s);
            s == s[..|s| - |left|] + TrimSpace(s) + left[|TrimSpace(s)|..]
  {
    var left := TrimLeft(s);
    var r := TrimRight(left);
    assert TrimSpace(s) == r;
    SplitInThree(s, |s| - |left|, |r|);
  }

  /**
   * TrimSpace cuts white space and nothing else: both parts of `s` that
   * TrimSpaceSplits puts around the kept piece are runs of white-space runes.
   */
  lemma TrimSpaceCutsOnlySpace(s: Bytes)
    ensures AllSpace(s[..|s| - |TrimLeft(s)|])
    ensures AllSpaceBack(TrimLeft(s)[|TrimSpace(s)|..])
  {
    TrimLeftRemovesOnlySpace(s);
    TrimRightRemovesOnlySpace(TrimLeft(s));
  }
}
