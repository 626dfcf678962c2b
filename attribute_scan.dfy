/**
 * The attribute scan of one raw ESI tag: the pattern
 *     ([a-z]+)="([^"\r\n]+)"|([a-z]+)='([^'\r\n]+)'
 * applied with leftmost-first semantics to find all successive,
 * non-overlapping matches, and the extraction of one (name, value) pair
 * from the capture groups of each match.
 */
module AttributeScan {
  import opened Wrappers
  import opened ByteStrings

  /**
   * The four capture groups of one match. Groups 1 and 2 hold the name and
   * value of the double-quoted alternative, groups 3 and 4 those of the
   * single-quoted one; a group that took no part in the match is empty.
   */
  datatype Submatch = Submatch(doubleName: Bytes, doubleValue: Bytes, singleName: Bytes, singleValue: Bytes)

  /** One attribute as the entity parser sees it. */
  datatype Attribute = Attribute(name: Bytes, value: Bytes)

  /** A byte the value class `[^Q\r\n]` accepts, for the quote Q. */
  predicate IsValueByte(b: byte, quote: byte) { b != quote && b != CR && b != LF }

  /** The length of the longest prefix of `s` made of lower-case letters. */
  function LetterRun(s: Bytes): (n: nat)
    ensures n <= |s|
    ensures forall i :: 0 <= i < n ==> IsLowerLetter(s[i])
    ensures n < |s| ==> !IsLowerLetter(s[n])
  {
    if |s| > 0 && IsLowerLetter(s[0]) then 1 + LetterRun(s[1..]) else 0
  }

  /** The length of the longest prefix of `s` that the value class for `quote` accepts. */
  function ValueRun(s: Bytes, quote: byte): (n: nat)
    ensures n <= |s|
    ensures forall i :: 0 <= i < n ==> IsValueByte(s[i], quote)
    ensures n < |s| ==> !IsValueByte(s[n], quote)
  {
    if |s| > 0 && IsValueByte(s[0], quote) then 1 + ValueRun(s[1..], quote) else 0
  }

  /**
   * The alternative `([a-z]+)=Q([^Q\r\n]+)Q` matches the first
   * nameLen + valueLen + 3 bytes of `s`, with a name of nameLen bytes and a
   * value of valueLen bytes.
   */
  ghost predicate QuotedMatch(s: Bytes, quote: byte, nameLen: nat, valueLen: nat)
  {
    && 0 < nameLen && 0 < valueLen && nameLen + valueLen + 3 <= |s|
    && (forall i :: 0 <= i < nameLen ==> IsLowerLetter(s[i]))
    && s[nameLen] == EQUALS && s[nameLen + 1] == quote
    && (forall i :: nameLen + 2 <= i < nameLen + 2 + valueLen ==> IsValueByte(s[i], quote))
    && s[nameLen + 2 + valueLen] == quote
  }

  /** The (name length, value length) of the match of one alternative at the start of `s`. */
  function QuotedAt(s: Bytes, quote: byte): (r: Option<(nat, nat)>)
    ensures r.Some? ==> 0 < r.value.0 && 0 < r.value.1 && r.value.0 + r.value.1 + 3 <= |s|
  {
    var n := LetterRun(s);
    if n == 0 || n + 2 > |s| || s[n] != EQUALS || s[n + 1] != quote then None
    else
      var v := ValueRun(s[n + 2..], quote);
      if v == 0 || n + 2 + v >= |s| || s[n + 2 + v] != quote then None
      else Some((n, v))
  }

  /**
   * An alternative matches at the start of `s` in at most one way, and
   * QuotedAt finds exactly that match: the name is the whole run of letters
   * and the value runs up to the first byte the value class refuses.
   */
  lemma QuotedAtIsTheMatch(s: Bytes, quote: byte)
    ensures forall n: nat, v: nat :: QuotedMatch(s, quote, n, v) <==> QuotedAt(s, quote) == Some((n, v))
  {
    forall n: nat, v: nat
      ensures QuotedMatch(s, quote, n, v) <==> QuotedAt(s, quote) == Some((n, v))
    {
      var run := LetterRun(s);
      if QuotedMatch(s, quote, n, v) {
        assert !IsLowerLetter(s[n]);
        assert run == n;
        var tail := s[n + 2..];
        var vrun := ValueRun(tail, quote);
        assert tail[v] == quote;
        assert forall i :: 0 <= i < v ==> tail[i] == s[n + 2 + i];
        assert vrun == v;
      }
      if QuotedAt(s, quote) == Some((n, v)) {
        var tail := s[n + 2..];
        assert forall i :: n + 2 <= i < n + 2 + v ==> s[i] == tail[i - (n + 2)];
      }
    }
  }

  /**
   * The match of the whole pattern at the start of `s`, as its length and
   * capture groups; the double-quoted alternative is tried first.
   */
  function MatchAt(s: Bytes): (r: Option<(nat, Submatch)>)
    ensures r.Some? ==> 0 < r.value.0 <= |s|
  {
    match QuotedAt(s, DQUOTE)
    case Some((n, v)) => Some((n + v + 3, Submatch(s[..n], s[n + 2..n + 2 + v], [], [])))
    case None =>
      match QuotedAt(s, SQUOTE)
      case Some((n, v)) => Some((n + v + 3, Submatch([], [], s[..n], s[n + 2..n + 2 + v])))
      case None => None
  }

  /**
   * FindAllSubmatch(raw, -1): the capture groups of the successive
   * non-overlapping matches, each one the leftmost match that starts at or
   * after the end of the previous one.
   */
  function FindAll(s: Bytes): seq<Submatch>
    decreases |s|
  {
    if |s| == 0 then []
    else
      match MatchAt(s)
      case Some((len, m)) => [m] + FindAll(s[len..])
      case None => FindAll(s[1..])
  }

  /**
   * Lines 93-102: take the double-quoted groups, fall back to the
   * single-quoted ones when the double-quoted name is empty, lower-case the
   * name and trim the value.
   */
  function Extract(m: Submatch): Attribute
  {
    var name := if |m.doubleName| == 0 then m.singleName else m.doubleName;
    var value := if |m.doubleName| == 0 then m.singleValue else m.doubleValue;
    Attribute(ToLower(name), TrimSpace(value))
  }

  /** The attribute stream of a raw tag. */
  function Attributes(raw: Bytes): seq<Attribute>
  {
    ExtractAll(FindAll(raw))
  }

  /** Extract applied to each match in turn. */
  function ExtractAll(ms: seq<Submatch>): seq<Attribute>
  {
    MapSeq(Extract, ms)
  }

  /** f applied to each element in turn. */
  function MapSeq<A, B>(f: A -> B, xs: seq<A>): seq<B>
  {
    seq(|xs|, i requires 0 <= i < |xs| => f(xs[i]))
  }

  /** The attribute stream has one attribute per match, extracted from it. */
  lemma AttributeOfMatch(raw: Bytes, i: nat)
    ensures |Attributes(raw)| == |FindAll(raw)|
    ensures i < |FindAll(raw)| ==> Attributes(raw)[i] == Extract(FindAll(raw)[i])
  {
  }

  /** `name=QvalueQ`, the attribute written with the quote Q. */
  function Quoted(name: Bytes, value: Bytes, quote: byte): Bytes
  {
    name + [EQUALS, quote] + value + [quote]
  }

  /** The groups of a match have the shape the pattern gives them. */
  ghost predicate WellShaped(m: Submatch)
  {
    || (&& |m.doubleName| > 0 && |m.doubleValue| > 0 && m.singleName == [] && m.singleValue == []
        && (forall i :: 0 <= i < |m.doubleName| ==> IsLowerLetter(m.doubleName[i]))
        && (forall i :: 0 <= i < |m.doubleValue| ==> IsValueByte(m.doubleValue[i], DQUOTE)))
    || (&& m.doubleName == [] && m.doubleValue == [] && |m.singleName| > 0 && |m.singleValue| > 0
        && (forall i :: 0 <= i < |m.singleName| ==> IsLowerLetter(m.singleName[i]))
        && (forall i :: 0 <= i < |m.singleValue| ==> IsValueByte(m.singleValue[i], SQUOTE)))
  }

  /** What every scanned attribute satisfies. */
  ghost predicate WellFormed(a: Attribute)
  {
    && |a.name| > 0
    && (forall i :: 0 <= i < |a.name| ==> IsLowerLetter(a.name[i]))
    && LeadingSpace(a.value) == 0 && TrailingSpace(a.value) == 0
    && (forall i :: 0 <= i < |a.value| ==> a.value[i] != CR && a.value[i] != LF)
  }

  lemma MatchAtWellShaped(s: Bytes)
    requires MatchAt(s).Some?
    ensures WellShaped(MatchAt(s).value.1)
  {
    QuotedAtIsTheMatch(s, DQUOTE);
    QuotedAtIsTheMatch(s, SQUOTE);
  }

  lemma {:induction false} FindAllWellShaped(s: Bytes)
    ensures forall i :: 0 <= i < |FindAll(s)| ==> WellShaped(FindAll(s)[i])
    decreases |s|
  {
    if |s| > 0 {
      match MatchAt(s)
      case Some((len, m)) =>
        MatchAtWellShaped(s);
        FindAllWellShaped(s[len..]);
      case None =>
        FindAllWellShaped(s[1..]);
    }
  }

  /** Extraction of a well-shaped match keeps the name and trims the value. */
  lemma ExtractWellFormed(m: Submatch)
    requires WellShaped(m)
    ensures WellFormed(Extract(m))
  {
    var single := |m.doubleName| == 0;
    var name := if single then m.singleName else m.doubleName;
    var value := if single then m.singleValue else m.doubleValue;
    assert |name| > 0 && forall i :: 0 <= i < |name| ==> IsLowerLetter(name[i]);
    assert forall i :: 0 <= i < |value| ==> value[i] != CR && value[i] != LF;
    assert Extract(m) == Attribute(ToLower(name), TrimSpace(value));
    NoLineBreakInTrimmed(value);
  }

  lemma NoLineBreakInTrimmed(value: Bytes)
    requires forall i :: 0 <= i < |value| ==> value[i] != CR && value[i] != LF
    ensures forall i :: 0 <= i < |TrimSpace(value)| ==> TrimSpace(value)[i] != CR && TrimSpace(value)[i] != LF
  {
    var t := TrimSpace(value);
    var k: nat :| OccursAt(value, t, k);
    assert forall i :: 0 <= i < |t| ==> t[i] == value[k + i];
  }

  /**
   * Every attribute of every tag has a non-empty lower-case name and a value
   * with no CR or LF and no white space at either end.
   */
  lemma ScannedAttributesWellFormed(raw: Bytes)
    ensures forall i :: 0 <= i < |Attributes(raw)| ==> WellFormed(Attributes(raw)[i])
  {
    FindAllWellShaped(raw);
    forall i | 0 <= i < |Attributes(raw)|
      ensures WellFormed(Attributes(raw)[i])
    {
      ExtractWellFormed(FindAll(raw)[i]);
    }
  }

  /** The scan at a match records it and resumes right after it. */
  lemma FindAllAtMatch(s: Bytes)
    requires MatchAt(s).Some?
    ensures FindAll(s) == [MatchAt(s).value.1] + FindAll(s[MatchAt(s).value.0..])
  {
  }

  /** Mapping over an element followed by more elements. */
  lemma MapSeqCons<A, B>(f: A -> B, x: A, xs: seq<A>)
    ensures MapSeq(f, [x] + xs) == [f(x)] + MapSeq(f, xs)
  {
    var a, b := MapSeq(f, [x] + xs), MapSeq(f, xs);
    forall i | 1 <= i < |a|
      ensures a[i] == b[i - 1]
    {
      assert ([x] + xs)[i] == xs[i - 1];
    }
  }

  /** Attributes(s) begins with the attribute of the match at the start of s. */
  lemma AttributesOfMatch(s: Bytes)
    requires MatchAt(s).Some?
    ensures Attributes(s) == [Extract(MatchAt(s).value.1)] + Attributes(s[MatchAt(s).value.0..])
  {
    var (len, m) := MatchAt(s).value;
    FindAllAtMatch(s);
    MapSeqCons(Extract, m, FindAll(s[len..]));
  }

  /** Where the parts of `name=QvalueQ` sit in a tag that starts with it. */
  lemma QuotedLayout(name: Bytes, value: Bytes, quote: byte, rest: Bytes)
    requires |name| > 0 && forall i :: 0 <= i < |name| ==> IsLowerLetter(name[i])
    ensures var s := Quoted(name, value, quote) + rest;
            var n, v := |name|, |value|;
            && n + v + 3 <= |s|
            && LetterRun(s) == n
            && s[..n] == name && s[n] == EQUALS && s[n + 1] == quote
            && s[n + 2..n + 2 + v] == value && s[n + 2 + v] == quote
  {
    var s := Quoted(name, value, quote) + rest;
    var n, v := |name|, |value|;
    assert forall i :: 0 <= i < n ==> s[i] == name[i];
    assert s[n] == EQUALS && !IsLowerLetter(EQUALS);
    assert forall i :: 0 <= i < v ==> s[n + 2 + i] == value[i];
    assert s[..n] == name;
    assert s[n + 2..n + 2 + v] == value;
  }

  /** A double-quoted attribute at the start of a tag is matched by the first alternative. */
  lemma DoubleQuotedMatch(name: Bytes, value: Bytes, rest: Bytes)
    requires |name| > 0 && forall i :: 0 <= i < |name| ==> IsLowerLetter(name[i])
    requires |value| > 0 && forall i :: 0 <= i < |value| ==> IsValueByte(value[i], DQUOTE)
    ensures MatchAt(Quoted(name, value, DQUOTE) + rest)
            == Some((|name| + |value| + 3, Submatch(name, value, [], [])))
  {
    var n, v := |name|, |value|;
    var d := Quoted(name, value, DQUOTE) + rest;
    QuotedLayout(name, value, DQUOTE, rest);
    assert forall i :: n + 2 <= i < n + 2 + v ==> d[i] == value[i - (n + 2)];
    assert QuotedMatch(d, DQUOTE, n, v);
    QuotedAtIsTheMatch(d, DQUOTE);
  }

  /** A single-quoted attribute at the start of a tag is matched by the second alternative. */
  lemma SingleQuotedMatch(name: Bytes, value: Bytes, rest: Bytes)
    requires |name| > 0 && forall i :: 0 <= i < |name| ==> IsLowerLetter(name[i])
    requires |value| > 0 && forall i :: 0 <= i < |value| ==> IsValueByte(value[i], SQUOTE)
    ensures MatchAt(Quoted(name, value, SQUOTE) + rest)
            == Some((|name| + |value| + 3, Submatch([], [], name, value)))
  {
    var n, v := |name|, |value|;
    var q := Quoted(name, value, SQUOTE) + rest;
    QuotedLayout(name, value, SQUOTE, rest);
    assert QuotedAt(q, DQUOTE) == None;
    assert forall i :: n + 2 <= i < n + 2 + v ==> q[i] == value[i - (n + 2)];
    assert QuotedMatch(q, SQUOTE, n, v);
    QuotedAtIsTheMatch(q, SQUOTE);
  }

  /**
   * The double- and single-quoted forms of an attribute scan alike: either
   * form followed by any text yields the (name, trimmed value) pair and then
   * whatever that text yields.
   */
  lemma QuoteStylesAgree(name: Bytes, value: Bytes, rest: Bytes)
    requires |name| > 0 && forall i :: 0 <= i < |name| ==> IsLowerLetter(name[i])
    requires |value| > 0 && forall i :: 0 <= i < |value| ==> IsValueByte(value[i], DQUOTE) && value[i] != SQUOTE
    ensures Attributes(Quoted(name, value, DQUOTE) + rest) == [Attribute(name, TrimSpace(value))] + Attributes(rest)
    ensures Attributes(Quoted(name, value, SQUOTE) + rest) == [Attribute(name, TrimSpace(value))] + Attributes(rest)
  {
    var len := |name| + |value| + 3;
    var d := Quoted(name, value, DQUOTE) + rest;
    DoubleQuotedMatch(name, value, rest);
    assert d[len..] == rest;
    AttributesOfMatch(d);

    var q := Quoted(name, value, SQUOTE) + rest;
    SingleQuotedMatch(name, value, rest);
    assert q[len..] == rest;
    AttributesOfMatch(q);
  }
}
