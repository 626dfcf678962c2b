/**
 * What the ESI tag parser promises, stated and proved about the
 * specification functions of EsiTag (and so, through the ensures clauses of
 * Entity.ParseRaw and ParseRawAll, about the in-place parser).
 */
module EsiTagProperties {
  import opened Wrappers
  import opened ByteStrings
  import opened AttributeScan
  import opened EsiTag

  /** The number of src attributes in an attribute stream. */
  function CountSources(attrs: seq<Attribute>): nat
  {
    if |attrs| == 0 then 0
    else (if attrs[0].name == AttrSrc then 1 else 0) + CountSources(attrs[1..])
  }

  // ------------------------------------------------------------------
  // One attribute
  // ------------------------------------------------------------------

  /**
   * One attribute leaves the raw tag and the tag position alone, and moves
   * the src counter on by one exactly when it is a src that succeeded.
   */
  lemma StepKeepsTagAndCounts(p: Progress, a: Attribute, env: Env)
    ensures var (q, err) := Step(p, a, env);
      && q.st.rawTag == p.st.rawTag && q.st.tag == p.st.tag
      && q.srcCounter == p.srcCounter + (if a.name == AttrSrc && err.None? then 1 else 0)
  {
  }

  /**
   * A src value: it fails only for a templated URL whose template does not
   * parse; otherwise exactly one slot is appended, at the current index, and
   * only the slot it came from (when one was found) changes, becoming the
   * same resource as the appended one.
   */
  lemma SrcAppendsOneSlot(items: seq<Resource>, idx: int, val: Bytes, env: Env)
    ensures var (items', cause) := ResourceStep(items, SrcAttr, idx, val, env);
      var pos := FirstAt(items, idx);
      && (cause.Some? <==> Contains(val, SchemeSeparator) && Contains(val, TemplateIdentifier) && !env.templateParses(val))
      && (cause.Some? ==> cause == Some(TemplateSyntax(val)) && |items'| == |items|)
      && (cause.None? ==>
            && |items'| == |items| + 1
            && items'[|items|].index == idx
            && (forall i :: 0 <= i < |items| && i != pos ==> items'[i] == items[i])
            && (pos >= 0 ==> items'[pos] == items'[|items|]))
  {
  }

  /**
   * The slot a successful src appends: a URL exactly when the value holds
   * "://"; a URL with "{{" gets the compiled template and keeps the URL it
   * had; every other value is stored verbatim as the URL. The key fields
   * come from the slot that was reused, if any.
   */
  lemma SrcClassification(items: seq<Resource>, idx: int, val: Bytes, env: Env)
    requires ResourceStep(items, SrcAttr, idx, val, env).1.None?
    ensures var r := ResourceStep(items, SrcAttr, idx, val, env).0[|items|];
      var base := SlotOrNew(items, idx, env);
      && (r.isURL <==> Contains(val, SchemeSeparator))
      && (r.isURL && Contains(val, TemplateIdentifier) ==>
            r.urlTemplate == Some(Template(ResourceTpl, val)) && r.url == base.url)
      && (!(r.isURL && Contains(val, TemplateIdentifier)) ==>
            r.url == val && r.urlTemplate == base.urlTemplate)
      && r.key == base.key && r.keyTemplate == base.keyTemplate
  {
  }

  /**
   * A key value: it fails exactly when applyKey rejects it, and then nothing
   * changes. If a slot at the current index exists the key goes into it and
   * the list does not grow; otherwise a slot made from NewResource, with
   * that index, IsURL false and the key, is appended.
   */
  lemma KeyMergesOrAppends(items: seq<Resource>, idx: int, val: Bytes, env: Env)
    ensures var (items', cause) := ResourceStep(items, KeyAttr, idx, val, env);
      var pos := FirstAt(items, idx);
      && (cause.Some? <==> env.applyKey(val).None?)
      && (cause.Some? ==> items' == items && cause == Some(KeyRejected(val)))
      && (cause.None? && pos >= 0 ==>
            var k := env.applyKey(val).value;
            && |items'| == |items|
            && (forall i :: 0 <= i < |items| && i != pos ==> items'[i] == items[i])
            && items'[pos].key == k.key && items'[pos].keyTemplate == k.keyTemplate
            && items'[pos].(key := items[pos].key, keyTemplate := items[pos].keyTemplate) == items[pos])
      && (cause.None? && pos < 0 ==>
            var k := env.applyKey(val).value;
            && |items'| == |items| + 1 && items'[..|items|] == items
            && items'[|items|] == env.newResource.(isURL := false, key := k.key, keyTemplate := k.keyTemplate, index := idx))
  {
  }

  /**
   * forwardheaders and returnheaders never fail: "all" sets only the
   * all-flag, any other value replaces only the list.
   */
  lemma HeaderPolicies(p: Progress, a: Attribute, env: Env)
    requires a.name == AttrForwardHeaders || a.name == AttrReturnHeaders
    ensures var (q, err) := Step(p, a, env);
      && err.None? && q.srcCounter == p.srcCounter
      && (a.name == AttrForwardHeaders && a.value == AllHeaders ==> q.st == p.st.(forwardHeadersAll := true))
      && (a.name == AttrForwardHeaders && a.value != AllHeaders ==>
            q.st == p.st.(forwardHeaders := env.commaListToSlice(a.value)))
      && (a.name == AttrReturnHeaders && a.value == AllHeaders ==> q.st == p.st.(returnHeadersAll := true))
      && (a.name == AttrReturnHeaders && a.value != AllHeaders ==>
            q.st == p.st.(returnHeaders := env.commaListToSlice(a.value)))
  {
  }

  /**
   * timeout and ttl fail exactly when the duration does not parse; the field
   * then holds zero, otherwise the parsed duration, and nothing else changes.
   */
  lemma Durations(p: Progress, a: Attribute, env: Env)
    requires a.name == AttrTimeout || a.name == AttrTtl
    ensures var (q, err) := Step(p, a, env);
      var d := env.parseDuration(a.value);
      var v := if d.Some? then d.value else 0;
      && q.srcCounter == p.srcCounter
      && (err.Some? <==> d.None?)
      && (err.Some? ==> err == Some(BadDuration(a.name, a.value, p.st.rawTag)))
      && (a.name == AttrTimeout ==> q.st == p.st.(timeout := v))
      && (a.name == AttrTtl ==> q.st == p.st.(ttl := v))
  {
  }

  /**
   * A condition never makes parsing fail: the condition is installed even
   * when its template is malformed, holding no template then.
   */
  lemma ConditionNeverFails(p: Progress, a: Attribute, env: Env)
    requires a.name == AttrCondition
    ensures var (q, err) := Step(p, a, env);
      && err.None? && q.srcCounter == p.srcCounter
      && q.st == p.st.(conditioner := Some(Condition(
           if env.templateParses(a.value) then Some(Template(ConditionTpl, a.value)) else None)))
  {
  }

  /** onerror is stored verbatim; an attribute the parser does not know changes nothing. */
  lemma OtherAttributes(p: Progress, a: Attribute, env: Env)
    requires a.name !in {AttrSrc, AttrKey, AttrCondition, AttrTimeout, AttrTtl, AttrForwardHeaders, AttrReturnHeaders}
    ensures a.name == AttrOnError ==> Step(p, a, env) == (Progress(p.st.(onError := a.value), p.srcCounter), None)
    ensures a.name != AttrOnError ==> Step(p, a, env) == (p, None)
  {
  }

  // ------------------------------------------------------------------
  // A whole tag
  // ------------------------------------------------------------------

  /**
   * Over a run of attributes, the counter grows by at most the number of
   * src attributes, and by exactly that number when the run succeeds; the
   * raw tag and tag position are left alone.
   */
  lemma {:induction false} ParseAttrsCountsSources(p: Progress, attrs: seq<Attribute>, env: Env)
    ensures var (q, err) := ParseAttrs(p, attrs, env);
      && q.st.rawTag == p.st.rawTag && q.st.tag == p.st.tag
      && q.srcCounter <= p.srcCounter + CountSources(attrs)
      && (err.None? ==> q.srcCounter == p.srcCounter + CountSources(attrs))
    decreases |attrs|
  {
    if |attrs| > 0 {
      StepKeepsTagAndCounts(p, attrs[0], env);
      var (q, err) := Step(p, attrs[0], env);
      if err.None? {
        ParseAttrsCountsSources(q, attrs[1..], env);
      }
    }
  }

  /**
   * The slot a src appends carries the number of src attributes before it
   * in the tag as its Index.
   */
  lemma SourceSlotIndex(st: EntityState, attrs: seq<Attribute>, k: nat, env: Env)
    requires k < |attrs| && attrs[k].name == AttrSrc
    requires ParseAttrs(Progress(st, 0), attrs[..k], env).1.None?
    requires Step(ParseAttrs(Progress(st, 0), attrs[..k], env).0, attrs[k], env).1.None?
    ensures var p := ParseAttrs(Progress(st, 0), attrs[..k], env).0;
      var q := Step(p, attrs[k], env).0;
      && |q.st.items| == |p.st.items| + 1
      && q.st.items[|p.st.items|].index == CountSources(attrs[..k])
  {
    var p := ParseAttrs(Progress(st, 0), attrs[..k], env).0;
    ParseAttrsCountsSources(Progress(st, 0), attrs[..k], env);
    SrcAppendsOneSlot(p.st.items, p.srcCounter, attrs[k].value, env);
  }

  /** A tag without raw bytes parses successfully and changes nothing. */
  lemma EmptyTagIsNoOp(st: EntityState, env: Env)
    requires |st.rawTag| == 0
    ensures ParseEntity(st, env) == (st, None)
  {
  }

  /**
   * Parsing never touches the raw tag or the tag position. A non-empty tag
   * parses successfully only if it has a src attribute, and it then holds at
   * least one slot; a tag with no src (only a key, say) is an error.
   */
  lemma SuccessNeedsSource(st: EntityState, env: Env)
    ensures ParseEntity(st, env).0.rawTag == st.rawTag && ParseEntity(st, env).0.tag == st.tag
    ensures |st.rawTag| > 0 && ParseEntity(st, env).1.None? ==>
      |ParseEntity(st, env).0.items| > 0 && CountSources(Attributes(st.rawTag)) > 0
    ensures |st.rawTag| > 0 && CountSources(Attributes(st.rawTag)) == 0 ==> ParseEntity(st, env).1.Some?
  {
    if |st.rawTag| > 0 {
      var attrs := Attributes(st.rawTag);
      ParseAttrsCountsSources(Progress(st, 0), attrs, env);
      var (p, err) := ParseAttrs(Progress(st, 0), attrs, env);
      ParseEntityResult(st, p, err, env);
    }
  }

  /** The attribute stream of a tag holding nothing but a key attribute. */
  lemma KeyOnlyAttributes(rawTag: Bytes, value: Bytes)
    requires |value| > 0 && forall i :: 0 <= i < |value| ==> IsValueByte(value[i], DQUOTE) && value[i] != SQUOTE
    requires rawTag == Quoted(AttrKey, value, DQUOTE) || rawTag == Quoted(AttrKey, value, SQUOTE)
    ensures Attributes(rawTag) == [Attribute(AttrKey, TrimSpace(value))]
  {
    QuoteStylesAgree(AttrKey, value, []);
    assert Quoted(AttrKey, value, DQUOTE) + [] == Quoted(AttrKey, value, DQUOTE);
    assert Quoted(AttrKey, value, SQUOTE) + [] == Quoted(AttrKey, value, SQUOTE);
  }

  /** A tag holding nothing but a key attribute fails. */
  lemma KeyOnlyTagFails(st: EntityState, value: Bytes, env: Env)
    requires |value| > 0 && forall i :: 0 <= i < |value| ==> IsValueByte(value[i], DQUOTE) && value[i] != SQUOTE
    requires st.rawTag == Quoted(AttrKey, value, DQUOTE) || st.rawTag == Quoted(AttrKey, value, SQUOTE)
    ensures ParseEntity(st, env).1.Some?
  {
    KeyOnlyAttributes(st.rawTag, value);
    var attrs := Attributes(st.rawTag);
    assert AttrKey != AttrSrc by { assert AttrKey[0] != AttrSrc[0]; }
    assert CountSources(attrs) == 0 by { assert attrs[1..] == []; }
    SuccessNeedsSource(st, env);
  }

  // ------------------------------------------------------------------
  // Slots at the current index
  // ------------------------------------------------------------------

  /**
   * No slot lies beyond the src counter and at most one lies at it. The
   * slot the linear scan finds is therefore never one of the two positions
   * a reused slot occupies, which is why items can be modelled as values
   * although the source shares resource pointers.
   */
  ghost predicate SlotsConsistent(items: seq<Resource>, counter: int)
  {
    && (forall i :: 0 <= i < |items| ==> items[i].index <= counter)
    && (forall i, j :: 0 <= i < j < |items| && items[i].index == counter ==> items[j].index != counter)
  }

  lemma StepKeepsSlotsConsistent(p: Progress, a: Attribute, env: Env)
    requires SlotsConsistent(p.st.items, p.srcCounter)
    ensures SlotsConsistent(Step(p, a, env).0.st.items, Step(p, a, env).0.srcCounter)
  {
    var items, n := p.st.items, p.srcCounter;
    if a.name == AttrSrc {
      SrcAppendsOneSlot(items, n, a.value, env);
    } else if a.name == AttrKey {
      KeyMergesOrAppends(items, n, a.value, env);
    }
  }

  lemma {:induction false} ParseAttrsKeepsSlotsConsistent(p: Progress, attrs: seq<Attribute>, env: Env)
    requires SlotsConsistent(p.st.items, p.srcCounter)
    ensures SlotsConsistent(ParseAttrs(p, attrs, env).0.st.items, ParseAttrs(p, attrs, env).0.srcCounter)
    decreases |attrs|
  {
    if |attrs| > 0 {
      StepKeepsSlotsConsistent(p, attrs[0], env);
      var (q, err) := Step(p, attrs[0], env);
      if err.None? {
        ParseAttrsKeepsSlotsConsistent(q, attrs[1..], env);
      }
    }
  }

  /**
   * Parsing a whole tag from an entity whose slots are consistent at counter
   * 0 (in particular one with no slots yet) ends with consistent slots.
   */
  lemma ParseEntityKeepsSlotsConsistent(st: EntityState, env: Env)
    requires SlotsConsistent(st.items, 0)
    ensures var (p, _) := ParseAttrs(Progress(st, 0), Attributes(st.rawTag), env);
      && SlotsConsistent(p.st.items, p.srcCounter)
      && (|st.rawTag| > 0 ==> ParseEntity(st, env).0.items == p.st.items)
    ensures |st.rawTag| == 0 ==> ParseEntity(st, env).0.items == st.items
  {
    var (p, err) := ParseAttrs(Progress(st, 0), Attributes(st.rawTag), env);
    ParseAttrsKeepsSlotsConsistent(Progress(st, 0), Attributes(st.rawTag), env);
    if |st.rawTag| > 0 {
      ParseEntityResult(st, p, err, env);
    }
  }

  // ------------------------------------------------------------------
  // How src and key pair up
  // ------------------------------------------------------------------

  /**
   * src followed by key: the counter has already moved on when the key is
   * read, so the key opens a second slot, with IsURL false, at index 1 instead of
   * joining the source's slot.
   */
  lemma KeyAfterSourceOpensNextSlot(st: EntityState, url: Bytes, key: Bytes, env: Env)
    requires st.items == []
    requires !Contains(url, TemplateIdentifier) && env.applyKey(key).Some?
    ensures var (p, err) := ParseAttrs(Progress(st, 0), [Attribute(AttrSrc, url), Attribute(AttrKey, key)], env);
      var k := env.applyKey(key).value;
      && err.None? && p.srcCounter == 1 && |p.st.items| == 2
      && p.st.items[0].index == 0 && p.st.items[0].url == url
      && p.st.items[1].index == 1 && !p.st.items[1].isURL && p.st.items[1].key == k.key
  {
    var attrs := [Attribute(AttrSrc, url), Attribute(AttrKey, key)];
    var p0 := Progress(st, 0);
    var (p1, e1) := Step(p0, attrs[0], env);
    SrcAppendsOneSlot(st.items, 0, url, env);
    SrcClassification(st.items, 0, url, env);
    assert e1.None? && p1.srcCounter == 1 && |p1.st.items| == 1;
    ParseAttrsStep(p0, attrs, 0, p1, e1, env);
    assert AttrKey != AttrSrc by { assert AttrKey[0] != AttrSrc[0]; }
    var (p2, e2) := Step(p1, attrs[1], env);
    KeyMergesOrAppends(p1.st.items, 1, key, env);
    assert FirstAt(p1.st.items, 1) == -1;
    ParseAttrsStep(p1, attrs, 1, p2, e2, env);
    assert attrs[0..] == attrs && attrs[2..] == [];
  }

  /**
   * key followed by src: the source reuses the key's slot and appends it
   * again, so the list holds the same resource twice.
   */
  lemma KeyBeforeSourceSharesSlot(st: EntityState, key: Bytes, url: Bytes, env: Env)
    requires st.items == []
    requires !Contains(url, TemplateIdentifier) && env.applyKey(key).Some?
    ensures var (p, err) := ParseAttrs(Progress(st, 0), [Attribute(AttrKey, key), Attribute(AttrSrc, url)], env);
      var k := env.applyKey(key).value;
      && err.None? && p.srcCounter == 1 && |p.st.items| == 2
      && p.st.items[0] == p.st.items[1]
      && p.st.items[0].index == 0 && p.st.items[0].url == url && p.st.items[0].key == k.key
  {
    var attrs := [Attribute(AttrKey, key), Attribute(AttrSrc, url)];
    var p0 := Progress(st, 0);
    assert AttrKey != AttrSrc by { assert AttrKey[0] != AttrSrc[0]; }
    var (p1, e1) := Step(p0, attrs[0], env);
    KeyMergesOrAppends(st.items, 0, key, env);
    assert e1.None? && p1.srcCounter == 0 && |p1.st.items| == 1 && p1.st.items[0].index == 0;
    ParseAttrsStep(p0, attrs, 0, p1, e1, env);
    assert FirstAt(p1.st.items, 0) == 0;
    var (p2, e2) := Step(p1, attrs[1], env);
    SrcAppendsOneSlot(p1.st.items, 0, url, env);
    SrcClassification(p1.st.items, 0, url, env);
    ParseAttrsStep(p1, attrs, 1, p2, e2, env);
    assert attrs[0..] == attrs && attrs[2..] == [];
  }
}
