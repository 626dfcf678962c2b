/**
 * The ESI tag entity parser: one raw tag becomes an Entity whose resource
 * slots, durations, header policies and condition are filled in from the
 * tag's attributes; a list of entities is parsed fail-fast.
 *
 * The parsing functions (ResourceStep, Step, ParseAttrs, ParseEntity,
 * ParseEntities) are the specification; the class Entity and ParseRawAll
 * carry it out in place and are proved against it.
 */
module EsiTag {
  import opened Wrappers
  import opened ByteStrings
  import opened AttributeScan

  /** A value containing this marks an inline template. */
  const TemplateIdentifier: Bytes := [0x7B, 0x7B]                  // "{{"
  /** A src value containing this is a URL. */
  const SchemeSeparator: Bytes := [0x3A, 0x2F, 0x2F]               // "://"
  /** The header-policy value that selects every header. */
  const AllHeaders: Bytes := [0x61, 0x6C, 0x6C]                    // "all"

  const AttrSrc: Bytes := [0x73, 0x72, 0x63]                       // "src"
  const AttrKey: Bytes := [0x6B, 0x65, 0x79]                       // "key"
  const AttrCondition: Bytes :=
    [0x63, 0x6F, 0x6E, 0x64, 0x69, 0x74, 0x69, 0x6F, 0x6E]         // "condition"
  const AttrOnError: Bytes := [0x6F, 0x6E, 0x65, 0x72, 0x72, 0x6F, 0x72]  // "onerror"
  const AttrTimeout: Bytes := [0x74, 0x69, 0x6D, 0x65, 0x6F, 0x75, 0x74]  // "timeout"
  const AttrTtl: Bytes := [0x74, 0x74, 0x6C]                       // "ttl"
  const AttrForwardHeaders: Bytes :=
    [0x66, 0x6F, 0x72, 0x77, 0x61, 0x72, 0x64, 0x68, 0x65, 0x61, 0x64, 0x65, 0x72, 0x73]  // "forwardheaders"
  const AttrReturnHeaders: Bytes :=
    [0x72, 0x65, 0x74, 0x75, 0x72, 0x6E, 0x68, 0x65, 0x61, 0x64, 0x65, 0x72, 0x73]        // "returnheaders"

  /** The two template.New names the parser uses. */
  datatype TemplateName = ResourceTpl | ConditionTpl

  /** A compiled text/template, identified by its name and the text it was parsed from. */
  datatype Template = Template(name: TemplateName, text: Bytes)

  /** What Resource.applyKey stores in a resource: the key, and its template when it has one. */
  datatype KeySetting = KeySetting(key: Bytes, keyTemplate: Option<Template>)

  /** One backend resource slot of an entity. */
  datatype Resource = Resource(
    index: int,
    isURL: bool,
    url: Bytes,
    urlTemplate: Option<Template>,
    key: Bytes,
    keyTemplate: Option<Template>)

  /** The Conditioner the parser installs: a condition wrapping a possibly absent template. */
  datatype Condition = Condition(template: Option<Template>)

  /** The byte range of a tag in the page, and the data fetched for it. */
  datatype Tag = Tag(data: Bytes, start: int, end: int)

  /**
   * The collaborators the parser calls and whose code is not modelled:
   * whether text/template accepts a text, time.ParseDuration (in
   * nanoseconds, None on error), helpers.CommaListToSlice,
   * Resource.applyKey (None on error) and NewResource.
   */
  datatype Env = Env(
    templateParses: Bytes -> bool,
    parseDuration: Bytes -> Option<int>,
    commaListToSlice: Bytes -> seq<Bytes>,
    applyKey: Bytes -> Option<KeySetting>,
    newResource: Resource)

  /** Why parseResource failed. */
  datatype Cause = TemplateSyntax(text: Bytes) | KeyRejected(text: Bytes)

  /** The errors ParseRaw returns; each carries the raw tag. */
  datatype ParseError =
    | ResourceFailed(attr: Bytes, value: Bytes, rawTag: Bytes, cause: Cause)
    | BadDuration(attr: Bytes, value: Bytes, rawTag: Bytes)
    | MissingSource(rawTag: Bytes)

  /** The error of Entities.ParseRaw: the position of the failing entity and its error. */
  datatype BatchError = BatchError(index: nat, cause: ParseError)

  /** The attribute parseResource is called for. */
  datatype ResourceAttr = SrcAttr | KeyAttr

  /** The fields of an entity. */
  datatype EntityState = EntityState(
    rawTag: Bytes,
    tag: Tag,
    items: seq<Resource>,
    ttl: int,
    timeout: int,
    onError: Bytes,
    forwardHeaders: seq<Bytes>,
    forwardHeadersAll: bool,
    returnHeaders: seq<Bytes>,
    returnHeadersAll: bool,
    conditioner: Option<Condition>)

  /** An entity part-way through its attributes, with the count of src attributes done. */
  datatype Progress = Progress(st: EntityState, srcCounter: nat)

  /** template.New(name).Parse(text): the template, or None when the text is malformed. */
  function ParseTemplate(env: Env, name: TemplateName, text: Bytes): Option<Template>
  {
    if env.templateParses(text) then Some(Template(name, text)) else None
  }

  /** condition.OK: the condition is a placeholder that admits no request. */
  function ConditionOK<Request>(c: Condition, r: Request): (ok: bool)
    ensures !ok
  {
    false
  }

  /** parseCondition: the condition installed for a condition text. */
  function CompileCondition(text: Bytes, env: Env): Condition
  {
    Condition(ParseTemplate(env, ConditionTpl, text))
  }

  /** The position of the first item whose Index is idx, or -1 when there is none. */
  function FirstAt(items: seq<Resource>, idx: int): (pos: int)
    ensures -1 <= pos < |items|
    ensures pos == -1 <==> forall i :: 0 <= i < |items| ==> items[i].index != idx
    ensures pos >= 0 ==> items[pos].index == idx && forall i :: 0 <= i < pos ==> items[i].index != idx
    decreases |items|
  {
    if |items| == 0 then -1
    else if items[0].index == idx then 0
    else
      var p := FirstAt(items[1..], idx);
      if p == -1 then -1 else p + 1
  }

  /** The linear scan of parseResource for the slot at idx. */
  method FindItem(items: seq<Resource>, idx: int) returns (pos: int)
    ensures pos == FirstAt(items, idx)
  {
    pos := -1;
    var i := 0;
    while i < |items|
      invariant 0 <= i <= |items|
      invariant forall j :: 0 <= j < i ==> items[j].index != idx
    {
      if items[i].index == idx {
        pos := i;
        break;
      }
      i := i + 1;
    }
  }

  /** The resource parseResource starts from: the slot at idx if there is one, else a new one. */
  function SlotOrNew(items: seq<Resource>, idx: int, env: Env): Resource
  {
    var pos := FirstAt(items, idx);
    if pos >= 0 then items[pos] else env.newResource
  }

  /**
   * Writes a resource back to the position it was taken from. The items are
   * pointers, so a change to a found slot is visible in the list at once;
   * pos < 0 means the resource is new and not yet in the list.
   */
  function WriteBack(items: seq<Resource>, pos: int, r: Resource): seq<Resource>
    requires pos < |items|
  {
    if pos >= 0 then items[pos := r] else items
  }

  /**
   * parseResource: the items after processing one src or key value at the
   * slot index idx, and the cause when it fails.
   */
  function ResourceStep(items: seq<Resource>, attr: ResourceAttr, idx: int, val: Bytes, env: Env)
    : (seq<Resource>, Option<Cause>)
  {
    var pos := FirstAt(items, idx);
    if attr == KeyAttr && pos >= 0 then
      match env.applyKey(val)
      case Some(k) => (items[pos := items[pos].(key := k.key, keyTemplate := k.keyTemplate)], None)
      case None => (items, Some(KeyRejected(val)))
    else
      var r := SlotOrNew(items, idx, env).(isURL := attr == SrcAttr && Contains(val, SchemeSeparator));
      if r.isURL && Contains(val, TemplateIdentifier) then
        var t := ParseTemplate(env, ResourceTpl, val);
        var r' := r.(urlTemplate := t);
        if t.None? then (WriteBack(items, pos, r'), Some(TemplateSyntax(val)))
        else (WriteBack(items, pos, r'.(index := idx)) + [r'.(index := idx)], None)
      else if attr == SrcAttr then
        var r' := r.(url := val, index := idx);
        (WriteBack(items, pos, r') + [r'], None)
      else
        match env.applyKey(val)
        case None => (items, Some(KeyRejected(val)))
        case Some(k) =>
          var r' := r.(key := k.key, keyTemplate := k.keyTemplate, index := idx);
          (items + [r'], None)
  }

  /** The header policy after a forwardheaders or returnheaders value. */
  function HeaderPolicy(value: Bytes, list: seq<Bytes>, all: bool, env: Env): (seq<Bytes>, bool)
  {
    if value == AllHeaders then (list, true) else (env.commaListToSlice(value), all)
  }

  /** One pass of the ParseRaw loop: dispatch on the attribute name. */
  function Step(p: Progress, a: Attribute, env: Env): (Progress, Option<ParseError>)
  {
    var st, n, v := p.st, p.srcCounter, a.value;
    if a.name == AttrSrc then
      var (items, cause) := ResourceStep(st.items, SrcAttr, n, v, env);
      if cause.Some? then (Progress(st.(items := items), n), Some(ResourceFailed(AttrSrc, v, st.rawTag, cause.value)))
      else (Progress(st.(items := items), n + 1), None)
    else if a.name == AttrKey then
      var (items, cause) := ResourceStep(st.items, KeyAttr, n, v, env);
      if cause.Some? then (Progress(st.(items := items), n), Some(ResourceFailed(AttrKey, v, st.rawTag, cause.value)))
      else (Progress(st.(items := items), n), None)
    else if a.name == AttrCondition then
      (Progress(st.(conditioner := Some(CompileCondition(v, env))), n), None)
    else if a.name == AttrOnError then
      (Progress(st.(onError := v), n), None)
    else if a.name == AttrTimeout then
      match env.parseDuration(v)
      case Some(d) => (Progress(st.(timeout := d), n), None)
      case None => (Progress(st.(timeout := 0), n), Some(BadDuration(AttrTimeout, v, st.rawTag)))
    else if a.name == AttrTtl then
      match env.parseDuration(v)
      case Some(d) => (Progress(st.(ttl := d), n), None)
      case None => (Progress(st.(ttl := 0), n), Some(BadDuration(AttrTtl, v, st.rawTag)))
    else if a.name == AttrForwardHeaders then
      var (list, all) := HeaderPolicy(v, st.forwardHeaders, st.forwardHeadersAll, env);
      (Progress(st.(forwardHeaders := list, forwardHeadersAll := all), n), None)
    else if a.name == AttrReturnHeaders then
      var (list, all) := HeaderPolicy(v, st.returnHeaders, st.returnHeadersAll, env);
      (Progress(st.(returnHeaders := list, returnHeadersAll := all), n), None)
    else
      (p, None)
  }

  /** The ParseRaw loop over an attribute stream, stopping at the first error. */
  function ParseAttrs(p: Progress, attrs: seq<Attribute>, env: Env): (Progress, Option<ParseError>)
    decreases |attrs|
  {
    if |attrs| == 0 then (p, None)
    else
      var (q, err) := Step(p, attrs[0], env);
      if err.Some? then (q, err) else ParseAttrs(q, attrs[1..], env)
  }

  /** One pass of the loop: the rest of the run either stops here or goes on from the new progress. */
  lemma ParseAttrsStep(p: Progress, attrs: seq<Attribute>, k: nat, q: Progress, err: Option<ParseError>, env: Env)
    requires k < |attrs| && Step(p, attrs[k], env) == (q, err)
    ensures err.Some? ==> ParseAttrs(p, attrs[k..], env) == (q, err)
    ensures err.None? ==> ParseAttrs(p, attrs[k..], env) == ParseAttrs(q, attrs[k + 1..], env)
  {
    assert attrs[k..][0] == attrs[k] && attrs[k..][1..] == attrs[k + 1..];
  }

  /** Entity.ParseRaw: the entity's new fields and the error, if any. */
  function ParseEntity(st: EntityState, env: Env): (EntityState, Option<ParseError>)
  {
    if |st.rawTag| == 0 then (st, None)
    else
      var (p, err) := ParseAttrs(Progress(st, 0), Attributes(st.rawTag), env);
      if err.Some? then (p.st, err)
      else if |p.st.items| == 0 || p.srcCounter == 0 then (p.st, Some(MissingSource(st.rawTag)))
      else (p.st, None)
  }

  /** How ParseEntity of a non-empty tag follows from the run over its attributes. */
  lemma ParseEntityResult(st: EntityState, p: Progress, err: Option<ParseError>, env: Env)
    requires |st.rawTag| > 0 && ParseAttrs(Progress(st, 0), Attributes(st.rawTag), env) == (p, err)
    ensures err.Some? ==> ParseEntity(st, env) == (p.st, err)
    ensures err.None? ==>
      ParseEntity(st, env) == (p.st, if |p.st.items| == 0 || p.srcCounter == 0 then Some(MissingSource(st.rawTag)) else None)
  {
  }

  /** The outcome of parsing one entity: its new fields and the error, if any. */
  type Outcome = (EntityState, Option<ParseError>)

  /** Runs parse over the entities in order until one fails. */
  function FailFast(states: seq<EntityState>, parse: EntityState -> Outcome): (r: (seq<EntityState>, Option<BatchError>))
    ensures |r.0| == |states|
    decreases |states|
  {
    if |states| == 0 then ([], None)
    else
      var (first, err) := parse(states[0]);
      if err.Some? then ([first] + states[1..], Some(BatchError(0, err.value)))
      else
        var (rest, batchErr) := FailFast(states[1..], parse);
        ([first] + rest, if batchErr.Some? then Some(BatchError(batchErr.value.index + 1, batchErr.value.cause)) else None)
  }

  /** The fail-fast outcome as a whole, as a property of a result and an error. */
  ghost predicate FailFastOutcome(states: seq<EntityState>, parse: EntityState -> Outcome,
                                  after: seq<EntityState>, err: Option<BatchError>)
  {
    && |after| == |states|
    && (err.None? ==> forall i :: 0 <= i < |states| ==> parse(states[i]) == (after[i], None))
    && (err.Some? ==>
          var k := err.value.index;
          && k < |states|
          && (forall i :: 0 <= i < k ==> parse(states[i]) == (after[i], None))
          && parse(states[k]) == (after[k], Some(err.value.cause))
          && (forall i :: k < i < |states| ==> after[i] == states[i]))
  }

  /**
   * FailFast's result: every entity parsed without error, or the error names
   * the first failing position, the entities before it are parsed and the
   * ones after it are untouched.
   */
  lemma {:induction false} FailFastCharacterized(states: seq<EntityState>, parse: EntityState -> Outcome)
    ensures FailFastOutcome(states, parse, FailFast(states, parse).0, FailFast(states, parse).1)
    decreases |states|
  {
    if |states| > 0 {
      var (first, err) := parse(states[0]);
      var r := FailFast(states, parse).0;
      if err.Some? {
        assert r == [first] + states[1..];
        assert forall i :: 0 < i < |states| ==> r[i] == states[i];
      } else {
        var tail := states[1..];
        FailFastCharacterized(tail, parse);
        var rest := FailFast(tail, parse).0;
        assert r == [first] + rest;
        assert forall i :: 0 < i < |states| ==> r[i] == rest[i - 1] && states[i] == tail[i - 1];
      }
    }
  }

  /** Entities.ParseRaw, lines 212-219: ParseEntity over the entities of a page, fail-fast. */
  function ParseEntities(states: seq<EntityState>, env: Env): (r: (seq<EntityState>, Option<BatchError>))
    ensures |r.0| == |states|
    ensures r.1.None? ==>
      forall i :: 0 <= i < |states| ==> ParseEntity(states[i], env) == (r.0[i], None)
    ensures r.1.Some? ==>
      var k := r.1.value.index;
      && k < |states|
      && (forall i :: 0 <= i < k ==> ParseEntity(states[i], env) == (r.0[i], None))
      && ParseEntity(states[k], env) == (r.0[k], Some(r.1.value.cause))
      && (forall i :: k < i < |states| ==> r.0[i] == states[i])
  {
    FailFastCharacterized(states, s => ParseEntity(s, env));
    FailFast(states, s => ParseEntity(s, env))
  }

  /** One ESI tag of a page, parsed in place. */
  class Entity {
    var rawTag: Bytes
    var tag: Tag
    var items: seq<Resource>
    var ttl: int
    var timeout: int
    var onError: Bytes
    var forwardHeaders: seq<Bytes>
    var forwardHeadersAll: bool
    var returnHeaders: seq<Bytes>
    var returnHeadersAll: bool
    var conditioner: Option<Condition>

    /** The entity's fields as a value. */
    function State(): EntityState
      reads this
    {
      EntityState(rawTag, tag, items, ttl, timeout, onError, forwardHeaders, forwardHeadersAll,
                  returnHeaders, returnHeadersAll, conditioner)
    }

    /** parseResource, lines 163-206. */
    method ParseResource(attr: ResourceAttr, idx: int, val: Bytes, env: Env) returns (cause: Option<Cause>)
      modifies this`items
      ensures (items, cause) == ResourceStep(old(items), attr, idx, val, env)
    {
      var pos := FindItem(items, idx);
      if attr == KeyAttr && pos >= 0 {
        var k := env.applyKey(val);
        if k.None? {
          return Some(KeyRejected(val));
        }
        items := items[pos := items[pos].(key := k.value.key, keyTemplate := k.value.keyTemplate)];
        return None;
      }
      var r := env.newResource;
      if pos >= 0 {
        r := items[pos];
      }
      r := r.(isURL := attr == SrcAttr && Contains(val, SchemeSeparator));
      if r.isURL && Contains(val, TemplateIdentifier) {
        var t := ParseTemplate(env, ResourceTpl, val);
        r := r.(urlTemplate := t);
        if t.None? {
          if pos >= 0 {
            items := items[pos := r];
          }
          return Some(TemplateSyntax(val));
        }
      } else if attr == SrcAttr {
        r := r.(url := val);
      } else {
        var k := env.applyKey(val);
        if k.None? {
          return Some(KeyRejected(val));
        }
        r := r.(key := k.value.key, keyTemplate := k.value.keyTemplate);
      }
      r := r.(index := idx);
      if pos >= 0 {
        items := items[pos := r];
      }
      items := items + [r];
      cause := None;
    }

    /** parseCondition, lines 154-161: the template error is computed and dropped. */
    method ParseCondition(val: Bytes, env: Env)
      modifies this`conditioner
      ensures conditioner == Some(CompileCondition(val, env))
    {
      var tpl := ParseTemplate(env, ConditionTpl, val);
      conditioner := Some(Condition(tpl));
    }

    /** The body of the ParseRaw loop for one attribute: the switch of lines 104-146. */
    method ApplyAttribute(a: Attribute, srcCounter: nat, env: Env) returns (counter: nat, err: Option<ParseError>)
      modifies this`items, this`ttl, this`timeout, this`onError, this`forwardHeaders,
        this`forwardHeadersAll, this`returnHeaders, this`returnHeadersAll, this`conditioner
      ensures (Progress(State(), counter), err) == Step(Progress(old(State()), srcCounter), a, env)
    {
      var value := a.value;
      counter := srcCounter;
      err := None;
      if a.name == AttrSrc {
        var cause := ParseResource(SrcAttr, srcCounter, value, env);
        if cause.Some? {
          return srcCounter, Some(ResourceFailed(AttrSrc, value, rawTag, cause.value));
        }
        counter := srcCounter + 1;
      } else if a.name == AttrKey {
        var cause := ParseResource(KeyAttr, srcCounter, value, env);
        if cause.Some? {
          return srcCounter, Some(ResourceFailed(AttrKey, value, rawTag, cause.value));
        }
      } else if a.name == AttrCondition {
        ParseCondition(value, env);
      } else if a.name == AttrOnError {
        onError := value;
      } else if a.name == AttrTimeout {
        var d := env.parseDuration(value);
        timeout := if d.Some? then d.value else 0;
        if d.None? {
          err := Some(BadDuration(AttrTimeout, value, rawTag));
        }
      } else if a.name == AttrTtl {
        var d := env.parseDuration(value);
        ttl := if d.Some? then d.value else 0;
        if d.None? {
          err := Some(BadDuration(AttrTtl, value, rawTag));
        }
      } else if a.name == AttrForwardHeaders {
        if value == AllHeaders {
          forwardHeadersAll := true;
        } else {
          forwardHeaders := env.commaListToSlice(value);
        }
      } else if a.name == AttrReturnHeaders {
        if value == AllHeaders {
          returnHeadersAll := true;
        } else {
          returnHeaders := env.commaListToSlice(value);
        }
      }
    }

    /** Entity.ParseRaw, lines 70-152. */
    method ParseRaw(env: Env) returns (err: Option<ParseError>)
      modifies this`items, this`ttl, this`timeout, this`onError, this`forwardHeaders,
        this`forwardHeadersAll, this`returnHeaders, this`returnHeadersAll, this`conditioner
      ensures (State(), err) == ParseEntity(old(State()), env)
    {
      if |rawTag| == 0 {
        return None;
      }
      var matches := FindAll(rawTag);
      ghost var attrs := Attributes(rawTag);
      ghost var start := Progress(State(), 0);
      AttributeOfMatch(rawTag, 0);
      var srcCounter: nat := 0;
      var k := 0;
      assert attrs[0..] == attrs;
      while k < |matches|
        invariant 0 <= k <= |matches|
        invariant ParseAttrs(start, attrs, env) == ParseAttrs(Progress(State(), srcCounter), attrs[k..], env)
      {
        ghost var before := Progress(State(), srcCounter);
        AttributeOfMatch(rawTag, k);
        srcCounter, err := ApplyAttribute(Extract(matches[k]), srcCounter, env);
        ParseAttrsStep(before, attrs, k, Progress(State(), srcCounter), err, env);
        if err.Some? {
          ParseEntityResult(start.st, Progress(State(), srcCounter), err, env);
          return;
        }
        k := k + 1;
      }
      ParseEntityResult(start.st, Progress(State(), srcCounter), None, env);
      if |items| == 0 || srcCounter == 0 {
        return Some(MissingSource(rawTag));
      }
      return None;
    }
  }

  /** The fields of a list of entities. */
  function States(es: seq<Entity>): (r: seq<EntityState>)
    reads set e | e in es
    ensures |r| == |es| && forall i :: 0 <= i < |es| ==> r[i] == es[i].State()
  {
    seq(|es|, i reads set e | e in es requires 0 <= i < |es| => es[i].State())
  }

  /**
   * Entities.ParseRaw, lines 212-219. The entities of a page are distinct
   * objects, one per tag.
   */
  method ParseRawAll(es: seq<Entity>, env: Env) returns (err: Option<BatchError>)
    requires forall i, j :: 0 <= i < j < |es| ==> es[i] != es[j]
    modifies set e | e in es
    ensures (States(es), err) == ParseEntities(old(States(es)), env)
  {
    ghost var before := States(es);
    var i := 0;
    while i < |es|
      invariant 0 <= i <= |es|
      invariant forall j :: 0 <= j < i ==> ParseEntity(before[j], env) == (es[j].State(), None)
      invariant forall j :: i <= j < |es| ==> es[j].State() == before[j]
    {
      var e := es[i].ParseRaw(env);
      assert forall j :: 0 <= j < |es| && j != i ==> es[j] != es[i];
      if e.Some? {
        err := Some(BatchError(i, e.value));
        ParseEntitiesDetermined(before, States(es), err, env);
        return;
      }
      i := i + 1;
    }
    err := None;
    ParseEntitiesDetermined(before, States(es), err, env);
  }

  /** The outcome FailFast describes is the only one a fail-fast run of parse can have. */
  lemma {:induction false} FailFastDetermined(states: seq<EntityState>, after: seq<EntityState>, err: Option<BatchError>,
                                              parse: EntityState -> Outcome)
    requires FailFastOutcome(states, parse, after, err)
    ensures FailFast(states, parse) == (after, err)
    decreases |states|
  {
    if |states| == 0 {
    } else if err.Some? && err.value.index == 0 {
      assert after == [after[0]] + states[1..];
    } else {
      assert parse(states[0]) == (after[0], None);
      var errRest := if err.Some? then Some(BatchError(err.value.index - 1, err.value.cause)) else None;
      FailFastDetermined(states[1..], after[1..], errRest, parse);
      assert after == [after[0]] + after[1..];
    }
  }

  /** The outcome ParseEntities describes is the only one a fail-fast run of ParseEntity can have. */
  lemma ParseEntitiesDetermined(states: seq<EntityState>, after: seq<EntityState>, err: Option<BatchError>, env: Env)
    requires |after| == |states|
    requires err.None? ==> forall i :: 0 <= i < |states| ==> ParseEntity(states[i], env) == (after[i], None)
    requires err.Some? ==>
      var k := err.value.index;
      && k < |states|
      && (forall i :: 0 <= i < k ==> ParseEntity(states[i], env) == (after[i], None))
      && ParseEntity(states[k], env) == (after[k], Some(err.value.cause))
      && (forall i :: k < i < |states| ==> after[i] == states[i])
    ensures ParseEntities(states, env) == (after, err)
  {
    FailFastDetermined(states, after, err, s => ParseEntity(s, env));
  }
}
