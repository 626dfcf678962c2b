# ESI tag attribute parser, modelled in Dafny

This project models the parser of `esitag/esi_tag.go` in caddy-esi. The parser turns the raw bytes of one Edge-Side-Include tag into an `Entity`:

- resource slots, from the `src` and `key` attributes;
- the `timeout` and `ttl` durations;
- the `onerror` policy;
- the `forwardheaders` and `returnheaders` policies;
- the `condition`.

It also parses the list of entities of a page fail-fast.

Files:

- `byte_strings.dfy` (module `ByteStrings`): bytes, `strings.Contains`, `bytes.ToLower` and `bytes.TrimSpace`. White space is `unicode.IsSpace`, written out on UTF-8 bytes: the ASCII spaces plus the two- and three-byte encodings of U+0085, U+00A0, U+1680, U+2000–U+200A, U+2028, U+2029, U+202F, U+205F and U+3000.
- `attribute_scan.dfy` (module `AttributeScan`): the attribute pattern of line 66 as an explicit leftmost-first scanner over bytes (`FindAll`), and the per-match extraction of lines 93–102 (`Extract`). Each alternative of the pattern can match at a given position in only one way: the name is the whole run of letters and the value runs up to the first quote, CR or LF. `QuotedAtIsTheMatch` proves this, so the scanner finds exactly the matches of the regular expression. The excluded characters are all ASCII, so matching bytes gives the same spans as Go's rune-based matching.
- `esi_tag.dfy` (module `EsiTag`): the data model and the specification functions:
  - `ResourceStep` models `parseResource`;
  - `Step` models one pass of the `ParseRaw` switch;
  - `ParseAttrs` models the `ParseRaw` loop;
  - `ParseEntity` models `Entity.ParseRaw`;
  - `ParseEntities` models `Entities.ParseRaw`, as the fail-fast loop `FailFast` run with `ParseEntity`.

  The same file has the in-place code. Class `Entity` has the source's fields. Its methods are `ParseResource` (with the linear scan `FindItem`), `ParseCondition`, `ApplyAttribute` and `ParseRaw`, and `ParseRawAll` works over a sequence of entities. Each method's `ensures` ties the new fields and the result to the matching specification function.
- `esi_tag_properties.dfy` (module `EsiTagProperties`): the properties the parser promises, proved as lemmas about the specification functions.
- `wrappers.dfy`: the `Option` type.

Collaborators whose code is not part of this model are passed in as the fields of `EsiTag.Env`:

- whether `text/template` accepts a text;
- `time.ParseDuration`;
- `helpers.CommaListToSlice`;
- `Resource.applyKey`;
- the value `NewResource` returns.

A compiled template is represented by its name and the text it was parsed from.

Where the code and the intent stated in its comments differ, the model follows the code:

- The comment at esitag/esi_tag.go:172 expects a `key` to join the slot of the `src` before it. The counter is already incremented after that `src` (line 109), so such a key opens a new slot at the next index, with IsURL false (`KeyAfterSourceOpensNextSlot`). Only a `key` written before its `src` is joined, and that slot is then appended a second time (lines 184–185 and 204). `KeyBeforeSourceSharesSlot` shows the resulting duplicate.
- `parseCondition` builds an error for a malformed condition but does not return it (line 157). A condition therefore never makes parsing fail, and the installed condition holds no template (`ConditionNeverFails`).

Slots in the source are shared pointers. The model stores them as values and writes a changed slot back to the position it came from, and also appends it when the source does. The invariant `SlotsConsistent` is the argument that this matches the pointer semantics. It says:

- no slot has an index beyond the src counter;
- at most one slot has the counter's value as its index.

Every attribute preserves it (`StepKeepsSlotsConsistent`). It holds at the start of a parse whose entity has no slots yet, and then it holds at the end (`ParseEntityKeepsSlotsConsistent`). While it holds, the slot the linear scan finds is never one that is held twice, so a write-back to one position is all the sharing there is to model. The invariant is preserved; the equivalence with pointers itself is argued, not proved.

## Model

| member | source | states |
|---|---|---|
| `ByteStrings.Contains` | esitag/esi_tag.go:188-190 | `strings.Contains` holds exactly when the substring occurs at some offset |
| `ByteStrings.ToLower` | esitag/esi_tag.go:101 | lower-casing leaves no ASCII capital, keeps the length, and is the identity on a lower-case name |
| `ByteStrings.TrimSpace` | esitag/esi_tag.go:102 | the trimmed value neither starts nor ends with a white-space rune, and it is a contiguous piece of the value |
| `ByteStrings.TrimLeftRemovesOnlySpace` | esitag/esi_tag.go:102 | what the left trim cuts is a run of white-space runes and nothing else |
| `ByteStrings.TrimRightRemovesOnlySpace` | esitag/esi_tag.go:102 | what the right trim cuts is a run of white-space runes and nothing else |
| `ByteStrings.TrimSpaceSplits` | esitag/esi_tag.go:102 | the value is the part cut on the left, then the trimmed value, then the part cut on the right |
| `ByteStrings.TrimSpaceCutsOnlySpace` | esitag/esi_tag.go:102 | both cut parts are runs of white-space runes, so trimming removes white space and nothing else |
| `AttributeScan.QuotedAtIsTheMatch` | esitag/esi_tag.go:66 | each alternative of the pattern matches at a position in at most one way, and the scanner returns that match |
| `AttributeScan.DoubleQuotedMatch` | esitag/esi_tag.go:66 | `name="value"` at the scan position is matched by the first alternative, with groups 1 and 2 set |
| `AttributeScan.SingleQuotedMatch` | esitag/esi_tag.go:66 | `name='value'` is matched by the second alternative, with groups 3 and 4 set and groups 1 and 2 empty |
| `AttributeScan.FindAllWellShaped` | esitag/esi_tag.go:80-92 | every match has exactly one alternative's name and value groups set, each with the shape the pattern's character classes give it |
| `AttributeScan.ExtractWellFormed` | esitag/esi_tag.go:93-102 | the extracted name is the non-empty lower-case group, and the value has no CR or LF and no white space at either end |
| `AttributeScan.ScannedAttributesWellFormed` | esitag/esi_tag.go:80-102 | every attribute of every tag has a non-empty lower-case name and a trimmed value without CR or LF |
| `AttributeScan.QuoteStylesAgree` | esitag/esi_tag.go:93-102 | the double- and single-quoted forms of an attribute yield the same (name, trimmed value) pair, followed by whatever the rest of the tag yields |
| `EsiTag.ConditionOK` | esitag/esi_tag.go:35-38 | the placeholder returns false for every condition and request; it is modelled as written, not a property |
| `EsiTag.FirstAt` | esitag/esi_tag.go:165-171 | the position of the first slot with the given index, or -1 exactly when no slot has it |
| `EsiTag.FindItem` | esitag/esi_tag.go:164-171 | the linear scan returns the first slot with the given index, or -1 |
| `EsiTag.Entity.ParseResource` | esitag/esi_tag.go:163-206 | the new slot list and the failure cause are those of `ResourceStep`, including the partial update a failed URL template leaves on a reused slot |
| `EsiTag.Entity.ParseCondition` | esitag/esi_tag.go:154-161 | installs a condition whose template is absent when the text is malformed; no error is reported |
| `EsiTag.Entity.ApplyAttribute` | esitag/esi_tag.go:104-146 | the fields, counter and error after one attribute are those of `Step` |
| `EsiTag.Entity.ParseRaw` | esitag/esi_tag.go:70-152 | the entity's new fields and the error are those of `ParseEntity`; the raw tag and the tag position are untouched |
| `EsiTag.ParseEntities` | esitag/esi_tag.go:212-219 | on success every entity parsed successfully. A failure names the first failing position; the entities before it parsed successfully and the ones after it are unchanged |
| `EsiTag.FailFastCharacterized` | esitag/esi_tag.go:213-218 | the loop over entities stops at the first error, which names that position; the entities before it are parsed without error and the ones after it are untouched |
| `EsiTag.FailFastDetermined` | esitag/esi_tag.go:213-218 | that description has exactly one outcome: any result and error that fit it are the loop's |
| `EsiTag.ParseRawAll` | esitag/esi_tag.go:212-219 | the in-place loop leaves the entities and the error that `ParseEntities` describes |
| `EsiTagProperties.StepKeepsTagAndCounts` | esitag/esi_tag.go:104-114 | the src counter grows by one exactly for a successful `src`, and is unchanged by `key` and every other attribute |
| `EsiTagProperties.SrcAppendsOneSlot` | esitag/esi_tag.go:182-204 | a `src` fails only for a URL template that does not parse. Otherwise it appends exactly one slot with the current index, changes no other slot except the one reused, and that one becomes equal to the appended slot |
| `EsiTagProperties.SrcClassification` | esitag/esi_tag.go:188-197 | the appended slot is a URL exactly when the value contains `://`. A URL with `{{` gets the compiled template and keeps its old URL; any other value is stored verbatim as the URL |
| `EsiTagProperties.KeyMergesOrAppends` | esitag/esi_tag.go:173-204 | a `key` fails exactly when `applyKey` rejects it, and then nothing changes. A slot at the current index takes the key and the list does not grow. Otherwise one slot is appended: the `NewResource` value with IsURL false, that index and the key |
| `EsiTagProperties.HeaderPolicies` | esitag/esi_tag.go:133-144 | `all` sets only the all-flag; any other value replaces only the header list; neither fails |
| `EsiTagProperties.Durations` | esitag/esi_tag.go:121-132 | `timeout` and `ttl` fail exactly when the duration does not parse. The field holds the parsed duration, or zero after a failure, and nothing else changes |
| `EsiTagProperties.ConditionNeverFails` | esitag/esi_tag.go:115-118 | a `condition` never fails and installs the condition, with no template when the text is malformed |
| `EsiTagProperties.OtherAttributes` | esitag/esi_tag.go:119-146 | `onerror` is stored verbatim, and an unknown attribute changes nothing |
| `EsiTagProperties.ParseAttrsCountsSources` | esitag/esi_tag.go:82-147 | over a run of attributes the counter grows by the number of `src` attributes (at most that on failure), and the raw tag is untouched |
| `EsiTagProperties.SourceSlotIndex` | esitag/esi_tag.go:105-109 | the slot a successful `src` appends has, as its index, the number of `src` attributes before it |
| `EsiTagProperties.EmptyTagIsNoOp` | esitag/esi_tag.go:71-73 | a tag with no raw bytes parses successfully and no field changes |
| `EsiTagProperties.SuccessNeedsSource` | esitag/esi_tag.go:148-150 | a non-empty tag parses successfully only if it has a `src`, and then has at least one slot; a tag without `src` is an error |
| `EsiTagProperties.KeyOnlyTagFails` | esitag/esi_tag.go:110-114 | a tag consisting of one `key` attribute, in either quoting, fails |
| `EsiTagProperties.StepKeepsSlotsConsistent` | esitag/esi_tag.go:163-206 | one attribute keeps every slot index at or below the counter and at most one slot at the counter |
| `EsiTagProperties.ParseAttrsKeepsSlotsConsistent` | esitag/esi_tag.go:82-147 | the same invariant holds across a whole run of attributes |
| `EsiTagProperties.ParseEntityKeepsSlotsConsistent` | esitag/esi_tag.go:70-152 | parsing a whole tag from an entity whose slots are consistent at counter 0, such as one with no slots yet, ends with consistent slots |
| `EsiTagProperties.KeyAfterSourceOpensNextSlot` | esitag/esi_tag.go:105-114 | `src` then `key` gives two slots: the URL at index 0 and, at index 1, a slot with IsURL false holding the key |
| `EsiTagProperties.KeyBeforeSourceSharesSlot` | esitag/esi_tag.go:182-204 | `key` then `src` gives the same slot twice, at index 0, holding both the key and the URL |

## Left out

- `Entities.QueryResources` (esitag/esi_tag.go:238-278) is not part of this model. It fetches every entity's resources concurrently under a shared cancellation, and the fetch (`Resources.DoRequest`) is network I/O whose code is not part of this model.
- `Entities.String` is not modelled: it only formats debug output.
- The assignment of the log sink `Resources.Logf` (line 74) is not modelled: it is logging wiring.
- The internals of these collaborators are not modelled: `text/template` parsing, `time.ParseDuration`, `helpers.CommaListToSlice`, `Resource.applyKey` and `NewResource`. They are the fields of `Env`.
- `Resource.applyKey` is assumed to set only the key fields, and to leave the slot unchanged when it reports an error.
- Durations are whole numbers of nanoseconds as `Env.parseDuration` returns them. The 64-bit range of `time.Duration` is not modelled.
- ByteStrings.ToLower: maps only ASCII capitals. Go also lower-cases other Unicode letters, but every name the pattern matches is lower-case ASCII already, so this never changes a result.
- EsiTag.ParseRawAll: requires the entities to be distinct objects, one per tag. The same entity listed twice would be parsed a second time from its already-parsed fields; that case is not modelled. A nil entity, which panics in Go, cannot occur in the model.
- The `len(subs) != 5` error branch of `ParseRaw` (lines 84–92) has no counterpart. The pattern has four groups, so a match always has five submatches; `Submatch` has exactly four fields for this reason.
- An entity whose slots already share resources when parsing starts (one parsed a second time, say) is not modelled. The value model agrees with the pointers only from slots that satisfy `SlotsConsistent` at counter 0.
- The condition error check at line 116 has no counterpart, since `parseCondition` always returns nil.
- The error texts of `errors.Errorf` are not modelled. Errors keep their kind, the attribute, the value and the raw tag.
- `ht/page_cart_tiny.go` is not modelled: it is an HTTP integration test against a running server.
