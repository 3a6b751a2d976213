# Policy-driven JSON redaction, modelled in Dafny

The GraphQL handler in `internal/handler/handler.go` receives a JSON response
body and a `Policies` header, and deletes fields from the body as the
policies say. This project models that engine and proves what it does.

- **Policy splitting** (`splitPoliciesAndRemoveSpace`). The header is split on
  `,` and each policy on `.`, and every piece is trimmed of white space.
- **Path enumeration** (`collectKeys`). Every key reached through objects and
  arrays of objects gets a dotted path. An object held in an array is
  addressed as `name[i]`; scalars and arrays inside an array are not entered.
- **Index removal** (`removeArrayIndices`). Every `[digits]` group is removed
  from a path segment before it is compared with a policy.
- **One policy** (`processJsonData`). There are two kinds:
  - `Query.f` deletes `f` from the top-level `data` object.
  - `Type.f` picks a schema key whose declared type is `Type`. It then deletes
    every collected path that ends in `owner.f`, ignoring indices.
- **Deletion** (`deleteJSONPath`). The parent of a path is resolved, and the
  last key is removed when the parent is an object.
- **The driver** in `ParseGraphQLQuery`. It rejects a missing header, applies
  the policies in order, and stops at the first error.

Modules, one per file:

- `Text` (text.dfy): strings.
  - `strings.Split` as `SplitOn`, with `Join` as its inverse.
  - `strings.TrimSpace`.
  - Decimal rendering of array indices.
  - `removeArrayIndices` as `StripIndices`.
- `Documents` (documents.dfy): the JSON datatype, path segments (`Key(name)`,
  `Elem(name, i)`), the dotted rendering of a path, and `Collectible`. That
  predicate defines the addresses `collectKeys` reports.
- `KeyPaths` (keypaths.dfy): `collectKeys` as recursive methods with loops.
- `Deletion` (deletion.dfy): `deleteJSONPath` as a walk over parsed path
  segments, plus the lemmas about what a removal leaves unchanged.
- `Redaction` (redaction.dfy): the meaning of a type-scoped policy, in two
  forms:
  - `Scrub` removes the named field from every object held directly under a
    key named as the owner, or in the array under such a key, at any depth.
  - `Prune` removes a set of addresses.
- `Handler` (handler.dfy): `processJsonData` as a function `PolicyOutcome`,
  the driver as `RunPolicies`, and the imperative handler as class `Document`.
  The class holds the document (`root`, with `None` for a nil map), and its
  methods delete in place.

The central results:

- `Handler.Document.TypePass` keeps an invariant across the imperative
  deletion loop. After the loop, the document is `Prune` of the original at
  the matched addresses.
- `Redaction.RemovePruned` shows that one `deleteJSONPath` on an
  already-pruned document prunes one more address. A deletion that fails
  because an ancestor is gone changes nothing.
- `Handler.MatchedScrub` and `Redaction.ScrubSurvivors` together show which
  entries survive. An entry survives exactly when neither it nor any of its
  ancestors matched the policy. No surviving path matches.

## Model

| member | source | states |
|---|---|---|
| Text.SplitOn | internal/handler/handler.go:209 | `strings.Split`: one piece more than there are delimiters, and no piece holds the delimiter |
| Text.SplitJoin | internal/handler/handler.go:209 | splitting delimiter-free pieces joined by the delimiter gives the pieces back |
| Text.JoinSplit | internal/handler/handler.go:209 | joining the pieces of a split gives the original string: the pieces are the original substrings, in order |
| Text.SplitOnConcat | internal/handler/handler.go:209 | splitting around one delimiter is splitting each side and concatenating the pieces |
| Text.TrimSpace | internal/handler/handler.go:211 | `strings.TrimSpace`: the result is no longer than the input and neither starts nor ends with white space |
| Text.TrimSpacePiece | internal/handler/handler.go:211 | the trimmed string is a contiguous piece of the input with only white space before and after it |
| Text.TrimSpaceIdempotent | internal/handler/handler.go:211 | trimming twice is trimming once |
| Text.TrimSpaceNoEdges | internal/handler/handler.go:211 | a string without white space at its ends is left alone |
| Text.TrimSpaceKeepsOut | internal/handler/handler.go:211 | trimming introduces no character that was not in the input |
| Handler.SplitPolicies | internal/handler/handler.go:208-214 | delimiter count plus one pieces, none holding the delimiter, each the trimmed `strings.Split` piece at the same position |
| Handler.SplitAndTrim | internal/handler/handler.go:208-214 | the in-place loop over an array of pieces returns `SplitPolicies` |
| Handler.SplitPoliciesTrimmed | internal/handler/handler.go:208-214 | every returned piece is already trimmed |
| Handler.SplitPoliciesJoin | internal/handler/handler.go:208-214 | trimmed, delimiter-free pieces joined by the delimiter come back unchanged |
| Text.LastIndexOf | internal/handler/handler.go:309 | `strings.LastIndex`: the index holds the delimiter and nothing after it does; -1 exactly when it is absent |
| Text.JoinLastIndex | internal/handler/handler.go:309 | in a join whose last piece is delimiter-free, the last delimiter separates the last piece from the rest |
| Text.ShowNat | internal/handler/handler.go:289 | the `%d` rendering of an index is nonempty, all digits and without a leading zero |
| Text.ParseShowNat | internal/handler/handler.go:289 | reading back the rendered index gives the index |
| Text.DigitRun | internal/handler/handler.go:298 | the longest leading run of digits |
| Text.IndexGroupAt | internal/handler/handler.go:298 | a nonzero length is a `[digits]` group at the start of the string |
| Text.DigitRunOf | internal/handler/handler.go:298 | a run of digits followed by a non-digit is read whole |
| Text.IndexGroupAtComplete | internal/handler/handler.go:298 | every `[digits]` group at the start of the string is found, with its full length |
| Text.StripIndices | internal/handler/handler.go:297-300 | `removeArrayIndices`: every `[digits]` group is removed, left to right; the result is never longer than the input |
| Text.StripNoBracket | internal/handler/handler.go:297-300 | `removeArrayIndices` is the identity on strings without `[` |
| Text.StripBracketFreePrefix | internal/handler/handler.go:297-300 | a bracket-free prefix passes through, and the rest is stripped on its own |
| Text.StripGroup | internal/handler/handler.go:297-300 | a leading `[digits]` group is removed, whatever its digits (leading zeros included), and the rest is stripped on its own |
| Text.StripGroups | internal/handler/handler.go:297-300 | any sequence of `[digits]` groups is removed entirely |
| Text.StripKeyWithIndices | internal/handler/handler.go:297-300 | a bracket-free key followed by any number of `[digits]` groups (such as `[007]`) strips to the key |
| Text.StripPaddedIndex | internal/handler/handler.go:297-300 | `a[007]` strips to `a` |
| Text.StripIndexedKey | internal/handler/handler.go:297-300 | `key[n]` strips to `key` |
| Text.StripNotIdempotent | internal/handler/handler.go:297-300 | stripping is not idempotent: `[1[2]]` strips to `[1]`, which strips to the empty string |
| Text.StripNested | internal/handler/handler.go:297-300 | one pass over `[1[2]]` removes only the inner group |
| Text.IndexedNoEdges | internal/handler/handler.go:257 | trimming leaves `key[n]` alone when the key does not start with white space |
| Documents.Path | internal/handler/handler.go:278-289 | definition: the dotted string collectKeys writes for an address: each segment as `name` or `name[i]`, joined by `.` |
| Documents.Collectible | internal/handler/handler.go:275-295 | definition: the addresses collectKeys reports, one per key, entering object values and the objects held directly in arrays |
| Documents.CollectibleEndsWithKey | internal/handler/handler.go:278-282 | every reported path ends in a raw key, never in an index |
| Documents.CollectibleSafe | internal/handler/handler.go:277-291 | on a document with safe keys, every segment of a reported path has a safe name |
| Documents.PathSnoc | internal/handler/handler.go:279-281 | a nested key's path is the prefix, a `.`, and the key |
| Documents.PathElem | internal/handler/handler.go:289 | an array element's prefix is the array key's path followed by `[i]` |
| KeyPaths.AboveUnder | internal/handler/handler.go:285 | ancestry is unchanged when both paths gain the same first segment |
| KeyPaths.AppendBlock | internal/handler/handler.go:285-289 | appending a child's block under a new segment keeps the list duplicate-free with parents first |
| KeyPaths.AppendNamed | internal/handler/handler.go:277-293 | blocks for different top keys concatenate without duplicates and with parents first |
| KeyPaths.KeyBlock | internal/handler/handler.go:284-285 | the block under an object value is exactly the reported paths below that key |
| KeyPaths.ElemBlock | internal/handler/handler.go:286-290 | the block under element `i` is exactly the reported paths through `name[i]` |
| KeyPaths.RenderedConcat | internal/handler/handler.go:285 | concatenated key lists render concatenated address lists |
| KeyPaths.RenderedUnder | internal/handler/handler.go:285-289 | keys rendered under a longer prefix render the prepended addresses |
| KeyPaths.CollectKeys | internal/handler/handler.go:275-295 | exactly one path per reachable key (through objects and arrays of objects), each rendered as the handler writes it, with no duplicates and every parent before its descendants |
| KeyPaths.CollectUnder | internal/handler/handler.go:278-292 | one turn of the outer loop: the key's own path, then the paths under it, and nothing for arrays of scalars or of arrays |
| KeyPaths.CollectElem | internal/handler/handler.go:287-291 | one turn of the array loop: object elements add their paths and other elements add none |
| Deletion.ParseSeg | internal/handler/handler.go:310 | definition: the parent path's pieces read as `name` or `name[digits]`, standing for `jsonpath.Compile` |
| Deletion.ParseSegs | internal/handler/handler.go:310 | a successful parse gives one segment per piece |
| Deletion.ParseRenderSeg | internal/handler/handler.go:310 | a segment rendered with a safe name parses back to that segment |
| Deletion.ParseElemText | internal/handler/handler.go:310 | `k[digits]` with a safe name reads back as that element of `k` |
| Deletion.ParseRenderSegs | internal/handler/handler.go:310 | a path's pieces parse back to its address |
| Deletion.Step | internal/handler/handler.go:314 | definition: one step of the parent lookup, into an object's key or an array element, failing on a missing key, a wrong kind or an index out of range |
| Deletion.Lookup | internal/handler/handler.go:314 | definition: the parent lookup (`jp.Lookup`) as a walk of steps |
| Deletion.StepSmaller | internal/handler/handler.go:314 | a step of the parent walk leads into a strictly smaller value |
| Deletion.Without | internal/handler/handler.go:320-323 | `delete` on an object removes exactly that key and keeps every other entry; any other value is left alone |
| Deletion.RemoveAt | internal/handler/handler.go:314-323 | the removal succeeds exactly when the parent can be looked up; at the parent it leaves the parent without the key |
| Deletion.RemoveAtStep | internal/handler/handler.go:314-323 | a removal below the first segment is the removal inside the child, put back in place |
| Deletion.StepElsewhere | internal/handler/handler.go:320-323 | nothing reached by another first segment changes |
| Deletion.StepAlong | internal/handler/handler.go:314-323 | a successful removal succeeds in the child along the path |
| Deletion.RemoveAtElsewhere | internal/handler/handler.go:320-323 | every address that branches off the deleted path looks up the same value afterwards |
| Deletion.RemoveAtApart | internal/handler/handler.go:320-323 | the same, given the position where the addresses branch |
| Deletion.LookupStep | internal/handler/handler.go:314 | a lookup continues in the value one step reaches |
| Deletion.DeleteJsonPath | internal/handler/handler.go:302-326 | `deleteJSONPath` never adds a top-level key |
| Deletion.RenderSegDotFree | internal/handler/handler.go:309 | a rendered segment with a safe name holds no `.` |
| Deletion.ParentOfPath | internal/handler/handler.go:309-321 | the last `.` of a reported path separates the parent's segments from the last key |
| Deletion.DeletePathOfAddr | internal/handler/handler.go:302-326 | on a reported path, `deleteJSONPath` is the removal at the address's parent of its last key |
| Redaction.Canon | internal/handler/handler.go:257-261 | a segment compared with a policy is trimmed and then index-stripped |
| Redaction.CanonOfCleanKey | internal/handler/handler.go:257-261 | a safe key without edge spaces compares as itself, both bare and as `key[i]` |
| Redaction.CanonOfBareKey | internal/handler/handler.go:257-261 | a bare key without `[` or edge spaces compares as itself |
| Redaction.CanonOfIndexedKey | internal/handler/handler.go:257-261 | `key[i]` compares as `key` |
| Redaction.MatchIn | internal/handler/handler.go:257-261 | definition: the last segment canonicalises to the field and the one before it (or the enclosing segment) to the owner |
| Redaction.Matches | internal/handler/handler.go:257-261 | definition: the handler's deletion test on a whole-document address |
| Redaction.MatchesLong | internal/handler/handler.go:258 | only paths of at least two segments can match |
| Redaction.MatchShift | internal/handler/handler.go:259-261 | matching below a segment is matching with that segment as the enclosing owner |
| Redaction.Scrub | internal/handler/handler.go:256-271 | the meaning of a type-scoped policy keeps objects as objects and leaves other values alone |
| Redaction.ScrubChild | internal/handler/handler.go:283-291 | scrubbing under a key keeps the kind of the value and the length of an array |
| Redaction.UptoWhole | internal/handler/handler.go:258-261 | the last prefix of a path ending in a key is the path |
| Redaction.SparedWhole | internal/handler/handler.go:258-261 | a path none of whose prefixes match does not match |
| Redaction.SparedShift | internal/handler/handler.go:258-261 | being spared below a segment is being spared with that segment as owner, and the segment itself not matching |
| Redaction.CollectibleCons | internal/handler/handler.go:283-291 | a reported path of two or more segments is a step into an object followed by a path reported there |
| Redaction.ScrubStep | internal/handler/handler.go:256-271 | scrubbing keeps a step it does not cut and scrubs the value below it |
| Redaction.ScrubSurvivors | internal/handler/handler.go:256-271 | a path survives a type-scoped policy exactly when it was reported before and neither it nor any ancestor matched |
| Redaction.ScrubLeavesNoMatch | internal/handler/handler.go:256-271 | no surviving path matches the policy |
| Redaction.ScrubWellKeyed | internal/handler/handler.go:256-271 | scrubbing keeps keys safe and adds no key |
| Redaction.TailMember | internal/handler/handler.go:263 | an address below a segment is in the tail set exactly when the full address is in the set |
| Redaction.TailAdd | internal/handler/handler.go:263 | adding a deeper address adds its tail under its first segment only |
| Redaction.TailAddShort | internal/handler/handler.go:263 | adding a one-segment address changes no tail set |
| Redaction.Prune | internal/handler/handler.go:263 | the document after deleting a set of addresses keeps objects as objects |
| Redaction.PruneChild | internal/handler/handler.go:263 | pruning under a key keeps arrays as arrays of the same length |
| Redaction.PruneNothing | internal/handler/handler.go:263 | pruning no addresses leaves the document alone |
| Redaction.PruneChildNothing | internal/handler/handler.go:263 | pruning no addresses leaves a child alone |
| Redaction.PruneChildTails | internal/handler/handler.go:263 | pruning under a key depends only on the tail sets under that key |
| Redaction.PruneAdd | internal/handler/handler.go:263 | adding a deeper address changes only the entry under its first key, or nothing if that key is already gone |
| Redaction.PruneAddTop | internal/handler/handler.go:263 | adding a top-level address removes that key |
| Redaction.RemovePruned | internal/handler/handler.go:263-266 | deleting a reported path from a pruned document prunes one more address; a failed deletion means the address was already gone |
| Redaction.RemovePrunedKey | internal/handler/handler.go:263-266 | the same, for an address that starts with a key |
| Redaction.RemovePrunedElem | internal/handler/handler.go:263-266 | the same, for an address that starts with an array element |
| Redaction.RemovePrunedBelow | internal/handler/handler.go:263-266 | the same, one level down, put back in place |
| Redaction.PruneKeyPieces | internal/handler/handler.go:263 | pruning one more address under a key is pruning it in that child |
| Redaction.PruneElemPieces | internal/handler/handler.go:263 | pruning one more address under an element is pruning it in that element |
| Redaction.PruneChildAddElem | internal/handler/handler.go:263 | adding an address under element `i` changes only element `i` |
| Redaction.Reassemble | internal/handler/handler.go:314-323 | a removal below the first segment equals putting the child's result back in place |
| Redaction.PutSame | internal/handler/handler.go:314-323 | putting back the value already there changes nothing |
| Redaction.PruneScrub | internal/handler/handler.go:256-271 | pruning exactly the matching reported addresses is scrubbing |
| Redaction.PruneScrubTop | internal/handler/handler.go:256-271 | pruning agrees with scrubbing at the top level when the doomed keys and the children agree |
| Redaction.PruneScrubChild | internal/handler/handler.go:256-271 | pruning a child is scrubbing it |
| Redaction.PruneScrubUnder | internal/handler/handler.go:256-271 | below a step, pruning the tail set is scrubbing with that step as owner |
| Redaction.ShiftMember | internal/handler/handler.go:256-271 | membership in the tail set follows the match below the step |
| Redaction.HasNestedCollectible | internal/handler/handler.go:258-261 | the document has a nested entry exactly when some reported path has two or more segments |
| Handler.KeyPathPieces | internal/handler/handler.go:257 | splitting a reported path on `.` gives one trimmed piece per segment |
| Handler.MatchesPieces | internal/handler/handler.go:259-261 | the handler's comparison of the last two pieces is the match of the address |
| Handler.PiecesOfPath | internal/handler/handler.go:257-261 | for every reported path, the split and compare decides exactly whether the address matches; short paths never do |
| Handler.ShortNeverMatches | internal/handler/handler.go:258 | a path of one segment is never deleted |
| Handler.Candidates | internal/handler/handler.go:242-247 | definition: the schema keys whose declared type is the policy's type |
| Handler.CandidateKeys | internal/handler/handler.go:242-247 | exactly the schema keys declared with the policy's type, each once |
| Handler.QueryOutcome | internal/handler/handler.go:230-240 | `Query.f` succeeds exactly when `data` is an object holding `f`; then only `data.f` is gone and every other entry is unchanged |
| Handler.PolicyOutcome | internal/handler/handler.go:216-273 | a nil document, an empty policy and a policy of more than two `.`-separated pieces are errors, in that order; a success never adds a top-level key |
| Handler.TypeOutcome | internal/handler/handler.go:242-272 | a two-segment type policy always succeeds and adds no key |
| Handler.TypeOutcomeNested | internal/handler/handler.go:258-261 | a one-segment type policy on a nested document reaches `policies[1]` and fails |
| Handler.TypeOutcomeFlat | internal/handler/handler.go:256-271 | a one-segment type policy on a flat document leaves it unchanged |
| Handler.TypeOutcomeScrub | internal/handler/handler.go:256-271 | a two-segment type policy gives the scrubbed document |
| Handler.ScrubWellKeyedKeys | internal/handler/handler.go:256-271 | scrubbing the top level adds no key |
| Handler.PolicyOutcomeWellKeyed | internal/handler/handler.go:216-273 | a policy keeps the document's keys unambiguous |
| Handler.TypePolicySurvivors | internal/handler/handler.go:256-271 | after a type policy, a path is present exactly when it was present and no prefix matched, and no present path matches |
| Handler.QueryPolicyTwice | internal/handler/handler.go:230-236 | a `Query.f` policy applied a second time fails, with the error naming `Query` |
| Handler.OneSegmentTypePolicy | internal/handler/handler.go:256-261 | a one-segment type policy fails exactly when some reported path has two or more segments, and otherwise changes nothing |
| Handler.RunPolicies | internal/handler/handler.go:175-187 | with no policies the document comes back as it was, nil included; otherwise a nil document fails with the nil-map error and a successful run ends with a document; a run never adds a top-level key |
| Handler.RunPoliciesConcat | internal/handler/handler.go:175-187 | running two lists is running the first, then the second on its result, stopping at the first error |
| Handler.RunPoliciesOne | internal/handler/handler.go:176 | running one policy is that policy's outcome |
| Handler.RunPoliciesStep | internal/handler/handler.go:175-187 | one more loop turn applies the next policy to the result so far |
| Handler.RunPoliciesSnoc | internal/handler/handler.go:175-187 | the same, for a list extended by one policy |
| Handler.RunPoliciesEmptyFails | internal/handler/handler.go:175-187 | an empty policy anywhere in the header (a doubled or trailing comma) makes the whole run fail |
| Handler.RunPoliciesWellKeyed | internal/handler/handler.go:175-187 | a successful run keeps the document's keys unambiguous |
| Handler.OwnersFitAll | internal/handler/handler.go:261 | each policy's owner is one of its type's schema keys whenever there is one |
| Handler.RenderedTop | internal/handler/handler.go:250 | paths collected from an empty prefix are the plain paths of their addresses |
| Handler.EnumeratedCollectible | internal/handler/handler.go:250 | every collected address is a reported one |
| Handler.MatchedInNone | internal/handler/handler.go:256 | before the loop no address has been matched |
| Handler.MatchedInStep | internal/handler/handler.go:256-270 | one loop turn adds the current address exactly when it matches |
| Handler.MatchedScrub | internal/handler/handler.go:256-271 | pruning the matched collected addresses gives the scrubbed document |
| Handler.PanicOutcome | internal/handler/handler.go:258-261 | a collected path of two segments under a one-segment type policy means the policy fails |
| Handler.OneSegmentFlat | internal/handler/handler.go:256-271 | when every collected path has one segment, the document has nothing nested |
| Handler.Document.constructor | internal/handler/handler.go:161-162 | the handler's document starts as the decoded body, or nil |
| Handler.Document.DeletePath | internal/handler/handler.go:302-326 | in place: on success the document is the `DeleteJsonPath` result; on an error it is unchanged |
| Handler.Document.ProcessPolicy | internal/handler/handler.go:216-273 | in place: the new document is the policy's outcome, and an error leaves it unchanged, with the owner one of the type's schema keys |
| Handler.Document.QueryPass | internal/handler/handler.go:230-240 | in place: the `Query.f` branch has the outcome `QueryOutcome` states |
| Handler.Document.TypeBranch | internal/handler/handler.go:242-272 | in place: no candidate is an error before any deletion; otherwise the outcome is `TypeOutcome` for a candidate owner |
| Handler.CollectTop | internal/handler/handler.go:250 | the top-level paths list exactly the reported addresses |
| Handler.Document.TypePass | internal/handler/handler.go:256-271 | in place: the loop over the collected paths leaves the document pruned at exactly the matched addresses, or fails on a nested path under a one-segment policy |
| Handler.Document.TypeStep | internal/handler/handler.go:256-270 | in place: one turn of the loop prunes one more address exactly when the path matches |
| Handler.Document.VisitKey | internal/handler/handler.go:257-268 | in place: a matching path is deleted and the document is pruned at one more address; a non-matching path changes nothing |
| Handler.Document.SplitKeyPath | internal/handler/handler.go:257-261 | the split of a path decides exactly whether its address matches |
| Handler.Document.DeleteCollected | internal/handler/handler.go:263-266 | in place: deleting a collected path prunes one more address, and an ignored error changes nothing |
| Handler.Document.ApplyNext | internal/handler/handler.go:175-187 | in place: one turn of the driver extends the run by one policy |
| Handler.Document.RunAll | internal/handler/handler.go:175-187 | in place: the policies run in order, each on the previous result. With no error all ran; on an error the document is nil, the last policy failed and the ones before it succeeded |
| Handler.Document.ApplyPolicies | internal/handler/handler.go:98-187 | a missing header is an error that changes nothing; otherwise the header is split on `,` and the driver runs the pieces |

## Behaviour worth knowing

- `removeArrayIndices` is not idempotent: `[1[2]]` becomes `[1]`, and a
  second pass removes that too (`Text.StripNotIdempotent`).
- A one-segment policy does not act on a root field. The code reads
  `policies[1]`, which is out of range.
  - For `Query` this fails once `data` is known to be an object
    (`Handler.QueryOutcome`).
  - For a type scope it fails at the first collected path with two segments
    (`Handler.OneSegmentTypePolicy`); on a flat document nothing happens.
  - The model reports this run-time panic as the error `IndexOutOfRange`.
- When `f` is absent from `data`, a `Query.f` policy reports the key
  `policies[0]`, that is `Query`, rather than `f` (`Handler.QueryPolicyTwice`).
- The `len(policies) == 0` check after the header split never fires:
  `strings.Split` always returns at least one piece. `ApplyPolicies` shows
  this with an `assert false` on that branch.

## Left out

- HTTP handling: reading the header and the body, status codes, and the error
  and success response envelopes.
- JSON decoding and encoding with `encoding/json`. The model starts from the
  decoded document.
- Schema parsing (`utility.ParseSchema`). The flat map from schema key to
  declared type is a parameter.
- The empty-body check and the users CRUD handlers, which are not part of the
  redaction engine.
- `router.go` and `main.go`, which only register routes and start the server.
- `fmt.Println` logging, which is side output only.
- The JSONPath library. `deleteJSONPath` resolves the parent with
  `jsonpath.Compile` and `Lookup`. The model walks the `name` and
  `name[digits]` segments directly and fails where the walk cannot proceed.
  The `$` prefix the code adds is left out.
- Deletion.DeleteJsonPath: reads every segment as a plain name. JSONPath gives
  a `$` at the start of the path, an empty segment (recursive descent) and a
  `*` segment (a wildcard) meanings of their own, which the model does not
  capture; the handler only builds such paths from keys that `WellKeyedRoot`
  excludes.
- Go's `regexp` engine. `removeArrayIndices` is modelled as a left-to-right
  removal of non-overlapping `[digits]` groups, as `ReplaceAllString` does.
- Numbers are `real`, not float64, and strings are sequences of characters,
  not UTF-8 bytes. `strings.TrimSpace` is modelled with the Unicode white-space
  set.
- Keys that are empty, are `*`, or hold `.`, `[` or `]`, and top-level keys
  starting with `$`.
  - The handler splits paths on these characters, and JSONPath gives an empty
    segment, `*` and a leading `$` meanings of their own, so such keys would be
    misread.
  - The proofs about the type-scoped pass assume neither occurs
    (`WellKeyedRoot`).
- Handler.Document.TypeBranch: the owner is only known to be one of the
  type's schema keys.
  - The code takes `customerKeys[0]`, and Go's map order makes that any
    candidate.
  - `CandidateKeys` and `CollectKeys` likewise take the map's keys in an
    unspecified order.
- Handler.Document.TypePass: the result is proved the same for every order
  of the collected paths, so the order is not pinned. `allKeys` is computed
  once before any deletion, as in the code.
- Handler.Document.ProcessPolicy, Handler.Document.ApplyPolicies and
  Handler.Document.RunAll require a document whose keys are unambiguous
  (`WellKeyedRoot`). `KeyPaths.CollectKeys` requires the same of the map it
  walks.
- Deletion.DeleteJsonPath: requires a path with a `.`; on a path without one
  the code's slice arithmetic panics, and the handler never calls it with one.
- Aliasing between the document map and the caller's map is left out. The
  in-place update is modelled as reassigning the `root` field.
