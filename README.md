# jsonpatch in Dafny

A model of the core of the Go library `github.com/snorwin/jsonpatch`. The library compares a
modified and a current Go value by reflection. It builds the JSON Patch (RFC 6902) that turns
the current value's JSON into the modified one's. Every operation is addressed by a JSON Pointer
(RFC 6901).

The model has these parts:

- **Pointer** (`pointer.dfy`, pointer.go). `JSONPointer` is a datatype of path segments and tags.
  It models `NewWithPrefix`, `ParseJSONPointer` (split on `/`), `String` (join on `/`), `Add`
  (escape `~` as `~0`, then `/` as `~1`), wildcard `Match`, and `AddTags`.
  - Proved: split and join are inverses. An added segment carries no separator and unescapes
    back to the original. A built pointer parses back to its own segments.
  - `Match` equals a declarative characterisation. Every `Match` case of pointer_test.go is a
    lemma.
- **Strconv** (`strconv.dfy`). The decimal renderings the walker uses for slice indices and
  order-insensitive keys: `strconv.Itoa`, `FormatInt`, `FormatUint`, `FormatBool`. Each comes
  with a parsing partner and injectivity.
- **Values** (`values.dfy`). A datatype stands in for `reflect.Value`: strings, integers and
  unsigned integers of every width, booleans, floats, nil interfaces, interfaces, pointers,
  structs (fields with their JSON tags and exportedness), maps as entry lists, slices, and the
  kinds the walker rejects. `Lookup` models `MapIndex`.
- **Handlers and predicates** (`handler.dfy`, `predicate.dfy`):
  - The `Handler` interface, with `DefaultHandler`, and a custom handler given as three functions.
  - The `Funcs` predicate, with absent functions accepting.
- **WalkSpec** (`walk_spec.dfy`). What one walk emits, as pure functions over an `Outcome`. An
  outcome is the operations appended, in order, plus the error that stopped the walk. It covers
  every `process*` case of walker.go, including:
  - positional and order-insensitive slice comparison;
  - the duplicate-key error;
  - `jsonFieldNameToFieldName` and `extractIgnoreSliceOrderMatchValue`.
- **Walking** (`walker.dfy`). The Go `walker` as a class. Its fields are the predicate, the
  handler, the prefix, the ignore rules and the patch list. Its methods are the source's
  functions, with their loops.
  - Each method is proved to leave `old(patchList)` followed by the operations its WalkSpec
    function gives.
  - Each method returns the error that function gives.
- **WalkProps** (`walk_props.dfy`). Properties of the walk:
  - A well-formed value compared with itself emits nothing.
  - Kind checks, and the add/remove/replace decision for scalars and pointers.
  - Every default operation is addressed at or below the walk's pointer.
  - Trailing additions land at consecutive indices, and trailing removals go from the highest
    index down.
  - Order-insensitive removals come in descending index order and after every other operation.
  - Duplicate keys fail without emitting.
  - A reordered slice emits nothing.
  - Missing map keys are added and dropped keys removed.
  - Replace-predicate pruning, and the irrelevance of skipped struct fields.
- **Options** (`options.dfy`). The five options, as changes to the walker applied in order.
  - Proved: the last predicate and handler win, and prefixes accumulate.
  - Pattern rules take precedence over earlier rules, and `IgnoreSliceOrder`'s `*` rule is a
    fallback.
- **Patch** (`patch.dfy`). `JSONPatchList` and the entry points `CreateJSONPatch` and
  `CreateThreeWayJSONPatch`. Each entry point is a method proved equal to a function of its
  inputs. The properties proved about those functions are:
  - The zero list on a walk error, and whenever nothing is emitted or selected. That list
    encodes as "", and the encoder is not called for it.
  - The three-way list keeps the first walk's non-removals and then the second walk's removals.
  - Against the current value as original, the three-way list is a reordering of the two-way
    list.
  - Without a custom handler, every path is the prefix or extends it by whole segments.

Three points where the code's behaviour differs from what its names or doc comments suggest; the model follows the code:

- `Match` with a trailing `*` (pointer.go:53) accepts a pattern shorter than the pointer. So
  "/a/b/c" matches "/a/*" and "/*/*", as pointer_test.go:35-36 also expects.
- The predicate's doc comments (predicate.go:5-12) say `true` means "should not be added".
  However, the walker drops an operation when the predicate returns `false` (walker.go:311).
- The walks start from `NewWithPrefix(w.prefix)` (patch.go:66 passes the `[]string` prefix where
  a pointer is expected).

## Model

| member | source | states |
|---|---|---|
| Pointer.NewWithPrefix | pointer.go:14-19 | the pointer has the prefix as its segments and no tags; it renders as the prefix joined by "/" |
| Pointer.ParseJSONPointer | pointer.go:22-27 | the parsed pointer renders back to the input string, has at least one segment, no segment holds "/", and it has no tags |
| Pointer.Split | pointer.go:24 | splitting on "/" yields at least one segment and no segment contains the separator |
| Pointer.JoinSplit | pointer.go:22-32 | String(ParseJSONPointer(s)) == s for every string |
| Pointer.SplitJoin | pointer.go:22-32 | splitting a join of separator-free segments gives the segments back |
| Pointer.AddSegment | pointer.go:35-40 | Add appends exactly the escaped element and keeps the tags; the new segment has no "/" and unescapes to the element; the rendering grows by "/" plus the escaped element |
| Pointer.EscapeHasNoSeparator | pointer.go:36-37 | after escaping "~" and "/" no "/" is left in a segment |
| Pointer.UnescapeEscape | pointer.go:36-37 | unescaping "~1" then "~0" inverts the escaping |
| Pointer.EscapePlain | pointer.go:36-37 | a segment with neither "~" nor "/" is added unchanged |
| Pointer.BuiltPointerRoundTrip | pointer.go:35-40 | a pointer built by Add from a separator-free path parses back to the same segments |
| Pointer.ElementsMatchFrom | pointer.go:44-51 | the element loop succeeds iff every pattern element from i on is "*" or equals the pointer segment at its position |
| Pointer.MatchSpec | pointer.go:43-54 | Match holds iff every non-"*" pattern element equals the segment at its index, and the pattern ends in "*" or has as many elements as the pointer |
| Pointer.MatchAll | pointer.go:43-54 | the pattern "*" matches every pointer |
| Pointer.MatchWildcardOnly | pointer_test.go:32 | "/a/b/c" matches "*" |
| Pointer.MatchExact | pointer_test.go:33 | "/a/b/c" matches itself |
| Pointer.MatchInnerWildcard | pointer_test.go:34 | "/a/b/c" matches "/a/*/c" |
| Pointer.MatchTrailingWildcard | pointer_test.go:35 | "/a/b/c" matches "/a/*" |
| Pointer.MatchWildcards | pointer_test.go:36 | "/a/b/c" matches "/*/*" |
| Pointer.MatchLongerWildcard | pointer.go:43-54 | "/a/b/c" matches "/a/b/c/*": a trailing "*" may also stand for no segment |
| Pointer.NoMatchRelativeWildcard | pointer_test.go:39 | "/a/b/c" does not match "*/d" |
| Pointer.NoMatchOrder | pointer_test.go:40 | "/a/b/c" does not match "/a/c/b" |
| Pointer.NoMatchShorter | pointer_test.go:41 | "/a/b/c" does not match "/a" |
| Pointer.NoMatchPrefix | pointer_test.go:42 | "/a/b/c" does not match "/a/b" |
| Pointer.NoMatchLonger | pointer_test.go:43 | "/a/b/c" does not match "/a/b/c/d/e" |
| Pointer.NoMatchRelativePointer | pointer_test.go:44 | "a/b/c" does not match "/a/b/c" |
| Pointer.NoMatchRelativePattern | pointer_test.go:45 | "/a/b/c" does not match "a/b/c" |
| Pointer.ParseABC | pointer_test.go:13 | "/a/b/c" parses to the segments "", "a", "b", "c" |
| Pointer.JSONPointer.AddTags | pointer.go:57-60 | the tags are replaced and the path is kept |
| Strconv.ItoaShape | walker.go:181 | an index renders as a non-empty string of digits without a leading zero |
| Strconv.AtoiItoa | walker.go:208 | reading back the rendering of an index gives the index |
| Strconv.ItoaInjective | walker.go:216 | distinct indices render differently, so distinct slice positions get distinct pointers |
| Strconv.ParseFormatInt | walker.go:284 | parsing back FormatInt(i, 10) gives i, for negative i too |
| Strconv.FormatIntInjective | walker.go:284 | distinct integers give distinct keys |
| Strconv.FormatBool | walker.go:288 | the result is "true" or "false", and it is "true" exactly when the boolean is true |
| Values.Lookup | walker.go:101 | the key is absent (an invalid MapIndex) iff no entry has it |
| Values.LookupDistinct | walker.go:117 | with distinct keys, looking up an entry's key gives that entry's value |
| Handlers.Handler.Add | handler.go:19-29 | the default handler emits one "add" at the pointer's rendering carrying the modified value |
| Handlers.Handler.Remove | handler.go:32-40 | the default handler emits one "remove" at the pointer's rendering without a value |
| Handlers.Handler.Replace | handler.go:43-52 | the default handler emits one "replace" at the pointer's rendering carrying the modified value |
| Handlers.DefaultIgnoresCurrent | handler.go:32-52 | the default remove and replace do not depend on the current value |
| Predicates.Funcs.Add | predicate.go:28-34 | an absent AddFunc accepts; a present one decides |
| Predicates.Funcs.Remove | predicate.go:37-43 | an absent RemoveFunc accepts; a present one decides |
| Predicates.Funcs.Replace | predicate.go:46-52 | an absent ReplaceFunc accepts; a present one decides |
| Predicates.AcceptAllAccepts | predicate.go:28-52 | `Funcs{}` accepts every add, remove and replace |
| WalkSpec.FirstWhereSpec | walker.go:141-147 | the rule search finds nothing iff no rule passes; otherwise it returns the first passing rule |
| WalkSpec.FirstMatchSpec | walker.go:141-147 | the chosen ignore rule is the first whose pattern matches the pointer, or none matches |
| WalkSpec.JsonFieldNameToFieldName | walker.go:294-307 | in a struct type the result is the name of the first declaration tagged with the JSON field name, and "" when no declaration carries that tag; a pointer type answers for its element type; any other type gives "" |
| WalkSpec.FirstTagged | walker.go:297-301 | the field found is the first whose tag name equals the JSON field name; none is found iff no tag matches |
| WalkSpec.FieldByName | walker.go:275 | a field is found iff one has that name, and the found one has it |
| WalkSpec.IndexMapCorrect | walker.go:153-170 | the index map is built iff the keys are distinct; it then maps each key to its index and holds no other key; otherwise the reported key occurs twice |
| WalkSpec.IndexMapDuplicateStays | walker.go:156-158 | a duplicate in a prefix is the error whatever follows, as the loop returns at once |
| WalkSpec.LeftoversCorrect | walker.go:194-200 | the deleted indices are exactly the current indices whose key the modified slice lacks, in strictly ascending order (so sort.Ints leaves them as they are) |
| Walking.Walker.constructor | patch.go:55-59 | a new walker has the default configuration and an empty patch list |
| Walking.Walker.Add | walker.go:310-317 | returns the predicate's verdict and appends the handler's operations only when it accepts |
| Walking.Walker.Replace | walker.go:320-327 | returns the predicate's verdict and appends the handler's operations only when it accepts |
| Walking.Walker.Remove | walker.go:330-337 | returns the predicate's verdict and appends the handler's operations only when it accepts |
| Walking.Walker.Walk | walker.go:25-75 | appends exactly the operations WalkSpec.Walk gives and returns its error |
| Walking.Walker.ProcessInterface | walker.go:78-85 | appends what WalkSpec.ProcessInterface gives and returns its error |
| Walking.Walker.ProcessPtr | walker.go:234-247 | appends what WalkSpec.ProcessPtr gives and returns its error |
| Walking.Walker.ProcessStruct | walker.go:250-269 | appends what WalkSpec.ProcessStruct gives and returns its error |
| Walking.Walker.ProcessMap | walker.go:88-126 | appends what WalkSpec.ProcessMap gives and returns its error |
| Walking.Walker.WalkModifiedEntries | walker.go:93-109 | the loop over the modified map appends what ModifiedEntriesFrom gives and returns its error |
| Walking.Walker.RemoveMissingEntries | walker.go:110-122 | the loop over the current map appends what CurrentEntriesFrom gives and returns its error |
| Walking.Walker.ProcessSlice | walker.go:129-231 | appends what WalkSpec.ProcessSlice gives and returns its error |
| Walking.Walker.ComparePositional | walker.go:205-226 | the positional branch appends what Positional gives and returns its error |
| Walking.Walker.WalkPairs | walker.go:207-211 | the loop over common indices appends what PairsFrom gives and returns its error |
| Walking.Walker.AddTrailing | walker.go:212-219 | the loop over extra modified elements appends what AppendFrom gives |
| Walking.Walker.RemoveTrailing | walker.go:220-225 | the reverse loop over extra current elements appends what RemoveDown gives |
| Walking.Walker.CompareUnordered | walker.go:149-204 | the order-insensitive branch appends what Unordered gives and returns its error |
| Walking.Walker.IndexByKey | walker.go:153-170 | the map-building loop returns the index map of the keys, or the first duplicate key |
| Walking.Walker.MatchElements | walker.go:177-189 | the loop over the modified keys appends what MatchFrom gives and returns its error |
| Walking.Walker.CollectDeleted | walker.go:194-200 | the collected indices are the leftover current indices |
| Walking.Walker.RemoveDeleted | walker.go:200-204 | the reverse loop appends what RemoveDescending gives |
| WalkProps.WalkSelf | walker.go:25-75 | a well-formed value (every map's keys distinct) compared with itself emits no operation |
| WalkProps.StructSelf | walker.go:250-269 | a struct compared with itself emits nothing |
| WalkProps.FieldsSelf | walker.go:256-266 | the field loop of a struct with itself emits nothing |
| WalkProps.MapSelf | walker.go:88-126 | a map compared with itself emits nothing |
| WalkProps.ModifiedSelf | walker.go:93-109 | the modified-entries loop of a map with itself emits nothing |
| WalkProps.CurrentSelf | walker.go:110-122 | the current-entries loop of a map with itself emits nothing |
| WalkProps.SliceSelf | walker.go:129-231 | a slice compared with itself emits nothing |
| WalkProps.PairsSelf | walker.go:207-211 | the common-index loop of a slice with itself emits nothing |
| WalkProps.UnorderedSelf | walker.go:149-204 | the order-insensitive comparison of a slice with itself emits nothing |
| WalkProps.MatchSelf | walker.go:177-189 | matching a slice's keys against itself emits nothing |
| WalkProps.KindChecks | walker.go:27-71 | different kinds fail with the kind-mismatch error at the pointer; two nil interfaces emit nothing; an unsupported kind fails naming it |
| WalkProps.LeafDecisions | walker.go:41-66 | equal scalars emit nothing; different ones emit one operation at the pointer: a remove iff the modified string is empty, an add iff only the current string is empty, a replace otherwise |
| WalkProps.PtrDecisions | walker.go:234-247 | two nils emit nothing; a new pointee is an add, a dropped one a remove, at the same pointer; two pointees are compared at the same pointer |
| WalkProps.EmittersBelow | walker.go:310-337 | the default add, remove and replace each emit operations of their own kind whose path is exactly the pointer's text |
| WalkProps.WalkBelow | walker.go:25-75 | for a pointer with at least one segment, under the default handler every emitted operation is an add, remove or replace whose path is the pointer's text or that text followed by "/" and further segments (never a sibling such as "/ab" under "/a") |
| WalkProps.StructBelow | walker.go:250-269 | a struct's operations are addressed at its pointer or at whole-segment extensions of it |
| WalkProps.FieldsBelow | walker.go:256-266 | each field's operations are addressed strictly below, at extensions by at least one whole segment of the struct's pointer |
| WalkProps.MapBelow | walker.go:88-126 | a map's operations are addressed at its pointer or at whole-segment extensions of it |
| WalkProps.ModifiedBelow | walker.go:93-109 | operations of the modified-entries loop are addressed strictly below, at extensions by at least one whole segment of the map's pointer |
| WalkProps.CurrentBelow | walker.go:110-122 | removals of the current-entries loop are addressed strictly below, at extensions by at least one whole segment of the map's pointer |
| WalkProps.SliceBelow | walker.go:129-231 | a slice's operations are addressed at its pointer or at whole-segment extensions of it |
| WalkProps.PositionalBelow | walker.go:205-226 | the positional branch is addressed strictly below, at extensions by at least one whole segment of the slice's pointer |
| WalkProps.PairsBelow | walker.go:207-211 | the common-index loop is addressed strictly below, at extensions by at least one whole segment of the slice's pointer |
| WalkProps.AppendFromBelow | walker.go:212-219 | the trailing additions are addressed strictly below, at extensions by at least one whole segment of the slice's pointer |
| WalkProps.RemoveDownBelow | walker.go:220-225 | the trailing removals are addressed strictly below, at extensions by at least one whole segment of the slice's pointer |
| WalkProps.UnorderedBelow | walker.go:149-204 | the order-insensitive branch is addressed strictly below, at extensions by at least one whole segment of the slice's pointer |
| WalkProps.MatchBelow | walker.go:177-189 | the key-matching loop is addressed strictly below, at extensions by at least one whole segment of the slice's pointer |
| WalkProps.RemoveDescendingBelow | walker.go:200-204 | the leftover removals are addressed strictly below, at extensions by at least one whole segment of the slice's pointer |
| WalkProps.AppendFromIndices | walker.go:212-219 | whatever the predicate rejects, the n-th trailing add is an add at index idx + n, so the additions land at consecutive indices |
| WalkProps.AppendFromAll | walker.go:212-219 | with every add accepted, the extra modified element j + n is added at index idx + n, one add per element |
| WalkProps.RemoveDownAll | walker.go:220-225 | with every remove accepted, the n-th trailing removal removes index hi - 1 - n, one per extra element |
| WalkProps.RemoveDescendingAll | walker.go:200-204 | with every remove accepted, the n-th leftover removal removes the n-th index from the end of the list |
| WalkProps.UnorderedRemovalsDescending | walker.go:191-204 | the leftover removals take the leftover indices from the largest down, so none shifts an element a later one addresses |
| WalkProps.UnorderedRemovalsLast | walker.go:172-204 | in a successful order-insensitive comparison the removals of leftover indices are the last operations, from the largest index down |
| WalkProps.UnorderedDuplicateKeys | walker.go:153-204 | a repeated key in either slice fails with the duplicate error at the pointer naming a key that occurs twice, and nothing is emitted; with distinct keys on both sides both index maps are built and the comparison fails only where the key-matching loop fails |
| WalkProps.ExtractScalars | walker.go:281-288 | two ints, two uints, two bools or two strings key alike exactly when equal; an int's key parses back to the int; an int and a uint of equal value key alike |
| WalkProps.ExtractBlank | walker.go:272-291 | a nil pointer, a float, a slice, a map, an interface, an invalid or other value, and a struct lacking the field all key to "" |
| WalkProps.BlankKeysCollide | walker.go:153-160 | two modified elements that key to "" fail the order-insensitive comparison with the duplicate error at the slice's pointer and emit nothing |
| WalkProps.DistinctIntKeys | walker.go:284 | pairwise distinct ints key distinctly, so their index map is built |
| WalkProps.MatchAdds | walker.go:177-189 | under the defaults every modified element whose key the current slice lacks is added, at the current length plus the number of new elements before it |
| WalkProps.UnorderedPermutation | walker.go:149-204 | a current slice holding the modified slice's elements in another order emits nothing |
| WalkProps.MatchPermutation | walker.go:177-189 | the key-matching loop over a reordered slice emits nothing |
| WalkProps.PrunedByReplace | walker.go:129-135 | a struct or slice pair the replace predicate rejects emits nothing; a non-empty slice against an empty one is one add of the whole slice |
| WalkProps.SkippedFieldsIgnored | walker.go:256-266 | fields without a usable JSON tag or unexported never affect the outcome |
| WalkProps.ModifiedAdds | walker.go:93-104 | each modified key the current map lacks is added at its own child pointer |
| WalkProps.CurrentRemoves | walker.go:110-121 | each current key the modified map lacks is removed at its own child pointer |
| WalkProps.MapKeys | walker.go:88-126 | a non-empty map against an empty one is one add of the whole map; otherwise every missing key is added and every dropped key removed |
| WalkProps.MapKeyKindErrors | walker.go:90-115 | a non-empty modified map against an empty current one is added whole whatever its key kind; otherwise a non-string modified key fails with the unsupported-kind error naming that kind at the map's pointer, a string-keyed modified map against a non-string-keyed current one fails with the mismatch error, and an empty modified map against a non-empty current one fails the same way on the current side |
| WalkProps.ModifiedWalksShared | walker.go:93-108 | when the modified-entries loop succeeds, each shared key's walk at the pointer extended by the key succeeded and its operations appear contiguously among the loop's |
| WalkProps.MapWalksShared | walker.go:88-126 | when a map comparison succeeds, each shared key's walk at the pointer extended by the key succeeded and its operations appear contiguously in the map's operations |
| WalkProps.ModifiedSharedHere | walker.go:104-107 | when the modified-entries loop succeeds at a shared key, the key's walk at the pointer extended by the key succeeded and its operations come first, followed by the rest of the loop |
| Options.Apply | options.go:7-48 | applying an option changes the walker's configuration as Configure says |
| Options.ApplyAll | patch.go:61-64 | applying the options in order gives ConfigureAll of them |
| Options.ConfigureAllAppend | patch.go:61-64 | applying a + b is applying a, then b |
| Options.OnlyOwnField | options.go:7-48 | each option changes only its own field of the walker |
| Options.KeepsPredicateAndHandler | options.go:7-18 | options other than WithPredicate and WithHandler leave the predicate and the handler as they were |
| Options.LastWins | options.go:7-18 | the last WithPredicate and the last WithHandler decide |
| Options.PrefixAccumulates | options.go:21-29 | WithPrefix options append their segments, without a leading "", to the prefix in order |
| Options.PrefixExamples | options.go:21-29 | from [""], WithPrefix([""]) keeps [""], and WithPrefix(["b"]) and WithPrefix(["", "b"]) both give ["", "b"] |
| Options.FirstMatchAppend | options.go:44-48 | the first matching rule of a + b is the first of a, or else the first of b shifted past a |
| Options.PatternPrecedence | options.go:44-48 | rules given by IgnoreSliceOrderWithPattern go first and decide wherever one matches; otherwise the earlier rules decide as before |
| Options.IgnoreSliceOrderFallback | options.go:34-38 | IgnoreSliceOrder's "*" rule goes last and applies exactly where no earlier rule matches |
| Patch.JSONPatchList.Empty | patch.go:22-24 | a list is empty iff it holds no operation |
| Patch.JSONPatchList.List | patch.go:42-50 | List returns a fresh copy holding the operations in order |
| Patch.StringRaw | patch.go:32-39 | String is the encoded bytes read as text: same length, and converting back gives Raw |
| Patch.TextBytes | patch.go:33 | converting bytes to a string and back gives the bytes |
| Patch.CreateJSONPatch | patch.go:53-77 | the entry point returns exactly Create of its inputs |
| Patch.CreateThreeWayJSONPatch | patch.go:80-124 | the entry point returns exactly CreateThreeWay of its inputs |
| Patch.AppendSelected | patch.go:99-103 | the filter loop appends exactly the operations of the chosen kind, in order |
| Patch.WalkAndSelect | patch.go:96-103 | one half of the three-way patch: the walk's error, or the list extended by the walk's selected operations |
| Patch.FromWalkList | patch.go:66-76 | a walk error gives the zero list and that error; a walk that emits nothing gives the zero list, whose String is "", and no error; otherwise the list is the emitted operations with the encoder's output as its encoding, and the encoder's error is the only other error |
| Patch.CreateSelf | patch.go:53-77 | a well-formed value against itself gives the zero list and no encoder error |
| Patch.CreateUnderPrefix | patch.go:66 | without a custom handler every operation is an add, remove or replace whose path is the prefix rendered as a pointer or that text followed by "/" and further segments |
| Patch.SelectMembers | patch.go:99-116 | the filter keeps exactly the operations of its kind, each as often as it occurs |
| Patch.SelectPartition | patch.go:99-116 | removals and non-removals together are all the operations, counted with repetition |
| Patch.SelectKind | patch.go:99-116 | every operation kept is of the kind asked for |
| Patch.SelectedRemovalsLast | patch.go:99-116 | non-removals of the first walk then removals of the second leave no removal before another operation |
| Patch.FromWalksList | patch.go:96-124 | either walk's error gives the zero list and that error, the first walk's first; otherwise the list is the first walk's non-removals then the second walk's removals, all removals last; an empty selection gives the zero list, whose String is "", and no error; a non-empty one carries the encoder's output, and the encoder's error is the only other error |
| Patch.ThreeWayAgainstCurrent | patch.go:80-124 | with the current value as original, the three-way list is a reordering of the two-way list, and empty iff it is |
| Patch.SameWalkTwice | patch.go:96-116 | selecting non-removals and removals from the same walk gives its operations back, reordered |
| Patch.ThreeWaySelf | patch.go:80-124 | a well-formed value as modified, current and original gives the zero list |
| Patch.ThreeWayUnderPrefix | patch.go:80-124 | without a custom handler every three-way operation is an add, remove or replace whose path is the prefix rendered as a pointer or that text followed by "/" and further segments |
| Patch.FromWalksBelow | patch.go:96-124 | if both walks' operations are addressed at a root or whole-segment extensions of it, so is every operation of the three-way list |

## Left out

- Reflection is replaced by the `Values.Value` datatype. Go types are not checked beyond the
  kind and, for order-insensitive keys, the element type's struct tags.
- `json.Marshal` (patch.go:74, 121) is a parameter of the entry points. Its output and its error
  are taken as given, and the `omitempty` encoding of `JSONPatch.Value` is not modelled.
- Floats are real numbers compared by equality. NaN, where `!=` holds between a value and
  itself, is not modelled.
- Go map iteration order is unspecified. The model visits a map's entries in the order the
  value lists them. The order-insensitive comparison visits modified keys in index order and
  collects leftover current indices in index order. So the order of operations within one map
  or one order-insensitive slice is one of the orders Go may produce, not all of them.
- Go runtime panics are reported as errors (`MissingField`, `MapKeyTypeMismatch`) instead of
  aborting. They arise from a current struct with fewer fields than the modified one, or from a
  map key that is not assignable.
- A nil predicate (`WithPredicate(nil)`, walker.go:311) and `Predicate` implementations other
  than `Funcs` are not modelled. Custom handlers and predicate functions are pure functions of
  their arguments.
- Slices shared between the prefix and a pointer (Go `append` aliasing) are not modelled;
  pointers are values.
- Pointer.JSONPointer.ShouldOmite, Pointer.JSONPointer.Prefix, Patch.JSONPatchList.Len,
  Patch.JSONPatchList.Raw and Patch.JSONPatchList.String are one-line accessors. They have no
  contract of their own; Patch.StringRaw relates String and Raw.
- The example programs and the round-trip tests of patch_test.go are not part of this model.
  Patching a JSON document is outside the library.
- WalkProps.UnorderedRemovalsDescending: states the order and targets of the removals. Which
  indices are leftovers is stated once, by WalkSpec.LeftoversCorrect.
- WalkProps.WalkBelow and the other *Below lemmas: stated for a pointer with at least one
  segment. An empty pointer renders as "" and its children as bare names without a leading "/".
  The walker never starts from one, because its prefix starts as [""] and only grows.
- WalkProps.MatchAdds, WalkProps.ModifiedAdds, WalkProps.CurrentRemoves and WalkProps.MapKeys:
  stated for every operation accepted and the default handler, and as membership. Their order
  within a map is covered only by the equality of the Walker methods with the WalkSpec
  functions.
