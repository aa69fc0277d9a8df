# Lua FFI generator for DataContainer schemas — verified model of its decisions

`src/LuaFFIGenerator.cpp` reads a parsed DataContainer schema and produces three things:

- a C shared-library source and header, whose flat `extern "C"` functions wrap the data container;
- one LuaJIT FFI binding file per entity, holding an `ffi.cdef` block and a Lua wrapper table;
- a Lua file of identifier classes.

Before it writes anything, the generator patches up the schema. It:

- resolves every relationship link to its target entity;
- chooses a primary key for each relationship (`better_primary_key`), or applies a forced one;
- registers reverse links on the target entities;
- copies the key target's capacity onto the relationship;
- packs every composite key into bits and bytes.

Six fatal diagnostics (1001–1006) can stop the run along the way.

While emitting, it decides the following:

- how each schema type is normalised (`normalize_type`);
- how each argument crosses the export boundary (`normalize_argument`);
- which accessor calls an entity gets;
- what each call is named (`access_property_name`) and what its signature head is (`generate_head`);
- which calls are kept off the Lua surface because they pass a value by pointer (`append`);
- which row-lifecycle functions (create / delete / pop-back) exist;
- how many identifier parameters a relationship constructor takes.

This project models those decisions in Dafny and proves what they guarantee.

Layout, following the program:

| file | module | what it models |
|---|---|---|
| `schema.dfy` | `Schema` | parsed entities, links, keys, composite indexes, the six diagnostics |
| `types.dfy` | `Types` | `convert_to_id`, `normalize_type`, `normalize_argument`, the `to_string` / `intermediate_type` spellings, `made_types` registration |
| `primary_keys.dfy` | `PrimaryKeys` | `better_primary_key` and the order it implements |
| `resolution.dfy` | `Resolution` | the relationship patch-up loop of `main`, as loops over sequences of records |
| `resolution_properties.dfy` | `ResolutionProperties` | what that pass guarantees |
| `composite_keys.dfy` | `CompositeKeys` | the composite-key packing loop and its closed-form layout |
| `composite_layout.dfy` | `CompositeLayout` | the layout every index ends with after the whole pass |
| `text.dfy` | `Text` | decimal numerals, `", "`-separated lists, ASCII upper-casing |
| `descriptors.dfy` | `Descriptors` | call descriptors, names, heads, the suppression rule, the calls of one entity |
| `emission.dfy` | `Emission` | the per-entity emitter (`append_call`, `append_lua`, `append`) as a class; constructor / lookup parameter lists |
| `lifecycle.dfy` | `Lifecycle` | the row-lifecycle selection table |
| `seqs.dfy` | `Seqs` | generic sequence facts used by the proofs |

Modelling conventions:

- Pointers become indices into the sequence of entities: a link's target, a primary key's target, and a reverse link's relationship and link.
- `find_by_name` is a first-match lookup by name.
- `operator==` between a primary key and a link means equal target and equal property name.
- The global `made_types` set is an explicit parameter `made`.
- Each imperative loop is a `method` whose `ensures` equates its result with a tail-recursive specification function that takes the same steps. Lemmas then state that function's meaning in closed form.
- Each output string is a sequence of the fragments appended to it.

Behaviour modelled as the code writes it:

- `"bool"` is in the numeric list of `normalize_type`, so it is classed as a plain number, not a boolean (`Types.BoolIsNumber`).
- A resolved primary key stores `contiguous` as the relationship's store type. The target's store type is not copied; its size and expandability are.
- The 1002 diagnostic fires for multiplicity > 1 under the "many" discipline with `list_type::list`.
- A later eligible link to the same chosen target replaces the key's property name.
- The element operations of a special vector are cross-wired: a `resize_call` is named with `size_` and a `size_call` with `resize_`. The exported name and the Lua wrapper name both follow this.
- `generate_head` spells every parameter with its type's API spelling, whatever that parameter's meta kind.
- Composite-key packing works as follows:
  - It reads the size and expandability of the composite index's own entity.
  - An expandable entity adds 32 bits per component, whatever the multiplicity.
  - Otherwise a component's width is the bit length of the size, and the running total grows by the multiplicity once per bit.
- A link of multiplicity 0 or below still yields one constructor parameter.

## Model

| member | source | states |
|---|---|---|
| Types.ConvertToId | src/LuaFFIGenerator.cpp:138-145 | the result is the bare name if registered, else name + "_id" if that is registered, else the bare name; it is registered exactly when name or name + "_id" is |
| Types.NormalizeType | src/LuaFFIGenerator.cpp:149-224 | each class holds exactly for its inputs, in priority order: primitive → number, "bitfield" → boolean, "lua_reference_type" → Lua object, registered → handle, else opaque; each class has its spellings; the integer and floating classes never occur; the C spelling is the input |
| Types.NormalizeTypeReadsTwoNames | src/LuaFFIGenerator.cpp:149-224 | normalisation depends on the registry only through the two names it looks up |
| Types.BoolIsNumber | src/LuaFFIGenerator.cpp:150-156 | "bool" normalises to a number with all spellings "bool" and Lua type "number" |
| Types.NormalizeArgument | src/LuaFFIGenerator.cpp:285-310 | an argument is an id exactly for a registered type; it is passed by pointer exactly when unregistered, not a bit flag, and opaque; bit flags get the boolean combotype; otherwise the type is the normalised one |
| Types.MetaName | src/LuaFFIGenerator.cpp:312-323 | the four meta kinds have four different tags, both directions |
| Types.ArgumentSpellingsAgree | src/LuaFFIGenerator.cpp:325-359 | of the spellings ExportType and IntermediateType choose: a normalised non-sentinel argument uses its API spelling in the export signature unless it is passed by pointer; by pointer, the export and container spellings are the declared name with "*"; ids are qualified on the container side |
| Types.RegisterIdTypes | src/LuaFFIGenerator.cpp:886-896 | the registry holds exactly each entity's name + "_id" and every extra identifier type, so every entity's name is registered |
| Types.EntityIdArgument | src/LuaFFIGenerator.cpp:1005-1009 | the `id` argument of an entity is a handle exported as int32_t and annotated with the entity's identifier type |
| PrimaryKeys.KeyLeIsTotalPreorder | src/LuaFFIGenerator.cpp:66-114 | the reference order KeyLe (bounded first, then storage rank, then size) is reflexive, total and transitive |
| PrimaryKeys.BetterPrimaryKey | src/LuaFFIGenerator.cpp:66-114 | with no current key the candidate wins; the result is always one of the two arguments; and it is the current key exactly when that is at least as good in the reference order KeyLe |
| PrimaryKeys.BoundedBeatsExpandable | src/LuaFFIGenerator.cpp:71-74 | when expandability differs, the non-expandable entity wins either way round |
| PrimaryKeys.StorageDecides | src/LuaFFIGenerator.cpp:76-111 | with equal expandability and different storage, contiguous beats erasable beats compactable |
| PrimaryKeys.SizeDecides | src/LuaFFIGenerator.cpp:76-111 | with equal expandability and storage, the smaller size wins and a tie keeps the current key |
| Resolution.FindByName | src/LuaFFIGenerator.cpp:648 | the result is the first entity with that name, and None exactly when no entity has it |
| Resolution.LinkPass | src/LuaFFIGenerator.cpp:646-673 | on success the loop keeps the number of links, gives every remaining link a target, and leaves the links before the start point alone |
| Resolution.ResolveLinks | src/LuaFFIGenerator.cpp:646-673 | the link loop, with its early 1001 / 1002 returns, computes LinkPass |
| Resolution.ForceKey | src/LuaFFIGenerator.cpp:685-694 | the forced-key loop computes ForcePass (whose meaning ForcePassFinds and ForcePassStaysForced state) |
| Resolution.Register | src/LuaFFIGenerator.cpp:703-706 | registering reverse links changes no field of any entity other than its reverse-link list |
| Resolution.RegisterReverseLinks | src/LuaFFIGenerator.cpp:703-706 | the push loop computes Register |
| Resolution.MarkKeyLinks | src/LuaFFIGenerator.cpp:713-717 | the marking loop computes MarkPass (whose meaning MarkPassKeeps states) |
| Resolution.MarkPassKeeps | src/LuaFFIGenerator.cpp:713-717 | MarkPass only sets the is-primary-key flag, and sets it exactly on the links equal to the key |
| Resolution.ForcedKeyIn | src/LuaFFIGenerator.cpp:685-694 | a forced key still points into the schema |
| Resolution.ResolveOne | src/LuaFFIGenerator.cpp:646-726 | a successful patch-up of one relationship keeps the schema's size and every pointer inside it |
| Resolution.Attach | src/LuaFFIGenerator.cpp:703-726 | storing links and key, registering reverse links and propagating capacity keep the schema well-indexed |
| Resolution.ResolveAll | src/LuaFFIGenerator.cpp:644-729 | the whole pass keeps the schema's size and every pointer inside it |
| Resolution.ResolveRelationship | src/LuaFFIGenerator.cpp:646-726 | the in-place patch-up of relationship i, with the 1001–1005 returns, computes ResolveOne |
| Resolution.ResolveRelationships | src/LuaFFIGenerator.cpp:644-729 | the loop over all entities computes ResolveAll and stops at the first error |
| ResolutionProperties.LinkPassStep | src/LuaFFIGenerator.cpp:646-673 | an accepted link is replaced by its resolved form and the key is folded over it |
| ResolutionProperties.LinkPassOkIff | src/LuaFFIGenerator.cpp:648-668 | the link loop succeeds exactly when every link has a target and a supported shape |
| ResolutionProperties.LinkPassLinks | src/LuaFFIGenerator.cpp:648-673 | on success each link gets its first-match target, and is distinct when multiplicity > 1 under at-most-one |
| ResolutionProperties.LinkPassError | src/LuaFFIGenerator.cpp:648-668 | on failure the diagnostic is 1001 or 1002 for the first rejected link, and every earlier link was accepted |
| ResolutionProperties.LastCandidateTo | src/LuaFFIGenerator.cpp:656-660 | returns the last eligible link to a given target, or None exactly when there is none |
| ResolutionProperties.KeyFold | src/LuaFFIGenerator.cpp:656-660 | the key fold over the links keeps the key's target inside the schema |
| ResolutionProperties.LinkPassKeyFold | src/LuaFFIGenerator.cpp:656-660 | the key the link loop ends with is the key fold over the links as given |
| ResolutionProperties.KeyFoldFrame | src/LuaFFIGenerator.cpp:656-660 | the fold reads only the links from its start point on |
| ResolutionProperties.PkStepFacts | src/LuaFFIGenerator.cpp:656-660 | one eligible PkStep selects a target at least as good as both the candidate and the old key; it takes the link's name when it picks the link's target, and otherwise keeps the key unchanged |
| ResolutionProperties.KeyFoldNone | src/LuaFFIGenerator.cpp:656-660 | the fold ends without a key exactly when it starts without one and no link is eligible |
| ResolutionProperties.KeyFoldBest | src/LuaFFIGenerator.cpp:656-660 | the chosen target is at least as good as every candidate and the starting key; it replaces the starting key only when strictly better |
| ResolutionProperties.KeyFoldName | src/LuaFFIGenerator.cpp:658-659 | the key's property name is that of the last eligible link to the chosen target |
| ResolutionProperties.SelectedPrimaryKey | src/LuaFFIGenerator.cpp:656-660 | from no key, a key is chosen exactly when some link is eligible; it is as good as every candidate and equal to one of the resolved eligible links; which of several equally good candidates wins is stated by EarliestBestKeyWins |
| ResolutionProperties.FirstCandidateTo | src/LuaFFIGenerator.cpp:656-660 | returns the first eligible link to a given target, or None exactly when there is none |
| ResolutionProperties.EarliestBestStep | src/LuaFFIGenerator.cpp:656-660 | one more link keeps the invariant: no key while nothing was eligible, else a target at least as good as every candidate so far and first reached no later than any equally good candidate |
| ResolutionProperties.KeyFoldEarliest | src/LuaFFIGenerator.cpp:656-660 | the fold keeps that invariant to the last link |
| ResolutionProperties.EarliestBestKeyWins | src/LuaFFIGenerator.cpp:81-107 | ties go to the earliest link (the `<=` comparisons of better_primary_key keep the current key): from no key, the chosen target is first reached by a candidate link before which every candidate's target is strictly worse, and no equally good candidate comes earlier |
| ResolutionProperties.ForcePassFinds | src/LuaFFIGenerator.cpp:685-694 | ForcePass applies a forced key exactly when an eligible link has the forced name; the key then equals such a link, and otherwise it is unchanged |
| ResolutionProperties.ForcePassStaysForced | src/LuaFFIGenerator.cpp:686-694 | once forced, the flag stays set, and the later links fix the key as if the loop started unforced |
| ResolutionProperties.PushAt | src/LuaFFIGenerator.cpp:705 | Push appends a reverse link to its target and to no other entity |
| ResolutionProperties.RegisterAppendsAt | src/LuaFFIGenerator.cpp:703-706 | from a given link on, each target's list grows by exactly the reverse entries of that target, in link order |
| ResolutionProperties.RegisterAppends | src/LuaFFIGenerator.cpp:703-706 | registration appends to every entity exactly the reverse links of the relationship's indexed links to it, in link order |
| ResolutionProperties.AttachEffect | src/LuaFFIGenerator.cpp:703-726 | other entities change only in their reverse links; the relationship gets the key and the links, with exactly the key's links marked; with a key it takes the target's size and expandability and becomes contiguous; without one its storage is erasable or compactable |
| ResolutionProperties.ResolveOneAttaches | src/LuaFFIGenerator.cpp:646-701 | a successful patch-up resolved every link, chose a key, applied ForceStep (the forced key, if asked), and then attached them |
| ResolutionProperties.ResolveOneEffect | src/LuaFFIGenerator.cpp:646-726 | the complete new state after patching up one relationship: other entities, reverse links, resolved and marked links, key, capacity, storage |
| ResolutionProperties.ChosenKeyIsALink | src/LuaFFIGenerator.cpp:656-694 | from no key, a chosen or forced key equals one of the eligible resolved links |
| ResolutionProperties.KeyLinkIsMarked | src/LuaFFIGenerator.cpp:708-717 | a relationship that gets a key has an eligible link equal to it and marked as the primary key |
| ResolutionProperties.EmptyRelationshipRejected | src/LuaFFIGenerator.cpp:677-682 | a relationship with no links is rejected with 1003 |
| ResolutionProperties.UnusableForcedKeyRejected | src/LuaFFIGenerator.cpp:685-700 | a forced key that names no eligible link is rejected with 1004 |
| ResolutionProperties.MissingDeletePathRejected | src/LuaFFIGenerator.cpp:718-725 | a contiguous relationship with no eligible link and no key is rejected with 1005 |
| ResolutionProperties.ResolveOneKeyFields | src/LuaFFIGenerator.cpp:708-711 | patching up one relationship changes no key-relevant field of another entity and gives it a key or a delete path |
| ResolutionProperties.ResolveAllKeepsNames | src/LuaFFIGenerator.cpp:644-729 | the pass changes no entity's name or role |
| ResolutionProperties.ResolveAllFrame | src/LuaFFIGenerator.cpp:644-729 | the pass from i on changes no key-relevant field of entities before i or of plain entities |
| ResolutionProperties.ResolveAllEffect | src/LuaFFIGenerator.cpp:644-729 | every relationship from i on ends with a key or a delete path; a key to a plain entity carries that entity's final size and expandability |
| ResolutionProperties.ResolvedSchema | src/LuaFFIGenerator.cpp:644-729 | after the whole pass, every relationship has a contiguous key or erasable/compactable storage, and a key to a plain entity carries its size and expandability |
| CompositeKeys.BitLength | src/LuaFFIGenerator.cpp:800-803 | zero halvings exactly for size zero |
| CompositeKeys.BitLengthBounds | src/LuaFFIGenerator.cpp:800-803 | the count of halvings is the bit length: 2^(b-1) <= n < 2^b, with Pow2 the power of two |
| CompositeKeys.CDiv | src/LuaFFIGenerator.cpp:807 | C++ integer division truncates toward zero for either sign |
| CompositeKeys.TotalBytesRoundsUp | src/LuaFFIGenerator.cpp:807 | TotalBytes is the bit count rounded up to whole bytes, and at most 8 exactly when the bits fit in 64 |
| CompositeKeys.LastNamed | src/LuaFFIGenerator.cpp:775-781 | the last link with the component's name, or None exactly when none has it |
| CompositeKeys.CoverLinks | src/LuaFFIGenerator.cpp:775-781 | each link is flagged as covered when its name matches, and otherwise left alone |
| CompositeKeys.MatchComponent | src/LuaFFIGenerator.cpp:775-781 | the scan computes Matched, copying type and multiplicity from the last link with the component's name, and flags every such link as covered |
| CompositeKeys.PlaceComponent | src/LuaFFIGenerator.cpp:791-804 | a component is Placed at the running total with width 32 or the bit length, and the total grows by its Width |
| CompositeKeys.PackComponents | src/LuaFFIGenerator.cpp:772-805 | the component loop with its 1006 return computes PackFrom (whose meaning PackIndexLayout states) |
| CompositeKeys.PackCompositeKeys | src/LuaFFIGenerator.cpp:766-813 | the nested loops over entities and indexes compute PackAll over PackIndexes (whose meaning PackAllEffect, HashSizesOfPass and CompositeLayout.PassLaysOutIndexes state) |
| CompositeKeys.LastNamedSame | src/LuaFFIGenerator.cpp:775-781 | lookup depends only on the links' names |
| CompositeKeys.MatchedSame | src/LuaFFIGenerator.cpp:775-781 | matching is unaffected by earlier coverage flags |
| CompositeKeys.PackStep | src/LuaFFIGenerator.cpp:773-805 | one component step keeps the loop invariant of PackedUpTo |
| CompositeKeys.PackFromOkIff | src/LuaFFIGenerator.cpp:783-789 | packing succeeds exactly when every remaining component has a non-empty object type after matching |
| CompositeKeys.PackFromDone | src/LuaFFIGenerator.cpp:773-805 | a successful pack ends in the invariant at the last component |
| CompositeKeys.FirstRejected | src/LuaFFIGenerator.cpp:783-789 | the first component from j on left with an empty object type after matching, with all earlier ones accepted |
| CompositeKeys.PackFromError | src/LuaFFIGenerator.cpp:783-789 | a failed pack reports 1006 for the first component left with an empty object type after matching |
| CompositeKeys.AcceptedIffNamed | src/LuaFFIGenerator.cpp:775-789 | for a component with no object type of its own and links that all name a type, a non-empty object type after matching means exactly that some link has the component's name |
| CompositeKeys.PackIndexLayout | src/LuaFFIGenerator.cpp:772-807 | PackFrom's layout in closed form: success iff every component has a non-empty object type after matching; otherwise 1006 for the first that does not; each component's type, multiplicity, offset (sum of earlier widths) and width; the total bits; the primary-key flag; the covered links |
| CompositeKeys.OffsetsAreContiguous | src/LuaFFIGenerator.cpp:791-804 | each offset is the previous offset plus the previous component's width |
| CompositeKeys.UniformOffsets | src/LuaFFIGenerator.cpp:795-804 | with all multiplicities 1, the offset of component n is n times the per-component width |
| CompositeKeys.ThreeHundredRowsExample | src/LuaFFIGenerator.cpp:800-807 | worked example: a bound of 300 rows needs 9 bits, and two such components need 3 bytes |
| CompositeKeys.AddHashSizeFacts | src/LuaFFIGenerator.cpp:808-811 | AddHashSize keeps the list duplicate-free and above 8, extends it, and adds exactly that size when it exceeds 8 |
| CompositeKeys.PackIndexesSizes | src/LuaFFIGenerator.cpp:769-812 | the index loop only extends the size list, keeping it duplicate-free |
| CompositeKeys.PackAllSizes | src/LuaFFIGenerator.cpp:768-813 | the entity loop only extends the size list, keeping it duplicate-free |
| CompositeKeys.PackFromKeepsNames | src/LuaFFIGenerator.cpp:775-781 | packing changes only the links' coverage flags |
| CompositeKeys.PackIndexesFrame | src/LuaFFIGenerator.cpp:769-812 | PackIndexes changes only links and indexes of its entity, keeps the number of indexes and the earlier indexes |
| CompositeKeys.PackIndexesListed | src/LuaFFIGenerator.cpp:808-811 | every packed index wider than 8 bytes has its size listed |
| CompositeKeys.PackIndexesAdds | src/LuaFFIGenerator.cpp:808-811 | every listed size was listed before or is the size of a packed index |
| CompositeKeys.PackAllEffect | src/LuaFFIGenerator.cpp:768-813 | the pass changes only links and composite indexes, and lists exactly the sizes it needs |
| CompositeKeys.HashSizesOfPass | src/LuaFFIGenerator.cpp:766-813 | from an empty list, the listed sizes are duplicate-free and are exactly the packed sizes above 8 bytes |
| CompositeLayout.PackFromLaidOut | src/LuaFFIGenerator.cpp:772-807 | PackIndexLayout with the components as one sequence, LaidOutComps: each matched and placed at the sum of the earlier widths |
| CompositeLayout.LaidOutSame | src/LuaFFIGenerator.cpp:775-804 | links differing only in coverage flags, in entities of one size and expandability, accept the same components and lay them out alike |
| CompositeLayout.FinishedSame | src/LuaFFIGenerator.cpp:769-807 | an index is finished alike before and after earlier indexes set coverage flags on its entity's links |
| CompositeLayout.PackIndexesFirst | src/LuaFFIGenerator.cpp:769-807 | the index loop from index c finishes index c with its own PackFrom layout |
| CompositeLayout.PackIndexesLayout | src/LuaFFIGenerator.cpp:769-807 | each index the index loop packs is finished with its own PackFrom layout against the entity's links before the loop |
| CompositeLayout.PackAllFirst | src/LuaFFIGenerator.cpp:768-813 | the entity loop from entity i leaves entity i as its index loop does |
| CompositeLayout.PackAllKeepsEarlier | src/LuaFFIGenerator.cpp:768-813 | the entity loop from entity i keeps the number of entities and the entities before i |
| CompositeLayout.PackAllLayout | src/LuaFFIGenerator.cpp:768-807 | each index of each entity from i on is finished with its own PackFrom layout against its entity's links before the pass |
| CompositeLayout.FinishedLaidOut | src/LuaFFIGenerator.cpp:772-807 | a finished index keeps its name and has the laid-out components, the byte size rounded up from their bits and its primary-key flag |
| CompositeLayout.PassLaysOutIndexes | src/LuaFFIGenerator.cpp:766-813 | after the whole pass every composite index has that layout: components at the sum of the earlier widths, 32 bits or the size's bit length wide, bytes rounded up from the total bits, the primary-key flag |
| Text.NatToString | src/LuaFFIGenerator.cpp:340-342 | a numeral is a non-empty string of digits, one digit exactly below 10 |
| Text.NatToStringValue | src/LuaFFIGenerator.cpp:340-342 | reading the numeral back gives the number |
| Text.NatToStringInjective | src/LuaFFIGenerator.cpp:340-342 | different numbers give different numerals |
| Text.NumberedTagInjective | src/LuaFFIGenerator.cpp:340-342 | numeral + "_" + tag determines both the number and the tag |
| Text.TerminatedIsJoin | src/LuaFFIGenerator.cpp:368-378 | appending ", " after every item and dropping the last two characters gives the ", "-joined list |
| Text.TrimSeparator | src/LuaFFIGenerator.cpp:375-378 | trimming the trailing separator behind a head gives the head and the joined list |
| Text.UpperChar | src/LuaFFIGenerator.cpp:916-919 | lower-case ASCII letters move to upper case; other characters stay |
| Descriptors.ExportNameExtendsLuaName | src/LuaFFIGenerator.cpp:976-990 | for AccessPropertyName and LuaPropertyName: the exported name is prefix + object + "_" + the Lua wrapper's name, and the wrapper name is recovered from it |
| Descriptors.VectorOperationNames | src/LuaFFIGenerator.cpp:260-276 | get/set calls are named with "get_"/"set_", a size call with "resize_" and a resize call with "size_" |
| Descriptors.AccessNameInjective | src/LuaFFIGenerator.cpp:260-276 | for one access kind, prefix and object, names are equal exactly when properties are |
| Descriptors.AccessKindsDistinct | src/LuaFFIGenerator.cpp:260-276 | different access kinds on one property give different names |
| Descriptors.GenerateHead | src/LuaFFIGenerator.cpp:361-382 | the head (HeadSpec) is result type, name and the ", "-joined parameter declarations in parentheses |
| Descriptors.ParamNamesDistinct | src/LuaFFIGenerator.cpp:340-342 | no two parameters of one head share a name |
| Descriptors.ShouldBindLua | src/LuaFFIGenerator.cpp:994-1003 | a call is bound to Lua (ReachesLua) exactly when neither its result nor any input is passed by pointer |
| Descriptors.IsOnlyOfType | src/LuaFFIGenerator.cpp:1225-1229 | the flag holds exactly when no other link of the relationship has the entity's type |
| Descriptors.BaseCallsReachLua | src/LuaFFIGenerator.cpp:1031-1033 | BaseCalls (is_valid, size and resize) always reach Lua |
| Descriptors.LinkCallsReachLua | src/LuaFFIGenerator.cpp:1150-1208 | the link accessors LinkCalls gives always reach Lua |
| Descriptors.ReverseCallsReachLua | src/LuaFFIGenerator.cpp:1218-1237 | the reverse-link accessors ReverseCalls gives always reach Lua |
| Descriptors.HiddenPropertyCall | src/LuaFFIGenerator.cpp:1035-1142 | a property accessor of PropertyCalls kept off Lua is the first one, the getter of a pointer-passed value |
| Descriptors.SuppressedPropertyCalls | src/LuaFFIGenerator.cpp:1035-1142 | every property accessor kept off Lua is a getter of a pointer-passed value, never a setter |
| Descriptors.PointerValueGetterHidden | src/LuaFFIGenerator.cpp:1035-1142 | conversely, a readable pointer-passed value has an exported getter kept off Lua |
| Descriptors.SetterIffSettable | src/LuaFFIGenerator.cpp:1117-1141 | a scalar property gets a getter exactly when readable and a setter exactly when also not opaque, with get_/set_ names |
| Descriptors.PropsCallsHidden | src/LuaFFIGenerator.cpp:1035-1142 | over all properties, only getters of pointer-passed values are kept off Lua |
| Descriptors.LinksCallsReachLua | src/LuaFFIGenerator.cpp:1144-1210 | all link accessors of an entity reach Lua |
| Descriptors.ReversesCallsReachLua | src/LuaFFIGenerator.cpp:1212-1291 | all reverse-link accessors of an entity reach Lua |
| Descriptors.EntitySuppressedCalls | src/LuaFFIGenerator.cpp:1031-1291 | of all calls EntityCalls gives an entity, only getters of pointer-passed property values are kept off Lua |
| Descriptors.EntityFullyBound | src/LuaFFIGenerator.cpp:1031-1291 | with no pointer-passed property value, every exported call of the entity is bound to Lua |
| Emission.LuaNamespace | src/LuaFFIGenerator.cpp:916-919 | the namespace is the entity name upper-cased character by character, with no lower-case letter left |
| Emission.LuaParams | src/LuaFFIGenerator.cpp:951-975 | one annotation per input, and the ", "-joined argument names |
| Emission.HeaderMatchesCdef | src/LuaFFIGenerator.cpp:941-950 | each HeaderLine is the matching CdefLine behind the export annotation |
| Emission.EntityCdefMatchesHeader | src/LuaFFIGenerator.cpp:938-1003 | with no pointer-passed value, the cdef block declares every function the header exports, in the same order |
| Emission.ExtendsOne | src/LuaFFIGenerator.cpp:994-1003 | one call adds its header line, and its cdef line and wrapper only when it reaches Lua |
| Emission.Emitter.constructor | src/LuaFFIGenerator.cpp:921-922 | the wrapper starts by creating the namespace table |
| Emission.Emitter.AppendCall | src/LuaFFIGenerator.cpp:938-945 | the header gains the declaration of the call; nothing else changes |
| Emission.Emitter.AppendLua | src/LuaFFIGenerator.cpp:948-992 | the cdef gains the call's head, the wrapper gains its annotated forwarding function; the header is unchanged |
| Emission.Emitter.AppendWrapper | src/LuaFFIGenerator.cpp:951-991 | the wrapper gains WrapperText: the ParamAnnotation lines, the ReturnAnnotation and the forwarding function |
| Emission.Emitter.Append | src/LuaFFIGenerator.cpp:994-1003 | the outputs grow as Extends states for one call |
| Emission.Emitter.AppendMore | src/LuaFFIGenerator.cpp:994-1003 | appending calls one by one grows the outputs as Extends states for all of them |
| Emission.Emitter.AppendReverse | src/LuaFFIGenerator.cpp:1218-1237 | appends exactly the reverse-link calls of one reverse link |
| Emission.Emitter.AppendIfOnly | src/LuaFFIGenerator.cpp:1225-1237 | appends the plain relationship getter exactly when the entity is the only one of its type |
| Emission.Emitter.AppendProperties | src/LuaFFIGenerator.cpp:1035-1142 | appends exactly the property accessors, in property order |
| Emission.Emitter.AppendLinks | src/LuaFFIGenerator.cpp:1144-1210 | appends exactly the link accessors, in link order |
| Emission.Emitter.AppendReverses | src/LuaFFIGenerator.cpp:1212-1291 | appends exactly the reverse-link accessors, in registration order |
| Emission.Emitter.AppendEntity | src/LuaFFIGenerator.cpp:1031-1291 | the outputs grow by exactly the entity's calls: base, properties, links, reverse links |
| Emission.SlotCount | src/LuaFFIGenerator.cpp:1362-1376 | a link takes its multiplicity in parameters, and at least one |
| Emission.AddSlot | src/LuaFFIGenerator.cpp:1358-1365 | one more slot extends both joined lists and the counter |
| Emission.AddLinkSlots | src/LuaFFIGenerator.cpp:1362-1376 | one link adds SlotCount(m) consecutive parameters of its type |
| Emission.ExpandParams | src/LuaFFIGenerator.cpp:1353-1377 | the parameter lists of try_create / force_create (and of get_by for composite keys, lines 1422-1446) are RawParams p1..pn and their Conversions, one per one of the Slots |
| Emission.SlotsCount | src/LuaFFIGenerator.cpp:1353-1377 | there are TotalSlots parameters, which is the sum of multiplicities when all are at least one |
| Emission.SlotsOfLink | src/LuaFFIGenerator.cpp:1353-1377 | the parameters of link i are consecutive after the earlier links' and convert into identifiers of its type |
| Lifecycle.LifecycleTable | src/LuaFFIGenerator.cpp:1392-1420 | the Lifecycle selection as independent facts: simple create exactly for plain entities; relation create exactly for relationships; pop-back exactly for non-erasable storage unless keyed; delete exactly for non-contiguous storage or a keyed relationship; no duplicates |
| Lifecycle.ResolvedRelationshipsDeletable | src/LuaFFIGenerator.cpp:1405-1420 | after resolution every relationship gets a delete and a relation create, never a simple create, and no pop-back when keyed |

## Left out

- File and directory I/O: error_to_file, the output files, the `.lua` files, `std::abort` on open failure. Argument handling (`argv`) and the usage message are left out too. None of this is decision logic.
- Parsing and the helpers declared next to the parser are not part of this model. The exceptions are `find_by_name`, modelled as a first-match lookup, and primary-key / link equality, modelled as equal target and property name.
- `generate_body` and every C function body: only declarations (heads) are modelled. The same goes for the release-object loops of delete / pop-back, reset, and the load/save routines. All of these are text templates whose runtime meaning lives in the data container.
- The hand-written range helpers for reverse links with the "many" discipline (lines 1240-1289) are left out. They are not call descriptors.
- The Lua identifier classes file, and `lua_id`: the model treats `lua_id` as the identity, as written.
- The serialisation lists (lines 731-751), the vectorizable reclassification (lines 753-761) and prepared queries (lines 815-824) are left out. `is_vectorizable_type` and `make_prepared_definition` are not part of this model.
- `convert_lua_enum_to_type` and `to_luatype` are left out because they are never called. `convert_raw_to_index` and the `declare_*` helpers are left out because they feed only `generate_body`.
- Lifecycle: only the choice of functions is modelled, not their text. ExpandParams models the parameter lists of try_create / force_create and of the composite-key lookups.
- Accumulated error text and row/column positions are left out. A diagnostic is its code and the names it mentions.
- ResolutionProperties.ResolvedSchema: the key target's size and expandability are stated for targets that are plain entities only. A relationship keyed by a relationship that is patched up later keeps the size that target had when it was copied, which the later patch-up may change.
- The 32-bit integers `bits_so_far`, `total_bytes` and `pcount` are unbounded here. CompositeKeys.PackIndexLayout does not model their wrap-around, which needs more than 2^31 bits or parameters.
