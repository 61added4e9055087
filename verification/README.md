# minigo: a verification model

minigo is an interpreter for Go scripts. This project models the self-contained algorithms
around its virtual machine and proves what they promise. Each module says at its head what it
models; the source is cited by path and line below.

| modules | what they model |
|---|---|
| `Feed`, `FeedRuns`, `FeedDelivery` | the timer-channel feed: pump, receivers, timer, Stop and Reset as a step relation, and theorems over all its runs: what never happens, and what is delivered |
| `ValueGraph`, `DeepEqual`, `DeepEqualLaws`, `DeepEqualTrees` | `reflect.DeepEqual` over cyclic heaps; it decides the greatest bisimulation, which is equality of the values unrolled into trees |
| `JsonWalk` | the JSON walk over cyclic heaps; markers appear exactly for cycles |
| `JsonTypes`, `JsonFlatten`, `JsonCodec`, `JsonMembers`, `JsonRestore`, `JsonStable`, `JsonLoops` | struct flattening, encode and decode at tree level: exactly which fields are visible, what is written, what comes back, which trees are errors, and when decode-then-encode is the identity |
| `Words`, `Kernels`, `Shifts` | the multi-word arithmetic kernels, in place over one shared memory |
| `Format`, `Printf` | Go's directive grammar, how fmt reads a format and assigns operands |
| `TypeVerbs`, `TypeVerbsLaw`, `TypeVerbsMeaning`, `TypeVerbsExact`, `TypeVerbsCases`, `TypeVerbsLoops` | the rewriting of %T and %p, its meaning, and exactly when it is kept, for every well-formed format |
| `WrapVerbs`, `WrapMeaning`, `WrapLoops` | the rewriting of %w and the operands `fmt.Errorf` wraps, and exactly when the two agree |
| `TypeGraph`, `InterfaceWalk`, `InterfaceCache`, `InterfaceEngine`, `InterfaceRuns` | requirement and signature sets of interfaces, and their caches while resolution grows |
| `MethodWalk`, `MethodFuncs` | the method walk behind dynamic interface checks |
| `MethodSet`, `MethodSetRecord`, `MethodSetLaw`, `MethodSetLoops` | `inspect.MethodSet`: the breadth-first walk, its record, and the rule it follows |
| `MethodSetCover`, `MethodSetQueue`, `MethodSetRounds` | what a round of the walk keeps: entries in the order of their ways, and in which round an interface is flattened |
| `MethodSetSchedule`, `MethodSetFollows` | when each declaration is read: equations on the ways with one solution, the timetable, and the walk that solves them |
| `MethodSetExact`, `MethodSetTables` | what the walk computes however many ways lead to a declaration, and exactly when that is the rule |
| `Promotion`, `MethodSetMeets`, `MethodSetHarmless`, `MethodSetGaps` | Go's promotion rule stated on its own, exactly when the method set is the one it gives, and inputs where it is not |
| `Paths`, `PathsLaw` | host paths back to script spellings |
| `Each`, `ParseFiles` | the work queue, and the parallel parse with sequential positions |
| `Slices` | slices of zero-size elements held as counts, and `copy` under overlap |
| `Basics` | optional values and powers of two |

The loops and the objects that update their fields are methods and classes, proved equal to the
functions the theorems are about; protocols with concurrent parties are step relations.

## What the model assumes

- `Feed`: since Go 1.23 the real Stop and Reset atomically discard an expired, unreceived value,
  and for a one-shot timer report whether anything was pending.
- `DeepEqual`: among the values the two operands lead to, chains made only of pointers and tags end
  (`ChainsEndFrom`). The comparison peels them in a loop that records nothing; on a pointer to itself
  it does not end (`DeepEqualLaws.SelfPointerNeverEnds`). Cycles through slices, structs and maps are
  unrestricted, and so is whatever the operands do not lead to.
- `JsonCodec`: integers lie within ±2^53, so that numbers survive as floats; numbers are reals.
- `MethodSetExact` and what follows it: on the ways down from the queried type a spelling has at most
  eight named layers (`Short`), and interfaces embed interfaces only (`Terms`). Nothing is asked of
  declarations the queried type does not lead to.
- `Paths`: `Clean` and `Join` are `path/filepath`'s documented functions on Unix paths.

## Where the code does less than it promises

Each of these is proved, for all inputs where a condition is given and for the inputs named; that
math/big's callers need the other direction, and the remarks on the ticker's comment and on the Go
compiler, are no theorems.

- The shift kernels run the other way round than math/big's callers need for overlapping vectors:
  the left shift ascends and is right on every memory exactly when the destination does not start
  inside the source above its first word; the right shift descends, and is right exactly when the
  destination does not start below a source it overlaps.
- A `%%` written with a star, `%*%`, loses its operand in the rewriting, and an index on `%%` stays in
  the text and moves the cursor of the rebuilt list. For every well-formed format and every number of
  operands `TypeVerbsExact.KeepsIff` says exactly when the print is kept: both strings read the
  operands in line. Indexes on `%%` behind the last directive that reads an operand do no harm
  (`TypeVerbsCases.TrailingIndexHarmless`). A directive that reads implicitly right behind `%[m]%`
  misreads unless the m-th place of the rebuilt list is for the m-th operand (`ImplicitMisreads`); in
  `%d%d%[2]%%d` it is, and the print is kept (`LuckyIndex`).
- The rewriting panics exactly when the format has no index and the operands suffice up to the last
  directive other than `%%`, but not for the stars of the `%%` behind it (`TypeVerbsCases.PanicIff`).
- A `%w` whose explicit index is past the operands makes the recorded positions go on behind it,
  while fmt goes on at the operand it was at. `WrapMeaning.PositionsAgreeIff` carries the two cursors
  along: over one operand `%[9]w` and `%[9]w%[1]w` agree, `%[9]w%w` and `%[9]*[1]w` do not.
- `omitempty` looks through pointers: a pointer to 0 or to an empty string is dropped, where
  encoding/json writes it (`Empty` in `JsonMembers.MemberIff`).
- An `omitempty` interface field that holds a struct none of whose fields is written, or pointers to
  one, does not survive decode-then-encode; values without such a field do, and a second round
  always does.
- Requirement sets and signature sets are cached when every embedded element resolved, but an alias
  whose target did not resolve passes for one: such a set goes stale when the target resolves.
- Comparing containers by identity first is invisible exactly when no container holds a value
  unequal to itself.
- The ticker's comment says its buffer keeps the latest tick; the code keeps the oldest uncollected
  one and drops the new one. The model follows the code.
- `make` with a length above 2^32 and a smaller capacity blames the length, where Go blames the
  capacity.
- An ancestor inside a clean relative spelling is spelled as that prefix exactly when the working
  directory is not the root and the spelling does not start with two dots (also in a name such as
  `..foo`); otherwise the host path comes back.
- `inspect.MethodSet` marks a declaration on its first arrival. A method by pointer is lost where the
  first of the shortest ways to its type crosses no pointer and a later way does: the type is hidden
  (`MethodSetExact.FirstArrivalHides`). And an interface that a struct pushes as a field is not
  flattened where another interface lists it, if the struct comes first at that interface's depth: the
  element is deferred, its names arrive one layer deeper, and a rival there drops them
  (`MethodSetGaps.EnteredDrops`). Whatever methods and specs are declared, the set is the rule's
  exactly when nothing is hidden and nothing deferred (`MethodSetTables.HarmlessIff`). Nothing is
  deferred where structs embed an interface no deeper than any interface that lists it lies
  (`MethodSetSchedule.NoLaterNoneDeferred`), as in `struct { R; RW }` with R in RW
  (`MethodSetGaps.ReadWriterInTime`).
- Against Go's own rule there are more gaps. A type defined by another's name, `type D B`, is passed
  through: its own methods are never promoted (`MethodSetGaps.DefinedMisses`), those of B are
  (`DefinedLayerHides`); and below a queried `type S B` nothing is. Passing through does no harm where
  D is defined over an interface, or nothing is below S, and only there: with the two conditions above
  that is exactly when the set is the one Go's rule gives whatever is declared
  (`MethodSetHarmless.GoHarmlessIff`), up to the following. An interface that has a name from two
  declarations, `interface { K; L }` with M in both, counts as two rivals, and the name is dropped
  (`TwoDeclarersMiss`, `MergedDrops`). More than eight alias layers lead to nothing: a name is missing
  when nothing has it that fewer layers lead to (`BeyondMisses`, `NineLayersHide`). One declaration
  reached along several ways at one depth counts once, as the source documents; the Go compiler calls
  such a selector ambiguous.

## Model

| member | source | states |
|---|---|---|
| `Feed.Keeps` | intrinsics.go:3176-3289 | every step of pump, timer, receivers, Stop and Reset keeps the protocol's invariant |
| `FeedRuns.Conservation` | intrinsics.go:3176-3289 | in every run each fire is in exactly one of timer, source, pump's hand, proxy, received, discarded; a one-shot feed issues one fire per arming |
| `FeedRuns.ResultIsExact` | intrinsics.go:3263-3289 | Stop and Reset of a one-shot feed return true exactly when they discarded the fire of the schedule they found, and discard nothing else |
| `FeedRuns.StopIsFinal` | intrinsics.go:3263-3276 | after Stop the proxy is empty and nothing more is received until a Reset begins |
| `FeedRuns.ResetIsClean` | intrinsics.go:3278-3289 | after Reset every value received was fired by the new schedule or a later one |
| `FeedRuns.DeadIsSilent` | intrinsics.go:3209-3233 | once the wake flag says dead no pump sends again before one is launched |
| `FeedRuns.FlagIsExact` | intrinsics.go:3135-3141 | between calls the flag says exactly whether a fire can still arrive |
| `FeedRuns.RetiredNeverKills` | intrinsics.go:3222-3233 | however a run goes on, a pump that some call retired never touches the flag again |
| `FeedRuns.DieIfIsForTheLiving` | intrinsics.go:3222-3233 | whenever in a run a pump raises the flag, it is the newest pump, no call has retired it, and it has sent the fire of the schedule that is still current |
| `FeedRuns.NoDeadlock` | intrinsics.go:3235-3250 | while a call is under way, the call or the pump can move |
| `FeedRuns.CallsEnd` | intrinsics.go:3235-3289 | every Stop and Reset takes a bounded number of steps |
| `FeedDelivery.WhyDiscarded` | intrinsics.go:3180-3207 | in every run a fire is discarded only by a call, by the real ticker whose last tick is uncollected, or by the pump holding it: a ticker's when the proxy is full, a one-shot feed's when a call waits for the pump |
| `FeedDelivery.Expires` | intrinsics.go:3164-3174 | a pending timer can expire at any moment; the fire is then in the source if that is empty, as it always is in a one-shot feed |
| `FeedDelivery.NeverLost` | intrinsics.go:3180-3207 | in every interleaving without a call, a fire next in line before an empty proxy is never lost, and two steps of the pump put it in the proxy |
| `FeedDelivery.Delivers` | intrinsics.go:3180-3207 | from every reachable state between calls with the pump at work, the proxy empty and a fire in the source or in its hand, pump steps alone put exactly that fire in the proxy |
| `FeedDelivery.AliveDelivers` | intrinsics.go:3135-3141 | from every reachable state between calls with the pump at work, timer, pump and a receiver alone bring one more value to a receiver |
| `FeedDelivery.CallCompletes` | intrinsics.go:3235-3289 | between calls Stop and Reset can begin at any moment and come to their end without timer or receiver; after a Stop nothing is on its way, after a Reset the new pump waits for a fire |
| `DeepEqual.Equal` | intrinsics.go:10096-10242 | the comparison ends on every finite heap and is true exactly for bisimilar values |
| `DeepEqual.Walk.Peeled` | intrinsics.go:10101-10148 | the peeling loop ends at two bare values, or at the layer where the two differ, and relates them alike |
| `DeepEqual.Walk.DeepEql` | intrinsics.go:10100-10242 | on success the record of pairs is a bisimulation holding the two values; on failure there is none |
| `DeepEqual.Walk.Contents` | intrinsics.go:10168-10242 | a container pair is recorded before its contents are compared, in any order |
| `DeepEqual.BisimilarIsIndistinguishable` | intrinsics.go:10080-10099 | bisimilar is: no finite inspection tells the two apart |
| `DeepEqualLaws.Symmetric` | intrinsics.go:10100-10242 | the relation is symmetric |
| `DeepEqualLaws.Transitive` | intrinsics.go:10100-10242 | and transitive |
| `DeepEqualLaws.ShortcutInvisibleIffClean` | intrinsics.go:10168-10242 | the identity shortcut changes no answer exactly when no container holds a value unequal to itself |
| `DeepEqualLaws.SelfPointerNeverEnds` | intrinsics.go:10101-10148 | the peeling of a pointer to itself reaches no end |
| `DeepEqualTrees.TreesIff` | intrinsics.go:10100-10242 | without the identity shortcut two values are equal exactly when, unrolled to any depth, they are the same tree of types, nils, host values, positions and keys, with no leaf unequal to itself |
| `DeepEqualTrees.EqualTrees` | intrinsics.go:10100-10242 | values the comparison calls equal are the same trees at every depth, and values without such leaves are equal exactly if they are |
| `DeepEqualTrees.FiniteTreesIff` | intrinsics.go:10100-10242 | values that are finite trees are equal exactly when these are one tree |
| `JsonWalk.Walker.GoJSON` | intrinsics.go:5667-5839 | the walk ends on every heap, computes the specified tree, and restores the path set |
| `JsonWalk.Walker.Seen` | intrinsics.go:5841-5849 | marks a container, and says whether it was on the path |
| `JsonWalk.MarkerIffCycle` | intrinsics.go:5667-5849 | a cycle marker is emitted exactly when some path enters a container twice |
| `JsonWalk.WalkIsTheUnfolding` | intrinsics.go:5667-5849 | a value that reaches no cycle, shared or not, becomes the one tree that writes it out: null for nil, host values of leaves, pointers and tags looked through, elements, entries and visible fields in order; a value that reaches a cycle has none |
| `JsonTypes.LiveKeysDistinct` | intrinsics.go:6907-6959 | at most one field survives per key |
| `JsonTypes.LiveOk` | intrinsics.go:6683-6754 | every live entry leads along embeds to a declared field |
| `JsonFlatten.FlatIff` | intrinsics.go:6690-6754 | a field is in the flattened list, described as it is declared, exactly when a way down untagged embeds that enters no struct twice ends at it and none of the fields taken is hidden |
| `JsonFlatten.FlatInOrder` | intrinsics.go:6690-6754 | the list is in the order of the declarations, each embed expanded in place, and has every field once |
| `JsonLoops.Flattener.Walk` | intrinsics.go:6690-6754 | the flattening walk appends the visible fields in order and restores its cycle guard |
| `JsonLoops.StructFields` | intrinsics.go:6690-6754 | flattening from an empty guard |
| `JsonLoops.Winner` | intrinsics.go:6913-6946 | keeps a candidate exactly when it beats all others by depth, then by tag |
| `JsonLoops.Dominant` | intrinsics.go:6913-6946 | marks exactly the entries that win their key |
| `JsonLoops.MarshalLive` | intrinsics.go:6948-6959 | keeps the winners in declaration order |
| `JsonMembers.MemberIff` | intrinsics.go:5731-5755 | a struct is written with exactly these members: the reachable fields that are not empty under omitempty and that no other field with the key rivals by depth, then by tag |
| `JsonMembers.EncodeIff` | intrinsics.go:5667-5799 | a value is written as the one tree that spells it, element by element, entry by entry and member by member |
| `JsonRestore.Restores` | intrinsics.go:6969-7272 | decoding an encoded value gives back every scalar, pointer, list, map and written field as it was; what an interface held comes back in a form written alike |
| `JsonRestore.DecodeIff` | intrinsics.go:7390-7484 | no error is recorded exactly for trees of the type: the right kinds throughout, whole numbers in the range of the integer type; a scalar is the tree's own, and zero after an error |
| `JsonLoops.DecodeStruct` | intrinsics.go:6969-7272 | decodes an object field by field, allocating nil embeds on demand |
| `JsonStable.SetHop` | intrinsics.go:6857-6880 | a store through an embed keeps everything but that field, allocating a nil pointer embed |
| `JsonStable.DecodeRead` | intrinsics.go:6969-7272 | a present member is read back at its field |
| `JsonStable.DecodeUnread` | intrinsics.go:6969-7272 | an absent member leaves its field zero or unreachable |
| `JsonStable.Stabilises` | intrinsics.go:5731-5799 | decoding an encoded value records no error, and gives the same tree again exactly when no omitempty interface field holds a struct without visible fields or pointers to one |
| `JsonStable.HollowIff` | intrinsics.go:5731-5799 | written as {} are exactly empty maps and structs, or pointers to them, none of whose live fields is visible |
| `JsonStable.SecondRoundKeeps` | intrinsics.go:6969-7272 | whatever the first round changed, later rounds keep |
| `JsonStable.DecodedTyped` | intrinsics.go:7390-7484 | decoding gives a value of the type asked for |
| `JsonStable.BareObjectIsLost` | intrinsics.go:5753-5755 | a concrete value that does not stabilise |
| `Kernels.AddVV` | asmimpl.go:175-184 | val(z) + c·2^(64n) = val(x) + val(y), also in place; nothing else is written |
| `Kernels.SubVV` | asmimpl.go:186-195 | val(z) − c·2^(64n) = val(x) − val(y) |
| `Kernels.MulAddVWW` | asmimpl.go:221-232 | val(z) + c·2^(64n) = val(x)·y + c0 |
| `Kernels.AddMulVVWW` | asmimpl.go:235-247 | val(z) + c·2^(64n) = val(x) + val(y)·m + a |
| `Kernels.NoOverflow` | asmimpl.go:224-245 | the carry word hi + cc + c2 cannot wrap |
| `Kernels.MulCarry` | asmimpl.go:224-245 | the carries of the parts add up to the carry of the whole |
| `Kernels.SubUndoesAdd` | asmimpl.go:175-195 | subtracting undoes adding, with equal carry and borrow |
| `Kernels.ResultUnique` | asmimpl.go:175-247 | a kernel's law determines every word and the carry |
| `Shifts.LshVU` | asmimpl.go:197-207 | the loop that shifts left, ascending, for any overlap |
| `Shifts.RshVU` | asmimpl.go:209-219 | the loop that shifts right, descending, for any overlap |
| `Shifts.LshRightIffAscends` | asmimpl.go:197-207 | the left shift is exact on every memory exactly when z does not start inside x above its first word |
| `Shifts.RshRightIffDescends` | asmimpl.go:209-219 | the right shift is exact on every memory exactly when z does not start below an overlapping x |
| `Words.ShiftSplit` | asmimpl.go:197-219 | the bits that leave a word at one end enter the next at the other |
| `Format.ParseRender` | intrinsics.go:9653-9664 | a well-formed format is read by the host as the directives it was written from |
| `TypeVerbsLoops.ScanOne` | intrinsics.go:9689-9726 | the scan of one directive |
| `TypeVerbsLoops.ScanSpec` | intrinsics.go:9676-9743 | the directives recorded, with their operands and the highest operand claimed |
| `TypeVerbsLoops.AllResolve` | intrinsics.go:9744-9756 | whether every operand resolves and no directive mixes stars and indexes |
| `TypeVerbsLoops.Rebuild` | intrinsics.go:9757-9794 | the renumbered string and its operand list |
| `TypeVerbsLoops.RewriteTypeVerbs` | intrinsics.go:9665-9801 | the whole pass computes the rewriting the theorems are about |
| `TypeVerbsLaw.ScanItems` | intrinsics.go:9676-9743 | on a well-formed format the character scan finds the directives of the grammar |
| `TypeVerbsLaw.BuildItems` | intrinsics.go:9757-9794 | the rebuilt string is the format with every directive renumbered, literals untouched |
| `TypeVerbsMeaning.FitsIffWhole` | intrinsics.go:9744-9756 | the scan may be used exactly when fmt finds every operand |
| `TypeVerbsMeaning.RewritePreserves` | intrinsics.go:9653-9801 | without stars or indexes on %% the rewritten format prints the same literals, flags, stars, operands and EXTRA tail, with %T and %p as %s over pre-rendered text; otherwise all is untouched |
| `TypeVerbsMeaning.TypeThenAddress` | intrinsics.go:9781-9786 | `%T%p` becomes `%s%s` over the text of the first operand's type and that of the second one's address |
| `TypeVerbsExact.KeepsIff` | intrinsics.go:9653-9801 | for every well-formed format, indexes and stars on %% included, and every number of operands: the print is kept over all operands exactly when the rebuilt list is in line with what the format reads |
| `TypeVerbsExact.KeepsFaithful` | intrinsics.go:9653-9801 | the condition suffices for operands of any kind |
| `TypeVerbsMeaning.FaithfulIff` | intrinsics.go:9665-9801 | for formats whose %% carry no index the print is kept for all operand lists exactly when no %% has a star or the format mixes stars and indexes |
| `TypeVerbsMeaning.StarredPercentLoses` | intrinsics.go:9711-9734 | for every other format, operands over which the print changes |
| `TypeVerbsMeaning.StarredPercentPanics` | intrinsics.go:9795-9799 | `%*%` without operands slices past the list |
| `TypeVerbsCases.PanicIff` | intrinsics.go:9795-9799 | slicing off the unread operands fails exactly when the format has no index and the operands suffice up to the last verb but not for the stars of the %% behind it |
| `TypeVerbsCases.TrailingIndexHarmless` | intrinsics.go:9696-9734 | indexes on %% do no harm where no operand is read after them |
| `TypeVerbsCases.ImplicitMisreads` | intrinsics.go:9696-9734 | an implicit directive right behind %[m]% misreads for some operands unless the m-th place of the rebuilt list is for the m-th operand |
| `TypeVerbsCases.LuckyIndex` | intrinsics.go:9696-9734 | `%d%d%[2]%%d` is rewritten and prints the same |
| `TypeVerbsMeaning.IndexedPercentMisreads` | intrinsics.go:9696-9734 | `%[2]%%d` over three operands prints the third |
| `WrapLoops.RewriteWrapVerbs` | intrinsics.go:8392-8474 | the pass computes the rewriting and positions the theorems are about |
| `WrapVerbs.WrapOf` | intrinsics.go:8399-8474 | the text is the format with %v for %w, the positions those of its %w directives |
| `WrapMeaning.PositionsAgreeIff` | intrinsics.go:8392-8474 | for every well-formed format and number of operands the recorded positions name what each %w wraps exactly when the two cursors, led by indexes past the operands, are in step at every %w |
| `WrapMeaning.ErrorfWrapsIff` | intrinsics.go:177-216 | where the rewriting keeps the print, Errorf wraps exactly the operands its %w directives print if and only if the cursors are in step |
| `WrapMeaning.ErrorfWraps` | intrinsics.go:177-216 | the same for operands of any kind |
| `WrapMeaning.RewrittenWraps` | intrinsics.go:177-216 | in particular whenever a format without starred or indexed %% is rewritten at all |
| `WrapMeaning.OutOfRangeIndexes` | intrinsics.go:8406-8417 | over one operand `%[9]w` and `%[9]w%[1]w` are in step, `%[9]w%w` and `%[9]*[1]w` are not |
| `TypeGraph.PeelAlias` | dispatch.go:296-309 | at most 32 alias links are followed, as far as they resolve |
| `TypeGraph.PeelChain` | dispatch.go:296-309 | the type peeled to is the last of a chain in which each alias is declared to be the next, cut only after as many links as allowed |
| `InterfaceWalk.VisitIsReach` | dispatch.go:502-543 | the visited-set walk visits exactly the reachable interfaces |
| `InterfaceWalk.RequiredIff` | dispatch.go:572-593 | a name is required exactly when a reachable interface requires it |
| `InterfaceWalk.SignedIff` | dispatch.go:502-543 | a name has a signature exactly when a reachable interface declares one, and then one such, the interface's own if it has one |
| `InterfaceCache.SettledForever` | dispatch.go:553-570 | a complete walk that met no waiting alias gives the same sets ever after |
| `InterfaceCache.LastingIff` | dispatch.go:553-570 | a requirement set or signature set is right for good exactly when its walk resolved every element and met no alias without a target |
| `InterfaceEngine.Walk.Reqs` | dispatch.go:572-593 | the recursive walk: names, visited set and completeness |
| `InterfaceEngine.Walk.Sigs` | dispatch.go:502-543 | the signatures, the first visited winning |
| `InterfaceEngine.Interfaces.IfaceReqSet` | dispatch.go:557-570 | cached only when complete; without a waiting alias the answer is the current one |
| `InterfaceEngine.Interfaces.IfaceSigs` | dispatch.go:431-451 | likewise for signatures |
| `InterfaceEngine.Interfaces.Load` | dispatch.go:553-556 | loading more keeps every cached set right |
| `InterfaceRuns.RunsAnswerCurrent` | dispatch.go:431-570 | in every run of loading and asking for requirements and signatures that stores no set while an alias waits, every answer is the fresh one |
| `InterfaceRuns.StoredTooEarly` | dispatch.go:431-570 | any set of either kind stored while an alias waits can be answered stale |
| `MethodWalk.NamesIff` | dispatch.go:311-410 | a name is offered exactly when some trail of embedded fields that repeats no type ends at an interface that requires it, or at a type that declares it without type parameters, by pointer only if the trail starts behind a pointer or crosses one: an embed spelled `*T`, an embed of pointer kind, an anonymous `*T` |
| `MethodWalk.ValueInPointer` | dispatch.go:347-358 | the value set is contained in the pointer set |
| `MethodFuncs.FuncsInNames` | dispatch.go:311-321 | the function view's domain lies in the name set, and is it where every requirement has a signature |
| `MethodFuncs.FuncsFound` | dispatch.go:322-410 | every function of the view is a method declared by the type at the end of such a trail, under the receiver rule, or has a signature of the interface there |
| `MethodFuncs.OwnFirst` | dispatch.go:346-358 | a method the type has itself is the one in its view |
| `MethodFuncs.UnsureIff` | dispatch.go:359-375 | unsure exactly when a trail that repeats no type ends at a type with an unresolved embed |
| `MethodFuncs.Walker.Walk` | dispatch.go:322-410 | the recursive walk ends, computes both views and the flag, and lifts its marks |
| `MethodSetRecord.KeptIff` | inspect/inspect.go:584-606 | recording keeps exactly the names with one declaration at the least depth |
| `MethodSetLaw.WalkSound` | inspect/inspect.go:607-694 | whatever the walk meets is provided by some embed path |
| `MethodSetLaw.WalkOrdered` | inspect/inspect.go:607-614 | arrivals come in order of depth |
| `MethodSetRounds.WalkCloses` | inspect/inspect.go:610-694 | every round keeps the invariant of the queue: entries in the order of their ways, everything visited queued or flattened, finished entries with all they lead to, in time |
| `MethodSetFollows.WalkSchedule` | inspect/inspect.go:610-694 | the walk reads every declaration at the moment a timetable gives: the starts first, a field on the first way that pushes it, an element in the round of the interface that lists it, unless it was met before |
| `MethodSetSchedule.OneSchedule` | inspect/inspect.go:610-694 | the equations of the timetable, stated on the ways alone, have one solution |
| `MethodSetSchedule.Cover` | inspect/inspect.go:610-694 | every way of the rule leads to a declaration that is read: what is no interface on a way not after it, and anything no deeper where no element is deferred |
| `MethodSetSchedule.DeferredIs` | inspect/inspect.go:736-742 | an element that is read deeper than the interface listing it is the field of a struct read before that interface at the same depth, and is read one layer deeper |
| `MethodSetSchedule.NoLaterNoneDeferred` | inspect/inspect.go:736-742 | no element is deferred where structs embed an interface no deeper than any interface that lists it lies |
| `MethodSetExact.MetIff` | inspect/inspect.go:573-708 | however many ways lead to a declaration: a member is in the set exactly when its declaration alone has the name at the least depth at which the timetable reads one, methods by pointer counting where the way on which it is read crosses a pointer |
| `MethodSetExact.MethodSetIff` | inspect/inspect.go:573-708 | where no declaration with a method by pointer is hidden and no element deferred, a member is in the set exactly when its declaration alone provides the name at the least depth; interface embedding adds no depth |
| `MethodSetExact.AgreeingWays` | inspect/inspect.go:573-708 | in particular where no element is deferred and all ways to a declaration with a method by pointer agree on crossing one |
| `MethodSetExact.OneWay` | inspect/inspect.go:573-708 | and where one way leads to every declaration reached |
| `MethodSetTables.HarmlessIff` | inspect/inspect.go:573-708 | whatever methods and specs are declared the set has from every declaration the names the rule gives, exactly when no declaration is first reached without crossing a pointer and later across one, and no element is deferred |
| `MethodSetExact.FirstArrivalHides` | inspect/inspect.go:736-742 | a declaration reached along two paths keeps the first arrival's pointer flag: a method the rule provides is missing |
| `MethodSetMeets.MeetsRule` | inspect/inspect.go:573-708 | where nothing but aliases and types defined over interfaces is passed through, no element is deferred and no method by pointer hidden, a member is in the set exactly when Go's rule promotes it from a type that has it from one declaration |
| `MethodSetHarmless.GoHarmlessIff` | inspect/inspect.go:573-708 | whatever methods and specs are declared the set has from every declaration the names Go's rule gives, exactly when nothing else is passed through, no declaration is hidden and no element deferred |
| `MethodSetGaps.DefinedMisses` | inspect/inspect.go:757-762 | no method of an embedded type defined by another's name is in the set, though the rule promotes it |
| `MethodSetGaps.DefinedLayerHides` | inspect/inspect.go:757-762 | `type D B` embedded: the rule gives D's method, the code B's |
| `MethodSetGaps.KeptOn` | inspect/inspect.go:722-723 | on any graph a member's declaration has the name and stands on a way of at most eight layers a spelling |
| `MethodSetGaps.BeyondMisses` | inspect/inspect.go:722-723 | a name is not in the set, promoted or not, when nothing has it that a way of at most eight layers a spelling leads to |
| `MethodSetGaps.NineLayersHide` | inspect/inspect.go:722-723 | nine alias layers: the rule promotes the method, the set is empty |
| `MethodSetGaps.TwoDeclarersMiss` | inspect/inspect.go:597-606 | a name the rule promotes from an interface that has it from two declarations is not in the set |
| `MethodSetGaps.MergedDrops` | inspect/inspect.go:597-606 | `interface { K; L }` with M in both: the rule gives M, the code drops it |
| `MethodSetGaps.EnteredDrops` | inspect/inspect.go:739-742 | `struct { X; I }` with J in X and in I: J is deferred, and a rival at the deeper layer drops the name the rule gives |
| `MethodSetGaps.ReadWriterInTime` | inspect/inspect.go:736-742 | `struct { R; RW }` with R in RW meets the condition under which nothing is deferred |
| `MethodSetLoops.Walker.ChaseType` | inspect/inspect.go:715-767 | at most eight named layers, stopping at what was visited |
| `MethodSetLoops.Walker.PromoteSpecs` | inspect/inspect.go:779-794 | all specs of an interface and those it embeds, at one depth |
| `MethodSetLoops.Walker.MethodSetOf` | inspect/inspect.go:573-708 | the worklist returns exactly the members of the specification |
| `Paths.MapBack` | intrinsics.go:4805-4833 | the pass computes the mapping the theorems are about |
| `PathsLaw.FsPathIs` | minigo.go:218-227 | a spelling resolves to the working directory's names, stepped by its elements |
| `PathsLaw.BelowResolves` | intrinsics.go:4809-4811 | a path below the resolved one is spelled below the spelling and resolves back |
| `PathsLaw.LikeResolves` | intrinsics.go:4847-4863 | what resolveLike resolves to p, fsPath does |
| `PathsLaw.MapBackSound` | intrinsics.go:4796-4833 | the spelling returned is p itself or resolves back to p, for every spelling, `..` included |
| `PathsLaw.MapBackIs` | intrinsics.go:4796-4833 | the resolved path comes back as the spelling itself, a path below it as the spelling followed by the names that lead down, cleaned, and a path neither below nor above as it is |
| `PathsLaw.AncestorSpelled` | intrinsics.go:4812-4831 | an ancestor inside a clean relative spelling comes back as that prefix exactly when the working directory is not the root and the spelling does not start with two dots, else as the host path |
| `Each.EveryIndexOnce` | parse.go:94-115 | in every interleaving every index runs exactly once and fills its slot |
| `Each.NeverStuck` | parse.go:94-115 | no interleaving is stuck |
| `Each.WorkFalls` | parse.go:94-115 | every interleaving ends |
| `ParseFiles.ParseOneByOne` | parse.go:82-92 | the sequential parse: bases, and the first failing file |
| `ParseFiles.ParsePrivate` | parse.go:51-66 | a filler moves the private set to its slot, and the file lands there |
| `ParseFiles.ParseAll` | parse.go:51-66 | every file is parsed at its slot, in any order in which every index runs once |
| `ParseFiles.ParsePackageFiles` | parse.go:19-80 | in whatever order the workers come to the files and whatever other goroutines add before, during and after the reservation: files land where the sequential parse puts them, the first failing file is reported, and none overlap |
| `Slices.MakeIff` | builtins.go:363-394 | make agrees with Go's rule for zero-size elements, except for a huge length with a smaller capacity |
| `Slices.AppendAgrees` | builtins.go:150-219 | append gives Go's length and capacity however the operands are held, and panics exactly on overflow |
| `Slices.RunsLikeGo` | builtins.go:150-394 | every sequence of make, append, reslice and copy shows the lengths, capacities, counts and panics that Go's rules give from lengths alone, but for the message of make's panic on a huge length with a smaller capacity |
| `Slices.DoAgrees` | vm/vm.go:8046-8094 | one operation, re-slicing with two or three indexes included, shows what Go's rule shows |
| `Slices.HeldAlike` | runtime/value.go:1490-1532 | no sequence of operations tells a counted slice from a stored one, also where one side spreads a counted slice and the other lists the elements |
| `Slices.Copy` | builtins.go:286-297 | copy writes the old source prefix under any overlap and changes nothing else |
| `Slices.Fill` | builtins.go:278-285 | a counted source fills the destination with its one element |

## Left out

- Host callbacks in equality and JSON: host twins, bound host scalars, custom marshalers and unmarshalers.
- JSON details that add cases: `,string`, case-folded keys, keys other than strings, base64 bytes, decoding into an existing value, error offsets; and in `JsonWalk` promoted fields and omitempty, which `JsonCodec` has.
- Printing itself: what a verb makes of its operand, and BADWIDTH and BADPREC, which depend on the operand alone.
- Formats that are not well formed: both scanners read them too, but what fmt prints for them is not modelled.
- Errorf's choice between one wrapped error and several.
- FeedRuns.ResultIsExact: is about one-shot feeds; the ticker's wrappers ignore the result.
- MethodSetExact.MetIff: does not cover spellings of more than eight named layers and constraint terms, which depend on the order in which layers were marked; `WalkSound`, `KeptIff` and `KeptOn` hold for all graphs.
- MethodSetHarmless.GoHarmlessIff: compares with what Go's rule promotes from types that have the name from one declaration; a name from two is `TwoDeclarersMiss`.
- TypeVerbsMeaning.FaithfulIff: is about formats whose %% carry no index; `TypeVerbsExact.KeepsIff` is about all.
- JsonWalk.Walker.GoJSON: members promoted through embeds and omitempty are not walked here, `JsonCodec` has them; the containers map[any]any and []any of host values are left out.
- JsonLoops.DecodeStruct: decodes into a fresh value and by exact keys; prior values, case-folded keys and the string option are left out.
- Host-bound declarations, parentheses and type arguments in `MethodSet`, and the final sort by name.
- Interface literals embedded in interfaces stand as their specs; constraint terms promote nothing and are dropped.
- MethodFuncs.Funcs: which of several functions of one name is chosen, the first in depth-first order, is specified but not compared with Go's shallowest.
- The check of paths against allowed roots, and other systems' path syntax.
- Reading the files, and the sequential fallback when one cannot be read; a failing one-by-one parse leaves the files read so far in the set, a failing parallel one none. Files that others add after the hand-over are the file set's own affair.
- Slices.AppendAgrees: listed elements are values in memory, so their number plus a stored length stays below 2^63; constant conversion and type tags, arrays, and the detail of a slice-bounds panic.
- The virtual machine, the compiler, the binding tables, reflection bridges, the file system and module resolution.
- The MD5 block of the assembly substitutes.
