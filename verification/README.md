# Tools around an Android debugging shell, modelled and proved

This project models the parts of the repository that compute something intricate, in Dafny, and
proves what they promise. It covers eight components, each in modules of its own.

| component | modules | main results |
|---|---|---|
| Method-body recovery of the decompiler (`jadx-go`) | `MachineInts`, `JavaBody`, `DalvikMachine`, `RegisterLayout`, `LinearRecovery`, `BodyShapes`, `NamedRegisters`, `BodiesPreserved`, `ConditionalAssignments`, `Liveness`, `FollowedPaths`, `TerminalSlices`, `GuardedReturns`, `AlikeValues`, `NestedChoices`, `RecoveredBodies`, `AcceptedShapes`, `AcceptedBodies`, `UnfaithfulBodies`, `UnfaithfulChoices`, `UnfaithfulTails`, `RightNest` | `RecoveredExact`, `RecoveredIff`, `FollowedIsRun` |
| Instruction decoder (`jadx-go`) | `DexDecoder`, `DexPayloads`, `DecodedPayloads`, `DecodedMethods` | `SweepTiles`, `IndexInvertsOffsets`, `PackedSwitchDecoded`, `FillArrayDecoded` |
| Binary manifest patches (`apktool-go`) | `LittleEndian`, `Utf8`, `Utf16`, `StringPools`, `StringPoolRoundTrip`, `Sorting`, `ManifestLayout`, `AttributeTables`, `PatchedTables`, `DebuggablePatch`, `PatchedManifests`, `PatchedAgain`, `PatchedBytes`, `SmallPools`, `HiddenElements`, `ManifestTextPatch`, `TextPatchedManifests`, `TextPatchedAgain`, `TextAskedAgain` | `ReadBack`, `PatchIsIdempotent`, `TableAscends`, `PreviewShowsDebuggable`, `AskingAgain` |
| Manifest preview (`apktool-go`) | `Namespaces`, `ManifestDecoder`, `PrintedChunks`, `DecodedTexts` | `TagsMatch`, `DecoderShowsRequest` |
| Archive writer (`apktool-go`) | `ZipWriter`, `ZipReader`, `ZipRoundTrip` | `ArchiveReadBack`, `ItemsAreEntries`, `BytesInArchive` |
| User service registry (`server-shared`) | `Registry`, `RegistryRuns`, `RegistryResults`, `RegistryConnections`, `RegistryTimeouts`, `UserServices` | `Conservation`, `CallbacksHitTheirRecord`, `PackageRemovalIsExact`, `BinderReachesConnection`, `AttachedOutlivesTimeout` |
| Memory scanner and patcher (`medit`) | `SearchResults`, `MemorySearch`, `Arithmetic`, `NumericScan`, `SearchRanges`, `MemoryPatch`, `PatchedRanges`, `SearchedRanges` | `FindMaskedData`, `MaskedFindsAll`, `ScanFindsAll`, `PatchingRanges` |
| Argument block (`rish`) | `ArgumentBlock` | `BlockRoundTrip` |

`Options` holds the optional and result types all of them use. `dafny verify dfyconfig.toml` checks the project.

Each operation is a method or a function proved equal to a specification function, and the results
are lemmas about those functions. Where the repository changes an object, an array or a buffer in
place, so does the model: the registry's manager and records, the namespace stack, the counting
writer and the result collector are classes; attribute bytes, memory words, the argument block and
the identifier table are arrays.

## How the components are modelled

**Recovered bodies.** Bytecode has a step semantics over registers, in which long values take two
words, with a trace of static stores and static calls. Recovered bodies are syntax trees with an
evaluation of their own, by Java's promotion rules. `Preserves` says of one call that the bytecode
gets stuck (it is not verifiable code) or ends with the same trace and the same end as the body;
it never runs on. It is proved for bodies that may be printed: no raw register names, and
conditional expressions with arms of one width (`SafeBody`), which is what the writer's safety filter
is for. 0, false and null are one value. The shortcuts for constant returns and for getters and setters are
folded into the straight-line form, which they agree with. The instructions are those left after
nops and payloads have been filtered out. Where the writer compares expression texts, the model compares trees.

When a body is recovered is said of the instructions alone (`RecoveredIff`, `AcceptedIff`); only whether a register carries
the same expression before and after a side is asked of the value map, which `NestAccepted` and `AssignmentsAccepted` free of it.

`Followed` evaluates symbolically along the path a call takes, and `FollowedIsRun` says that this is the
bytecode's own run; it is what a printed body is compared with.

In three places the code reads bytecode in a way that can go wrong. For each there are concrete methods and calls
that show it, the exact condition for one call, and a condition on the code under which every call is right:

- In a void method, a slice that is not straight-line is evaluated a second time in guarded form with the value map its
  first attempt has already changed (`java.go:871-901`), and so is the tail behind a nest (`java.go:728-764`): its first
  chunk is applied twice. What is printed is what the code means if and only if every register that is live at the start
  keeps its expression (`Rereads`, `TailRereads`; `SliceIsFresh`, `TailIsFresh`), and a call is right if and only if the
  slice it takes runs as what the code means (`SliceRight`). `IncrementPrintedTwice`, `CasePrintedTwice` and
  `TailPrintedTwice` are methods for an if/else, a switch and a nest.
- The guarded return evaluates its default as if no register had been assigned (`java.go:1343`). A call is right if and
  only if it takes no guard, or the default block returns there what was printed (`GuardRight`). `GuardReturnsStaleValue`
  is a method for which it is not.
- The nested choice drops code in front of a second branch and behind a short goto (`java.go:663-666, 709-718`). It
  passes over no code if and only if every arm is clean (`Clean`); a call whose arm is not clean is right if and only if
  the code it follows from there ends as the printed tail (`ChoiceRight`). `ChoicePassesOverCode` and
  `ShortGotoPassedOver` are methods for the two.

**Manifests.** Documents are byte strings; every field is read and written byte by byte, and Go strings
are byte strings converted to runes by Go's rules. `ReadBack` and `PatchIsIdempotent` are about every
manifest the patch accepts whose output fits the 32 bit size field. A start element in front of the application element
may be so short that its name is read out of the application element's size field, which the patch changes
(`debuggable.go:129-134`); `NoneInFront` is the exact condition for the next search to find the application element all
the same, and `PatchedThenRefused` is a manifest for which it does not. Asking again for the same texts can change a
document when the package name asked for is the Android namespace's URI (`AskingAgain`, `SecondRequestChangesMore`).
The sort in the patch is modelled as a stable insertion sort.
The text patch takes the request as its input.

**Archives.** Checksum, compression and decompression are parameters, with decompression inverting
compression. Modification stamps are the two 16 bit fields. The reader is written from PKWARE APPNOTE.TXT
and refuses whatever does not agree.

**Registry.** Each call and each callback is one step, callbacks being allowed at any time and for
any record. Ping results are inputs. Tokens are places in the list of all records. The classes of `UserServices`
refine the state machine: each method's new state is the step of its old one. The model shows one thing worth knowing:
`starting` is never cleared, so a record whose service no longer answers is found again and never relaunched
until its death is reported (`DeadServiceIsNotReplaced`), and the branch for dead services is never taken.

**Memory.** Every read and write is complete. The skip and cap counters that are global in the code are the
fields of a collector.

## Model

| member | source | states |
|---|---|---|
| `RecoveredBodies.RecoveredExact` | jadx-go/internal/dex/java.go:303-394 | for every call, whichever body the writer settles on, if it may be printed, gives the effect trace and the return or throw value of the bytecode if and only if the side, case, guard or arm that the call takes was read rightly; bodies of eight shapes and the straight-line form always do |
| `RecoveredBodies.ShapeExact` | jadx-go/internal/dex/java.go:455-1360 | the same for a body printed by any one of the twelve shape matchers |
| `RecoveredBodies.ShapePreserves` | jadx-go/internal/dex/java.go:455-1360 | code that was read rightly, which is a condition on the code and the values in front of the shape, gives a right body for every call |
| `RecoveredBodies.RecoveredPreserves` | jadx-go/internal/dex/java.go:303-394 | the same for the writer as a whole |
| `AcceptedBodies.RecoveredIff` | jadx-go/internal/dex/java.go:303-394 | the writer recovers a body if and only if the method is straight-line code that ends, or somewhere has the code of one of the shapes, which is said of the instructions alone |
| `AcceptedBodies.AcceptedIff` | jadx-go/internal/dex/java.go:455-1360 | each of the twelve matchers accepts exactly the code of its shape: where the branch and the gotos lead, which code between them is straight-line, and how it ends |
| `AcceptedBodies.StraightRecovered` | jadx-go/internal/dex/java.go:1508-1736 | a method whose instructions are all simple and whose last one ends it is always recovered, as its statements in order, void methods and throws included |
| `AcceptedBodies.FirstShapeIsTaken` | jadx-go/internal/dex/java.go:303-394 | of several shapes that occur the earliest in the writer's order is taken, at the first place it occurs |
| `AcceptedBodies.MultiBranchAccepted` | jadx-go/internal/dex/java.go:560-627 | a nest of assignments is accepted if and only if a forward goto leads to a join behind the branch's target with a nest for one register in front of it and a tail behind it |
| `AcceptedBodies.NestAccepted` | jadx-go/internal/dex/java.go:560-764 | a nest whose arms write one register that nothing in front of it writes is recovered, by the instructions alone |
| `AcceptedBodies.AssignmentsAccepted` | jadx-go/internal/dex/java.go:766-838 | likewise for two assignments that meet |
| `AcceptedShapes.SwitchAccepted` | jadx-go/internal/dex/java.go:455-513 | a switch is accepted if and only if its cases and what follows it are slices that end |
| `AcceptedShapes.IfTerminalAccepted` | jadx-go/internal/dex/java.go:515-558 | an if whose sides end is accepted if and only if straight-line code is in front of it and both its sides are slices that end, the skipped one in front of the other |
| `AcceptedShapes.MeetingAccepted` | jadx-go/internal/dex/java.go:1091-1157 | two sides around a goto are accepted if and only if both are straight-line and meet in a return, of a value or in a void method of none |
| `AcceptedShapes.SidesAccepted` | jadx-go/internal/dex/java.go:1027-1215 | a side that runs on into a block is accepted if and only if it is straight-line and the block returns a value |
| `AcceptedShapes.GuardsOverAccepted` | jadx-go/internal/dex/java.go:975-1263 | a void guard, an assigned return and a plain if are each accepted if and only if the code has their form, the assigned return only where the side has an effect or changes what is returned |
| `AcceptedShapes.ConditionalAssignmentAccepted` | jadx-go/internal/dex/java.go:766-838 | a conditional assignment is accepted if and only if two silent straight-line sides change one and the same register and meet in front of a straight tail |
| `AcceptedShapes.GuardedReturnAccepted` | jadx-go/internal/dex/java.go:1329-1360 | a guarded return is accepted if and only if a branch leads to a silent block that ends the code in a return, and everything in front of that block is straight-line code and branches to it, up to an instruction that ends the method |
| `NamedRegisters.FollowedIsRun` | jadx-go/internal/dex/java.go:1819-2126 | symbolic evaluation along the path a call takes, through branches, switches, gotos and loops, ends exactly as the bytecode does, unless that is stuck: no printable-body condition is needed for it |
| `NamedRegisters.StepNamed` | jadx-go/internal/dex/java.go:1819-2030 | an instruction that runs reads only registers whose expressions may be printed, and keeps that so |
| `Liveness.LinearLive` | jadx-go/internal/dex/java.go:1819-2030 | straight-line code prints the same from two value maps, and leaves live registers alike, if and only if the maps agree on the registers that are live in front of it |
| `Liveness.GuardedLive` | jadx-go/internal/dex/java.go:903-949 | guarded chunks are accepted from any value map, and print the same from two maps if and only if they agree on the live registers |
| `Liveness.EndingLive` | jadx-go/internal/dex/java.go:1819-2030 | the same for a block that ends the method, its result included |
| `DecodedMethods.DecodedIsTiled` | jadx-go/internal/dex/java.go:2935-2943 | whichever decoded instructions are kept as meaningful, their offsets ascend, as every result about bodies assumes |
| `DecodedMethods.SamePositions` | jadx-go/internal/dex/java.go:2032-2038 | the position of an offset is the one that the offset index of the instructions gives |
| `RegisterLayout.NameRegister` | jadx-go/internal/dex/java.go:3016-3042 | the name of a register: raw local, receiver or parameter, from the cursor loop over the parameter widths |
| `RegisterLayout.DescribeRegister` | jadx-go/internal/dex/java.go:2184-2207 | the declared type of a register, from the same walk |
| `RegisterLayout.WordBelongsToParam` | jadx-go/internal/dex/java.go:3016-3049 | every word of the argument area, both halves of a wide pair included, belongs to the parameter whose value it carries |
| `RegisterLayout.EntryNames` | jadx-go/internal/dex/java.go:3016-3042 | on entry every readable register holds the value of its name, and exactly the registers below the arguments have no name |
| `RegisterLayout.NamesAgree` | jadx-go/internal/dex/java.go:2184-2207 | name and declared type of a register speak of the same parameter or receiver |
| `LinearRecovery.CollectArguments` | jadx-go/internal/dex/java.go:2674-2701 | the argument loop takes one register for each parameter and skips the second half of wide ones |
| `LinearRecovery.OwnParameters` | jadx-go/internal/dex/java.go:2674-2701 | passing a method's own argument registers in order yields exactly its parameters in order |
| `LinearRecovery.ArgumentsTracked` | jadx-go/internal/dex/java.go:2674-2701 | the argument expressions evaluate to the values the call passes |
| `LinearRecovery.EvaluateLinearInstructions` | jadx-go/internal/dex/java.go:1819-2030 | the pass over straight-line code: value map, statements, final expression, and when it gives up |
| `LinearRecovery.StepTracks` | jadx-go/internal/dex/java.go:1819-2030 | one instruction keeps the invariant: every printable register expression evaluates to the register's concrete value, and the statements printed are the effects, in order |
| `LinearRecovery.LinearTracks` | jadx-go/internal/dex/java.go:1819-2030 | the invariant holds after any prefix of straight-line code |
| `LinearRecovery.LinearRuns` | jadx-go/internal/dex/java.go:1819-2030 | the machine runs through an accepted straight-line block exactly as executing its instructions one by one does |
| `LinearRecovery.LinearIffSimple` | jadx-go/internal/dex/java.go:1819-2030 | a block without an end is accepted if and only if all its instructions are simple ones |
| `LinearRecovery.BinaryTracks` | jadx-go/internal/dex/java.go:2438-2468 | a printed operator, which has no width of its own, computes what the int or long opcode computes, shifts and 2addr forms included |
| `BodyShapes.EvaluateSingleAssignment` | jadx-go/internal/dex/java.go:840-864 | a block that changes exactly one register and prints nothing, with the register and its expression |
| `BodyShapes.TryWrite` | jadx-go/internal/dex/java.go:455-1360 | the scan of a matcher finds the first position at which its shape matches |
| `BodyShapes.WriteBody` | jadx-go/internal/dex/java.go:303-394 | the matchers are tried in the writer's order, the straight-line form last; `RecoveredIff` and `FirstShapeIsTaken` say when and which |
| `BodiesPreserved.OffsetNamesPosition` | jadx-go/internal/dex/java.go:2032-2038 | in code whose offsets ascend, an offset names one position |
| `BodiesPreserved.BranchFollowsCondition` | jadx-go/internal/dex/java.go:2052-2126 | the machine takes a branch if and only if the printed condition, if it may be printed, holds |
| `BodiesPreserved.IfThenPreserves` | jadx-go/internal/dex/java.go:455-558 | a prefix, a branch and two sides that agree make an if statement that agrees |
| `BodiesPreserved.LinearBodyPreserves` | jadx-go/internal/dex/java.go:1508-1736 | the straight-line form preserves the method |
| `BodiesPreserved.IfGotoReturnPreserves` | jadx-go/internal/dex/java.go:1091-1157 | if, goto, return: both sides join at one return |
| `BodiesPreserved.VoidIfGotoPreserves` | jadx-go/internal/dex/java.go:1265-1327 | void if with a goto over the other side |
| `BodiesPreserved.VoidGuardPreserves` | jadx-go/internal/dex/java.go:1217-1263 | a void guard over a tail |
| `BodiesPreserved.AssignedReturnPreserves` | jadx-go/internal/dex/java.go:975-1025 | a register assigned on one side, returned on both |
| `BodiesPreserved.IfInitReturnPreserves` | jadx-go/internal/dex/java.go:1159-1215 | a branch around an initialisation, with the return duplicated into both sides |
| `BodiesPreserved.FallThroughReturnPreserves` | jadx-go/internal/dex/java.go:1027-1089 | a conditional expression from a side that falls through into the other |
| `BodiesPreserved.PlainIfReturnPreserves` | jadx-go/internal/dex/java.go:1757-1804 | a plain if whose two sides return |
| `ConditionalAssignments.ConditionalAssignmentPreserves` | jadx-go/internal/dex/java.go:766-838 | a conditional assignment followed by a straight tail from the join on |
| `TerminalSlices.FollowedGuarded` | jadx-go/internal/dex/java.go:903-949 | chunks separated by branches to the final return-void print as early returns: a path through them ends as the printed statements do |
| `TerminalSlices.SliceFollowed` | jadx-go/internal/dex/java.go:871-901 | the path through a terminal slice, straight or guarded, ends as the slice printed from the values it was entered with |
| `TerminalSlices.SliceIsFresh` | jadx-go/internal/dex/java.go:871-901 | what is printed for a slice, the second evaluation included, is what its code means if and only if every register that is live at its start still has its expression in the map the first evaluation left |
| `TerminalSlices.UndisturbedRereads` | jadx-go/internal/dex/java.go:871-901 | so it is, for all values, if no live register is written in front of the slice's first branch |
| `TerminalSlices.IfTerminalExact` | jadx-go/internal/dex/java.go:515-558 | an if/else whose sides both end preserves the method on a call if and only if the side the call takes, as printed, runs as the one printed afresh |
| `TerminalSlices.IfTerminalPreserves` | jadx-go/internal/dex/java.go:515-558 | so it does on every call if both sides reread the same values |
| `TerminalSlices.SwitchExact` | jadx-go/internal/dex/java.go:455-513 | a switch whose cases and default all end preserves the method on a call if and only if the case the call takes, as printed, runs as the one printed afresh |
| `TerminalSlices.SwitchPreserves` | jadx-go/internal/dex/java.go:455-513 | so it does on every call if every case rereads the same values |
| `NestedChoices.PathCleanIff` | jadx-go/internal/dex/java.go:694-726 | a path was read without passing over code if and only if its code is straight-line and ends at the join or in a goto to it, at once or through gotos alone |
| `NestedChoices.NestCleanIff` | jadx-go/internal/dex/java.go:648-688 | a nest was read without passing over code if and only if all its arms are such paths |
| `NestedChoices.ArmFollowed` | jadx-go/internal/dex/java.go:694-726 | a call's path through such an arm reaches the join with the arm's assignment and nothing else done |
| `NestedChoices.ChoiceFollowed` | jadx-go/internal/dex/java.go:648-688 | the path of a call goes through the branches of the nest to the arm its conditions choose, up to the depth the parser allows |
| `NestedChoices.ChoiceIsTaken` | jadx-go/internal/dex/java.go:672-685 | the conditional expression a nest becomes, if it may be printed, evaluates to what the arm taken assigns |
| `NestedChoices.TailIsFresh` | jadx-go/internal/dex/java.go:728-764 | the tail behind the join, its second evaluation included, is printed as its code means it if and only if every register live at the join is reread |
| `NestedChoices.MultiBranchExact` | jadx-go/internal/dex/java.go:560-627 | a body with a nest preserves the method on a call if and only if the printed tail does what the code does from the arm taken on: the tail with that arm's assignment if the arm is clean, otherwise whatever code the arm leads to |
| `NestedChoices.MultiBranchPreserves` | jadx-go/internal/dex/java.go:560-627 | so it does on every call if all arms are clean and the tail is reread rightly |
| `GuardedReturns.GuardedReturnExact` | jadx-go/internal/dex/java.go:1329-1360 | a guarded-return body preserves the method on a call if and only if no guard is taken, or the default block, with the values at the guard taken, returns what the printed default evaluates to |
| `GuardedReturns.FaithfulGuards` | jadx-go/internal/dex/java.go:1343 | every guard's default is the printed expression if and only if, at every guard, each register live in front of the default block has the expression it had on entry |
| `GuardedReturns.UndisturbedPreserves` | jadx-go/internal/dex/java.go:1329-1449 | no register that the default block reads before writing it is written in front of a guard: then the body is right on every call |
| `GuardedReturns.GuardedReturnPreserves` | jadx-go/internal/dex/java.go:1329-1360 | so it is if the registers live in front of the default block are kept |
| `UnfaithfulBodies.IncrementPrintedTwice` | jadx-go/internal/dex/java.go:871-901 | a concrete void method whose guarded slice is evaluated from the failed attempt's values: the bytecode stores 1, the body 2 |
| `UnfaithfulChoices.GuardReturnsStaleValue` | jadx-go/internal/dex/java.go:1343 | a concrete method whose guards print the parameter instead of the register: the body is off by one for every argument |
| `UnfaithfulChoices.ChoicePassesOverCode` | jadx-go/internal/dex/java.go:663-666 | a concrete method in which an assignment in front of a second branch is taken for the last one: the bytecode returns 3, the body 1 |
| `UnfaithfulTails.ShortGotoPassedOver` | jadx-go/internal/dex/java.go:709-718 | a concrete method in which code behind a goto that is not to the join is passed over: the bytecode returns 3, the body 1 |
| `UnfaithfulTails.CasePrintedTwice` | jadx-go/internal/dex/java.go:871-901 | a concrete switch whose case is printed twice over: the bytecode stores 1, the body 2 |
| `UnfaithfulTails.TailPrintedTwice` | jadx-go/internal/dex/java.go:728-764 | a concrete nest whose tail is printed twice over: the bytecode stores 2, the body 3 |
| `RightNest.NestIsPreserved` | jadx-go/internal/dex/java.go:560-627 | a concrete nest that is read rightly, a printable body and a call that ends, with all that the theorems ask for |
| `DexDecoder.DecodeInstructions` | jadx-go/internal/dex/code.go:28-54 | the sweep: lengths of 0 become 1, and the last instruction is cut at the end of the code |
| `DexDecoder.ReadPackedSwitchPayload` | jadx-go/internal/dex/code.go:388-407 | keys and targets of a packed switch, 32 bit wrap-around included, or refusal |
| `DexDecoder.ReadSparseSwitchPayload` | jadx-go/internal/dex/code.go:409-430 | keys and targets of a sparse switch, or refusal |
| `DexDecoder.ParseArrayDataValues` | jadx-go/internal/dex/code.go:450-478 | the whole elements that are there, sign-extended by width |
| `DexPayloads.LengthsAreThoseOfFormats` | jadx-go/internal/dex/code.go:338-353 | every assigned opcode has the length of its format in the Dalvik bytecode specification, every other one a single unit |
| `DexPayloads.SweepTiles` | jadx-go/internal/dex/code.go:28-54 | the decoded instructions tile the code: each begins where the one before ends, and none is empty |
| `DexPayloads.TilesAddUp` | jadx-go/internal/dex/code.go:28-54 | offsets are the sums of the lengths before, and all lengths together are the size of the code |
| `DexPayloads.InstructionOffsetIndex` | jadx-go/internal/dex/java.go:2032-2038 | the index maps each offset to the last instruction that has it |
| `DexPayloads.IndexInvertsOffsets` | jadx-go/internal/dex/java.go:2032-2038 | for decoded code the index inverts the offsets and knows no others |
| `DexPayloads.PackedIsSkipped` | jadx-go/internal/dex/code.go:80-85 | an accepted packed switch is decoded at that place with exactly the length read, uncut; one unit less is refused |
| `DexPayloads.SparseIsSkipped` | jadx-go/internal/dex/code.go:86-90 | the same for a sparse switch |
| `DexPayloads.ArrayIsSkipped` | jadx-go/internal/dex/code.go:91-98 | the same for array data, odd byte counts rounded up, and no 32 bit wrap in an accepted payload |
| `DexPayloads.ArrayAccepted` | jadx-go/internal/dex/code.go:375-386 | an array payload is accepted if and only if it is empty or all its elements are in the code |
| `DexPayloads.PackedReadsNoFurther` | jadx-go/internal/dex/code.go:388-407 | what follows those units does not matter |
| `DexPayloads.SparseReadsNoFurther` | jadx-go/internal/dex/code.go:409-430 | what follows those units does not matter |
| `DexPayloads.PackedReadBack` | jadx-go/internal/dex/code.go:388-407 | a packed switch laid out in the packed-switch-payload format of the Dalvik bytecode specification is read back |
| `DexPayloads.SparseReadBack` | jadx-go/internal/dex/code.go:409-430 | a sparse switch laid out in the sparse-switch-payload format is read back |
| `DexPayloads.ArrayReadBack` | jadx-go/internal/dex/code.go:375-386 | an array laid out in the fill-array-data-payload format is read back, for widths 1, 2, 4 and 8 |
| `DexPayloads.ElementRead` | jadx-go/internal/dex/code.go:480-493 | sign extension inverts the little-endian layout of every value that fits the width |
| `DecodedPayloads.SweepKeeps` | jadx-go/internal/dex/code.go:28-54 | each decoded instruction has the opcode of the unit it begins with and the data read for it |
| `DecodedPayloads.PackedSwitchDecoded` | jadx-go/internal/dex/code.go:207-219 | a decoded packed-switch carries the consecutive keys of the payload at the place it refers to, each with the place its offset leads to, counted from the switch |
| `DecodedPayloads.SparseSwitchDecoded` | jadx-go/internal/dex/code.go:207-219 | a decoded sparse-switch carries the keys of the payload at the place it refers to, each with the place its offset leads to |
| `DecodedPayloads.FillArrayDecoded` | jadx-go/internal/dex/code.go:207-215 | a decoded fill-array-data carries the width and the values of the payload at the place it refers to |
| `LittleEndian.Le32Reads` | apktool-go/internal/axml/debuggable.go:451-469 | a 32 bit field reads back modulo 2 to the 32 |
| `LittleEndian.Le32Restores` | apktool-go/internal/axml/debuggable.go:451-469 | writing back a field that was read restores its bytes |
| `Utf8.RunesOfRunes` | apktool-go/internal/axml/debuggable.go:404-423 | runes survive the trip through a Go string |
| `Utf8.OfRunesValid` | apktool-go/internal/axml/stringpool.go:66-99 | what is built from runes is valid UTF-8 |
| `Utf16.DecodeEncodedUnits` | apktool-go/internal/axml/debuggable.go:414-423 | runes survive the trip through UTF-16 units, surrogate pairs included |
| `StringPools.Length8RoundTrip` | apktool-go/internal/axml/debuggable.go:425-432 | an 8 bit length reads back if and only if it is at most 0x7fff; beyond, upper bits are lost |
| `StringPools.Length16RoundTrip` | apktool-go/internal/axml/debuggable.go:434-441 | a 16 bit length reads back if and only if it is at most 0x7fffffff |
| `StringPools.Utf8RoundTrip` | apktool-go/internal/axml/debuggable.go:404-412 | a UTF-8 pool string reads back, whatever follows, if and only if it has at most 0x7fff bytes |
| `StringPools.Utf16RoundTrip` | apktool-go/internal/axml/debuggable.go:414-423 | a UTF-16 pool string reads back if and only if it is valid UTF-8 |
| `StringPools.ReadIsStorable` | apktool-go/internal/axml/debuggable.go:300-353 | every string that was read can be stored again |
| `StringPools.DecodeUtf16Units` | apktool-go/internal/axml/stringpool.go:85-99 | the unit array loop decodes what the specification does |
| `StringPools.ParsePatchStringPool` | apktool-go/internal/axml/debuggable.go:300-353 | the patcher's pool reader, with every refusal, at any offset of the data |
| `StringPools.PrintPool` | apktool-go/internal/axml/debuggable.go:355-402 | the pool printer: header, offsets, style offsets, strings, padding, style data |
| `StringPoolRoundTrip.PoolRoundTrip` | apktool-go/internal/axml/debuggable.go:355-402 | a printed pool reads back with the same strings, flags, style offsets and style data, in both encodings |
| `StringPoolRoundTrip.PoolRoundTripAt` | apktool-go/internal/axml/debuggable.go:300-402 | the same wherever the pool stands in a manifest |
| `StringPoolRoundTrip.ReadIsPrintable` | apktool-go/internal/axml/debuggable.go:300-402 | every pool that was read can be printed within its 32 bit size field |
| `StringPoolRoundTrip.AppendPrintable` | apktool-go/internal/axml/debuggable.go:48-58 | adding storable strings keeps it printable |
| `StringPoolRoundTrip.ParseStringPool` | apktool-go/internal/axml/stringpool.go:17-57 | the previewer's own pool reader |
| `StringPoolRoundTrip.ReadersAgree` | apktool-go/internal/axml/stringpool.go:17-57 | whatever the patcher reads as a pool, the previewer reads as the same strings and size |
| `ManifestLayout.FindStartElement` | apktool-go/internal/axml/debuggable.go:120-139 | the search for the first start element of a name, with its refusals |
| `ManifestLayout.FindStartMoved` | apktool-go/internal/axml/debuggable.go:120-139 | in a document with the same chunks in front of the element, the search gives the same element, moved, if and only if no start element in front takes the name out of the moved element's size field; otherwise it ends at such a chunk |
| `ManifestLayout.WholeStartsSuffice` | apktool-go/internal/axml/debuggable.go:120-139 | if every start element before it has at least 24 bytes, none does |
| `HiddenElements.PatchedThenRefused` | apktool-go/internal/axml/debuggable.go:129-134 | a concrete manifest with a start element of 16 bytes in front of its application element: it can be patched, and its patched form is refused |
| `ManifestLayout.FindIndex` | apktool-go/internal/axml/debuggable.go:291-298 | the first index of a string |
| `ManifestLayout.IndexOfGrown` | apktool-go/internal/axml/debuggable.go:291-298 | appending strings does not move what was found |
| `AttributeTables.WriteDebuggable` | apktool-go/internal/axml/debuggable.go:212-220 | the attribute fields written in place; what follows the value is kept |
| `AttributeTables.CollectAttributes` | apktool-go/internal/axml/debuggable.go:153-187 | the loop over the table: copies, overwrites, and adds the attribute if none was there |
| `AttributeTables.PatchApplicationStart` | apktool-go/internal/axml/debuggable.go:141-210 | the patched element: sorted table, size, count and the three indexes |
| `AttributeTables.RewrittenTwice` | apktool-go/internal/axml/debuggable.go:165-168 | overwriting an attribute again changes nothing |
| `Sorting.SortSorts` | apktool-go/internal/axml/debuggable.go:189-196 | the stable sort permutes its elements into order |
| `Sorting.SortStable` | apktool-go/internal/axml/debuggable.go:189-196 | elements that are alike keep their order |
| `Sorting.SortOfSorted` | apktool-go/internal/axml/debuggable.go:189-196 | sorting what is sorted changes nothing |
| `AttributeTables.TableOrderIsWeak` | apktool-go/internal/axml/debuggable.go:189-196 | the order by resource id, unknown ones last, and then name index, which `TableAscends` spells out, is a strict weak order |
| `PatchedTables.EntriesOfAttributes` | apktool-go/internal/axml/debuggable.go:198-204 | attributes written one after the other are read back one by one |
| `PatchedTables.PatchedTableOf` | apktool-go/internal/axml/debuggable.go:198-209 | the patched chunk's own header describes its table, the count modulo 65536 |
| `PatchedTables.TableMeaning` | apktool-go/internal/axml/debuggable.go:153-196 | the patched table is a stable permutation of the old attributes in the order that `TableAscends` spells out, debuggable set where it was and added where it was not, everything else unchanged |
| `PatchedTables.SomeDebuggable` | apktool-go/internal/axml/debuggable.go:183-187 | at least one attribute of the patched table is debuggable=true |
| `PatchedBytes.TableAscends` | apktool-go/internal/axml/debuggable.go:189-196 | for two attributes of the patched element, as its bytes stand, the first has the smaller resource id, an id of 0 or an unknown one counting as 0xffffffff, or the same id and no larger name index |
| `PatchedBytes.NamedAreTrue` | apktool-go/internal/axml/debuggable.go:153-220 | every attribute of the patched element that is called debuggable, by its name or by resource id 0x0101000f, is shown as android:debuggable with the boolean true |
| `PatchedBytes.SomeIsTrue` | apktool-go/internal/axml/debuggable.go:153-220 | one attribute of the patched element is shown so |
| `PatchedBytes.PreviewShowsDebuggable` | apktool-go/internal/axml/debuggable.go:30-118 | the previewer shows the patched document's element as an application element; each of its attributes called android:debuggable is true, and there is one |
| `PatchedTables.PointersFollow` | apktool-go/internal/axml/debuggable.go:170-209 | the id, class and style indexes name the same attributes after sorting, or stay 0 |
| `PatchedTables.PatchedTwice` | apktool-go/internal/axml/debuggable.go:141-210 | patching the element again changes nothing if and only if its attributes can be counted in 16 bits |
| `DebuggablePatch.BuildResourceMapIds` | apktool-go/internal/axml/debuggable.go:252-269 | the extended identifier table, filled in an array |
| `DebuggablePatch.PatchDebuggableTrue` | apktool-go/internal/axml/debuggable.go:30-118 | the whole patch, or refusal, on every input |
| `PatchedManifests.PoolOfOutput` | apktool-go/internal/axml/debuggable.go:83-88 | the pool part of the output reads back as the old pool with the strings added |
| `PatchedManifests.IdsKept` | apktool-go/internal/axml/debuggable.go:252-269 | the map keeps every identifier but debuggable's, and knows no others |
| `PatchedManifests.MapOfOutput` | apktool-go/internal/axml/debuggable.go:271-289 | the printed map reads back, and extending it again changes nothing |
| `PatchedAgain.OutputElement` | apktool-go/internal/axml/debuggable.go:96-117 | the first application element of the output is the patched one if and only if no start element in front takes that name out of the patched element's size field |
| `PatchedAgain.ReadBack` | apktool-go/internal/axml/debuggable.go:30-118 | reparsing the output gives the old strings and debuggable, the old identifiers, every other chunk byte for byte, and the patched element, which the search finds if and only if none stands in front; both pool readers agree |
| `PatchedAgain.PatchIsIdempotent` | apktool-go/internal/axml/debuggable.go:30-118 | patching a patched manifest gives the same bytes if and only if the application's attributes can be counted in 16 bits and no start element in front takes its name out of the patched size; in the latter case the second patch is refused |
| `ManifestTextPatch.PatchExistingStringAttribute` | apktool-go/internal/axml/manifest_patch.go:225-266 | the first attribute of a name gets the string's value fields; changed or not |
| `ManifestTextPatch.PatchChunks` | apktool-go/internal/axml/manifest_patch.go:110-158 | the chunk loop with its authority cursor |
| `ManifestTextPatch.PatchManifest` | apktool-go/internal/axml/manifest_patch.go:42-184 | the whole text patch for a request, or refusal |
| `TextPatchedManifests.PutValueParts` | apktool-go/internal/axml/manifest_patch.go:250-261 | only the twelve bytes behind the name are written |
| `TextPatchedManifests.PatchAttributeTwice` | apktool-go/internal/axml/manifest_patch.go:225-266 | writing the same value again is no change |
| `TextPatchedManifests.CursorCounts` | apktool-go/internal/axml/manifest_patch.go:140-153 | the k-th provider element takes the k-th authority, as long as there are any |
| `TextPatchedManifests.PatchListWrites` | apktool-go/internal/axml/manifest_patch.go:110-158 | each patched chunk is its old chunk with only its own goal written |
| `TextPatchedManifests.ChunksOfConcat` | apktool-go/internal/axml/manifest_patch.go:110-158 | chunks written one after the other are read back |
| `TextPatchedAgain.InternedMore` | apktool-go/internal/axml/manifest_patch.go:80-108 | interning adds at the end, only what is needed and missing, and then everything needed is there |
| `TextPatchedAgain.GoalIsAsked` | apktool-go/internal/axml/manifest_patch.go:80-153 | the indexes written name exactly the strings asked for that element |
| `TextPatchedAgain.ChunksAreKept` | apktool-go/internal/axml/manifest_patch.go:80-184 | the output has as many chunks as before, of the same sizes and names, each with nothing written but its goal |
| `ManifestDecoder.ReadAttributes` | apktool-go/internal/axml/decode.go:115-126 | the attribute loop |
| `ManifestDecoder.ReadItems` | apktool-go/internal/axml/decode.go:40-151 | the previewer's header checks and chunk loop, with every refusal |
| `PrintedChunks.NamespaceReadBack` | apktool-go/internal/axml/decode.go:79-92 | a namespace chunk laid out from its prefix and its URI is shown as that declaration, or as its end |
| `PrintedChunks.StartReadBack` | apktool-go/internal/axml/decode.go:88-127 | a start element laid out from its namespace, its name and its attributes is shown with exactly these |
| `PrintedChunks.AttributeReadBack` | apktool-go/internal/axml/decode.go:115-126 | an attribute is shown with its namespace, its name, and its raw text or else its typed value |
| `PrintedChunks.EndReadBack` | apktool-go/internal/axml/decode.go:129-141 | an element's end is shown with its namespace and its name |
| `PrintedChunks.TextReadBack` | apktool-go/internal/axml/decode.go:142-147 | a text chunk is shown as its text |
| `DecodedTexts.ItemsOfChunks` | apktool-go/internal/axml/decode.go:67-151 | the previewer accepts a run of chunks if and only if it accepts each, and shows what it shows of each alone |
| `DecodedTexts.AcceptedWithOther` | apktool-go/internal/axml/decode.go:67-151 | whether it accepts a document does not depend on the strings |
| `DecodedTexts.ElementIsShown` | apktool-go/internal/axml/manifest_patch.go:116-158 | the patch calls an element what the previewer shows it as |
| `DecodedTexts.AskedByItems` | apktool-go/internal/axml/manifest_patch.go:110-158 | what the patch asks of a chunk is what the request asks of the item it is shown as: the package name of manifest elements, the label of application elements, and the k-th authority of the k-th provider element |
| `DecodedTexts.WrittenIsFirstNamed` | apktool-go/internal/axml/manifest_patch.go:225-266 | the attribute a patch writes to is the first whose name index, as the chunk's bytes stand, is the one asked for, and it writes to none only if there is none |
| `DecodedTexts.DecoderShowsRequest` | apktool-go/internal/axml/decode.go:40-187 | the previewer accepts the patched document whenever it accepted the chunks, and shows the same items, read with the grown strings, except that in each element that is shown under a name asked about the first attribute of the asked name shows exactly the asked text |
| `DecodedTexts.UnchangedShowsRequest` | apktool-go/internal/axml/decode.go:115-187 | a document that the patch leaves alone shows what is asked already |
| `DecodedTexts.TagsAsBefore` | apktool-go/internal/axml/decode.go:67-151 | the same tags are printed for the patched document as for the old one |
| `TextAskedAgain.LeftAlone` | apktool-go/internal/axml/manifest_patch.go:42-184 | a document is left alone if and only if it has all strings asked for, and every element asked about has a readable table and holds its text |
| `TextAskedAgain.AskingAgain` | apktool-go/internal/axml/manifest_patch.go:42-184 | the same request on the result reports no change and gives the same bytes if and only if the namespace was known or is not the package name, or only a package name is asked for, or label and authorities are there already |
| `TextAskedAgain.SecondRequestChangesMore` | apktool-go/internal/axml/manifest_patch.go:88-93 | a concrete document and request for which the second patch changes the document again |
| `Namespaces.NamespaceStack.Push` | apktool-go/internal/axml/util.go:28-44 | a declaration is added, with Android's own or a made-up prefix where there is none |
| `Namespaces.NamespaceStack.Pop` | apktool-go/internal/axml/util.go:46-53 | the innermost declaration that fits is removed |
| `Namespaces.NamespaceStack.Prefix` | apktool-go/internal/axml/util.go:55-73 | the innermost declared prefix, or a made-up one, remembered |
| `Namespaces.NamespaceStack.Qualify` | apktool-go/internal/axml/util.go:91-98 | the printed name |
| `Namespaces.PrintTags` | apktool-go/internal/axml/decode.go:67-151 | the loop over the chunks as read, as far as tags are concerned |
| `Namespaces.DeclaredIsInnermost` | apktool-go/internal/axml/util.go:55-67 | the prefix is that of the innermost declaration of the URI |
| `Namespaces.PrefixOfUri` | apktool-go/internal/axml/util.go:55-73 | no URI has no prefix and Android's has its own; any other has that of its innermost declaration, or else a made-up one that is kept |
| `Namespaces.PushDeclares` | apktool-go/internal/axml/util.go:28-44 | after a declaration its URI has the prefix declared, or one made up where none is given; the declared prefixes of other URIs stay |
| `Namespaces.QualifiedName` | apktool-go/internal/axml/util.go:91-98 | a printed name: alone for no URI, behind android for Android's, otherwise behind the prefix of the innermost declaration |
| `Namespaces.PopTakesInnermost` | apktool-go/internal/axml/util.go:46-53 | a pop takes away the innermost declaration it closes, and no other |
| `Namespaces.PopUndoesPush` | apktool-go/internal/axml/util.go:28-53 | around a well-nested part, a pop restores what was before the push |
| `Namespaces.PrefixIsStable` | apktool-go/internal/axml/util.go:55-73 | a URI that was asked for once keeps its prefix |
| `Namespaces.NodesPrintWell` | apktool-go/internal/axml/decode.go:67-151 | every well-nested part leaves the declarations as they were and its tags matched |
| `Namespaces.TagsMatch` | apktool-go/internal/axml/decode.go:67-151 | for every well-nested stream each closing tag printed has the name of its opening tag |
| `Namespaces.MadeUpStaysOnce` | apktool-go/internal/axml/util.go:34-44 | two URIs never share a made-up prefix |
| `ZipWriter.CleanZipName` | apktool-go/internal/ziputil/writer.go:187-199 | the name without empty, dot and dot-dot parts |
| `ZipWriter.MakeAlignmentExtra` | apktool-go/internal/ziputil/writer.go:164-185 | the padding record, filled in place |
| `ZipWriter.WriteLocal` | apktool-go/internal/ziputil/writer.go:71-118 | the local record at the running offset, and what the directory needs of it |
| `ZipWriter.WriteCentral` | apktool-go/internal/ziputil/writer.go:120-143 | the directory record |
| `ZipWriter.WriteEnd` | apktool-go/internal/ziputil/writer.go:145-155 | the end record |
| `ZipWriter.WriteApk` | apktool-go/internal/ziputil/writer.go:42-69 | the whole archive of the entries sorted by name |
| `ZipWriter.CountingWriter.Write` | apktool-go/internal/ziputil/writer.go:219-223 | bytes are appended and counted |
| `ZipReader.CentralReadBack` | apktool-go/internal/ziputil/writer.go:120-143 | a directory record is read back as it was written (section 4.3.12 of PKWARE APPNOTE.TXT) |
| `ZipReader.LocalReadBack` | apktool-go/internal/ziputil/writer.go:71-118 | a local header agrees with its directory record field by field, and the data is the original (section 4.3.7) |
| `ZipRoundTrip.EndReadBack` | apktool-go/internal/ziputil/writer.go:145-155 | the end record is found from the end of the archive (section 4.3.16) |
| `ZipRoundTrip.ArchiveReadBack` | apktool-go/internal/ziputil/writer.go:42-155 | walking from the end record through the directory to the local headers recovers the entries in order, as many as the 16 bit count says |
| `ZipRoundTrip.AllReadBackIff` | apktool-go/internal/ziputil/writer.go:145-155 | all entries are recovered if and only if there are fewer than 65536 |
| `ZipRoundTrip.ItemsAreEntries` | apktool-go/internal/ziputil/writer.go:71-185 | each recovered item has the clean name, method 0 if its entry has 0 and otherwise method 8, the stamp and the data of its entry; aligned data begins at a multiple of 4 behind a well-formed extra field (section 4.5.1) |
| `ZipRoundTrip.BytesInArchive` | apktool-go/internal/ziputil/writer.go:71-118 | the archive's bytes at a recovered item's place are the entry's data itself if its method is 0, and otherwise its compressed data |
| `ZipRoundTrip.OrderOfEntries` | apktool-go/internal/ziputil/writer.go:42-44 | the entries are sorted by name, each exactly once, stably |
| `ZipRoundTrip.NamesAscend` | apktool-go/internal/ziputil/writer.go:42-44 | of two entries the first one's name is the beginning of the second's or smaller where they first differ |
| `ZipRoundTrip.CleanNameIsClean` | apktool-go/internal/ziputil/writer.go:187-199 | a clean name has no empty, dot or dot-dot part, and cleaning it again changes nothing |
| `ZipRoundTrip.CleanNameByParts` | apktool-go/internal/ziputil/writer.go:187-199 | a clean name is its parts but the empty ones, dots and dot-dots, in their order, with slashes between them |
| `RegistryRuns.StepKeepsInv` | server-shared/src/main/java/rikka/shizuku/server/UserServiceManager.java:62-287 | every step keeps the registry's invariant |
| `RegistryRuns.Run` | server-shared/src/main/java/rikka/shizuku/server/UserServiceManager.java:38-47 | every run leads to a state in which the invariant holds |
| `RegistryResults.Conservation` | server-shared/src/main/java/rikka/shizuku/server/UserServiceManager.java:94-99 | in every reachable state each record was launched once and is either live under exactly its own key or destroyed exactly once, never both |
| `RegistryResults.SilentOnceDestroyed` | server-shared/src/main/java/rikka/shizuku/server/UserServiceRecord.java:91-141 | nothing is sent, launched or destroyed for a record after its end |
| `RegistryResults.LateCallbacksAreHarmless` | server-shared/src/main/java/rikka/shizuku/server/UserServiceRecord.java:22-69 | late timeouts, binder deaths and connection deaths of a removed record change nothing but that record |
| `RegistryResults.CallbacksHitTheirRecord` | server-shared/src/main/java/rikka/shizuku/server/UserServiceRecord.java:22-69 | such a callback never takes a newer record under the same key, nor any other |
| `RegistryResults.AddPutsOneRecord` | server-shared/src/main/java/rikka/shizuku/server/UserServiceManager.java:169-212 | adding leaves one record under the key: the one that was there if and only if it has the version asked for, otherwise a new one, launched, the old one having been destroyed; it touches no other key and answers 0 |
| `RegistryResults.DeadServiceIsNotReplaced` | server-shared/src/main/java/rikka/shizuku/server/UserServiceManager.java:172-185 | since starting never returns to false, a record whose service no longer answers is still found, and nothing is launched for it |
| `RegistryResults.PackageRemovalIsExact` | server-shared/src/main/java/rikka/shizuku/server/UserServiceManager.java:278-287 | package removal leaves no live record of the package and every other live record as it was |
| `RegistryResults.LookingCreatesNothing` | server-shared/src/main/java/rikka/shizuku/server/UserServiceManager.java:127-146 | looking for a service makes, launches and removes nothing, answers by version and API level, and sends the binder of one that is there and answers to all its connections and the one that looks |
| `RegistryConnections.BinderReachesConnection` | server-shared/src/main/java/rikka/shizuku/server/UserServiceManager.java:101-268 | a connection that added a service is among those the binder is sent to when the process attaches, whatever happened in between, unless it died or unbound or the record has ended |
| `RegistryConnections.UnboundHearsNothing` | server-shared/src/main/java/rikka/shizuku/server/UserServiceManager.java:82-91 | unbinding leaves the service running, even without connections, and until the connection asks again no binder of that record is sent to it, whatever else happens |
| `RegistryTimeouts.AttachedOutlivesTimeout` | server-shared/src/main/java/rikka/shizuku/server/UserServiceRecord.java:53-89 | a service that attached to its live record outlives its start timeout: whatever happens in between, its firing changes nothing that is live and nothing is done |
| `RegistryTimeouts.SilentLaunchTimesOut` | server-shared/src/main/java/rikka/shizuku/server/UserServiceRecord.java:53-69 | a record whose process was launched and has not attached, whatever else happened, is ended by the first firing of its timeout if it is still live |
| `RegistryTimeouts.DeathAndRemovalEnd` | server-shared/src/main/java/rikka/shizuku/server/UserServiceManager.java:62-92 | its binder's death ends a live record, and so does a removal under its key, with the answers 0 and 1 for a key that is there or not; every other record stays |
| `RegistryTimeouts.StrangersAreRefused` | server-shared/src/main/java/rikka/shizuku/server/UserServiceManager.java:242-268 | a binder is taken with a live record's token only; any other token is refused, and changes nothing |
| `RegistryTimeouts.RunningServiceIsSent` | server-shared/src/main/java/rikka/shizuku/server/UserServiceManager.java:149-212 | a connection that adds a running service again, whatever happened since its attach, is sent that binder at once, and nothing is launched |
| `RegistryResults.LastConnectionEndsRecord` | server-shared/src/main/java/rikka/shizuku/server/UserServiceRecord.java:22-30 | a connection's death ends its record if and only if it is no daemon and has no other connection |
| `RegistryResults.KeysAreApart` | server-shared/src/main/java/rikka/shizuku/server/UserServiceManager.java:123 | keys of different packages, or of different tags, differ |
| `RegistryResults.RecordsStayWithTheirPackage` | server-shared/src/main/java/rikka/shizuku/server/UserServiceManager.java:123-148 | a package's key never leads to a record of another package |
| `UserServices.ServiceRecord.SetStartingTimeout` | server-shared/src/main/java/rikka/shizuku/server/UserServiceRecord.java:53-69 | a start is marked once, with its timeout |
| `UserServices.ServiceRecord.SetBinder` | server-shared/src/main/java/rikka/shizuku/server/UserServiceRecord.java:75-89 | the binder is kept and the timeout taken back |
| `UserServices.ServiceRecord.Register` | server-shared/src/main/java/rikka/shizuku/server/UserServiceRecord.java:20-31 | a killed callback list takes no more connections |
| `UserServices.ServiceRecord.Destroy` | server-shared/src/main/java/rikka/shizuku/server/UserServiceRecord.java:121-141 | the callback list is killed |
| `UserServices.ServiceManager.RemoveLocked` | server-shared/src/main/java/rikka/shizuku/server/UserServiceManager.java:94-99 | the object's removal is the state machine's drop |
| `UserServices.ServiceManager.CreateIfNeeded` | server-shared/src/main/java/rikka/shizuku/server/UserServiceManager.java:169-212 | finding or replacing a record is the state machine's |
| `UserServices.ServiceManager.AddUserService` | server-shared/src/main/java/rikka/shizuku/server/UserServiceManager.java:101-163 | the object's method is one step of the state machine, with its return code |
| `UserServices.ServiceManager.RemoveUserService` | server-shared/src/main/java/rikka/shizuku/server/UserServiceManager.java:62-92 | the same for removal or unbinding |
| `UserServices.ServiceManager.AttachUserService` | server-shared/src/main/java/rikka/shizuku/server/UserServiceManager.java:242-268 | the same for a binder that arrives, found by its token |
| `UserServices.ServiceManager.StartTimedOut` | server-shared/src/main/java/rikka/shizuku/server/UserServiceRecord.java:61-68 | the same for the start timeout |
| `UserServices.ServiceManager.ServiceDied` | server-shared/src/main/java/rikka/shizuku/server/UserServiceRecord.java:46-49 | the same for the binder's death |
| `UserServices.ServiceManager.ConnectionLost` | server-shared/src/main/java/rikka/shizuku/server/UserServiceRecord.java:22-30 | the same for a connection's death |
| `UserServices.ServiceManager.RemoveUserServicesForPackage` | server-shared/src/main/java/rikka/shizuku/server/UserServiceManager.java:278-287 | the same for package removal, record by record |
| `SearchResults.Collector.Keep` | medit/pkg/memory/search.go:49-56 | the skip counter runs down to 0 |
| `SearchResults.CollectedIs` | medit/pkg/memory/search.go:22-56 | what is collected is all matches without the first skip, cut at the cap |
| `MemorySearch.FindData` | medit/pkg/memory/search.go:195-215 | the greedy search collects its occurrences in order |
| `MemorySearch.GreedyIsSpaced` | medit/pkg/memory/search.go:195-215 | greedy results never overlap |
| `MemorySearch.GreedyIsMaximal` | medit/pkg/memory/search.go:195-215 | every occurrence is found or overlapped by one that is |
| `MemorySearch.LongestFixedMaskRun` | medit/pkg/memory/search.go:260-286 | the first of the longest fixed runs, empty if and only if the mask has no fixed byte |
| `MemorySearch.MaskedBytesEqual` | medit/pkg/memory/search.go:312-319 | equality under the mask |
| `MemorySearch.FindMaskedData` | medit/pkg/memory/search.go:288-310 | the search from anchor to anchor collects exactly what the naive masked search does |
| `MemorySearch.MatchesAreAll` | medit/pkg/memory/search.go:288-319 | the naive matches are exactly the matching places, ascending and without repeats |
| `SearchRanges.SearchMasked` | medit/pkg/memory/search.go:217-258 | the whole masked search: its refusals, its chunks and ranges, skip and cap |
| `SearchRanges.SearchRange` | medit/pkg/memory/search.go:237-256 | the chunk loop of one range |
| `SearchRanges.SearchPlain` | medit/pkg/memory/search.go:162-193 | the whole plain search: its chunks and ranges, skip and cap |
| `PatchedRanges.RangesSpread` | medit/pkg/memory/search.go:162-215 | over ranges that follow each other the places found never overlap, and each holds the target |
| `PatchedRanges.RangeMissesNothing` | medit/pkg/memory/search.go:169-215 | every occurrence inside one chunk of a range is found, or overlaps the end of one that is |
| `SearchRanges.RangeIsExact` | medit/pkg/memory/search.go:237-256 | an address of a range is found if and only if the target matches there, inside the range and not across two chunks |
| `SearchedRanges.MaskedFindsAll` | medit/pkg/memory/search.go:217-258 | the masked search of all ranges finds an address if and only if the target matches there inside one chunk of one of the ranges |
| `SearchedRanges.PlainMissesNothing` | medit/pkg/memory/search.go:162-193 | the plain search of all ranges finds every occurrence inside one chunk of any range, or one that overlaps it |
| `NumericScan.ScanChunk` | medit/cmd/cmd.go:761-776 | one chunk collects the matches among its numbers |
| `NumericScan.ScanOneRange` | medit/cmd/cmd.go:748-780 | the chunks of a range collect what the whole range would, since no number is cut |
| `NumericScan.ScanNumericRanges` | medit/cmd/cmd.go:724-787 | the chunked scan of all ranges equals the unchunked one, with skip and cap |
| `NumericScan.ScanIsExact` | medit/cmd/cmd.go:724-807 | a number is found if and only if it lies wholly in the range, at a multiple of the width, and passes the comparison |
| `SearchedRanges.ScanFindsAll` | medit/cmd/cmd.go:724-807 | the scan of all ranges finds exactly the numbers looked for, larger, smaller, different or equal as numbers, at multiples of the width in each range |
| `SearchedRanges.ReadsNumber` | medit/cmd/cmd.go:608-632 | what is read at an address is the number its 2, 4 or 8 bytes stand for, the sum of each byte times 256 to its place |
| `NumericScan.ScanAscends` | medit/cmd/cmd.go:761-776 | in ascending order, a width apart |
| `NumericScan.ScanInParts` | medit/cmd/cmd.go:789-794 | a range may be cut at any multiple of the width |
| `MemoryPatch.WriteMemoryByWords` | medit/cmd/cmd.go:1143-1167 | word-wise read, merge and write equals a plain write of exactly the target bytes, for any address and length |
| `MemoryPatch.WritePatches` | medit/cmd/cmd.go:1083-1109 | the patches are written one after the other |
| `MemoryPatch.PatchesChangeOnlyTheirRanges` | medit/cmd/cmd.go:1083-1109 | patches that do not overlap all stand afterwards, and no other byte has changed |
| `MemoryPatch.TrimStringToByteLimit` | medit/cmd/cmd.go:1169-1190 | the loop over runes, on any bytes, never past the end |
| `MemoryPatch.TrimmedIsLongestPrefix` | medit/cmd/cmd.go:1169-1190 | a valid text is cut to its longest whole-rune prefix that fits |
| `MemoryPatch.PatchBytesFit` | medit/cmd/cmd.go:1111-1141 | a text patch has exactly the original length, zero padded, and is cut if and only if it is longer |
| `PatchedRanges.PatchingRanges` | medit/cmd/cmd.go:1083-1190 | patching every address that a plain search kept, over all ranges and chunks: each held the target and then holds the patch, and no other byte has changed |
| `ArgumentBlock.CreateBlock` | rish/src/main/java/rikka/rish/RishHost.java:12-31 | the block: every string and one NUL behind each |
| `ArgumentBlock.InitVectorFromBlock` | rish/src/main/cpp/rikka_rish_RishHost.cpp:47-56 | pointers to the strings, reading no byte outside the block, and a null at the end |
| `ArgumentBlock.BlockReadBack` | rish/src/main/cpp/rikka_rish_RishHost.cpp:47-56 | NUL-free strings come back in order, and the last one ends with the block |
| `ArgumentBlock.BlockRoundTrip` | rish/src/main/java/rikka/rish/RishHost.java:12-31 | the strings come back if and only if none contains a NUL; in any case the block holds enough NULs |

## Left out

- ReadBack: assumes that the output fits its 32 bit size field.
- PatchIsIdempotent: the same assumption; within it it is an equivalence.
- AskingAgain: assumes that the strings fit the pool's length fields and its encoding.
- DecoderShowsRequest: the same assumption, beyond which `Utf8RoundTrip` and `Utf16RoundTrip` show that they do not read back, and start elements whose attributes have the 20 bytes that are read of each; the items before the patch are read with the strings of the output, since an index outside the old pool may name an added string.
- UnchangedShowsRequest: the same assumptions.
- EvaluateLinearInstructions: only the instructions of the modelled fragment, none of which waits for a move-result.
- PrintTags: the chunks are those `ReadItems` reads from the bytes, with its refusals; printed declarations, attribute values, texts and indentation are not modelled.
- SetBinder: linking to the binder's death and broadcasting it are the caller's part, in `AttachUserService`.
- Destroy: unlinking from the binder's death and the destroy transaction to the process are not modelled.
- ParsePatchStringPool: refusals are compared by whether they happen, not by their messages; so are those of the other methods that can refuse.
- FindData: requires a non-empty target, without which the greedy loop does not advance; so does SearchPlain.
- PatchingRanges: ranges follow each other, as a process's memory map lists them.
- TrimmedIsLongestPrefix: is about valid UTF-8.
- PatchBytesFit: is about text matches with truncation on, where the length of the match is known.
- DecodeInstructions: registers, literals, names and texts of instructions are not modelled, only offsets, lengths, payload data and switch targets.
- TagsMatch: streams are given as trees; text chunks, attribute values, indentation and the printed declarations are left out, and making a name printable is any function.
- Conservation: each manager method is one step; package removal, which the code does not hold under one lock, too.
- Receiver recovery, constructors, try/catch and synchronized bodies, heap reads, value-returning calls, float compares, division and remainder are outside the recovered fragment.
- Java text: precedence, literals, casts, string concatenation and the likely-type guesses of the decompiler.
- The filter that withholds a body with a degenerate conditional expression: it only ever withholds more.
- Reading the code units out of a DEX file, and everything else of the file format.
- The regular expressions that find a text patch request in XML, and the rendering of values that are no strings.
- DOS time conversion, compression itself, checksums, and the file system.
- Binder transport, process start, logging, permissions, and the client side of the registry.
- Process memory maps, ptrace and /proc access, and searches that ignore case.
- Command line handling, framework directories, terminal and pty code.
