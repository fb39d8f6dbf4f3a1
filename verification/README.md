# A verified model of trust-mc's algorithms and evidence pipeline

This project models the parts of trust-mc whose correctness is a matter of logic rather than of
plumbing, and proves what they promise. `dafny verify dfyconfig.toml` verifies all of it.

What is modelled, one module a component:

- `EditDistance`, `FrontDoor`: the edit distance behind "did you mean", the suggestion rule, and the
  scan that moves an engine subcommand to the front. The reference for the distance is the theory of
  editing sessions: a session may insert, delete or substitute one character anywhere, in any order.
- `Args`, `ArgsProperties`, `ArgStrides`, `ArgRendering`, `ArgRefusals`: the argument translator. Its one
  loop is proved against a reading of the command line as units that are cut out, rendered one by one and
  followed by a deferred suffix. How each unit is spelled, what becomes of its tokens, where it starts
  and when it is refused is told from the arguments alone.
- `Delimiters`, `CfgExpr`, `Extractor`, `HarnessAttributes`: the proof-harness extractor, from its
  bracket matcher and comma splitter through the `cfg` evaluator to the line scanner with its module
  stack. Each is proved against a printer: what is printed from a tree is read back as its meaning.
- `PowerOfTwo`, `Heap`: the alignment test and the allocator entry points, over the addressing scheme
  of object number times stride plus offset. The C library and the stride proofs are separate in the
  repository; putting the library's objects at the scheme's addresses is a choice of this model.
- `Signedness`: which operations may guess a sign without being counted, justified by two's-complement
  arithmetic over every bit width.
- `Footer`, `JsonText`, `Summary`, `SummaryMeaning`, `Cancel`: greedy line breaking, JSON strings, the
  summary table, and the signal-forwarding protocol as a state machine over every interleaving.
- `Inventory`, `Reports`, `PublicRunner`, `RunTable`, `ProofGate`, `DriverCommand`, `DriverLog`,
  `DirectDriver`, `Progress`, `ProgressMeaning`: the evidence pipeline. Its tools were written apart and
  must agree, so the main results are about two tools at once: what one writes, the next accepts. What
  each tool makes of one row is also said on its own, from what it reads. SHA-256 digests are an
  uninterpreted function of the rows.
- `Ordering`, `Wrappers`: the orders and the stable sort the programs get from their libraries, with the
  laws the proofs use, and optional values.

Where the source updates things in place, the model does: loops are methods with invariants proved
against a specification function, and the allocator, the fallback counter and the front door's statics
are classes. Inputs from outside (the file system, a driver's output, a parsed line, whether a request
for memory succeeds and what the memory holds) are parameters, so every statement is for all of them.

## Where the code does not do what its documentation says

The model follows the code. Each point below is a proved member.

- The suggestion rule documents a containment match; the code has none, so `harness` does not suggest
  `autoharness`. When a contained word is close enough is stated exactly. A candidate equal to the word
  scores one, not zero, because it is a prefix of itself, so `verify-std` is answered with `verify`.
- The subcommand scan does not know that a bare `-j` takes a value, while the argument translator does:
  it can hoist that value. Which lines suffer is told exactly by the strides of their arguments.
- The extractor clears a pending inactive `cfg` on a `mod` line, so harnesses in a disabled module are
  reported. The set returned is wrong exactly when such a name is no compiled harness's name.
- Reallocation compares the caller's old size with nothing but the copy.
- Equality is skipped by the counter as sign agnostic; for operands of different widths the guess does
  matter, and exactly where is stated. The counter itself wraps at the machine word.
- The footer compares with one column too many: a lone first name of 51 characters wastes a line. The
  topics are a constant table of short names, so no footer the shipped program prints is affected.
- The front door's JSON reader does not undo the writer's escapes of control characters.
- Clearing the PID after the wait leaves a window in which a signal can be forwarded to a stranger.
- Progress credits a row that is not in the report with a same-named row of another file, and never
  closes a BMC_SAFE row, which the runner passes only with a proof.
- The two readers of a direct command can take one word both as a value and as a flag, and so accept a
  command that asks for no backend; exactly which commands are read so is stated.
- The last verdict of a direct log need not be that of the harness it is accepted for.

## Model

| member | source | states |
|---|---|---|
| `EditDistance.ShortestScriptExists` | src/frontend/mod.rs:559-573 | any two texts are joined by an editing session (insert, delete, substitute at any place) of exactly the computed length |
| `EditDistance.NoShorterScript` | src/frontend/mod.rs:559-573 | no editing session between two texts is shorter than the computed distance |
| `EditDistance.ZeroIffEqual` | src/frontend/mod.rs:559-573 | the distance is zero exactly for equal texts |
| `EditDistance.Symmetric` | src/frontend/mod.rs:559-573 | the distance is symmetric |
| `EditDistance.Triangle` | src/frontend/mod.rs:559-573 | the distance obeys the triangle inequality |
| `EditDistance.OneEdit` | src/frontend/mod.rs:559-573 | one edit of a text moves its distance to any other text by at most one |
| `EditDistance.NextCell` | src/frontend/mod.rs:564-570 | one trip of the inner loop fills the next cell of the current row with the distance of its prefixes |
| `EditDistance.Levenshtein` | src/frontend/mod.rs:559-573 | the two-row loop returns the least number of edits over every editing session, and some session attains it |
| `FrontDoor.Closest` | src/frontend/mod.rs:540-557 | nothing is suggested exactly when every candidate scores above two; otherwise the earliest candidate of least score is |
| `FrontDoor.ScorePositive` | src/frontend/mod.rs:547-551 | no candidate scores zero; the score is one exactly for a prefix either way or a single edit |
| `FrontDoor.ExactMatchSuggested` | src/frontend/mod.rs:540-557 | a word that is itself a candidate is suggested exactly when no earlier candidate scores one |
| `FrontDoor.VerifyStdSuggestsVerify` | src/frontend/help.rs:23-47 | a word spelled like the command `verify-std`, in any case, is answered with `verify`, whatever names follow the commands among the candidates: so is `help verify-std`, where the topics follow |
| `EditDistance.DistToContaining` | src/frontend/mod.rs:559-573 | the distance of a text to one that contains it is the number of the other characters |
| `FrontDoor.ContainedIsCloseExactly` | src/frontend/mod.rs:538-557 | a word inside a candidate is close enough to be suggested exactly when it starts the candidate or leaves at most two characters of it over; the documented containment match is not there |
| `FrontDoor.ContainingIsCloseExactly` | src/frontend/mod.rs:538-557 | likewise for a candidate inside the word |
| `FrontDoor.HarnessIsNotFound` | src/frontend/mod.rs:520-557 | a counterexample: `autoharness` contains the unknown command `harness`, scores four and is not suggested |
| `FrontDoor.HoistEngineSubcommand` | src/frontend/mod.rs:305-338 | the scan returns the command line with its first bare word in front when that word is an engine subcommand, and the command line itself otherwise |
| `FrontDoor.HoistPermutes` | src/frontend/mod.rs:328-334 | hoisting only moves that one token: the rest keep their order and nothing is lost or repeated |
| `FrontDoor.HoistIdempotent` | src/frontend/mod.rs:305-338 | hoisting twice is hoisting once |
| `ArgStrides.UnitsLandExactly` | src/frontend/args.rs:197-387 | an argument starts a unit of the argument reading exactly when walking by the stride of each argument, two for one that takes the next, leads to it and nothing before it is refused |
| `ArgStrides.LongStrideMeaning` | src/frontend/args.rs:143-196 | the arguments that take the next one are the value-taking flags, the bare jobs flags and the `--` |
| `ArgStrides.TakenStartsNoUnit` | src/frontend/args.rs:143-166 | an argument right after one that starts a unit and takes the next starts no unit itself: a flag's value is nothing else |
| `ArgStrides.InputIsNoValue` | src/frontend/args.rs:321-346 | the input file a translation reports is the first Rust path that stands where a unit starts, so it is never the value of a flag |
| `ArgStrides.NoInputMeaning` | src/frontend/args.rs:321-346 | a translation that reports no input file has no Rust path where a unit starts |
| `FrontDoor.StopIsAUnit` | src/frontend/mod.rs:313-327 | the word the scan stops at starts a unit of the argument reading (it is nobody else's value) exactly when the strides lead to it and nothing before it is refused; they do lead to it whenever no bare jobs flag comes before |
| `FrontDoor.JobsParity` | src/frontend/mod.rs:305-338 | after nothing but bare jobs flags a subcommand is always hoisted, and it starts a unit exactly when the number of these flags is even |
| `FrontDoor.JobsValueIsHoisted` | src/frontend/mod.rs:309-311 | a counterexample: after a bare `-j` the scan hoists a word that the argument reading takes as the value of `-j` |
| `Args.TakeValue` | src/frontend/args.rs:390-404 | a flag's value is the attached one, else the next token with the index moved past it, else a refusal |
| `Args.ValueArms` | src/frontend/args.rs:197-387 | a value arm refuses what its value check refuses, and otherwise records and renders exactly its unit |
| `Args.OneStep` | src/frontend/args.rs:197-387 | one trip of the loop reads exactly one unit of the reading at that index, advances past it, and appends its rendering |
| `Args.TranslateFlags` | src/frontend/args.rs:197-387 | the loop equals the declarative reading: the units in order rendered one by one, then the deferred suffix, or the first refusal |
| `Args.AppendSuffix` | src/frontend/args.rs:359-386 | the code after the loop appends the terse, list, unwind and timeout suffixes in that order |
| `ArgRendering.RenderMeaning` | src/frontend/args.rs:197-356 | what becomes of the tokens that spell a unit: a harness, format, debug or fused flag and any other token come out as they stand, an unstable or jobs flag under its engine name, a solver as `--smt-solver` with the letters in lower case, what follows a `--` as it is, and the rest not at all |
| `ArgRendering.TranslationMeaning` | src/frontend/args.rs:197-387 | an accepted line is cut into pieces that spell its units, and the engine gets what each piece becomes, in order, followed by what waited for the end |
| `ArgRendering.ResultMeaning` | src/frontend/args.rs:197-387 | the solver is needed exactly when no unit asks for a list, verbose is set exactly by a verbose or debug flag, and what waited for the end is the terse format when jobs are given and no format is, the list, the bound and the limit |
| `ArgRendering.EngineLineUnchanged` | src/frontend/args.rs:197-387 | a line without an input, of pieces the engine would itself take, comes out unchanged but for the output format that a jobs flag needs |
| `ArgRefusals.LimitMeaning` | src/frontend/args.rs:436-457 | a time limit is accepted exactly when it is a positive amount with a unit or none; an amount of nothing is refused in words of its own |
| `ArgRefusals.RefusedExactly` | src/frontend/args.rs:197-457 | the reading refuses at a unit exactly for an unsupported flag, a value that is missing or bad, or a file or directory that is no Rust source where the input is still to come |
| `ArgsProperties.UnitSpells` | src/frontend/args.rs:197-387 | every unit read is spelled by the tokens it takes: its flag by one of its names with the value joined or next to it, and any other token by none of them; a flag goes without the value it takes only at the end of the line, and no unit is an input file once one was seen |
| `ArgsProperties.UnitsPartitionArgv` | src/frontend/args.rs:197-387 | the units cut the command line: their tokens put together are it, each token used once and in order, and only the last unit can be a flag without its value |
| `ArgsProperties.OneInput` | src/frontend/args.rs:321-346 | at most one unit is an input file, and it is the one the result names |
| `ArgsProperties.LastUnwindWins` | src/frontend/args.rs:257-261 | of several unwind bounds the last one counts |
| `ArgsProperties.LastTimeoutWins` | src/frontend/args.rs:262-266 | of several time limits the last one counts |
| `ArgsProperties.DeferredAnywhere` | src/frontend/args.rs:359-386 | a deferred flag may be moved to the end of the units without changing the translation, if it is the last of its kind |
| `ArgsProperties.TimeoutIsGated` | src/frontend/args.rs:380-386 | a translated time limit is the last thing on the command line and an unstable-options gate stands before it |
| `ArgsProperties.UnwindSpelling` | src/frontend/args.rs:372-378 | the bound is spelled per harness exactly when some harness is named anywhere, and crate-wide exactly when none is |
| `ArgsProperties.Translate` | src/frontend/args.rs:91-116 | the entry point for a file: the translated flags with the file in front, or a refusal for a missing, absent or directory input |
| `ArgsProperties.TranslateCargo` | src/frontend/args.rs:127-138 | the entry point for a package: the translated flags, refusing a file |
| `ArgsProperties.SameReadingAfterInput` | src/frontend/args.rs:321-346 | a command line without an input file is read into the same units when one is put in front |
| `ArgsProperties.EntryPointsAgree` | src/frontend/args.rs:91-138 | whatever the package entry point accepts, the file entry point accepts after a file, with the same translation |
| `Delimiters.SkipWs` | scripts/extract_proof_harnesses.py:152-155 | the index moves over white space only, and all of it |
| `Delimiters.MatchBalanced` | scripts/extract_proof_harnesses.py:126-149 | the loop returns the span to the matching closer, or nothing |
| `Delimiters.MatchSpanMeaning` | scripts/extract_proof_harnesses.py:126-149 | the found closer is the first place where the nesting depth of that bracket returns to zero; none is found exactly when it never does |
| `Delimiters.SplitTopLevelCommas` | scripts/extract_proof_harnesses.py:204-228 | the loop returns the pieces of the split in order, each stripped, without a last one that is blank |
| `Delimiters.SplitMeaning` | scripts/extract_proof_harnesses.py:204-228 | of any text, balanced or not: there is one way to cut it at the commas outside every bracket, the pieces joined by commas are the text, and those pieces stripped, but for a blank last one, are what is returned |
| `Delimiters.PiecesFit` | scripts/extract_proof_harnesses.py:204-228 | no piece is longer than the text it was cut from |
| `Delimiters.SplitSunk` | scripts/extract_proof_harnesses.py:204-228 | a stretch whose commas are all inside brackets stays in one piece |
| `Delimiters.ParensPass` | scripts/extract_proof_harnesses.py:126-149 | a balanced parenthesised stretch is passed over by the matcher |
| `CfgExpr.ArgsShorter` | scripts/extract_proof_harnesses.py:313-321 | every argument of a call is strictly shorter than the call, so the evaluator terminates |
| `CfgExpr.CallParses` | scripts/extract_proof_harnesses.py:313-321 | a printed call with any spacing and an optional trailing comma is parsed back into its arguments |
| `CfgExpr.GroupIsRead` | scripts/extract_proof_harnesses.py:313-321 | the group after a name is read up to its own closing parenthesis |
| `CfgExpr.SplitInner` | scripts/extract_proof_harnesses.py:204-228 | the printed arguments of a call are split back into the arguments, whatever they nest |
| `CfgExpr.CfgMeaning` | scripts/extract_proof_harnesses.py:333-350 | for every well formed cfg expression tree, evaluating its printed text gives its Boolean meaning with `kani` true and other flags false |
| `CfgExpr.CfgAttributeMeaning` | scripts/extract_proof_harnesses.py:353-359 | a printed `cfg` attribute is inactive exactly when its expression means false |
| `Extractor.UpdateModStack` | scripts/extract_proof_harnesses.py:257-270 | one line changes the brace depth by its braces and leaves on the stack the modules that are still open |
| `Extractor.ReadLine` | scripts/extract_proof_harnesses.py:415-449 | one trip of the main loop: stack, depth, the three flags and the names found |
| `Extractor.ExtractProofHarnesses` | scripts/extract_proof_harnesses.py:403-451 | the scanner returns the sorted set of the names its line-by-line run found |
| `Extractor.ScanInvariant` | scripts/extract_proof_harnesses.py:257-270 | over any lines, the stacked depths stay strictly increasing and below the brace depth, and the flags agree with each other |
| `Extractor.AttrsScan` | scripts/extract_proof_harnesses.py:369-382 | an attribute block sets the flags by what it contains, whatever the order of its lines |
| `Extractor.HeadScan` | scripts/extract_proof_harnesses.py:437-449 | the line after the attributes yields its qualified name exactly when it is a function with a harness attribute and no inactive cfg |
| `Extractor.ItemsScan` | scripts/extract_proof_harnesses.py:403-451 | scanning printed items adds exactly their live harnesses in order and restores the state |
| `Extractor.SortedSetMeaning` | scripts/extract_proof_harnesses.py:451 | the result is strictly sorted and has exactly the names found |
| `Extractor.ExtractionIsExact` | scripts/extract_proof_harnesses.py:403-451 | for every tree of modules, blocks and functions with attribute blocks, printed one item per line, the result is exactly the sorted, duplicate-free qualified names of the live harness functions |
| `Extractor.CompiledIffNothingHidden` | scripts/extract_proof_harnesses.py:369-382 | counted as often as they occur, the harnesses found are those compiled exactly when no live harness stands below an item with an inactive cfg; the scan never finds fewer |
| `Extractor.ReturnsCompiledExactly` | scripts/extract_proof_harnesses.py:403-451 | the set returned is that of the compiled harnesses exactly when every hidden name is also the name of a compiled one; every compiled name is always returned |
| `Extractor.HiddenTwinDoesNoHarm` | scripts/extract_proof_harnesses.py:403-451 | two modules of one name under complementary cfgs: a name is hidden and the returned set is right |
| `Extractor.InactiveModuleIsIgnored` | scripts/extract_proof_harnesses.py:437-449 | a counterexample: a harness inside a module with an inactive cfg is reported |
| `Extractor.KaniJudges` | scripts/extract_proof_harnesses.py:305-359 | the attribute tests of the script do judge that counterexample's two attributes so |
| `HarnessAttributes.AttributeJudged` | scripts/extract_proof_harnesses.py:305-359 | printed `proof`, `proof_for_contract`, `cfg` and `cfg_attr` attributes in any layout, a `cfg_attr` around attributes of every kind, and any other path with anything after it, are judged harness or inactive exactly by what they mean |
| `HarnessAttributes.RequiresIsNoHarness` | scripts/extract_proof_harnesses.py:305-310 | a contract condition, whatever it says, makes no harness and disables none |
| `CfgExpr.PiecesParse` | scripts/extract_proof_harnesses.py:313-321 | a call printed around arguments of any kind, with blanks around each, is parsed back into exactly these |
| `HarnessAttributes.PrintedTreesAreRead` | scripts/extract_proof_harnesses.py:305-451 | from the text of any tree of modules and functions with any of these attributes the script returns exactly the qualified names of the functions marked as harnesses and not disabled |
| `PowerOfTwo.AndBits` | library/trust-mc/kani_lib.c:33 | the bitwise and, bit by bit |
| `PowerOfTwo.TrickIsExact` | library/trust-mc/kani_lib.c:33 | for every unsigned value of any width the test holds exactly for the powers of two |
| `Heap.DecodeAddress` | proofs/heap_stride_isolation.rs:145-187 | division and remainder by the stride give back the object and the offset of every address inside a stride |
| `Heap.LiveRangesDisjoint` | proofs/heap_stride_isolation.rs:60-124 | in every reachable heap two live objects never overlap, and a live range is non-null and within 64 bits |
| `Heap.AddressDecodes` | proofs/heap_stride_isolation.rs:145-236 | an address lies in at most one live object, the one it decodes to |
| `Heap.StepKeepsInv` | library/trust-mc/kani_lib.c:45-126 | every allocator call keeps the heap invariant and never changes a size once given |
| `Heap.RunsKeepInv` | library/trust-mc/kani_lib.c:45-126 | over every run of allocator calls the invariant holds and no non-null address is returned twice |
| `Heap.HeapIsIsolated` | proofs/heap_stride_isolation.rs:60-236 | after every run from the empty heap: disjoint ranges, unique owners, no null and no overflow |
| `Heap.AcceptedAlignment` | library/trust-mc/kani_lib.c:53-116 | every alignment any of the four entry points accepts is a power of two |
| `Heap.ZeroedIsZero` | library/trust-mc/kani_lib.c:67-74 | a zeroed allocation that succeeds has its full size and every byte zero |
| `Heap.AllocContract` | library/trust-mc/kani_lib.c:45-55 | an allocation passes exactly with a positive size and a proper alignment; it gives a new object of exactly that size, with the bytes it came with, exactly when the request works and there is room, and changes no other object |
| `Heap.ZeroedContract` | library/trust-mc/kani_lib.c:67-74 | the same of a zeroed allocation, whose new object holds zeros |
| `Heap.DeallocContract` | library/trust-mc/kani_lib.c:86-96 | a non-null deallocation is accepted exactly at the start of a live object of that very size, and then removes it alone |
| `Heap.ReallocContract` | library/trust-mc/kani_lib.c:106-126 | a reallocation either fails and changes nothing, or keeps the first bytes up to the smaller size in a new object and frees only the old one |
| `Heap.ReallocAccepted` | library/trust-mc/kani_lib.c:106-126 | exactly when a reallocation passes: its arguments are proper and, if the new object is made, the pointer is the base of a live object that has the bytes to copy |
| `Heap.ReallocResultIsLive` | library/trust-mc/kani_lib.c:106-126 | the returned object is live exactly when the old pointer did not name the object about to be made |
| `Heap.ReallocTrustsOldSize` | library/trust-mc/kani_lib.c:106-126 | the caller's old size is only compared with the copy: a wrong one is accepted whenever the copy stays in bounds, and the rest of the new object is unspecified |
| `Heap.Allocator.RustAlloc` | library/trust-mc/kani_lib.c:45-55 | the allocation entry point does what the heap model says, or ends with the failing check and the heap as it was |
| `Heap.Allocator.RustAllocZeroed` | library/trust-mc/kani_lib.c:67-74 | likewise for the zeroed allocation |
| `Heap.Allocator.RustDealloc` | library/trust-mc/kani_lib.c:86-96 | likewise for the deallocation |
| `Heap.Allocator.RustRealloc` | library/trust-mc/kani_lib.c:106-126 | likewise for the reallocation, through allocate, copy and free; when the copy or the free fails the new object, and nothing else, has been added by then |
| `Signedness.SkippedKindsAgree` | trust-mc-codegen-shared/src/lib.rs:160-162 | for every width and every pair of patterns, bitwise operations and equality give the same result under both readings |
| `Signedness.PolicyMeaning` | trust-mc-codegen-shared/src/lib.rs:148-227 | which binary operations are guessed signed, and which of them leave the counter alone |
| `Signedness.CastPolicy` | trust-mc-codegen-shared/src/lib.rs:148-182 | a cast is guessed unsigned, and counted |
| `Signedness.ComparisonDisagrees` | trust-mc-codegen-shared/src/lib.rs:203-227 | an order comparison agrees exactly when both patterns have the same sign bit |
| `Signedness.WideningDisagrees` | trust-mc-codegen-shared/src/lib.rs:113-145 | a widening agrees exactly for patterns without a sign bit, or when nothing is added |
| `Signedness.ShiftDisagrees` | trust-mc-codegen-shared/src/lib.rs:203-227 | a right shift agrees exactly for patterns without a sign bit or a shift by a multiple of the width |
| `Signedness.DivRemDisagrees` | trust-mc-codegen-shared/src/lib.rs:203-227 | division and remainder have disagreeing operands exactly for widths of two or more |
| `Signedness.ArithmeticPatternsAgree` | trust-mc-codegen-shared/src/lib.rs:113-145 | addition, subtraction and multiplication give the same truncated pattern under both readings |
| `Signedness.OverflowDisagrees` | trust-mc-codegen-shared/src/lib.rs:113-145 | but they disagree on overflow: minus one plus one, at every width of two or more |
| `Signedness.SkipsExactlyTheSafeKinds` | trust-mc-codegen-shared/src/lib.rs:160-162 | for operands of one width, the counter skips exactly the kinds for which no guess can change a result |
| `Signedness.MixedEqualityDependsOnGuess` | trust-mc-codegen-shared/src/lib.rs:160-162 | equality of operands of different widths does depend on the guess, exactly for these operands |
| `Signedness.CounterIsExact` | trust-mc-codegen-shared/src/lib.rs:165-182 | after any guesses the counter is the number of counted ones, modulo the machine word |
| `Signedness.UncountedGuess` | trust-mc-codegen-shared/src/lib.rs:160-182 | a guess that is not counted changes the result exactly when it is wrong, about an equality of a narrow and a wider operand, the narrow one with its sign bit and the wide one its extension |
| `Signedness.ZeroCounterIsHarmless` | trust-mc-codegen-shared/src/lib.rs:92-182 | when the counter is left at zero after fewer guesses than a word can count, the guesses that changed a result are exactly those at such mixed-width equalities |
| `Signedness.FallbackCounter.WithKind` | trust-mc-codegen-shared/src/lib.rs:165-182 | returns the kind's default sign and counts it unless the kind is sign agnostic |
| `Signedness.FallbackCounter.ForBinOp` | trust-mc-codegen-shared/src/lib.rs:203-227 | does so for the operation's kind |
| `Signedness.FallbackCounter.Take` | trust-mc-codegen-shared/src/lib.rs:92-95 | returns the count and resets it |
| `Signedness.FallbackCounter.Replace` | trust-mc-codegen-shared/src/lib.rs:105-107 | returns the old count and stores the new one |
| `Footer.Footer` | src/frontend/topics.rs:142-161 | the loop writes the header and the greedy layout of the other topics |
| `Footer.GreedyKeepsItems` | src/frontend/topics.rs:146-158 | the layout lists the names in order, each once |
| `Footer.GreedyFits` | src/frontend/topics.rs:149-151 | every line stays within 80 columns exactly when every name fits on an indented line |
| `Footer.ColumnIsLength` | src/frontend/topics.rs:144-157 | the running column is the length of the line written so far |
| `Footer.NoTrailingSpace` | src/frontend/topics.rs:149-157 | a line of items does not end in a space |
| `Footer.GreedyHoldsItems` | src/frontend/topics.rs:149-151 | after the first line no line is empty: each break is followed by its item |
| `Footer.FooterLines` | src/frontend/topics.rs:142-161 | what is printed, for any names, is lines none of which ends in a space, and all of which stay within 80 columns exactly when no name is longer than 69 characters |
| `Footer.GreedyIsBest` | src/frontend/topics.rs:146-158 | no layout with the same indents that fits has fewer lines |
| `Footer.FooterIsBest` | src/frontend/topics.rs:142-161 | for topic names of up to 69 characters, the longest any layout has room for, some layout has fewer lines exactly when the first name has 51 characters and the other items take as many lines after the second line's first item as after a full first line |
| `Footer.ShippedFooterIsBest` | src/frontend/topics.rs:43-161 | with the topic names of the program no layout has fewer lines |
| `Footer.LengthFiftyOneWastesALine` | src/frontend/topics.rs:149 | a counterexample: a lone name of 51 characters fits on the first line but is put on a second |
| `JsonText.JsonString` | src/frontend/doctor.rs:402-420 | the writer's loop gives the quoted text with every character escaped |
| `JsonText.WrittenIsRead` | src/frontend/doctor.rs:402-420 | for every text the writer's output is a string literal under section 7 of RFC 8259 whose value is that text, whatever follows |
| `JsonText.JsonArray` | src/frontend/doctor.rs:422-428 | the array writer joins the written strings with a comma and a blank |
| `JsonText.ArrayIsRead` | src/frontend/doctor.rs:422-428 | an array is read back element by element |
| `JsonText.JsonStringAfter` | src/frontend/summary.rs:273-285 | the front door's reader finds the next quote and reads to the closing one, keeping each escaped character as it is |
| `JsonText.LooseReadsGarbled` | src/frontend/summary.rs:273-285 | on a written string it stops at its closing quote and gives the text with control characters garbled |
| `JsonText.FrontDoorReadsBack` | src/frontend/summary.rs:273-285 | it reads a written string back exactly when the text has no control character, and stops at its closing quote whatever follows |
| `Summary.TakeSummaryFlag` | src/frontend/summary.rs:46-79 | the loop takes the summary flag out, keeps everything else, and remembers the last artifact path given |
| `Summary.TakenOnce` | src/frontend/summary.rs:46-79 | nothing is left to take from what is passed on, and the same artifact path is seen there |
| `Summary.NothingTaken` | src/frontend/summary.rs:46-79 | without the flag the command line is passed on untouched |
| `Summary.CollectDetail` | src/frontend/summary.rs:213-235 | the collecting loop shows the described checks, cut to four with an ellipsis |
| `Summary.Parse` | src/frontend/summary.rs:198-258 | one row an entry; one unreadable entry and there is no table |
| `Summary.ParsedMeaning` | src/frontend/summary.rs:198-258 | there are rows exactly when every entry is readable, and each row is its own entry's |
| `Summary.DetailMeaning` | src/frontend/summary.rs:213-254 | a row says nothing exactly when it is proved; otherwise it shows the first four described checks in order, with an ellipsis exactly when there are more |
| `SummaryMeaning.RowMeaning` | src/frontend/summary.rs:198-258 | a row is proved when its entry says so, or says nothing and its status is `success`; its first column is the word for its verdict |
| `SummaryMeaning.LeadMeaning` | src/frontend/summary.rs:213-254 | a row that is not proved starts with the reason the artifact gives, unless it is a plain failure; with nothing described it shows that reason, a fixed sentence for a failure, or its status |
| `Summary.Render` | src/frontend/summary.rs:123-190 | one sort and two passes give the table in which each group is sorted by name on its own |
| `Summary.GroupSorted` | src/frontend/summary.rs:169-190 | picking a group out of the sorted rows is sorting that group by name |
| `SummaryMeaning.HeaderMeaning` | src/frontend/summary.rs:134-160 | the first line counts the rows, the proved, the others, and each of the four classes that is there by the word it is shown under |
| `SummaryMeaning.BodyMeaning` | src/frontend/summary.rs:163-190 | every row is shown once, those not proved first, either group in the order of its names, a blank line between two groups, in a first column as wide as its longest word |
| `Summary.TableForgetsOrder` | src/frontend/summary.rs:163-190 | the table does not depend on the order of the rows when no two tie |
| `Summary.ArtifactOrderIsForgotten` | src/frontend/summary.rs:163-190 | two artifacts listing the same distinctly named harnesses in any order render the same table, or neither renders one |
| `Summary.OrderForgottenExactly` | src/frontend/summary.rs:165-169 | the sorted rows are independent of the arrival order exactly when no two different rows tie |
| `Summary.HeaderAddsUp` | src/frontend/summary.rs:134-160 | for every readable artifact proved and failed make its entries, and the four tallies and the plain failures make the failed |
| `Summary.ColumnsLineUp` | src/frontend/summary.rs:170-189 | every name starts in one column, and so does every line of detail |
| `Cancel.RunsKeepInv` | src/frontend/cancel.rs:49-99 | the invariant of PID, process table, handlers, frames and kills holds in every interleaving |
| `Cancel.ForwardsOnlyToThisRun` | src/frontend/cancel.rs:56-67 | a forwarded signal goes to this run's PID only, never before the store or after the forget; it finds the engine until the wait returns, and from then to the forget nobody or a stranger |
| `Cancel.WaitingDeathIsForwarded` | src/frontend/cancel.rs:76-89 | a front door that a signal ends while it waits has passed that same signal on to the engine first, and before the engine exited if it has not yet |
| `Cancel.InstalledOnce` | src/frontend/cancel.rs:70-99 | however many engines are watched, each handler is installed at most once |
| `Cancel.ForwardedExactly` | src/frontend/engine.rs:282-300 | from any reachable moment with a running engine and no handler running, a signal answered with nothing in between ends the front door, and reaches the engine exactly when the PID was stored and that signal's handler was in place |
| `Cancel.StrangerCanBeSignalled` | src/frontend/engine.rs:298-300 | from every reachable wait with the engine running and no handler there is a run in which a signal is forwarded to a process that was never the engine: reaped, its PID reused, before the forget |
| `Cancel.FrontDoor.Install` | src/frontend/cancel.rs:70-99 | the three handlers are installed the first time only |
| `Cancel.FrontDoor.WatchEngine` | src/frontend/cancel.rs:56-59 | undisturbed, watching is the machine's run from the store to the wait |
| `Cancel.FrontDoor.ForgetEngine` | src/frontend/cancel.rs:65-67 | forgetting clears the stored PID |
| `Inventory.NormalizedOnce` | tools/replacement-inventory/generate_inventory.py:494-497 | normalising a lane twice is normalising it once |
| `Inventory.CollectRows` | tools/replacement-inventory/generate_inventory.py:571-597 | the loop returns the included rows with their outcomes mapped and filtered, sorted by key, or the first included row with an unknown word |
| `Inventory.ChosenMeaning` | tools/replacement-inventory/generate_inventory.py:571-597 | rows come one for one from the included corpus rows: the same file, harness and lane, and the word PROOF or CTREX of the survey or UNKNOWN for INDETERMINATE; there are none exactly when some included word is none of these three |
| `Inventory.CollectedMeaning` | tools/replacement-inventory/generate_inventory.py:571-597 | the rows collected are, as often as they occur, the chosen ones that are asked for, in key order; a refusal names the first included row with an unknown word |
| `Inventory.LaneMeaning` | tools/replacement-inventory/generate_inventory.py:494-497 | a lane is the stripped suite with `tests/` in front, put there if it is missing |
| `Inventory.BuildInventory` | tools/replacement-inventory/generate_inventory.py:610-629 | the inventory of the collected rows with their count and digest |
| `Inventory.BuildNonProofClosure` | tools/replacement-inventory/generate_inventory.py:632-673 | the closure of the mixed rows, naming the mixed inventory as its source |
| `Inventory.BuildClosure` | scripts/generate_non_proof_closure.py:33-112 | the second closure builder: the closure of the given inventory, or its first refusal |
| `Inventory.BuildersAgree` | scripts/generate_non_proof_closure.py:33-112 | for every corpus both builders write the same closure |
| `Inventory.ValidateInventory` | scripts/replacement_harness_dispositions.py:98-144 | the validator accepts the rows or names the first problem |
| `Inventory.ValidatedMeaning` | scripts/replacement_harness_dispositions.py:98-144 | it accepts exactly well placed rows with distinct keys, in key order, rightly counted and digested |
| `Inventory.PathMeaning` | scripts/replacement_harness_dispositions.py:118-129 | a path of two or more names is on the lane of the first two, and safe exactly when the first is `tests`, none is `..` and it ends in `.rs` |
| `Inventory.ValidateSubsets` | scripts/replacement_harness_dispositions.py:147-215 | the subset validator accepts, or names the first problem |
| `Inventory.MixedAcceptedExactly` | tools/replacement-inventory/generate_inventory.py:571-629 | a generated mixed inventory is accepted exactly when the included corpus rows have safe paths, matching lanes and distinct keys |
| `Inventory.GeneratedArtifactsPass` | scripts/replacement_harness_dispositions.py:98-215 | for every well formed corpus the generated mixed inventory, PROOF subset and closure pass both validators together |
| `Inventory.ClosureOfAnyValidInventory` | scripts/replacement_harness_dispositions.py:147-215 | the closure of any inventory the validator accepts is built and is accepted beside any accepted PROOF subset |
| `Inventory.SubsetValidates` | scripts/replacement_harness_dispositions.py:147-158 | the PROOF subset of an accepted inventory is itself accepted |
| `Inventory.AcceptedSubsetsPartition` | scripts/replacement_harness_dispositions.py:147-215 | whatever artifacts are accepted together, the PROOF rows and the closure rows make up the mixed inventory with nothing in both |
| `Reports.FindProofAccountingGaps` | scripts/compiletest_proof_accounting.py:74-98 | the gaps found are those of the two summary counts and of each row's two flags, in order |
| `Reports.GapsMeaning` | scripts/compiletest_proof_accounting.py:74-98 | there are no gaps exactly when both counts and every row's two flags are right |
| `Reports.AccountedMeaning` | scripts/compiletest_proof_accounting.py:74-98 | a row is accounted for exactly when it is marked a known false positive if its status says so, and trusted if its verdict is a proof and no status denies that it passed |
| `PublicRunner.ParseDriverResult` | scripts/replacement_public_runner.py:339-454 | the branches in the order they are tried give the row and the record of that run |
| `RunTable.StateMeaning` | scripts/replacement_public_runner.py:339-454 | which of the five states each run ends in, from its plan row and its output |
| `RunTable.VerdictMeaning` | scripts/replacement_public_runner.py:339-454 | the verdict is ERROR without an answer, and else the last marker, or UNKNOWN for an unknown marker alone, a wanted panic counting as a proof |
| `RunTable.DetailsMeaning` | scripts/replacement_public_runner.py:339-454 | the details that go with each state |
| `RunTable.RunMeaning` | scripts/replacement_public_runner.py:339-454 | the row and the record of every run, field by field, told from the plan row and the output alone |
| `RunTable.InactiveMeaning` | scripts/replacement_public_runner.py:457-482 | the row and the record of a plan row that is not run |
| `PublicRunner.PassMeaning` | scripts/replacement_public_runner.py:392-398 | a row passes exactly when its own harness was checked in time and gave the expected answer, a wanted panic counting as a proof, and for PROOF the exit status was zero |
| `PublicRunner.ExecutePlan` | scripts/replacement_public_runner.py:486-535 | one row and one record for each plan row, and one manifest entry for each driver run |
| `PublicRunner.ValidateRuntimeRecords` | scripts/replacement_harness_dispositions.py:680-729 | records are accepted exactly when they are well formed, one a key, cover the plan, and each fits its row |
| `PublicRunner.RecordsAcceptedExactly` | scripts/replacement_harness_dispositions.py:680-729 | for any plan with distinct, nonempty keys and any driver outputs, the emitted records are accepted exactly when no active row ended in an identity mismatch |
| `RunTable.AcceptedMeaning` | scripts/replacement_harness_dispositions.py:680-729 | accepted records hold exactly one for each plan row, with its key and expectation, skipped for its reason if it is inactive and otherwise not |
| `RunTable.AcceptedIsPlanned` | scripts/replacement_harness_dispositions.py:680-729 | and every accepted record is that of a plan row |
| `PublicRunner.RunHasNoGaps` | scripts/replacement_public_runner.py:538-576 | the emitted rows and their summary have no accounting gaps |
| `PublicRunner.SummaryAddsUp` | scripts/replacement_public_runner.py:538-576 | every row is counted once among passed, failed and skipped, and among complete and gated; the skipped are the inactive ones |
| `RunTable.SummaryMeaning` | scripts/replacement_public_runner.py:538-576 | every count of the summary is the number of plan rows it is of, told from what the driver put out for each |
| `PublicRunner.ExitZeroExactly` | scripts/replacement_public_runner.py:767-783 | the exit status is zero exactly when each row passed, or is inactive and not a PROOF row |
| `ProofGate.FindGateFailures` | scripts/zero_fallback_proof_gate.py:195-421 | the failures found are those of the expected count, the row count, the summary fields and the rows, in the order they are looked at |
| `ProofGate.GateMeaning` | scripts/zero_fallback_proof_gate.py:195-402 | the gate lets through exactly the reports with rows, as many as the given expected count, all clean and each listed once, with every full count full and every zero count zero; an empty report never passes |
| `ProofGate.GateOnOwnSummary` | scripts/zero_fallback_proof_gate.py:195-402 | for rows with their own counted summary the gate passes exactly when there are rows, as many as expected, and each is clean and listed once |
| `DriverCommand.FlagValues` | scripts/direct_driver_proof_core.py:287-296 | the values of a flag: what follows it, what is joined to it, and for `-Z` what is fused to it |
| `DriverCommand.Positionals` | scripts/direct_driver_proof_core.py:299-313 | the consuming loop leaves the words with no dash that do not come right after a flag taking a value |
| `DriverCommand.PositionalsMeaning` | scripts/direct_driver_proof_core.py:299-313 | a word is left over exactly when some place holding it is |
| `DriverCommand.ReadersAgreeExactly` | scripts/direct_driver_proof_core.py:287-313 | both readers of a command give what a reader that takes each word once gives exactly when no word right after a flag that takes a value is such a flag with a follower, or has a value joined or fused to it |
| `DriverCommand.OneWordReadTwice` | scripts/direct_driver_proof_core.py:244-313 | a counterexample: commands that are accepted although their only `--backend=ay` is the value of the flag before it, and that are not with each word read once |
| `DriverCommand.AcceptedReadOnce` | scripts/direct_driver_proof_core.py:244-313 | a command in which no word is read twice is accepted with each word read once exactly when it is accepted and its `--ay-chc` is not a flag's value |
| `DriverLog.AcceptedProvesOwnExactly` | scripts/direct_driver_proof_core.py:323-348 | an accepted log's last verdict is the proof of its own harness exactly when that harness is announced before it with no other in between |
| `DriverLog.OthersProofIsAccepted` | scripts/direct_driver_proof_core.py:323-348 | a counterexample: a log is accepted for a harness that has a counterexample, by the proof of another one after it |
| `DriverCommand.ValidateCommand` | scripts/direct_driver_proof_core.py:244-284 | a command is accepted exactly when its flags have the wanted values and a test file among its words is the row's |
| `DriverCommand.CommandMeaning` | scripts/direct_driver_proof_core.py:244-313 | what an accepted command holds, place by place: the wrapper, each flag with the wanted value after it, joined to it or fused to it, the switch, and the row's test file among the words left over |
| `DriverLog.LogMeaning` | scripts/direct_driver_proof_core.py:323-348 | what an accepted log holds: its harness announced, the last verdict a proof, the last qualifier clean, no fallback but of count zero, nothing dropped, demoted or retried |
| `DirectDriver.DeriveRows` | scripts/direct_driver_proof_core.py:351-419 | one clean row for each run, sorted by key; nothing is derived without runs, or if any run is refused or repeated |
| `DirectDriver.DerivedMeaning` | scripts/direct_driver_proof_core.py:351-419 | derived rows are one a run, in key order, and every run names its own harness of the inventory, exited with zero and has an acceptable command, log and time |
| `DirectDriver.DirectEvidencePasses` | scripts/direct_driver_proof_core.py:351-453 | whatever rows are derived pass the gate for as many harnesses as runs, have no accounting gaps, and carry the summary both other tools would count |
| `ProofGate.IndexSource` | scripts/extract_replacement_proof_report.py:93-104 | the source rows under their keys, or a refusal exactly when some row has no key or repeats one |
| `ProofGate.LoadInventoryRows` | scripts/extract_replacement_proof_report.py:59-90 | the inventory is accepted exactly when every row is a usable PROOF row, no key repeats and the denominator matches |
| `ProofGate.DeriveProofReport` | scripts/extract_replacement_proof_report.py:194-225 | the report cut to the inventory's rows in its order with a recomputed summary, or a refusal exactly when it cannot be cut |
| `ProofGate.CutMeaning` | scripts/extract_replacement_proof_report.py:59-225 | what a cut is made of: for each inventory row in order the one source row under its key, passed with a proof as its last marker |
| `ProofGate.CutSummaryMeaning` | scripts/extract_replacement_proof_report.py:136-191 | the recomputed counts: every row is counted as a trusted, passed proof, and none as anything else |
| `ProofGate.CutKeepsAccounting` | scripts/extract_replacement_proof_report.py:136-225 | the cut has no accounting gaps exactly when its rows carry the right flags; so a source without gaps gives a cut without gaps |
| `ProofGate.CutPassesGateExactly` | scripts/extract_replacement_proof_report.py:194-225 | a cut report passes the gate for the inventory's size exactly when the inventory has rows and each selected row is clean |
| `ProofGate.CleanRunMeaning` | scripts/replacement_public_runner.py:339-454 | the public run's rows that are clean: a proof asked for and given by its own harness in time with exit status zero, clean qualifier, no fallback, nothing retried, demoted or dropped |
| `ProofGate.RunSummariesAgree` | scripts/extract_replacement_proof_report.py:136-191 | on the rows of a public run the recomputed summary is the run's own |
| `Progress.IndexObserved` | tools/replacement-inventory/replacement_progress.py:345-363 | the index holds for each name the first observation that registers it, and for a last segment the only one that has it |
| `Progress.ComputeProgress` | tools/replacement-inventory/replacement_progress.py:388-457 | the loop judges each row by the observation found for it and counts the classes |
| `ProgressMeaning.SaidMeaning` | tools/replacement-inventory/replacement_progress.py:91-106 | an observation is inactive, or an error for a run that is not complete, or what its verdict's word says |
| `ProgressMeaning.CountedMeaning` | tools/replacement-inventory/replacement_progress.py:108-124 | without a verdict, which of the five outcomes it is, exactly, from the status, the fallback, the category and the counts of checks |
| `ProgressMeaning.ClassMeaning` | tools/replacement-inventory/replacement_progress.py:402-455 | which class a row is counted in, told from its observation: proven, fallback, regressed, closed or unjustified |
| `ProgressMeaning.FoundMeaning` | tools/replacement-inventory/replacement_progress.py:366-382 | a row is matched with the first observation of its file and name, else the first of its crate and name, else the first of its name, else the only one of its last segment |
| `ProgressMeaning.LastSegmentMeaning` | tools/replacement-inventory/replacement_progress.py:206-209 | the last segment is what follows the last `::`, or the whole name |
| `ProgressMeaning.StemMeaning` | tools/replacement-inventory/replacement_progress.py:366-373 | a file's stem is its last name without the extension |
| `Progress.TalliesPartition` | tools/replacement-inventory/replacement_progress.py:388-457 | PROOF rows are exactly proven, fallen back, regressed or missing, the others closed, unjustified or missing |
| `Progress.CompleteExactly` | tools/replacement-inventory/replacement_progress.py:165-183 | the suite is complete exactly when every PROOF row is proven and every other row closed |
| `Progress.OwnObservation` | tools/replacement-inventory/replacement_progress.py:366-382 | with distinct file keys, a row in the report is matched with its own observation and no other |
| `Progress.CreditedElsewhereExactly` | tools/replacement-inventory/replacement_progress.py:366-382 | a row that is not in the report is credited with another row's observation exactly when a crate name, a full harness name or a unique last segment agrees |
| `Progress.OtherFilesProofIsCredited` | tools/replacement-inventory/replacement_progress.py:366-382 | so a proof of one file's harness can complete a suite whose only row is a same-named harness of another file |
| `Progress.TwinFileIsCredited` | tools/replacement-inventory/replacement_progress.py:366-382 | under the program's own normalisation this happens for every clean row and every other plain path |
| `Progress.TestTwinIsCredited` | tools/replacement-inventory/replacement_progress.py:366-382 | so a clean row of `tests/a.rs` completes a suite that is one row of `tests/b.rs` |
| `Progress.ProvenRunMeaning` | tools/replacement-inventory/replacement_progress.py:245-309 | a PROOF row of the public run is proven exactly when it passed with a clean qualifier, no fallback, and nothing retried, demoted or dropped |
| `Progress.ClosedRunMeaning` | tools/replacement-inventory/replacement_progress.py:91-124 | any other active row is closed exactly when it passed, but a BMC_SAFE row never is |
| `Progress.CleanIsProven` | tools/replacement-inventory/replacement_progress.py:245-309 | a row the gate calls clean is proven |
| `Progress.RunCompleteExactly` | tools/replacement-inventory/replacement_progress.py:388-457 | over the public run's own report progress is complete exactly when every row is active, passed, is not BMC_SAFE, and if PROOF did so without a blemish |
| `Progress.CompleteMeansExitZero` | scripts/replacement_public_runner.py:767-783 | a complete suite means the run itself exited with zero |
| `Progress.NeverComplete` | tools/replacement-inventory/replacement_progress.py:165-183 | one inactive or BMC_SAFE row keeps the suite incomplete, whatever the exit status |

## Left out

- WatchEngine: takes a PID below 2^31, as every PID the kernel gives is; a larger one would be stored as a negative number and never signalled.
- ExtractionIsExact: macro-emitted harnesses and several items on one line are not printed; lines are taken as classified (attribute, module opening, function, skippable, other) with their brace counts, so the regular expressions and the stripping of strings and comments are not modelled.
- CfgMeaning: flags are free of delimiters and commas.
- AttributeJudged: the arguments of an attribute inside a `cfg_attr` hold balanced delimiters around every comma; a `cfg_attr()` without a condition, and a known path with something other than its own form after it, are not printed.
- WrittenIsRead: the grammar's reader does not decode escaped surrogate pairs, which the writer never produces.
- ParsedMeaning: the artifact's text is taken as already cut into entries with optional fields; how the fields are found in the text is not modelled, except for the string reader.
- ForwardedExactly: handlers interrupt the front door's one thread, a handler blocks its own signal, and every atomic access is one step; a second thread would break the frozen main thread this rests on.
- HeapIsIsolated: pointers to foreign memory and alignment of the returned address are not modelled; the library does not align either.
- GateMeaning: the attestations of commit, solver, driver and tree state are not modelled.
- ProvenRunMeaning: rows with a status the public run does not write, and the older proof-summary artifact, enter progress only as observations.
- ParseDriverResult: log markers are taken as already recognised; retry, demotion and counterexample fields are a set of marks, not their texts.
- CleanRunMeaning: `ctrex_breakdown` and `execution_breakdown` are not among the modelled summary fields, because no consumer modelled here reads them.
- DeriveRows: resolving paths is a parameter; dropping environment assignments from a command is not modelled.
- AcceptedProvesOwnExactly: a log is taken as its recognised lines in order; the patterns that find them in the text are not modelled.
- ChosenMeaning: the survey word is taken stripped and upper-cased, and the expectation filter as a set of outcomes.
- Disposition planning (`_plan_row`), which reads Cargo manifests and sources to decide which rows are active: I/O over regular expressions.
- Process launching, Git and TOML reading, downloads, symlinks, report writing: I/O.
- Help, topic and example text: user interface, but for the footer.
- The soundness duals and the solver's own verdicts: the encoder that decides them is not in the repository.
- The codegen stub tables and the pin and manifest auditors: chains of single look-ups and checks.
