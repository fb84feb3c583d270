# HorusRF: a verified model

HorusRF compiles small characterization scripts for RF devices and runs them. A script is analyzed into typed
trees over symbols, lowered to a dense IR in which every slot is defined by earlier slots, validated again, and
folded once per point of the Cartesian product of its sweeps while the devices are driven. A second consumer of
the IR normalizes expressions to texts, and decides by comparing texts whether two scripts mean the same and
whether a script meets a requirement. An authoring session lets a language model write scripts and sends faulty
ones back.

This project models that chain in Dafny, in the form the C++ source gives it, and proves what it is for:

- **Meaning is preserved.** Reading a script statement by statement, name by name, gives the same values as
  evaluating the analyzed trees (`meaning.dfy`), and those are what the fold of the lowered IR leaves in its slots
  (`lowering.dfy` to `lowered_programs.dfy`), at every operating point and for all readings (`pipeline.dfy`).
- **What is written is what is recorded.** A script is accepted exactly when its statements are in order and its
  expressions have types; the compiled program and the results hold what the statements declare: the grid is the
  lattice of their bounds, every field of a sample is what its name says, and the devices receive the calls the
  statements spell (`declarations.dfy`, `acceptance.dfy`, `compiled_declarations.dfy`, `recorded_results.dfy`,
  `driven_devices.dfy`).
- **The stages fit together.** Whatever the analyzer accepts is lowered, and accepted by every validation stage
  exactly when no sweep follows the calibration. A valid and ordered program never reads a missing slot, never
  trips a device guard, and runs through its whole grid (`analyzed_programs.dfy`, `soundness.dfy`,
  `execution.dfy`, `script_runs.dfy`).
- **Texts decide equality.** The printed normal form is injective, decides equality of delta expressions exactly,
  and denotes what evaluation stores. A match is answered exactly for programs that agree in the data compared,
  scripts that match have the same runs under conditions that can be checked beforehand, and a requirement is
  satisfied exactly when the program does what it asks (`normal_forms.dfy` to `matching.dfy`, `matched_data.dfy`,
  `expanded_forms.dfy` to `measured_runs.dfy`, `requirements.dfy`, `requirement_clauses.dfy`, `thresholds.dfy`).
- **Around the compiler:** the sweep lattice and grid, the exact counts of a qualification, the bounded repair
  session and when each of its failures occurs, the response parser as the exact decision of the JSON grammar with
  its round trip and UTF-8 guarantees, and the maximality of greedy retrieval.

The source's mutable objects are classes (`Analyzer`, `Lowerer`, `Validator`, `Normalizer`, `JsonParser`,
`AgentSession`, and a `Bench` of simulated devices), and its loops are loops. Each method is tied to a function of
its inputs and the old state, and the properties are lemmas about those functions. `dafny verify dfyconfig.toml`
checks everything.

## What turned out false

The code does not meet some properties one might expect of it. Each has a witness.

- `docs/dsl-evolution.md:303` says that the list of a calibration must name every active sweep. The analyzer
  compares it with the sweeps seen so far, so a later sweep slips through until the validator.
  `Pipeline.LateSweepIsRejectedLate` is a script that shows it; `Pipeline.PipelineCloses` proves that the
  validator accepts if and only if no sweep follows the calibration.
- The binding stage of the validator can fail without a report, and its caller takes no report for success.
  `ValidationGaps.SilentlyAcceptedThrows` is such a program; `Validator.Validator.Run` says that nothing is
  reported if and only if the program is valid or in exactly this case, and `Pipeline.PipelineCloses` that
  compiled programs never are.
- Validation does not require the reference to precede the first measurement.
  `ValidationGaps.ValidButNotRunnable` is a valid program that throws; `Execution.RunsExactly` proves that a valid
  program runs if and only if it is in that order, which all compiled programs are.
- Programs that match need not have the same corrections. Inside a difference a power with a delta applied is named
  by its slot alone: `Matching.MatchOverAppliedDeltaIsUnsound` is a family of matching programs whose corrections
  differ everywhere. `ExpandedForms.CorrectionsAgreeExactly` proves that, without absolute values, corrections of
  matching programs agree if and only if they have the same gain and offset once applied deltas are expanded;
  `Matching.MatchIsSound` proves that they agree where the texts of one program name no slot.
- All measurements of an operation have one text, so a program that measures an operation twice matches programs that
  use the other reading: `RepeatedMeasurements.MatchWithRepeatedMeasurementIsUnsound` compares the runs of two such
  programs on a drifting device. `MatchingRuns.SteadyRunsAgree` proves that the runs of matching scripts agree on
  devices that answer by their settings, and `MatchingRuns.OnceRunsAgree` that they agree on all devices if both
  scripts measure the same operations in the same order and none twice. `MeasuredRuns.RunsCorrectAlikeExactly` gives
  the exact condition for corrections without absolute values: the runs calibrate alike on all devices if and only if
  the corrections count every single reading equally often and have the same offset.

## Modelling decisions

- Quantities are exact reals in their canonical unit; counters, identifiers and linear coefficients are unbounded.
- One value type serves for the types of the trees and of the IR, whose conversion is the identity in the source.
- The readings taken at a point are listed in the order of the measurement calls. A device response is an
  arbitrary function of the operation and of all calls made before.
- Diagnostics are codes without wording, spans or display units. An exception that escapes is the outcome `None`
  or `Thrown`; a refused program is an outcome of its own.
- The rendering of numbers is an arbitrary function together with a finite set of numbers on which it is injective
  and free of structural characters, as 17 significant digits are on finite doubles. Theorems about texts ask that the
  numbers of the programs at hand lie in that set; `NormalForms.EveryFiniteSetIsWritable` shows that such a format
  exists for any programs.
- A device is steady when its answers depend on its current frequency, power and temperature settings only, as those
  of the simulated devices do (`src/device/simulated_rf_device.cpp:45-74`).
- Scripts are syntax trees that satisfy what the grammar guarantees (`Ast.Grammatical`): sweep dimensions are
  frequency or temperature, the short measurement form is the power measurement, a calibration has a name and
  lists at least one dimension.
- Library sorts are modelled as insertion sorts; they are only used on totally ordered texts and on ranks.
- Provider, cancellation, script validation and requirement verification are arbitrary functions for the
  authoring session; scores and the near-duplicate relation are arbitrary for retrieval.

## Model

| member | source | states |
|---|---|---|
| `ScriptRuns.ScriptRuns` | src/runtime/characterization.cpp:212-427 | A script the analyzer accepts, with no sweep after its calibration, compiles to a program that runs through its whole grid on capable devices whatever they answer; every sample records the answers to the measurement calls made at its point after the calls so far, and the correction, derived values and verdicts that reading the script there gives for those recorded readings |
| `Pipeline.PipelineCloses` | src/ir/lowering.cpp:51-214 | For every script the analyzer accepts lowering succeeds, and every validator stage accepts the result exactly when no sweep statement follows the calibration; the silent failure of the binding stage never occurs |
| `Pipeline.CompilationPreservesMeaning` | src/runtime/executor.cpp:450-629 | At every fitting point the fold of the IR leaves in the named slots exactly the values that reading the script statement by statement and name by name gives |
| `Pipeline.Compile` | src/runtime/executor.cpp:47-61 | Analysis, lowering and validation in sequence: a result exactly for accepted scripts, and no report exactly when the sweeps precede the calibration; then the program is valid and in sound order |
| `Pipeline.CheckScript` | src/ai/validation.cpp:79-100 | A script is refused exactly when at least one diagnostic is reported |
| `Pipeline.LateSweepIsRejectedLate` | src/semantic/analyzer.cpp:451-461 | A concrete script with a temperature sweep after the calibration: analysis and lowering succeed, the validator rejects |
| `RecordedResults.ResultsRecordStatements` | src/runtime/characterization.cpp:303-427 | From statements to results, for every script that runs: the grid consists of the points of the lattices whose start, end and step are those of the sweep statements, in lexicographic order; every sample records its frequency coordinate, the power of the reference statement, the reading of the first power measurement, error = measured - reference, corrected = measured + correction and residual = error + correction, each measurement statement with its name, operation and reading, the names of the derive statements and the numbered assertions; and the calibration lists every point with its correction |
| `RecordedResults.RefusalIsExact` | src/runtime/characterization.cpp:212-302 | A compiled script is refused if and only if a sweep follows its calibration or a device lacks what a measurement word or a temperature sweep calls for; otherwise it is characterized to the end |
| `DrivenDevices.ScriptDrivesDevices` | src/runtime/executor.cpp:602-629 | From statements to devices: a script that runs makes, for every point of its grid in order, exactly the calls its statements spell - the coordinates set in order, the output power set to the power of the reference statement, one measurement call per measurement statement - and each observation is the devices answer to its call after all the calls before |
| `CompiledDeclarations.CompilationDeclares` | src/ir/lowering.cpp:51-214 | The compiled program has the name, the sweeps with their converted bounds and counts, the measurements, the derived names, the reference and the calibration of the statements, in their order, and chooses the first power measurement |
| `Analysis.Analyzer.Run` | src/semantic/analyzer.cpp:171-188 | The pass over the statements computes the specified program, and produces one exactly when nothing is reported |
| `Analysis.Analyzer.AnalyzeExpression` | src/semantic/analyzer.cpp:479-663 | Typing one expression gives its elaborated tree and reports nothing, or gives none and reports |
| `Analysis.Analyzer.AnalyzeReference` | src/semantic/analyzer.cpp:231-243 | The whole state after a reference statement; a report exactly when it is repeated or not a power |
| `Analysis.Analyzer.AnalyzeSweep` | src/semantic/analyzer.cpp:245-320 | The whole state after a sweep statement; a report exactly when the dimension is repeated, a measurement came first, the bounds make no lattice or the grid grows beyond the limit |
| `Analysis.Analyzer.AddSweepPoints` | src/semantic/analyzer.cpp:322-331 | The total is multiplied by the axis count exactly when the product stays within the limit |
| `Analysis.Analyzer.AnalyzeMeasurement` | src/semantic/analyzer.cpp:333-366 | The whole state after a measurement statement, or a report |
| `Analysis.Analyzer.AnalyzeDerived` | src/semantic/analyzer.cpp:380-390 | The whole state after a derive statement, or a report |
| `Analysis.Analyzer.AnalyzeAssertion` | src/semantic/analyzer.cpp:392-404 | The whole state after an assertion, or a report when it is not a Boolean |
| `Text.DecimalDenotes` | src/semantic/analyzer.cpp:400-404 | The number in the identifier of an assertion is written as the decimal numeral that denotes it, without leading zeros |
| `Analysis.Analyzer.AnalyzeCalibration` | src/semantic/analyzer.cpp:406-477 | The whole state after a calibration, or a report |
| `Analysis.Analyzer.ResolveDimensions` | src/semantic/analyzer.cpp:427-449 | Succeeds exactly when the listed dimensions are distinct declared sweeps, and then yields their symbols and types in order |
| `Analysis.Analyzer.MatchSweeps` | src/semantic/analyzer.cpp:451-461 | Succeeds exactly when the symbols are those of the sweeps declared so far, in order |
| `AnalysisCorrectness.ElaborationIsTyped` | src/semantic/analyzer.cpp:479-663 | An elaborated tree is well typed over the symbols declared so far, and mentions no others |
| `AnalysisCorrectness.StepKeeps` | src/semantic/analyzer.cpp:231-477 | Every statement that reports nothing keeps the invariant: distinct symbols, typed scope and trees, counted lattice within the limit, distinct axes, names apart |
| `AnalyzedPrograms.InvariantHolds` | src/semantic/analyzer.cpp:171-188 | The invariant holds after every prefix of every statement list |
| `AnalyzedPrograms.AnalyzerIsSound` | src/semantic/analyzer.cpp:171-188 | Every accepted script yields a program with one reference, a frequency sweep, a power measurement and a calibration, pairwise distinct symbols, well-typed trees over earlier symbols only, and a total that is the product of the axis counts and at most 1,000,000; the calibration lists all sweeps exactly when none follows it |
| `Declarations.AnalyzerRecords` | src/semantic/analyzer.cpp:231-477 | After every prefix the analyzer has recorded what its statements declare: each sweep with the axis, the converted start, end and step and the size of their lattice, each measurement with the operation its word names, the derived names, the reference and the calibration |
| `Acceptance.TypesDecide` | src/semantic/analyzer.cpp:479-663 | An expression is accepted exactly when it has a type by typing rules over the names in scope, and then its tree has that type |
| `Acceptance.AcceptanceIsExact` | src/semantic/analyzer.cpp:171-477 | A script is accepted if and only if every statement is in order after those before it, and there are a reference, a frequency sweep, a power measurement and a calibration |
| `Units.ConversionIsExact` | src/domain/units.cpp:75-113 | A literal is converted exactly when its number was read, its unit is one of eleven, and it is no temperature below absolute zero |
| `Units.UnitLaws` | src/domain/units.cpp:43-113 | Every unit against the others: canonical units keep the number, each frequency unit is a thousand of the one before, 100 % is one, and 0 degC is 273.15 K |
| `Meanings.ElaborationPreservesMeaning` | src/semantic/analyzer.cpp:479-663 | The typed tree of an expression evaluates to what the expression denotes over names |
| `Meanings.AnalysisPreservesMeaning` | src/semantic/analyzer.cpp:171-663 | Reading the script in statement order agrees with the regrouped analyzed program on every derived value, assertion and the correction |
| `Semantic.EvaluationIsTyped` | include/horusrf/semantic/model.hpp:59-100 | A well-typed tree evaluates to a value of its type in every typed environment |
| `Lowering.LoweringAcceptsTyped` | src/ir/lowering.cpp:280-478 | Lowering an expression succeeds exactly on well-typed trees, keeps all slots valid and returns a slot of the type of the tree |
| `Lowering.LoweringPreservesMeaning` | src/ir/lowering.cpp:280-478 | At every point the fold fills the returned slot with the direct value of the tree, and does not change earlier slots |
| `LoweringPass.Lowerer.LowerExpression` | src/ir/lowering.cpp:280-478 | Appends exactly the slots of the specified lowering, or reports and gives none |
| `LoweringPass.Lowerer.ComparisonDefinition` | src/ir/lowering.cpp:267-278 | Follows aliases down to the comparison behind a slot |
| `LoweringPass.Lowerer.LowerDerived` | src/ir/lowering.cpp:111-133 | One derived quantity: the whole new state, with an alias slot for a leaf, or a report |
| `LoweringPass.Lowerer.LowerAssertion` | src/ir/lowering.cpp:135-152 | One assertion: the whole new state with the operands of the comparison behind it, or a report |
| `LoweringPass.Lowerer.CheckIndexes` | src/ir/lowering.cpp:183-210 | The calibration indexes are accepted exactly when they are the slots of the leading sweeps |
| `LoweringPass.Lowerer.Run` | src/ir/lowering.cpp:51-214 | The pass computes the specified program; a report is left exactly when there is none |
| `LoweringCorrectness.LoweringIsFaithful` | src/ir/lowering.cpp:51-214 | A well-formed program is lowered exactly when its calibration lists a sweep, and the result implements it list by list and slot by slot |
| `LoweredPrograms.LoweredProgramsValidate` | src/runtime/executor.cpp:47-61 | Every lowered program passes all stages but the calibration check, is in sound order, and passes that check exactly when the calibration lists every sweep |
| `LoweredPrograms.LoweringPreservesProgramMeaning` | src/ir/lowering.cpp:51-214 | At every fitting point, and only there, the slots named by the IR hold the direct values of all derived trees, assertions and the correction |
| `Validator.Validator.ValidateDefinition` | src/runtime/executor.cpp:92-244 | A definition is accepted exactly when its operands precede it with the types its operator needs |
| `Validator.Validator.ValidateSweeps` | src/runtime/executor.cpp:277-326 | All sweeps are checked, counted per axis and multiplied up, failing exactly on bad metadata or a product beyond the limit |
| `Validator.Validator.ValidateBaseBindings` | src/runtime/executor.cpp:260-359 | Returns whether the bindings are valid, and leaves a report for every failure but the silent one |
| `Validator.Validator.Run` | src/runtime/executor.cpp:47-61 | Reports nothing exactly when the program is valid or is silently accepted by the binding stage |
| `Soundness.TypeSoundness` | src/runtime/executor.cpp:445-582 | A valid program folds at every fitting point without reading an unfilled slot or a wrong variant, and slot i holds a value of type i |
| `ValidationGaps.ValidButNotRunnable` | src/runtime/executor.cpp:260-359 | A concrete program all stages accept whose reference follows its first measurement: evaluating it throws |
| `ValidationGaps.SilentlyAcceptedThrows` | src/runtime/executor.cpp:328-333 | A concrete program the binding stage rejects without a report: the run treats it as valid and throws |
| `Execution.EvaluateValidatedPoint` | src/runtime/executor.cpp:602-629 | Drives the devices through one point; the calls, readings and slots are those of the specified run, none where an exception escapes |
| `Execution.RunFolds` | src/runtime/executor.cpp:450-629 | What a run stores is the pure fold over the readings it took |
| `Execution.RunsExactly` | src/runtime/executor.cpp:617-629 | A valid program runs through at a fitting point on a fresh bench if and only if its reference precedes the first listed measurement and that one precedes all others |
| `Execution.DeviceProtocol` | src/runtime/executor.cpp:602-629 | Whatever was called before, one point sets the coordinates in declaration order, then the output power to the reference exactly once, then measures once per measurement in order; the readings are the answers to these calls, and no guard fires |
| `Devices.Bench.Measure` | src/device/simulated_rf_device.cpp:45-74 | A measurement fails exactly when frequency or output power was never set; otherwise it is answered, and logged, and the settings stay those the calls last made |
| `PointExecution.CheckCoordinates` | src/runtime/executor.cpp:669-701 | Accepts exactly the coordinates that fit the sweeps in order on devices that control temperature where needed |
| `PointExecution.ExecutePoint` | src/runtime/executor.cpp:644-711 | A point is declined without any device call exactly when the program, the devices or the coordinates are unfit; a valid ordered program is always evaluated, by the calls of the device protocol |
| `SweepLattice.LastIndex` | src/runtime/characterization.cpp:58-79 | Where the last index lies relative to the end and the tolerance, in both cases of the correction step |
| `SweepLattice.ValuesInRange` | src/runtime/characterization.cpp:95-99 | Every point lies between start and end |
| `SweepLattice.ValuesMonotone` | src/runtime/characterization.cpp:95-99 | Points never decrease |
| `SweepLattice.StrictnessExact` | src/runtime/characterization.cpp:95-99 | Points strictly increase if and only if the point before the last is farther from the end than the tolerance |
| `SweepLattice.StrictWhenStepExceedsTolerance` | src/runtime/characterization.cpp:53-57 | Points strictly increase when the step exceeds the tolerance |
| `SweepLattice.LastPointNearEnd` | src/runtime/characterization.cpp:58-99 | The last point is less than one step below the end |
| `SweepLattice.EndReached` | src/runtime/characterization.cpp:58-99 | The end is the last point if and only if some lattice value is within tolerance of it |
| `SweepLattice.CountExact` | src/runtime/characterization.cpp:53-79 | The count is exact: an index is below it if and only if its lattice value does not pass the end by more than the tolerance, and there is none exactly when the index at the safety limit is in the lattice |
| `SweepLattice.DisplacementBound` | src/runtime/characterization.cpp:53-99 | Every point lies within 2^-48 of the largest magnitude of its start plus a whole number of steps |
| `Grid.DecodeFlatIndex` | src/runtime/characterization.cpp:327-332 | The in-place decoding loop computes the mixed-radix digits of a flat index |
| `Grid.EnumeratesGrid` | src/runtime/characterization.cpp:325-337 | The decoding is a bijection from the flat indexes to the index tuples, in lexicographic order, the last declared sweep varying fastest |
| `Characterization.PlanProgram` | src/runtime/characterization.cpp:225-273 | Plans every axis, refusing exactly where the plans are specified to be missing |
| `Characterization.TakeSample` | src/runtime/characterization.cpp:338-417 | Reads one sample off the slots, adding its outcomes to the summaries; what its fields are is stated by RecordedResults.ResultsRecordStatements |
| `Characterization.FileSample` | src/runtime/characterization.cpp:384-417 | Counters, summaries, samples and calibration entries stay consistent with the sample list |
| `Characterization.SampleGrid` | src/runtime/characterization.cpp:325-426 | The loop over the flat indexes yields the samples of the specified grid run and the counts they determine |
| `Characterization.ExecuteCharacterization` | src/runtime/characterization.cpp:212-427 | The whole run computes its specification; a refused run calls no device, and a completed one leaves the calls of its points in the log |
| `Sampling.VerdictsHold` | src/runtime/characterization.cpp:384-402 | Every recorded operator and pair of operands reproduces the recorded verdict |
| `Sampling.CharacterizationSucceeds` | src/runtime/characterization.cpp:303-427 | A valid, ordered and plannable program is characterized to the end on capable devices whatever they answer: one sample for each index tuple in lexicographic order, each read off the fold of the program over the readings it records, which are the answers of the devices there |
| `QualificationCounts.QualificationConserves` | src/runtime/characterization.cpp:318-426 | The passed points are the samples that pass, and the passes of an assertion are the samples that pass it; passed + failed = total = number of samples; with assertions the points add up and the status is Pass exactly when every sample passes, exactly when no assertion has a failure |
| `Sampling.LoaderAcceptsRun` | src/studio/results_model.cpp:335-351 | The counts of every run satisfy the checks of the result viewer |
| `NormalForms.RenderIsInjective` | src/ai/requirement_verification.cpp:149-169 | Distinct normalized expressions never print the same text, for every number format that is injective and free of structural characters on the finitely many numbers they hold |
| `NormalForms.EveryFiniteSetIsWritable` | src/ai/requirement_verification.cpp:22-27 | Every finite set of numbers has such a format |
| `LinearForms.AddScaledIsCanonical` | src/ai/requirement_verification.cpp:175-180 | Adding combinations keeps the terms strictly ascending by text and without zero coefficients |
| `LinearForms.AddScaledAdds` | src/ai/requirement_verification.cpp:175-180 | Under every additive valuation the result is worth the target plus or minus the source |
| `LinearForms.CanonicalDecides` | src/ai/requirement_verification.cpp:171-180 | Two canonical combinations are the same if and only if they are equal for all values of their unknowns |
| `Normalizing.Normalizer.Normalize` | src/ai/requirement_verification.cpp:186-192 | Normalizing below an active path prints the specified normal form and restores the active set: the cycle guard never fires |
| `Normalizing.Normalizer.LinearTerms` | src/ai/requirement_verification.cpp:212-260 | The sorted term list of a slot is that of its linear form |
| `Normalizing.NormalizeExpression` | src/ai/requirement_verification.cpp:827-830 | The text of a slot, none exactly for a slot that does not exist |
| `NormalMeaning.LinearReads` | src/ai/requirement_verification.cpp:212-260 | Collecting terms keeps the value under every additive valuation, and yields a canonical combination |
| `NormalMeaning.NormalFormDecides` | src/ai/requirement_verification.cpp:212-273 | Two delta expressions, of one program or of two, have the same text if and only if they are equal for all values of their leaves and absolute values taken as unknowns |
| `NormalMeaning.NormalFormIsExact` | src/ai/requirement_verification.cpp:212-273 | Without absolute values: the same text if and only if equal under every valuation of the leaves |
| `NormalSemantics.NormDenotes` | src/ai/requirement_verification.cpp:275-300 | The normal form of every slot denotes what evaluation stores there |
| `NormalSemantics.SameTextSameValue` | src/ai/requirement_verification.cpp:186-300 | Slots of one program with the same text hold the same value at every point with one reading per operation |
| `NormalSemantics.SameTextAcrossPrograms` | src/ai/requirement_verification.cpp:186-300 | The same across programs when the text names no slot |
| `Sorting.SortDecides` | src/ai/semantic_comparison.cpp:150-176 | Two sorted lists are equal if and only if the lists hold the same texts equally often |
| `Comparing.ComparePrograms` | src/ai/semantic_comparison.cpp:195-269 | Match exactly when both programs are observable and all observations agree, not evaluated exactly when one is not; otherwise each part is named among the differences exactly when the programs differ in it |
| `MatchedData.MatchIsExact` | src/ai/semantic_comparison.cpp:195-269 | A match is answered if and only if everything that is compared is there and the programs agree in the normal forms of reference and correction, in their sweeps in order, in the multisets of measured operations, of typed normal forms of derived values and of normal forms of assertions, and in the axes and types of the calibration in order |
| `MatchedData.ObservationIsExact` | src/ai/semantic_comparison.cpp:198-251 | A program can be compared exactly when every slot that is read exists and every calibration index stands for a sweep and has its type |
| `MatchedData.DerivedValuesAgree` | src/ai/semantic_comparison.cpp:142-152 | On a match, at equal points with one reading per operation, the derived values whose normal forms name no slot hold the same multiset of values in both programs, and equally many are left |
| `Matching.MatchIsSound` | src/ai/semantic_comparison.cpp:195-269 | Two valid programs that match have the same grid, and at every point with one reading per operation the same reference, correction and pass or fail status, if the texts of the reference, the correction and the assertions of one of them name no slot |
| `Matching.PortableIsEnough` | src/ai/requirement_verification.cpp:284-288 | No such text names a slot in a program that takes no difference of powers over an applied delta |
| `MatchingRuns.SteadyRunsAgree` | src/ai/semantic_comparison.cpp:195-269 | Two scripts that compile, run and match, on devices that answer as a function of their current settings: their runs have the same coordinates, references, corrections and statuses at every index, and the same calibration |
| `MatchingRuns.OnceRunsAgree` | src/ai/semantic_comparison.cpp:195-269 | The same on arbitrary devices, if both scripts measure the same operations in the same order and none twice |
| `RepeatedMeasurements.MatchWithRepeatedMeasurementIsUnsound` | src/ai/requirement_verification.cpp:195-211 | Without that condition it fails: two programs that match and measure power twice, whose runs on a drifting device record different corrections |
| `MeasuredForms.FormsDecide` | src/runtime/executor.cpp:450-582 | The corrections of two programs with the same sweeps and as many measurements, without absolute values, agree at every point for all readings if and only if they count every single reading equally often and have the same offset |
| `MeasuredRuns.RunsCorrectAlikeExactly` | src/ai/semantic_comparison.cpp:195-269 | Two scripts that compile, run, match and measure the same operations in the same order, with corrections without absolute values, record the same corrections on all devices if and only if their corrections count every single reading equally often and have the same offset |
| `ExpandedForms.CorrectionsAgreeExactly` | src/ai/requirement_verification.cpp:284-288 | The corrections of two matching programs without absolute values agree at every point with one reading per operation if and only if they have the same gain and the same offset once applied deltas are expanded into their operands |
| `ExpandedForms.PortableExpandAlike` | src/ai/requirement_verification.cpp:212-288 | They do where the texts of one program name no slot |
| `Matching.MatchingScriptsAgree` | src/ai/semantic_comparison.cpp:195-269 | For two matching scripts, the samples taken at any two points with the same coordinates and the same reading per operation have the same reference, correction and status |
| `Matching.MatchOverAppliedDeltaIsUnsound` | src/ai/requirement_verification.cpp:257-259 | Without that hypothesis it fails: the corrections (power + c) - reference and (power + d) - reference match and differ by d - c at every point |
| `Requirements.ProjectProgramFacts` | src/ai/requirement_verification.cpp:832-871 | The loops compute the specified facts, none exactly where a projection fails |
| `Requirements.LoweredFactsExist` | src/ai/requirement_verification.cpp:832-871 | The facts of every lowered program are projected, even of one the validator rejects |
| `Requirements.VerifyRequirements` | src/ai/requirement_verification.cpp:881-992 | Every outcome is that of its requirement, and the overall status ranks them: violated over unknown over satisfied, and satisfied only on a nonempty list |
| `RequirementClauses.ClausesAreExact` | src/ai/requirement_verification.cpp:885-977 | Every clause against the program itself: unknown exactly when it lacks the typed field of its kind; otherwise satisfied if and only if the reference slot holds the power, the first sweep of the axis has the bounds, step and position, the first measurement of the operation has the name, some assertion makes the comparison, or the correction is the relation and the calibration lists the axes in order; violated if not |
| `RequirementClauses.FactsDescribeProgram` | src/ai/requirement_verification.cpp:832-871 | Facts are projected exactly when everything they read is there, and describe the sweeps, measurements, derived values, assertions and the calibration item by item |
| `Requirements.RelationIsExact` | src/ai/requirement_verification.cpp:317-330 | A correction has the text of a calibration relation if and only if it is that difference of reference and measured power for all values of its leaves, however it is written |
| `NormalMeaning.DeltaTextIsExact` | src/ai/requirement_verification.cpp:212-273 | A delta expression has the text of a canonical combination if and only if it equals that combination for all values of its unknowns |
| `Thresholds.ThresholdIsExact` | src/ai/requirement_verification.cpp:109-123 | A slot has the text of a threshold if and only if it is that constant, however it is written |
| `Thresholds.ThresholdClauseIsExact` | src/ai/requirement_verification.cpp:926-943 | A threshold clause is satisfied when some assertion makes that comparison with that constant and its left side fits, and violated when none does |
| `Thresholds.SatisfiedThresholdIsJudged` | src/ai/requirement_verification.cpp:926-943 | A satisfied threshold clause can be relied on: one assertion of the program passes, at every point with one reading per operation, exactly when its left value stands in the required relation to the threshold |
| `Agent.NoViolations` | src/ai/agent.cpp:42-54 | The violation set is empty if and only if no outcome is a violation of high confidence |
| `Agent.AgentSession.Ask` | src/ai/agent.cpp:203-268 | One provider call: a candidate exactly for a proposal with text that no poll interrupts, cancelled exactly when a poll answers true or the provider was cancelled, and a provider failure otherwise |
| `Agent.AgentSession.Decide` | src/ai/agent.cpp:286-357 | A candidate ends the run in a conclusion, or the next request sends it back, was never sent before, makes progress and is accepted by its prompt builder |
| `Agent.AgentSession.Run` | src/ai/agent.cpp:184-359 | Against any provider the loop makes at most one call more than the repair limit and ends in the state that goes with its result. Cancelled exactly when a poll answered true, which is then the last, or the last reply was cancelled; a provider failure exactly when the last reply was unusable; a validation failure exactly when the compiler could not judge the last candidate. A success compiles with no violation of high confidence; candidates sent back are pairwise distinct; of the candidates that end the run, exactly those sent back before, or failing with the same diagnostics or violations as the one sent back last, are reported as no progress |
| `Agent.AgentSession.QuietRunDecides` | src/ai/agent.cpp:184-359 | A run that nobody cancels, with a provider that always proposes a script and a compiler that always judges it, makes a call and succeeds, makes no progress, or reaches the limit |
| `Progress.FailingAlikeIsExact` | src/ai/agent.cpp:26-60 | The texts compared for progress are equal exactly when the diagnostics, or the violations of high confidence, are the same with their repetitions |
| `Agent.AgentSession.Author` | src/ai/agent.cpp:122-182 | Blank text is invalid without a poll; then a true poll cancels, an unsupported request is refused without a call, and every other request ends as its run does |
| `Utf8.CheckUtf8` | src/ai/retrieval.cpp:207-230 | The byte loop decides the specified check |
| `Utf8.ValidUtf8IsExact` | src/ai/retrieval.cpp:207-230 | The check accepts exactly the concatenations of encodings of scalar values, as section 3 of RFC 3629 defines them |
| `Json.JsonString` | src/ai/prompt.cpp:30-53 | The writer emits the specified escapes between quotes |
| `Json.JsonParser.ParseUnicodeEscape` | src/ai/proposal_response.cpp:91-147 | Reads an escape or a surrogate pair to the code point it stands for, failing exactly on lone surrogates and bad digits |
| `Json.JsonParser.ParseStringBody` | src/ai/proposal_response.cpp:105-147 | The piece-by-piece loop computes the decoded string and where it ends |
| `Json.JsonParser.ParseNumber` | src/ai/proposal_response.cpp:156-184 | The cursor procedure ends a number where its specification does, or fails |
| `JsonNumbers.NumbersAreGrammatical` | src/ai/proposal_response.cpp:156-184 | A number is read from p to q if and only if the bytes between split into an optional minus, an integer, and an optional fraction and exponent, as section 6 of RFC 8259 defines them, and what follows continues none of them |
| `JsonNumbers.NumberTexts` | src/ai/proposal_response.cpp:27-34 | A whole text is read as a number if and only if it is a number of that grammar between blanks |
| `Json.JsonParser.ParseArray` | src/ai/proposal_response.cpp:186-199 | Reads an array to its items, or fails |
| `Json.JsonParser.ParseObject` | src/ai/proposal_response.cpp:201-223 | Reads an object to its members, refusing repeated keys |
| `Json.JsonParser.ParseDocument` | src/ai/proposal_response.cpp:27-34 | Reads exactly one value and the space around it |
| `Proposals.ParseProposalResponse` | src/ai/proposal_response.cpp:233-274 | A payload exactly for an object of the four members of the right kinds, an error otherwise |
| `Proposals.JsonStringRoundTrip` | src/ai/prompt.cpp:30-53 | Parsing the written form of any byte string returns it |
| `Proposals.ProposalRoundTrip` | src/ai/prompt.cpp:55-59 | Parsing a written proposal returns exactly its script, its explanation and its warnings in order, whatever bytes they hold |
| `JsonEscapes.EscapesAreExact` | src/ai/proposal_response.cpp:91-128 | A Unicode escape decodes to the encoding of a scalar value exactly when its digits, in either case, denote that value, or its surrogate pair above U+FFFF |
| `JsonGrammar.ParserIsExact` | src/ai/proposal_response.cpp:27-223 | The parser decides the grammar of RFC 8259: a text is parsed to a value if and only if the grammar makes it that value between blanks, with every key of an object given once |
| `ProposalGrammar.ProposalIsExact` | src/ai/proposal_response.cpp:233-274 | A response is a proposal with that script, explanation and warnings if and only if the grammar makes it the object of those four members; malformed exactly when it is no value |
| `JsonUtf8.EscapesAreScalars` | src/ai/proposal_response.cpp:73-147 | Every escape stands for the UTF-8 encoding of a scalar value |
| `JsonUtf8.DecodingPreservesUtf8` | src/ai/proposal_response.cpp:105-147 | When the bytes of a string are valid UTF-8, so is the decoded text |
| `JsonUtf8.ProposalIsValid` | src/ai/proposal_response.cpp:233-274 | Script, explanation and warnings parsed from a valid UTF-8 response are valid UTF-8 |
| `Retrieval.RankIsOrdered` | src/ai/retrieval.cpp:992-1002 | The ranking lists every example once, by descending score and manifest order |
| `Retrieval.Retrieve` | src/ai/retrieval.cpp:970-1048 | The loop computes the greedy selection over the ranking, with the suppressed and the rejected examples, and each diagnostic is given exactly in its case |
| `Retrieval.GreedyIsMaximal` | src/ai/retrieval.cpp:1013-1047 | At most top_k members in rank order within the budget and without near-duplicates; no example is in two of the lists; a suppressed one duplicates a chosen one and a rejected one does not fit the budget left at the end; when fewer than top_k were chosen, exactly the candidates of positive score are listed |
| `Retrieval.PromptFitsBudget` | src/ai/retrieval.cpp:669-676 | The requests and programs selected fit the budget in bytes, or in tokens of four bytes, and no rejected example would have fitted beside them, up to three bytes of rounding for each selected one |
## Left out

- Matching.MatchIsSound: is proved in one direction, for programs one of which has texts that name no slot, and with one reading per operation at a point, because the normal form names a power of an applied delta by its slot inside a difference, and all readings of an operation by one leaf. For corrections without absolute values `ExpandedForms.CorrectionsAgreeExactly` and `MeasuredRuns.RunsCorrectAlikeExactly` give the exact conditions; for the pass or fail status and under absolute values there is only this one.
- Sampling.LoaderAcceptsRun: states the viewer's checks of counts and shapes, not its reading of JSON.
- Requirements.VerifyRequirements: models the clause checks and the overall status, not the wording of outcomes.
- Retrieval.Retrieve: models the selected, suppressed and rejected examples, not the list of ranked candidates, rationales and byte totals.
- The lexer, the parser and the builder of the syntax tree: their guarantees are assumed as `Ast.Grammatical`.
- Rounding, overflow, NaN and infinity of floating-point numbers, with the checks for non-finite values, and overflow of 32-bit coefficients.
- The text of numbers, diagnostics, prompts, summaries and reports; source spans and display units.
- RMS metrics and the formulas of the simulated devices.
- Recognition of requirements, unsupported operations and retrieval queries in text by regular expressions: their results are inputs.
- Similarity scores and program shapes in retrieval, corpus loading, digests and leakage reports.
- Transport to language models, threads, clocks, files, command-line tools and the graphical studio.
