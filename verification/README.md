# Verified models of the audio-to-MIDI plug-in and its test tools

The repository turns guitar audio into MIDI and carries a large set of tools that generate, render,
run and score test material. This project models the parts of it that carry combinatorics, protocols
or in-place updates, and proves what those parts promise, for all inputs and all runs.

- **Mask classifier** (`Vectors`, `GaussJordan`, `LeastSquares`, `LaneMasks`, `MaskClassifier`): in-place
  elimination of the normal equations over exact reals, and the exhaustive search over string masks.
  Whatever elimination returns is the one solution, so every accepted mask has its least-squares fit,
  and the winner is the least (residual, mask) of all accepted masks.
- **Combination planners** (`Sets`, `PairwisePlan`, `UnisonPlan`): the pairwise covering array for any number of
  columns and states, whose vertical growth appends the least number of rows that can cover what is
  missing; and the greedy selection with its approximation ratio.
- **Probe matrix** (`ProbeMatrix`): the directories, markers and lock of the probe runner as effects with a
  crash possible after each one. No row is launched twice in any campaign of `run_matrix`, and from a clear disk it commits every row.
- **Session** (`SessionData`, `SessionBudgets`, `CanonicalJson`, `Frames`, `FixtureHarness`, `ChildRunner`, `SessionOwner`,
  `SessionProtocol`): budgeted freezing of session data, the frame codec with a printer and parser of
  canonical JSON (RFC 8259), the parent over a growing buffer, the bounded child runner, the linear
  ownership of evidence descriptors, and both processes over byte pipes in every interleaving.
- **Note events** (`NoteMatching`, `NoteReach`, `NoteScoring`, `Polyphony`, `StringOverlaps`, `GuitarsetSummary`): the
  greedy matcher and its campaign totals, the endpoint sweep, and the two-cursor overlap count.
- **Plug-in MIDI** (`MidiMerge`, `MidiPanic`, `MidiPipeline`, `NoteLedger`, `PluginMidi`): the merge of host input with
  generated notes, the channel panic mask, the ledger of generated notes, and both together.
- **Plug-in audio** (`DryPath`): the dry path over input and output buffers that may be shared.
- **Corpus and closure** (`StringCorpus`, `RenderSilence`, `SourceClosure`): the layout of the string
  corpus, the in-place silencing of rendered waves, and the import closure of a session script.

Where the code does not keep a promise on all inputs, the model keeps the code and the project proves
exactly when the promise holds:

- the earliest-free matcher is a maximum matching for every observation if and only if no later
  expected note of the same key starts earlier with an overlapping window;
- the two-cursor count agrees with the all-pairs definition for every right string whose notes do not
  overlap each other by more than 0.020 s if and only if the left string has the same property, and the
  same with the two strings exchanged;
- the pipeline's stream is in time order for every ordered delivery if and only if nothing that passes
  (before the last frame) follows an input event beyond the block;
- a frame reads back if and only if no string or key of its payload holds a high surrogate directly
  followed by a low one as two separate characters: the parser joins them;
- `run_row` called on its own asks neither for pending nor for invalid directories: it can launch a row again,
  any number of times, if and only if there is no lock, no batch of the row and no mark of an unconfirmed exit;
- stray bytes after the second frame are refused or overlooked depending on how the reads were cut;
- `summarize` can raise if and only if some case has several distinct notes, lists at least as many events of
  its own, and lists another number in all; its misses can be negative if and only if a case lists more events
  of its own than it has distinct notes.

## Model

| member | source | states |
|---|---|---|
| GaussJordan.SolveIsUnique | tools/audit_unison_spectral_shadow.py:193-213 | whenever elimination returns a vector, a vector solves the remaining system exactly if it is that vector |
| GaussJordan.ClearKeepsSolutions | tools/audit_unison_spectral_shadow.py:201-212 | scaling the pivot row and clearing its column neither adds nor loses a solution |
| GaussJordan.ChoosePivot | tools/audit_unison_spectral_shadow.py:196-196 | the pivot is the first row at or below the column with the entry of largest magnitude |
| GaussJordan.EliminateColumn | tools/audit_unison_spectral_shadow.py:195-212 | one column in place: refused exactly when the pivot is at the floor, else the system of the next column |
| GaussJordan.Solve | tools/audit_unison_spectral_shadow.py:193-213 | the rewritten right-hand side is the unique solution of the original system |
| GaussJordan.RefusalHasAReason | tools/audit_unison_spectral_shadow.py:195-198 | a refusal shows an equivalent system that is reduced up to some column and whose remaining entries of that column are all at most 1/10^12 |
| LeastSquares.ResidueIsOrthogonal | tools/audit_unison_spectral_shadow.py:257-276 | what a solution of the normal equations leaves over is orthogonal to every member column |
| LeastSquares.ErrorSplits | tools/audit_unison_spectral_shadow.py:257-276 | the squared error of any other weights is that of the fit plus the squared length of the change |
| LeastSquares.WeightsAreBest | tools/audit_unison_spectral_shadow.py:257-276 | the accepted weights have a strictly smaller squared error than any other real weights |
| LeastSquares.DependentColumnsAreRefused | tools/audit_unison_spectral_shadow.py:197-198 | member columns with a vanishing non-trivial mix are never given weights |
| LaneMasks.PopCountCountsLanes | tools/audit_unison_spectral_shadow.py:216-217 | the population count of a mask is the number of its lanes |
| MaskClassifier.DispositionNamesTheRelation | tools/audit_unison_spectral_shadow.py:220-230 | the disposition names the relation of the observed to the expected set of lanes, in both directions |
| MaskClassifier.SolveNormalEquations | tools/audit_unison_spectral_shadow.py:256-266 | the Gram matrix and right side built for a mask give exactly the fitted weights, or none |
| MaskClassifier.FitMask | tools/audit_unison_spectral_shadow.py:252-281 | a mask is fitted exactly if it is playable, within the size bounds and above the weight floor |
| MaskClassifier.Search | tools/audit_unison_spectral_shadow.py:251-296 | the least (residual, mask) of all accepted masks, with the runner-up's margin, which is never negative |
| MaskClassifier.PoseTemplate | tools/audit_unison_spectral_shadow.py:243-249 | a template joins the bank exactly if its lane is real and its fingerprint usable where the note plays |
| MaskClassifier.Classify | tools/audit_unison_spectral_shadow.py:233-296 | accepted exactly on admissible arguments; Invalid exactly when no ascending lanes within the size bounds have templates that play the note and a fit with all weights above 1/10^9; else the mask holds the lanes of one such fit, with its weights, and no such fit has a smaller error |
| MaskClassifier.FitOfMaskFits | tools/audit_unison_spectral_shadow.py:251-281 | the fit of a mask is a fit of its lanes, within the bounds and the frets, with its squared error and one weight per lane |
| MaskClassifier.FitsIsFitOfMask | tools/audit_unison_spectral_shadow.py:251-281 | every such fit of lanes is the fit of their mask, which is therefore looked at |
| MaskClassifier.WinnerFitsBest | tools/audit_unison_spectral_shadow.py:233-296 | no real weights on any accepted mask fit the fingerprint better than the winner does |
| PairwisePlan.FewerRowsCannotCover | tools/generate_note_combination_corpus.py:124-143 | every set of rows that covers the missing pairs has at least the sum of largest counts over the new values |
| PairwisePlan.NeedAtMost | tools/generate_note_combination_corpus.py:124-143 | that sum is at most states squared |
| PairwisePlan.NeedAfterRow | tools/generate_note_combination_corpus.py:127-143 | a vertical row lowers that sum by exactly one |
| PairwisePlan.GrowRows | tools/generate_note_combination_corpus.py:102-123 | every row gets the state that shows the most pairs not shown by the rows before it, the smallest among equals; what is left as missing is exactly what no row shows |
| PairwisePlan.ScoreCounts | tools/generate_note_combination_corpus.py:104-121 | the score of a state is the number of missing pairs that the row shows with it |
| PairwisePlan.FewerRowsCannotComplete | tools/generate_note_combination_corpus.py:124-143 | rows that together with the grown ones show every pair number at least that sum |
| PairwisePlan.AppendRows | tools/generate_note_combination_corpus.py:126-143 | vertical growth appends exactly that sum of rows, nothing stays missing, and no fewer additional rows could do it |
| PairwisePlan.BuildPlan | tools/generate_note_combination_corpus.py:97-144 | it starts with all pairs of two columns; every further column is grown row by row with the best state and completed by the fewest possible rows; any two columns show all pairs of states, in at most (columns - 1) * states^2 rows |
| UnisonPlan.GreedyGap | tools/generate_note_combination_corpus.py:183-216 | each greedy choice closes at least a k-th of the gap to any k rivals |
| UnisonPlan.GreedyRatio | tools/generate_note_combination_corpus.py:183-216 | k greedy choices cover at least (1 - (1 - 1/k)^k) of what any k sets cover |
| UnisonPlan.Choose | tools/generate_note_combination_corpus.py:195-214 | the loop picks distinct rows, each gaining the most new features of all rows still there, the longest of those that gain as much, the first of those as long |
| UnisonPlan.FeaturesAre | tools/generate_note_combination_corpus.py:190-199 | a feature of a row is its size, its first pitch, the string and fret of a member, or the strings of two members in order |
| UnisonPlan.SelectBalanced | tools/generate_note_combination_corpus.py:183-216 | exactly k distinct rows in their original order, the greedy choices with their ties broken by length and then index; all rows when k is out of range |
| UnisonPlan.PlanRatio | tools/generate_note_combination_corpus.py:183-216 | the kept plan covers that share of what any plan of at most k rows covers |
| ProbeMatrix.AllowedIsSafe | tools/run_native_vst3_probe.py:924-1166 | every effect that the protocol may take keeps the invariant that a launched row ran once and left evidence |
| ProbeMatrix.Probe.RecoverPending | tools/run_native_vst3_probe.py:793-809 | every pending directory becomes an invalid one, across crashes, without losing evidence |
| ProbeMatrix.Probe.RecoverStaging | tools/run_native_vst3_probe.py:762-790 | only a marked staging that is not yet committed and finished is preserved; it blocks exactly when its marker is unreadable or of the current namespace, and without one nothing blocks |
| ProbeMatrix.Probe.HasPriorInvalid | tools/run_native_vst3_probe.py:655-678 | refuses exactly the rows with an invalid directory that blocks the current namespace |
| ProbeMatrix.AttemptIsAllowed | tools/run_native_vst3_probe.py:999-1166 | a row that was never launched may be marked, launched and settled; a clean end commits exactly it, any other is sealed as invalid |
| ProbeMatrix.RowIsAllowed | tools/run_native_vst3_probe.py:924-1166 | after recovery the course of a row keeps the invariant at every effect; finished means committed and nothing preserved |
| ProbeMatrix.RowLaunchesOnce | tools/run_native_vst3_probe.py:924-1166 | wherever a run of a row is killed it has launched at most this row, once |
| ProbeMatrix.RowReturnsExactly | tools/run_native_vst3_probe.py:924-1166 | a row returns exactly when its batch is valid, or it has none, no exit is unconfirmed, every step succeeds and the guarded command ends cleanly |
| ProbeMatrix.RefusedRowIsSealed | tools/run_native_vst3_probe.py:930-1000 | a batch that is no longer valid, or a run refused for its exit marker, launches nothing and leaves one more invalid directory |
| ProbeMatrix.Probe.RunRowLocked | tools/run_native_vst3_probe.py:924-1166 | whatever the disk, the steps are the course of the row, cut where the process is killed |
| ProbeMatrix.Probe.RunMatrixLocked | tools/run_native_vst3_probe.py:1175-1202 | blocked rows stay unlaunched, and a clean end means every row was launched once and committed; with good fates and nothing in the way it does end clean |
| ProbeMatrix.Probe.RunMatrix | tools/run_native_vst3_probe.py:1169-1202 | an existing lock is refused untouched; every exit but a clean one leaves the lock, unless killed before anything happened; from a clear disk, with good fates and enough effects left, it finishes with every row committed |
| ProbeMatrix.Probe.Campaign | tools/run_native_vst3_probe.py:924-1202 | any number of invocations killed before any effect, the operator free to delete lock and exit marker: no row launched twice |
| ProbeMatrix.StagingIsSafeExactlyWithOtherEvidence | tools/stage_reaper_test_env.py:89-100 | deleting staged results keeps the invariant exactly when launched staged rows left other evidence |
| ProbeMatrix.RunRowLaunchesExactly | tools/run_native_vst3_probe.py:912-1060 | some run of `run_row` launches the row once more, however often it was launched before, exactly when lock, batch and exit marker let it through |
| ProbeMatrix.FailedRunCanBeRepeated | tools/run_native_vst3_probe.py:912-1166 | a run whose guarded command fails leaves a disk on which the matrix refuses the row and `run_row` does not |
| ProbeMatrix.Probe.RunRow | tools/run_native_vst3_probe.py:912-921 | the steps are the lock, the course of the row and the release, on any disk |
| ProbeMatrix.Probe.RunRowRepeatedly | tools/run_native_vst3_probe.py:912-921 | from any such disk on, n runs with the lock deleted in between launch the row n times, though the matrix refuses it after the first |
| SessionData.Charge | tools/reaper_v4_session.py:97-199 | a node is charged exactly its load, or the whole tree breaks a budget |
| SessionData.Scan | tools/reaper_v4_session.py:92-199 | the stack scan accepts exactly the trees whose nodes, bytes, depth and identities fit the budgets |
| SessionBudgets.FitsMeans | tools/reaper_v4_session.py:92-199 | accepted are exactly the values with at most 256 parts, at most 8192 bytes, every part good on its own and at most 16 deep, and no container twice |
| SessionData.BytesAreText | tools/reaper_v4_session.py:107-198 | a scalar is charged the length of its printed text, a container two, one per child and the letters of its keys |
| SessionData.ChildFits | tools/reaper_v4_session.py:200-208 | a child of a tree that fits is accepted when it is scanned again on its own |
| SessionData.Convert | tools/reaper_v4_session.py:92-208 | freezing or materializing succeeds exactly when the first scan accepts; no recursive call refuses |
| SessionBudgets.ConversionMeans | tools/reaper_v4_session.py:200-208 | freezing turns lists into tuples and objects into proxies with the same keys, materializing turns them into lists and dicts; scalars stay |
| SessionData.RebuiltFits | tools/reaper_v4_session.py:267-351 | what one scan accepts the opposite scan accepts in rebuilt form, with the same data |
| SessionData.FreezeMaterializeRoundTrip | tools/reaper_v4_session.py:92-351 | freezing and materializing what the scan accepts succeeds and gives the tree back |
| SessionData.Admit | tools/reaper_v4_session.py:901-917 | admission succeeds exactly on admissible configurations and returns the rebuilt one |
| SessionData.AdmissionIsOneScan | tools/reaper_v4_session.py:901-917 | only type, budgets and relations decide; the middle conversion cannot refuse |
| SessionBudgets.AdmissionMeans | tools/reaper_v4_session.py:901-917 | admitted is exactly a proxy within the budgets that has the relations, and what comes back is the frozen form of its thawed form |
| SessionData.AdmissionIsIdempotent | tools/reaper_v4_session.py:901-917 | admitting an admitted configuration succeeds with equal data |
| CanonicalJson.MergeSplit | tools/reaper_v4_protocol.py:25-25 | escaping to 16-bit units and joining surrogates gives a text back when it holds no split pair |
| CanonicalJson.ParsePrinted | tools/reaper_v4_protocol.py:23-28 | a printed canonical value followed by anything but a digit reads back and leaves what follows |
| CanonicalJson.TextOfValue | tools/reaper_v4_protocol.py:25-25 | the text of a value: the names, and brackets, braces, commas and colons without white space |
| CanonicalJson.TextOfUnit | tools/reaper_v4_protocol.py:25-25 | a character stands for itself, as a short escape, or as backslash, u and four lower-case hexadecimal digits |
| CanonicalJson.TextOfText | tools/reaper_v4_protocol.py:25-25 | a text stands in quotes, and code points from 0x10000 on are written as two surrogates |
| Frames.DecodeEncode | tools/reaper_v4_protocol.py:33-44 | an encoded frame with anything behind it decodes to that frame and its length exactly when the payload has no split surrogate pair |
| Frames.EncodedBytes | tools/reaper_v4_protocol.py:33-35 | refused exactly for a sequence beyond 16 bits, no object or too long a text; otherwise the magic, the schema, the kind, both big-endian numbers and the text, byte by byte |
| Frames.EncodeDecode | tools/reaper_v4_protocol.py:33-44 | every accepted prefix is the encoding of what it decodes to |
| Frames.DecodeIgnoresRest | tools/reaper_v4_protocol.py:36-44 | what follows an accepted frame never matters |
| Frames.SplitPairBreaksRoundTrip | tools/reaper_v4_protocol.py:33-44 | the smallest payload that does not read back |
| FixtureHarness.NextFrameIsEncoding | tools/reaper_v4_fixture_harness.py:36-51 | a frame cut from the buffer is the encoding at its front |
| FixtureHarness.EncodingIsNextFrame | tools/reaper_v4_fixture_harness.py:36-51 | an encoded frame at the front of a buffer is cut out, whatever follows |
| FixtureHarness.TurnConsumes | tools/reaper_v4_fixture_harness.py:119-166 | a turn of the parent leaves no whole frame behind and keeps the account of what was read; it passes PRE only with the ACK written |
| FixtureHarness.RunFixture | tools/reaper_v4_fixture_harness.py:75-217 | accepts exactly when the ACK is written, the child ends cleanly and, without a fault or too much diagnostic, some read ends with PRE, a later one with POST of a valid exchange and no third frame follows; the payloads are those of the stream |
| FixtureHarness.FailureIsFinal | tools/reaper_v4_fixture_harness.py:117-168 | a turn refuses only what no continuation of the reads could make acceptable |
| FixtureHarness.NextReadIsFit | tools/reaper_v4_fixture_harness.py:169-203 | the bounds, the early end of the stream and the diagnostic limit never refuse a child that plays along |
| FixtureHarness.PrefixWaits | tools/reaper_v4_fixture_harness.py:36-51 | the first part of an encoding is neither a frame nor a broken one |
| FixtureHarness.AcceptedPayloadsAreUnique | tools/reaper_v4_fixture_harness.py:117-203 | two acceptances of one stream give the same payloads |
| FixtureHarness.TrailingBytesDependOnChunking | tools/reaper_v4_fixture_harness.py:146-168 | stray bytes are refused with the chunk that ends POST and overlooked one read later |
| ChildRunner.StopAndReap | tools/reaper_v4_child_runner.py:102-131 | at most two attempts over both calls; giving up unreaped means both were spent; reaped exactly if one of the waits saw the exit, and a code is the one that wait saw |
| ChildRunner.RunChild | tools/reaper_v4_child_runner.py:41-187 | an outcome exactly when the arguments are valid and the child was launched with a proper number and reaped with a code in range and no interruption; it holds that number, the code that the last wait saw, and a time-out exactly if the first wait expired |
| SessionOwner.Process.OpenEvidence | tools/reaper_v4_session.py:1802-1870 | on failure every descriptor opened so far got one close attempt |
| SessionOwner.Process.CaptureBaseline | tools/reaper_v4_session.py:1308-1380 | a failure closes all descriptors exactly when re-admission succeeds; otherwise it would close none |
| SessionOwner.Process.CaptureEvidence | tools/reaper_v4_session.py:2036-2073 | with idempotent admission every failure closes each opened descriptor once, and success registers the owner |
| SessionOwner.Process.Release | tools/reaper_v4_session.py:1415-1432 | only the registered owner closes, once; anyone else changes nothing |
| SessionOwner.Process.Exchange | tools/reaper_v4_session.py:2235-2260 | effects happen in one order and none is repeated; the child starts only behind the ACK; it succeeds exactly if no step fails and the child exits in time and by itself; a failure without a failed step is the child's |
| SessionOwner.Process.RunSession | tools/reaper_v4_session.py:2227-2296 | on every exit each opened evidence descriptor got exactly one close attempt; at most one launch; it succeeds exactly if the configuration is admitted, no step fails and the child ended by itself with a code of 0 to 255 |
| SessionOwner.SessionAdmissionIsIdempotent | tools/reaper_v4_session.py:901-917 | the admission of session data has the property the hand-off rests on |
| SessionProtocol.RunKeepsInvariant | tools/reaper_v4_session.py:1577-1613 | what both processes wrote, read and did stays consistent in every run and interleaving |
| SessionProtocol.ChildNeedsAck | tools/reaper_v4_session.py:2227-2271 | in every interleaving at most one launch, and only after the parent validated the session's PRE and wrote ACK |
| SessionProtocol.ResultMeansOneCleanRun | tools/reaper_v4_fixture_harness.py:117-205 | a result means one launch, reaped without timeout or signal, both frames the session's own, POST agreeing with PRE |
| SessionProtocol.GoodExchangeHasARun | tools/reaper_v4_session.py:2227-2296 | for every valid exchange that survives the wire, and every clean outcome that it reports, some interleaving ends with this result |
| SessionProtocol.FrontEncodingsAgree | tools/reaper_v4_protocol.py:33-35 | two encodings at one front are the same bytes |
| NoteMatching.InTimeIsStable | tools/summarize_results.py:99-105 | sorting by case and sample keeps the order of events at one instant |
| NoteMatching.Exchange | tools/summarize_results.py:114-142 | any matching can take the greedy choice of a note without getting smaller |
| NoteMatching.GreedyIsMaximum | tools/summarize_results.py:114-142 | without an overlapping inversion no matching of notes to note-ons in their windows is larger than the greedy one |
| NoteMatching.InversionDoesHarm | tools/summarize_results.py:114-142 | with one there are observations on which a larger matching exists |
| NoteMatching.GreedyIsMaximumExactlyWithoutInversion | tools/summarize_results.py:94-183 | the greedy choice is maximum for every observation exactly without an overlapping inversion |
| NoteMatching.ReportOf | tools/summarize_results.py:94-183 | matched and false triggers add up to the note-ons, and every match has one onset latency |
| NoteMatching.Sounding | tools/summarize_results.py:167-174 | the hanging keys are exactly those whose last on or off event is an on |
| NoteMatching.MatchNoteEvents | tools/summarize_results.py:94-183 | the loops compute the report: matches, latencies, duplicates, false triggers and hanging keys |
| NoteMatching.ReportTells | tools/summarize_results.py:113-160 | note by note: the earliest free note-on in the window is taken, its release is the first note-off of the note from that instant on, and latencies and duplicates are those of these events and of the other note-ons in the window |
| NoteMatching.HangingTells | tools/summarize_results.py:167-174 | the hanging notes are as many as there are notes of a case that begin and never end afterwards |
| NoteScoring.Summarize | tools/summarize_results.py:186-252 | the campaign loop gives the fold of the case reports, or stops at the first pairing that fails |
| NoteScoring.TotalsAddUp | tools/summarize_results.py:200-252 | each total is the sum or the joined list of its own number in the case reports, misses and silence by the set of expected notes, and one latency per complete chord from its earliest onset to its latest note-on |
| NoteScoring.EveryNoteOnIsScoredOnce | tools/summarize_results.py:200-231 | with distinct case numbers true and false positives are the note-ons of the cases, and true positives and misses their distinct notes |
| NoteReach.MatchCountsAreUpToOwn | tools/summarize_results.py:94-142 | observations of one case can match any number of its own expected notes and never more |
| NoteScoring.CaseCanMatch | tools/summarize_results.py:192-221 | the same for a whole case, with listed events or without |
| NoteScoring.FailsExactlyWhenMispaired | tools/summarize_results.py:238-252 | for given observations the strict pairing raises exactly when a case matches its number of distinct notes but lists another number |
| NoteScoring.RaisesExactlyForUnevenCases | tools/summarize_results.py:238-252 | some observations make it raise exactly when a case has several distinct notes, lists at least as many of its own, and lists another number in all |
| NoteScoring.ExtraEventRaises | tools/summarize_results.py:238-252 | a chord of two notes with a third listed event raises when it is played as a chord |
| NoteScoring.ObservedAreTheTakenInstants | tools/summarize_results.py:238-252 | when all notes are matched the paired sums are the instants of the taken note-ons, each inside its window |
| NoteScoring.DefaultNotesScore | tools/summarize_results.py:204-252 | a case without listed events never raises, never misses fewer than zero notes, and its chord latency is its largest onset latency |
| NoteScoring.MissesCanBeNegative | tools/summarize_results.py:202-231 | some observations make the misses of a case negative exactly when it lists more own notes than it has distinct ones |
| NoteScoring.ListedNotesCanOutnumber | tools/summarize_results.py:202-231 | one note that is listed and played twice is such a case |
| Polyphony.ActiveIsCovering | tools/summarize_guitarset_annotations.py:82-83 | the changes up to an instant add up to the half-open note intervals that cover it |
| Polyphony.RunningCountIsReached | tools/summarize_guitarset_annotations.py:113-116 | no running count is above the number of notes covering some instant |
| Polyphony.ActiveIsRunningCount | tools/summarize_guitarset_annotations.py:113-116 | the number of notes covering an instant is some running count |
| Polyphony.Sweep | tools/summarize_guitarset_annotations.py:113-116 | the maximum is the largest number of notes that cover one instant |
| StringOverlaps.CursorsFindAllPairs | tools/summarize_guitarset_annotations.py:85-111 | on sorted strings whose own notes overlap by at most 0.020 s the cursors find the pairs and seconds of all pairs |
| StringOverlaps.OwnOverlapHidesAPair | tools/summarize_guitarset_annotations.py:85-111 | with an own overlap some single note on the other string is missed |
| StringOverlaps.CursorsAreExactWhenSeparate | tools/summarize_guitarset_annotations.py:85-111 | the count is exact for every separate right string exactly when the left string is separate |
| StringOverlaps.CursorsAreExactWhenRightIsSeparate | tools/summarize_guitarset_annotations.py:85-111 | and for every separate left string exactly when the right one is separate |
| StringOverlaps.CountOverlaps | tools/summarize_guitarset_annotations.py:86-111 | the loop computes what the cursors find on the sorted strings |
| StringOverlaps.PairsAreCounted | tools/summarize_guitarset_annotations.py:92-105 | the pairs of the definition are as many as there are pairs of positions whose notes have one pitch and share more than 0.020 s |
| GuitarsetSummary.TotalIsExact | tools/summarize_guitarset_annotations.py:85-111 | with separate strings the totals per string pair and in seconds are those of the all-pairs definition |
| GuitarsetSummary.PairsOfStrings | tools/summarize_guitarset_annotations.py:85-105 | with one annotation per string a track counts under two strings, the earlier one first, the pairs of their notes |
| GuitarsetSummary.Summarize | tools/summarize_guitarset_annotations.py:62-116 | refused exactly when a note has no length; otherwise the totals over all tracks and the largest polyphony of any track |
| MidiMerge.EveryInputIsOfferedOnce | native/plugin/midi_pipeline.cpp:110-151 | whatever is generated or accepted, every passing input is offered once and in order |
| MidiMerge.BadMeans | native/plugin/midi_pipeline.cpp:119-145 | an input is bad exactly if it is missing, beyond the block, earlier than an event before it, or a truncated MIDI event; all other MIDI events pass |
| MidiMerge.EveryNoteIsOfferedWhenAllAccepted | native/plugin/midi_pipeline.cpp:153-178 | a host that accepts everything is offered every generated note in order, with its offset, channel and note, and its velocity or none |
| MidiMerge.LateInputBreaksOrder | native/plugin/midi_pipeline.cpp:119-135 | an event beyond the block holds back an earlier one past a later note |
| MidiMerge.StreamIsInOrderExactlyWhenCalm | native/plugin/midi_pipeline.cpp:110-178 | the stream is time-ordered, and with note-offs before inputs before note-ons at one offset, exactly when the input is calm |
| MidiMerge.TimelyInputIsCalm | native/plugin/midi_pipeline.cpp:130-145 | input in time order is calm, and all its whole in-range MIDI events pass |
| MidiPanic.RouteHasDistinctChannels | native/plugin/midi_pipeline.cpp:99-108 | a marking names exactly the 1 or 8 distinct channels behind the start channel, modulo 16 |
| MidiPanic.PendingUntilCompleted | native/plugin/midi_pipeline.cpp:180-201 | a channel is pending exactly when its two controllers were not accepted in a row since some marking of it |
| MidiPanic.LeavesOnlyAfterBoth | native/plugin/midi_pipeline.cpp:180-201 | a marked channel leaves only after All Notes Off (123) and All Sound Off (120), accepted in that order after its latest marking |
| MidiPipeline.MidiPipeline.MarkRouteForPanic | native/plugin/midi_pipeline.cpp:99-108 | sets the bits of exactly the current route and no other |
| MidiPipeline.MidiPipeline.FlushInputs | native/plugin/midi_pipeline.cpp:110-151 | offers exactly the passing inputs up to the first one that is not due; the final flush ends at the input count |
| MidiPipeline.MidiPipeline.PushGenerated | native/plugin/midi_pipeline.cpp:153-178 | the due inputs first, and the note only if all of them were accepted; an accepted note is sent with status 9x and its velocity, or 8x and none, and its note number |
| MidiPipeline.MidiPipeline.SettleChannel | native/plugin/midi_pipeline.cpp:191-198 | both controllers accepted clear exactly this channel; otherwise the mask stays and the output is blocked |
| MidiPipeline.MidiPipeline.RetryChannelPanics | native/plugin/midi_pipeline.cpp:180-201 | succeeds exactly when the mask ends empty, adds no channel, and waits while releases are pending |
| MidiPipeline.MidiPipeline.Process | native/plugin/midi_pipeline.cpp:203-248 | the stream is the weave of input and script; the mask agrees with the log; a host that accepts all clears a waiting mask; a blocked delivery marks an empty one |
| PluginMidi.Plugin.RequestPanic | native/plugin/midi_pipeline.cpp:53-62 | queues the releases of the sounding voices as far as there is room; marks the route and blocks the output exactly when they do not all fit |
| PluginMidi.PushedExactly | native/plugin/midi_pipeline.cpp:153-178 | with the pipeline's answers the ledger pushes exactly what the pipeline passed on |
| PluginMidi.Plugin.HostHoldsWhatSounds | native/plugin/midi_pipeline.cpp:153-178 | in every valid state folding the accepted note messages by status and note number gives the multiset of the sounding voices |
| PluginMidi.RetryInOrder | native/plugin/midi_pipeline.cpp:180-241 | in a call that retries panics only releases at offset 0 precede the controllers, so the stream is in order for any input |
| PluginMidi.Plugin.Process | native/plugin/midi_pipeline.cpp:203-248 | pipeline and ledger together: a panic owed means a blocked output; the stream with its controllers is in order for calm input and holds every passing input once; an accepting host gets exactly what the ledger intends, note by note, and settles every owed panic; folding the accepted messages by channel and note gives the sounding voices; detection only with no panic owed |
| NoteLedger.InsertedIsQueued | native/src/generated_note_ledger.cpp:86-121 | the queue stays ordered by offset, note-offs first, then sequence |
| NoteLedger.InsertedAt | native/src/generated_note_ledger.cpp:112-120 | a transition goes in at one place, behind those of its offset and kind with no later sequence number |
| NoteLedger.NoteLedger.QueueTransition | native/src/generated_note_ledger.cpp:97-121 | refuses exactly what is malformed, beyond the block or over capacity, and inserts the rest |
| NoteLedger.NoteLedger.QueueActiveReleases | native/src/generated_note_ledger.cpp:123-139 | a note-off for each sounding voice while there is room; complete exactly when there is room for all |
| NoteLedger.NoteLedger.AllocateChannel | native/src/generated_note_ledger.cpp:210-252 | under per-voice routing a channel no sounding voice uses, or none when the whole route is in use |
| NoteLedger.ReleaseKeeps | native/src/generated_note_ledger.cpp:363-380 | releasing a voice keeps the voices equal to what the host holds, note for note |
| NoteLedger.StartKeepsFor | native/src/generated_note_ledger.cpp:384-411 | a note-on keeps identities and per-voice channels distinct and the voices equal to what the host holds |
| NoteLedger.InOrderIsOrdered | native/src/generated_note_ledger.cpp:358-412 | the pushes of one call are an ordered script as the pipeline's stream theorem asks for |
| NoteLedger.NoteLedger.FinishHold | native/src/generated_note_ledger.cpp:310-327 | the hold ends exactly after a further call with recovery asked for, clean-up done and quiet finite supported input |
| NoteLedger.PlannedIsWanted | native/src/generated_note_ledger.cpp:358-412 | a queue sends its notes within the block in order, up to the first refusal, and all of them exactly when nothing is refused |
| NoteLedger.NoteLedger.RetryPendingReleases | native/src/generated_note_ledger.cpp:283-308 | sends the due releases by note and then voice up to the first rejection; without one exactly the due voices are free |
| NoteLedger.NoteLedger.DeliverQueue | native/src/generated_note_ledger.cpp:358-412 | the pushes follow the plan of the queue; the output is blocked exactly after a refusal or a rejection, otherwise the voices are those of the plan |
| NoteLedger.NoteLedger.Deliver | native/src/generated_note_ledger.cpp:329-419 | an ordered script of the due releases and the plan of the queue, cut only by a rejection; no note-on while held or blocked; blocked exactly after a refusal or rejection, unblocked exactly by a finished recovery |
| NoteLedger.NoteLedger.ResetAndDeliver | native/plugin/midi_pipeline.cpp:64-67 | a reset and one delivery without a rejection leave no note sounding at the host |
| DryPath.AnalyzeDetectorInput | native/plugin/dry_path.hpp:20-81 | non-finite flag, gains by audibility and the exact peak of the mix, over heard channels only |
| DryPath.AnalysisMeans | native/plugin/dry_path.hpp:20-81 | the peak is that of the only channel, of the only audible one of two, or of two audible ones mixed half and half |
| DryPath.PeakIsReachedByASample | native/plugin/dry_path.hpp:63-79 | the selected peak never exceeds the magnitude of every heard finite sample |
| DryPath.ProcessFrame | native/plugin/dry_path.hpp:104-128 | one frame reads both former samples before it writes, whichever buffers coincide |
| DryPath.ProcessDryPath | native/plugin/dry_path.hpp:83-135 | every written output holds the sanitised former input or silence, nothing else changes, and silence bits mark exactly the silent written channels |
| SourceClosure.ClosureIsUnique | tools/reaper_v4_fixture_manifest.py:147-159 | entries and edges do not depend on the order of the worklist |
| SourceClosure.BuildSessionSourceClosure | tools/reaper_v4_fixture_manifest.py:123-159 | ends on every finite graph; succeeds exactly if all reachable files are sound, with exactly the reachable files and their edges |
| StringCorpus.LabelsAreDisjoint | tools/generate_pitch_corrected_corpus.py:472-509 | output labels are ordered and disjoint, exactly the silence apart |
| StringCorpus.PlacedAt | tools/generate_pitch_corrected_corpus.py:472-509 | each label starts one silence behind the previous one and has the length of its source segment |
| StringCorpus.FloatWaveWriter.Write | tools/generate_pitch_corrected_corpus.py:138-143 | a block that exceeds the declared count is refused, any other is appended |
| StringCorpus.DeclaredIsReached | tools/generate_pitch_corrected_corpus.py:460-462 | the layout never exceeds the declared count and reaches it exactly when no label was cut off by the source |
| StringCorpus.GenerateStringCorpus | tools/generate_pitch_corrected_corpus.py:440-510 | accepted exactly on acceptable input; the data have the declared length, equal the source inside labels and are zero outside |
| StringCorpus.CorpusIsTheSource | tools/generate_pitch_corrected_corpus.py:466-509 | every hold lies in the corpus sample for sample, in its whole length and under its own string |
| RenderSilence.ReadLabelSpans | tools/render_pitch_corrected_corpus_reaper.py:44-68 | every row in order, or refused: header, columns, integers, order and emptiness |
| RenderSilence.SpansAreTheRows | tools/render_pitch_corrected_corpus_reaper.py:55-68 | one bad row refuses the file; otherwise the spans are the first two fields of the rows that are not blank |
| RenderSilence.SpansAreOrdered | tools/render_pitch_corrected_corpus_reaper.py:55-68 | accepted spans are non-empty, ordered, disjoint and start at zero or later |
| RenderSilence.CorpusLabelsAreReadBack | tools/render_pitch_corrected_corpus_reaper.py:44-68 | the labels of a generated corpus are accepted and read back |
| RenderSilence.GapsAreTheUnlabeled | tools/render_pitch_corrected_corpus_reaper.py:115-122 | the gaps are exactly the samples outside the labels |
| RenderSilence.SilenceUnlabeledRegions | tools/render_pitch_corrected_corpus_reaper.py:113-134 | the file afterwards has every unlabeled sample zero and every other byte as before; refused when a label or a gap exceeds it |
| RenderSilence.SilencedMeans | tools/render_pitch_corrected_corpus_reaper.py:106-134 | the three bytes of every sample stay inside a label and are zero outside, and all other bytes stay |
| RenderSilence.SilencingIsIdempotent | tools/render_pitch_corrected_corpus_reaper.py:106-134 | silencing a second time changes nothing |

## Left out

- Classify: fingerprints are taken as already scaled to unit length, because the scaling divides by a square root; a zero or negative feature is still refused.
- Floating-point rounding everywhere: the classifier, the sweep, the overlaps and the dry path use exact reals.
- Pitch rounding, quantiles, fret ranges and counts per string of the annotation summary.
- Precision, recall, F1 and the report formatting of the scoring tools.
- `filter_unison_plan`, `available_sample_count` and the case and audio writers around the two planners.
- Campaign: the guarded command is assumed not to touch the attempt marker, and each effect on the file system is atomic.
- The content checks of probe evidence, the containment tests, clocks, digests and the scope and X11 guards around a row.
- RunRow: the marker of an unconfirmed exit that older versions kept inside the staged results is not modelled, and neither is the observer diagnostic.
- Probe runs by two processes at once: the lock is created atomically, so at most one of them gets past it.
- Scan: freezing and materializing have the same budget loop, which is modelled once with a mode for what counts as a leaf or container.
- Admit: the field relations of a configuration are an arbitrary predicate of its data.
- JSON numbers with a fraction or exponent: payloads hold integers, strings, names, arrays and objects.
- RunFixture: the diagnostic stream only counts bytes against its limit, and time limits are an arbitrary failure of the script.
- RunSession: local descriptors inside the baseline captures are not tracked; the theorem covers the evidence descriptors.
- SessionProtocol: a short write of a frame counts as a failure of the writer, and receipts are validated by an arbitrary predicate plus the agreement of identity, attestations and clocks.
- The V4 receipt validators field by field, configuration templates, source and bundle checks.
- Process: memory allocation and the exact host call interface are not modelled; a host answers every offer by an arbitrary function of its number.
- MidiPipeline: on its own the ledger is any caller with channels from 1 to 16; `PluginMidi` joins it with the ledger, whose steps run behind the pipeline's with the answers that the pipeline gave, not nested in them.
- NoteLedger: the fixed storage of the queue and of the eight voices are sequences, so shifting and slot updates are not in place on arrays; `activate_preserving_pending` and `release_storage_preserving_pending` are not modelled.
- ProcessDryPath: buffers are shared as a whole or not at all, as in the host interface; overlapping parts of one allocation are not modelled.
- BuildSessionSourceClosure: parsing a file into its literal imports and resolving a module name to a file are given; sizes, modes and digests of the entries are not computed.
- GenerateStringCorpus: pitch estimation is an arbitrary test that may refuse a segment; manifest, digests and the reading of the source wave are not modelled.
- SilenceUnlabeledRegions: the search for the data chunk of the RIFF file is given as its offset and sample count.
- The detector, its offline replay, the state codec and the editor.
