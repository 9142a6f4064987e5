# Verified model of the QDMI examples

QDMI is an interface between quantum software and quantum devices. This project models the three hard parts of its
example code and proves what they are for:

* **The qubit-renaming tool** (`examples/tool/example_tool.cpp`): a compiler pass on OpenQASM 2.0 text made of four
  sequential in-place replacements through a placeholder.
* **The example device** (`examples/device/src/cxx_device.cpp`): jobs that share one device status, and the writers that
  fill a caller's buffer with shots, histograms, state vectors and probabilities.
* **The example driver** (`examples/driver/qdmi_example_driver.cpp`): reference-counted loading of device libraries from
  a configuration file, client sessions that open every configured device, and the destructors that undo all of it.

Check the whole project with `dafny verify dfyconfig.toml`.

## How the model is built

The original code updates state in place, and so do the methods here: loops over strings and buffers, classes for jobs,
libraries, sessions and the driver state. Each method is proved equal to a function on values (`Compiled`, `Submit`,
`ResultReply`, `LoadLines`, `SessionInit`, ...). The main results are lemmas about those functions and about runs of
them: any sequence of calls on any number of jobs or sessions.

| file | content |
|---|---|
| `Outcomes.dfy` | return codes, optional values |
| `Text.dfy` | occurrences, split and join, decimal numerals |
| `Substitution.dfy` | simultaneous substitution, the fusion law, when two rule sets agree |
| `Tool.dfy` | the tool on texts |
| `Pieces.dfy`, `Circuits.dfy`, `Registers.dfy` | texts of inert stretches, references and declarations; structured circuits, printing and relabelling; registers with other names |
| `Pattern.dfy` | the declaration pattern with its characters spelled out, and a circuit line by line |
| `Results.dfy`, `StateVectors.dfy` | result encodings and what can be read back from them |
| `ResultWriters.dfy` | the buffer writers, and the protocol "ask for the size, then fill" |
| `Jobs.dfy`, `DeviceObjects.dfy` | the job state machine and its runs; the device functions on objects |
| `History.dfy`, `Submitted.dfy`, `DeviceCodes.dfy` | the state read off the calls alone; what a client sees of a submitted job, in numbers and characters; return codes |
| `Config.dfy`, `Driver.dfy` | the configuration file; loading libraries against a ledger of foreign calls |
| `Sessions.dfy`, `DriverRuns.dfy`, `Access.dfy` | opening devices; runs of the driver; the library of every device and the access rule, over runs |
| `DriverObjects.dfy`, `DriverCodes.dfy` | the driver functions on objects; return codes |

What the code cannot decide itself is a parameter: random values, memory failures, and every answer of the dynamic loader
and of the device libraries. The **ledger** (`Driver.Foreign`) records open counts, initializations, device sessions and
device jobs; a foreign call out of order (closing what is not open, initializing twice, using or freeing a session whose
library is not initialized, finalizing with a session open) makes it faulty for good. A call whose behaviour C++ leaves
undefined answers `Undefined`.

## Where the code does not do what it promises

Each of these is stated as an exact condition, with a concrete input on which the code fails.

* A text that holds `q[aux]` is changed at that place (`CompiledIsRenamingIff`, `PlaceholderIsRenamed`).
* A classical register whose name ends in `q` is renamed like the qubits (`CompilingIsRelabelling`,
  `ClassicalRegisterIsCaptured`).
* The declaration pattern accepts a register of any name, but only `q` is handled. In a text without `q[` nothing is widened
  or renamed (`OtherRegisterIsKept`, `RegisterRIsKept`). Only the references are renamed, those of every register with a name
  that ends in `q`, exactly when the text does not declare a register named `q` of the size found, or when widening that
  declaration would be no change (`OnlyReferencesIff`, `RegisterAqIsNotWidened`).
* The declaration pattern sees only sizes of one digit. A register of ten or more qubits beside a small one is not noticed: the
  text is accepted and the wide register stays as it is (`DeclarationsDecide`, `WideRegistersAreIgnored`,
  `SecondRegisterIsAccepted`).
* An operand that is the whole register comes to mean all qubits of the device. The pass keeps the meaning of a circuit exactly
  when there is no such operand, or the register is as wide as the device and, for a measurement, the edge starts at the first
  qubit (`MeaningKeptIff`, `WholeMeasurementIsWidened`).
* The sparse probability values overrun a buffer of the reported size exactly when some amplitude is zero
  (`SparseProbabilitiesOverrun`, and on a submitted job `SparseProbabilitiesOverrunReached`,
  `SparseProbabilitiesOverrunExample`). The documentation of the result (`include/qdmi/constants.h:1186-1193`) promises only
  the nonzero ones.
* `wait` moves a job that was never submitted to DONE. Reading a result leaves the result list exactly when no call of the run
  submitted the job with success (`ReadIsUndefinedIff`, `WaitWithoutSubmit`).
* A library that hands out a job together with an error leaves a device job that nobody can free. Over every run their number
  is the number of such calls (`EveryRunAccountsForJobs`, `LeakingRunLeaves`).

The condition of `ChainIsSimultaneousIff` also covers devices with fewer than two qubits, where the widened declaration would
itself be renamed (`DeclarationIsRenamed`). No consistent device has fewer than two qubits and a coupled edge, so this is a
limit of the chain as a function and not an input of the pass.

## Model

| member | source | states |
|---|---|---|
| Text.SplitIsLeftmost | examples/tool/example_tool.cpp:39 | the split used to specify replacement takes leftmost matches: no earlier match in any piece, none in the last |
| Text.JoinSplit | examples/tool/example_tool.cpp:38-43 | joining a split with its separator gives the text back |
| Substitution.ReplaceIsJoinOfSplit | examples/tool/example_tool.cpp:35-44 | replacing equals joining the leftmost non-overlapping split with the new text, for every nonempty pattern |
| Substitution.Fusion | examples/tool/example_tool.cpp:82-96 | a replacement done after a simultaneous substitution is one simultaneous substitution, for marked patterns and sealed images |
| Substitution.SubstituteAgrees | examples/tool/example_tool.cpp:82-96 | two rule sets with the same patterns write the same text exactly when every rule that fires has the same image in both |
| Substitution.FiresWhereContained | examples/tool/example_tool.cpp:39 | a pattern that no other match can swallow is rewritten exactly when it occurs |
| Tool.Find | examples/tool/example_tool.cpp:39 | the first position at or behind the start where the pattern begins, or none |
| Tool.ReplaceAllOccurrences | examples/tool/example_tool.cpp:35-44 | the in-place loop terminates for every nonempty pattern and equals both the scan and the join of the split |
| Tool.Compile | examples/tool/example_tool.cpp:46-99 | the pass raises exactly the declaration errors of the code, else yields the chain; on the promised texts that is the simultaneous renaming |
| Tool.ChainIsOneScan | examples/tool/example_tool.cpp:77-96 | on every text, declared size, edge and device, the four replacements are one scan with explicit rules |
| Tool.ChainIsSimultaneousIff | examples/tool/example_tool.cpp:77-98 | the chain is the intended simultaneous renaming if and only if the text has no placeholder and the declaration is not itself renamed |
| Tool.ChainIsSimultaneous | examples/tool/example_tool.cpp:77-98 | with at least two device qubits and no placeholder the chain is the intended renaming, also for `id0 = 1` and `id1 = 0` |
| Tool.CompiledIsRenamingIff | examples/tool/example_tool.cpp:46-98 | for every accepted text and every device with two or more qubits the pass is the intended renaming if and only if the text has no placeholder |
| Registers.PlaceholderIsRenamed | examples/tool/example_tool.cpp:94-96 | a declared text with the placeholder that is accepted and changed there |
| Tool.OtherRegisterIsKept | examples/tool/example_tool.cpp:48-49 | an accepted text without `q[` is returned unchanged, neither widened nor renamed |
| Registers.OnlyReferencesIff | examples/tool/example_tool.cpp:77-96 | for every accepted text without the placeholder, only references are renamed if and only if the text does not declare exactly a register `q` of the size found, or widening it is no change |
| Pieces.NamedDeclarationDigit | examples/tool/example_tool.cpp:48-63 | the pattern finds the declaration of a register of any name with a size of one digit, and its size |
| Registers.OtherNameIsKept | examples/tool/example_tool.cpp:48-98 | a declaration with any other name, in a text without `q[`, is accepted and the text returned unchanged |
| Registers.RegisterRIsKept | examples/tool/example_tool.cpp:48-98 | a concrete circuit on a register `r`, unchanged on every device |
| Registers.RegisterAqIsNotWidened | examples/tool/example_tool.cpp:77-98 | a concrete circuit on a register `aq`: the reference is renamed, the declaration is not widened |
| Pattern.MatchIsFound | examples/tool/example_tool.cpp:48-63 | with the characters of names and sizes spelled out: every declaration with a nonempty name and a size of one digit is found, and its size |
| Pattern.FoundIsMatch | examples/tool/example_tool.cpp:48-63 | nothing else is found: whatever is found at the start of a text has that form |
| Pattern.OtherCharacterIsNotFound | examples/tool/example_tool.cpp:48 | with any other character in the name the declaration is not found |
| Pattern.OneRegister | examples/tool/example_tool.cpp:48-70 | a text with one register of any name: accepted up to the size of two and of the device, and which error otherwise |
| Pattern.UnderscoreIsAccepted | examples/tool/example_tool.cpp:48-98 | a concrete circuit on a register `my_reg`, accepted and unchanged |
| Pattern.CompiledPair | examples/tool/example_tool.cpp:46-98 | a concrete circuit and its result, line by line, on a device of twelve qubits with an edge from 3 to 10 |
| Tool.ParkingRoundTrip | examples/tool/example_tool.cpp:86-96 | replacing `q[0]` by the placeholder and back is the identity if and only if the text has no placeholder |
| Pieces.PiecewiseRenaming | examples/tool/example_tool.cpp:77-98 | in a text of inert stretches, references and declarations no placeholder occurs and renaming acts piece by piece; wide registers with other names stay |
| Pieces.DigitsOfPieces | examples/tool/example_tool.cpp:48-63 | of all declarations, for registers of any names and sizes, the pattern finds exactly those with a size of one digit |
| Pieces.DeclarationsDecide | examples/tool/example_tool.cpp:48-70 | for any list of declarations: accepted if and only if exactly one size has one digit and it is at most two, and which error otherwise |
| Pieces.WideRegistersAreIgnored | examples/tool/example_tool.cpp:48-98 | a register `q` of up to two qubits beside any number of wide registers is accepted; `q` is widened and renamed, the wide ones stay |
| Pieces.SecondRegisterIsAccepted | examples/tool/example_tool.cpp:48-70 | a concrete text with registers of two and of twelve qubits is accepted |
| Pieces.FlattenInjective | examples/tool/example_tool.cpp:77-98 | printing is injective on texts that differ only in indices |
| Circuits.CompilingIsRelabelling | examples/tool/example_tool.cpp:46-98 | for every circuit over at most two qubits, with indexed and whole-register operands, the pass accepts the printed text, and its result is the printed relabelled circuit if and only if no classical reference is captured |
| Circuits.MeaningKeptIff | examples/tool/example_tool.cpp:72-98 | the relabelled circuit stands for the same indexed instructions, moved to the edge, if and only if every whole-register operand fits the width of the device, and a whole measurement also the edge |
| Circuits.WholeMeasurementIsWidened | examples/tool/example_tool.cpp:77-98 | a circuit like that of `test/test_qdmi.cpp:1048-1056`: on a device of five qubits its measurement of two qubits becomes one of five |
| Circuits.WidthDecides | examples/tool/example_tool.cpp:48-70 | for a printed circuit over one register, the size decides: up to two accepted, three to nine refused as too many, two digits refused as no declaration |
| Circuits.GatesLandOnTheEdge | examples/tool/example_tool.cpp:72-75 | every gate on two different qubits ends on the chosen coupled edge, up to direction, with its name unchanged |
| Circuits.RelabellingIsInjective | examples/tool/example_tool.cpp:84-96 | with two different edge ends two circuits, of any widths, are relabelled to the same one if and only if they have the same instructions |
| Circuits.ClassicalRegisterIsCaptured | examples/tool/example_tool.cpp:86-92 | a concrete circuit whose classical register is renamed |
| Results.ShotsRoundTrip | examples/device/src/cxx_device.cpp:663-678 | the shot text has count times (length + 1) bytes, one NUL, at the end, and splits into the shots in order |
| Results.CsvTextAt | examples/device/src/cxx_device.cpp:663-678 | character by character: shot `i` stands at `i * (n + 1)`, with a comma behind it or, behind the last, a NUL |
| Results.HistogramTallies | examples/device/src/cxx_device.cpp:688-692 | the counting loop builds a strictly sorted map that stands for exactly the multiset of shots |
| Results.MapsAreCanonical | examples/device/src/cxx_device.cpp:688-692 | the multiset determines the sorted map |
| Results.HistogramRoundTrip | examples/device/src/cxx_device.cpp:685-729 | keys and values give back the multiset of shots; keys strictly sorted, value i counts key i, values add up to the shots, exact text size |
| Results.HistogramIgnoresOrder | examples/device/src/cxx_device.cpp:685-729 | two shot lists fill the same buffers if and only if one is a permutation of the other |
| StateVectors.BitsRoundTrip | examples/device/src/cxx_device.cpp:772-774 | the bit loop writes the index most significant bit first, and reading it gives the index back |
| StateVectors.BitsPositional | examples/device/src/cxx_device.cpp:772-774 | character `j` of a key is `1` exactly when the index holds the power of two of that place |
| StateVectors.BitsOrder | examples/device/src/cxx_device.cpp:770-777 | keys compare as strings the way indices compare as numbers |
| StateVectors.SparseRoundTrip | examples/device/src/cxx_device.cpp:731-804 | decoding the sparse keys, pairing them with the sparse values and filling zeros rebuilds the dense vector; keys of n characters, strictly increasing both ways |
| StateVectors.NormalizationGivesProbabilities | examples/device/src/cxx_device.cpp:585-597 | dividing by any positive root of the squared norm gives nonnegative probabilities that add up to 1, and a nonzero amplitude |
| StateVectors.NormLaws | examples/device/src/cxx_device.cpp:592 | the squared modulus is multiplicative, the same for the conjugate, the square on real numbers, and the product with the conjugate |
| StateVectors.PhaseKeepsProbabilities | examples/device/src/cxx_device.cpp:836 | a phase on one amplitude changes no probability |
| StateVectors.ProbabilitiesAreModuli | examples/device/src/cxx_device.cpp:825-842 | the probabilities are the products `re * re + im * im`, written out |
| StateVectors.TotalIsSum | examples/device/src/cxx_device.cpp:587-592 | the total of two lists is the sum of their totals, and of one number that number |
| StateVectors.SparseProbabilitiesAreDense | examples/device/src/cxx_device.cpp:805-842 | the probabilities of the nonzero amplitudes are the dense list if and only if no amplitude is zero |
| StateVectors.SparseAgreesWithDenseProbabilities | examples/device/src/cxx_device.cpp:731-842 | a state has a sparse key exactly when its dense probability is positive, which is then the norm of its sparse amplitude |
| ResultWriters.QueryReportsSize | examples/device/src/cxx_device.cpp:655-842 | for every kind a query without buffer reports exactly the bytes of the content |
| ResultWriters.QueryThenFill | examples/device/src/cxx_device.cpp:655-842 | a buffer of at least the reported size receives exactly the content, a smaller one is refused and nothing written; for sparse probability values exactly when no amplitude is zero |
| ResultWriters.SparseProbabilitiesOverrun | examples/device/src/cxx_device.cpp:805-816 | a buffer of the reported size is overrun if and only if some amplitude is zero |
| Jobs.SparseProbabilitiesOverrunReached | examples/device/src/cxx_device.cpp:805-816 | for every draw with a zero amplitude, a run to a submitted job that is done, on which asking for the size and then for the values overruns the buffer |
| Jobs.SparseProbabilitiesOverrunExample | examples/device/src/cxx_device.cpp:805-816 | such a draw exists: one amplitude of one half, all others zero |
| ResultWriters.GetResultsShots | examples/device/src/cxx_device.cpp:655-683 | the copy loop writes exactly the shot text from the start of the buffer and leaves the rest |
| ResultWriters.GetResultsHist | examples/device/src/cxx_device.cpp:685-729 | the counting and key or value loops write exactly the histogram; the size is reported even when the buffer is refused |
| ResultWriters.WriteKeys | examples/device/src/cxx_device.cpp:704-710 | keys with commas, the last comma replaced by a NUL, are the comma-separated text |
| ResultWriters.GetResultsStatevector | examples/device/src/cxx_device.cpp:731-745 | exactly the interleaved real and imaginary parts are written |
| ResultWriters.GetResultsSparse | examples/device/src/cxx_device.cpp:747-823 | sparse keys, values and probabilities as the code writes them, undefined exactly where a write leaves the buffer |
| ResultWriters.WriteSparseKeys | examples/device/src/cxx_device.cpp:769-777 | the nested loops list exactly the keys of the nonzero amplitudes within the reported size |
| ResultWriters.FillProbabilities | examples/device/src/cxx_device.cpp:812-815 | the probability loop stays in the buffer exactly when there is a place for every amplitude |
| ResultWriters.CountNonzero | examples/device/src/cxx_device.cpp:751-757 | the count is the number of indices with a nonzero amplitude |
| ResultWriters.GetResultsProbabilities | examples/device/src/cxx_device.cpp:825-842 | exactly the squared moduli are written |
| Jobs.SetProgramsIsAtomic | examples/device/src/cxx_device.cpp:441-480 | on every error and support probe the job is unchanged; success has an exact condition and stores the given bytes in order |
| Jobs.ProgramsRoundTrip | examples/device/src/cxx_device.cpp:482-506 | every stored program is read back byte for byte with its reported size, and refused with one byte less |
| Jobs.SetProgramsKeepsInvariant | examples/device/src/cxx_device.cpp:258-270 | stored text programs always have their only NUL at the end |
| Jobs.SubmitKeepsInvariant | examples/device/src/cxx_device.cpp:551-613 | one normalized result per program with the requested shots |
| Jobs.ShotsDependOnOwnProgram | examples/device/src/cxx_device.cpp:571-584 | with several programs, the shots of a result depend only on its program, the format and the shot count |
| Jobs.ResultsAreWellFormed | examples/device/src/cxx_device.cpp:582-592 | submit builds equal-length comma-free bit strings of the register length and vectors of the register dimension |
| Jobs.ResultsIffSubmitted | examples/device/src/cxx_device.cpp:551-613 | over every run a job has results if and only if some call submitted it with success |
| Jobs.ReadIsUndefinedIff | examples/device/src/cxx_device.cpp:845-879 | over every run, for every kind, index and buffer, reading a result is undefined if and only if all checks pass and either no call submitted the job with success or the sparse probability values overrun |
| Jobs.GetResultsProtocol | examples/device/src/cxx_device.cpp:845-879 | the query-then-fill protocol of a submitted job, for every program and kind, with the exact exception |
| Jobs.SubmittedResultsReadBack | examples/device/src/cxx_device.cpp:582-598 | all buffers of a submitted job read back: shots in order, histogram keys and values to the multiset of shots, dense and sparse state to the vector, sparse keys and probability values to the dense probabilities |
| Jobs.StepKeeps | examples/device/src/cxx_device.cpp:329-652 | every call keeps the invariant of all jobs and lets each only move forward |
| Jobs.RunKeeps | examples/device/src/cxx_device.cpp:389-652 | over every interleaving on any number of jobs DONE and CANCELED are never left, and programs, format, shot count and results are frozen once the job leaves CREATED |
| Jobs.EveryRunIsSafe | examples/device/src/cxx_device.cpp:413-652 | in every reachable state a busy device has its latest submitted job running, unless its handle was freed; FAILED, QUEUED and SUBMITTED are never reached |
| History.JobsFollowCalls | examples/device/src/cxx_device.cpp:329-652 | over every run, from the calls alone: the first call that ends a job decides between CANCELED and DONE, before that it runs exactly from its submit on; the shot count is that of the last call that set it in time; programs and amplitudes are those given |
| History.FirstEndIsFirst | examples/device/src/cxx_device.cpp:615-652 | the deciding call is a cancel, a wait or a finishing check with none before it |
| History.DeviceIsBusyIff | examples/device/src/cxx_device.cpp:607-652 | over every run the device is busy if and only if some submit went through and no call since made it idle or took it offline |
| History.SubmittedJobRuns | examples/device/src/cxx_device.cpp:607-611 | at the step of a submit that goes through the device is busy and the job running |
| History.CheckOfRunning | examples/device/src/cxx_device.cpp:625-637 | checking a running job: with a true bit it is done and the device idle, with a false one nothing changes |
| History.ResultsHaveShotCount | examples/device/src/cxx_device.cpp:584 | every result of a submitted job has as many shots as the last call in time asked for |
| Submitted.ShotCharacters | examples/device/src/cxx_device.cpp:568-584 | the five characters of every shot, from the marker byte of the program |
| Submitted.StoredStateIsNormalized | examples/device/src/cxx_device.cpp:585-598 | of the 32 stored amplitudes the products `re * re + im * im` add up to 1, and they are the dense probabilities |
| Submitted.AmplitudesAreDrawn | examples/device/src/cxx_device.cpp:585-598 | every stored amplitude, times the root, is the one drawn for its program by the call that submitted the job |
| Submitted.HistogramOfJob | examples/device/src/cxx_device.cpp:685-729 | the histogram of a submitted job has one key, the shot, with the shot count as its value |
| Submitted.ReportedSize | examples/device/src/cxx_device.cpp:655-879 | over every run the size of every result, in bytes, from the shot count and the number of nonzero amplitudes |
| Submitted.SparseBuffersReadBack | examples/device/src/cxx_device.cpp:747-823 | the cells of the sparse buffers, decoded, give the stored vector; both kinds of keys are the same text |
| Submitted.ShotBufferReadsBack | examples/device/src/cxx_device.cpp:655-683 | the cells of the shot buffer, split at commas, give the shots |
| DeviceCodes.ProgramCodes | examples/device/src/cxx_device.cpp:441-480 | setting programs: for every return code exactly when it is returned |
| DeviceCodes.ResultCodes | examples/device/src/cxx_device.cpp:845-879 | reading results: for every return code exactly when it is returned, with sizes in bytes; a refused read writes nothing |
| Jobs.WaitIsFinal | examples/device/src/cxx_device.cpp:625-652 | after a successful wait every later check reports the same terminal status and the results stay |
| Jobs.SubmittedStaysReadable | examples/device/src/cxx_device.cpp:551-613 | after a successful submit, in every later state, results match programs, and for every kind and buffer reading never leaves the result list |
| Jobs.WaitWithoutSubmit | examples/device/src/cxx_device.cpp:639-651 | a run in which a job never submitted is done and its result cannot be read |
| DeviceObjects.Device.CreateDeviceJob | examples/device/src/cxx_device.cpp:389-404 | a new job in state CREATED, or no job when the session is not initialized |
| DeviceObjects.Device.JobSetParameter | examples/device/src/cxx_device.cpp:417-439 | equals the state machine on the job and changes nothing else |
| DeviceObjects.Device.JobSetPrograms | examples/device/src/cxx_device.cpp:441-480 | the copy loop over caller buffers equals the atomic state machine step |
| DeviceObjects.Device.JobGetProgram | examples/device/src/cxx_device.cpp:482-506 | writes exactly the stored program from the start of the buffer |
| DeviceObjects.Device.SetOverwriteGet | examples/device/src/cxx_device.cpp:468-469 | for any number of programs: each is read back as its buffer was when the programs were set, although the caller has overwritten all buffers; on an error nothing changes |
| DeviceObjects.Device.SquaredNorm | examples/device/src/cxx_device.cpp:587-592 | the accumulation loop computes the total of the squared moduli |
| DeviceObjects.Device.RunPrograms | examples/device/src/cxx_device.cpp:566-598 | the program loop computes the result of every program, or the code of the exception |
| DeviceObjects.Device.JobSubmit | examples/device/src/cxx_device.cpp:551-613 | equals the state machine on job and shared device status |
| DeviceObjects.Device.JobCancel | examples/device/src/cxx_device.cpp:615-623 | equals the state machine on job and shared device status |
| DeviceObjects.Device.JobCheck | examples/device/src/cxx_device.cpp:625-637 | equals the state machine and reports the status after the call |
| DeviceObjects.Device.JobWait | examples/device/src/cxx_device.cpp:639-652 | equals the state machine on job and shared device status |
| DeviceObjects.Device.JobGetResults | examples/device/src/cxx_device.cpp:845-879 | code, reported size and whole buffer afterwards, for every kind and every reachable job |
| Config.ReadEntriesIff | examples/driver/qdmi_example_driver.cpp:340-358 | a file reads if and only if no line is malformed and no id is repeated at any distance; its entries are those of the lines in order |
| Config.ConfigRoundTrip | examples/driver/qdmi_example_driver.cpp:340-358 | printed entries with any spacing, comments and empty lines between are read back in order; with a repeated id the whole file is rejected |
| Config.FieldCountDecides | examples/driver/qdmi_example_driver.cpp:345-352 | a line of any number of fields is an entry if and only if there are three |
| Config.LinesEitherWay | examples/driver/qdmi_example_driver.cpp:340-341 | the lines of a file, with or without an end behind the last |
| Config.TabsSeparate | examples/driver/qdmi_example_driver.cpp:345-352 | a concrete line with tabs between its fields |
| Driver.LibraryLoadBalances | examples/driver/qdmi_example_driver.cpp:227-290 | whatever fails, handles stay open once for each loaded library; a successful load returns the library of the opened handle and the prefix, loaded before or now; a failed load leaves no trace |
| Driver.DestroyingBalances | examples/driver/qdmi_example_driver.cpp:138-147 | destroying the loaded libraries undoes every open and initialization exactly once |
| Driver.LoadLinesBalances | examples/driver/qdmi_example_driver.cpp:340-358 | the ledger is balanced after every line, however the environment answers |
| Driver.LoadingIsTransactional | examples/driver/qdmi_example_driver.cpp:317-370 | a load that fails at any line leaves the ledger as before; one that succeeds accounts exactly for its libraries |
| Driver.LoadFollowsFile | examples/driver/qdmi_example_driver.cpp:340-369 | success needs a file that reads and exposes its ids in order; without failures it succeeds exactly on those |
| DriverCodes.FileCodes | examples/driver/qdmi_example_driver.cpp:340-364 | a failed load reports missing memory only where memory is missing, and a fatal error only for a bad line or a library that does not open, resolve or initialize |
| Driver.LoadBindsLibraries | examples/driver/qdmi_example_driver.cpp:340-358 | a load that succeeds gives every entry, in order, the library of its own name and prefix, and loads no library that no device points at |
| Sessions.FreeingDevices | examples/driver/qdmi_example_driver.cpp:165-169 | destroying devices frees each held device session exactly once and nothing else |
| Sessions.OpeningAll | examples/driver/qdmi_example_driver.cpp:418-451 | the device loop opens all devices or leaves every device session as before; it succeeds exactly when no step fails |
| DriverRuns.AllocKeeps | examples/driver/qdmi_example_driver.cpp:377-398 | the first session loads, later ones share; a failed allocation changes nothing |
| DriverRuns.FreeKeeps | examples/driver/qdmi_example_driver.cpp:454-465 | devices are freed before libraries, and the last session drops everything |
| DriverRuns.CreateJobKeeps | examples/driver/qdmi_example_driver.cpp:519-541 | creating a job, successful or not, keeps the invariant and touches only jobs |
| DriverCodes.JobCodes | examples/driver/qdmi_example_driver.cpp:519-541 | the return code of creating a job, and that the job holds what the library handed out |
| DriverRuns.FreeJobKeeps | examples/driver/qdmi_example_driver.cpp:573-578 | freeing a job frees its device job while its library is initialized |
| DriverRuns.StepKeeps | examples/driver/qdmi_example_driver.cpp:377-578 | every call keeps the invariant and the sessions that live on |
| DriverRuns.EveryRunAccountsForJobs | examples/driver/qdmi_example_driver.cpp:519-578 | over every run the device jobs that no client job holds are as many as the calls in which a library hands out a job with an error; without sessions exactly these are left |
| DriverRuns.StepOrphans | examples/driver/qdmi_example_driver.cpp:533-538 | a call adds to these device jobs exactly the one it leaks, and no call ever frees one |
| DriverRuns.LeakingRunLeaves | examples/driver/qdmi_example_driver.cpp:533-538 | a run of five calls after which all handles are freed and a device job is left |
| DriverRuns.EveryRunIsBalanced | examples/driver/qdmi_example_driver.cpp:377-465 | over every run with failing loads and libraries: no foreign call out of order, open counts and initializations match the loaded libraries, the counter matches the live sessions, and without sessions nothing is left but leaked device jobs |
| DriverRuns.InitIsAllOrNothing | examples/driver/qdmi_example_driver.cpp:400-452 | initialization succeeds exactly when no step fails for any device; otherwise the session stays allocated without devices and every device session of the call is freed |
| DriverCodes.InitCodes | examples/driver/qdmi_example_driver.cpp:400-452 | the return code of initialization: by status, by token, else that of the first device that does not open |
| DriverCodes.TokenRoundTrip | examples/driver/qdmi_example_driver.cpp:467-485 | the stored token is exactly the given text without its last character |
| DriverRuns.SessionsExposeSameDevices | examples/driver/qdmi_example_driver.cpp:420-445 | any two initialized sessions of any run expose the same distinct ids in the same order, on loaded libraries |
| DriverRuns.InitializedSessionIsFixed | examples/driver/qdmi_example_driver.cpp:400-485 | an initialized session, and the configuration, never change while it lives |
| DriverRuns.FirstSessionLoadsFile | examples/driver/qdmi_example_driver.cpp:389-395 | the first session configures the entries of the file in order, each on the library it names, with one loaded library for each different handle and prefix; or it changes nothing |
| Access.DevicesUseTheirLibraries | examples/driver/qdmi_example_driver.cpp:353-358 | over every run the devices of every initialized session are the entries of the file loaded last, in order, each on the library its line names |
| Access.EveryRunObeysAccess | examples/driver/qdmi_example_driver.cpp:411-416 | over every run an initialized session may write if and only if its token is not empty, and every client job belongs to an initialized session that may write |
| Access.StepKeepsAccess | examples/driver/qdmi_example_driver.cpp:519-541 | every call keeps the access rule |
| DriverObjects.Library.Destroy | examples/driver/qdmi_example_driver.cpp:138-147 | finalizes only after a successful initialization, closes only an open handle |
| DriverObjects.LibraryLoad | examples/driver/qdmi_example_driver.cpp:227-290 | the objects and the ledger follow the load function for every answer of the environment |
| DriverObjects.LoadLines | examples/driver/qdmi_example_driver.cpp:340-358 | the line loop over the file equals the load function |
| DriverObjects.DriverState.InitializeDriver | examples/driver/qdmi_example_driver.cpp:317-370 | local lists move into the driver state on success and are destroyed on failure |
| DriverObjects.DriverState.SessionAlloc | examples/driver/qdmi_example_driver.cpp:377-398 | driver and client objects represent the world after the allocation step; a new session object exactly on success |
| DriverObjects.DriverState.SessionInit | examples/driver/qdmi_example_driver.cpp:400-452 | the device loop with its destructors equals the all-or-nothing function, and the objects represent the world after the step |
| DriverObjects.DriverState.SessionFree | examples/driver/qdmi_example_driver.cpp:454-465 | the session object is deleted and the rest represents the world after the step; a null handle changes nothing |
| DriverObjects.DriverState.SessionSetParameter | examples/driver/qdmi_example_driver.cpp:467-485 | sets the token without its terminator, only on an allocated session; the objects represent the world after the step |
| DriverObjects.DriverState.DeviceCreateJob | examples/driver/qdmi_example_driver.cpp:519-541 | a new job object exactly on success; the objects represent the world after the step |
| DriverObjects.DriverState.JobFree | examples/driver/qdmi_example_driver.cpp:573-578 | the device job is freed, the object deleted, and the rest represents the world after the step; a null handle changes nothing |

## Left out

- DeviceObjects.Device.JobGetResults: after an `Undefined` answer nothing is said about the buffer, because C++ says nothing.
- Jobs.SubmitKeepsInvariant: amplitudes are exact reals and the root of their squared norm is given; rounding, the random
  generator and a draw of only zeros are not modelled.
- Circuits.CompilingIsRelabelling: circuits consist of gates, measurements and classical registers; gate definitions and
  conditionals are not modelled, a gate head is a name with an optional parameter list and must not end in `qreg`, which the
  pattern would count as a declaration. A barrier counts as a gate.
- A device without a coupled edge: the pass takes the front of an empty list (`examples/tool/example_tool.cpp:73`); a target
  always has an edge.
- The regular expression engine: its one pattern is a hand-written scanner with the same matches.
- Configured devices and device objects hold the value (handle, prefix) of their library instead of a pointer; that value
  is unique among the loaded libraries in every run.
- Client handles of sessions and jobs are numbers that are never reused in runs; double frees, freeing a session before its
  jobs and other misuse that `include/qdmi/client.h:412-415` forbids are not part of any run.
- Calls after a handle was released: `deleted` marks a released object, and no method may be given one.
- A loader that gives one library name different handles during one load; between loads it may change.
- Memory failures occur at one named place for each allocation; overflow of `size_t` and shifts beyond the width of `int`
  are not modelled.
- Device sessions of the example device (token and status), the random job id, job and device property queries, site and
  operation tables and custom enumeration values: readings of one branch each.
- Finding the configuration file, the allowed directories, symbol resolution and Windows branches: one answer for each.
- Retrieving a job by its ID, and the driver functions that only forward a call to a library.
- The FoMaC client wrappers, templates, Python packaging, build scripts and tests.
