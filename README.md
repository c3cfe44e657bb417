# Vacuum build engine in Dafny

Vacuum is a content build pipeline. A content file declares named targets.
Each target has input files, output files, an optional filter name and
parameters. Filter classes are found by reflection in filter assemblies.
The engine:

- builds a `VacuumTarget` for each declaration: it expands and sorts the
  paths, picks a filter class and hashes the declaration;
- orders the targets so that producers run before consumers;
- decides which targets are out of date, from write times and the content
  hashes file;
- binds filter-level and target-level parameters onto the filter instance,
  runs the filter and checks that the outputs exist;
- writes the hashes file for the next run.

This project models that engine and two of its filters:

- `StringsToDataAndCsFilter` turns a strings table into a data file and a
  C# accessor class;
- `PinboardToDataFilter` turns a pinboard into a table of rectangles.

It proves properties of the model.

Modules follow the source:

| module | source |
|---|---|
| `Targets` | `VacuumTarget` |
| `Contexts` | `VacuumContext` |
| `FilterClasses` | `FilterClass` |
| `ParameterAttributes` | `ParameterAttribute` and its two scopes |
| `TopologicalSort`, `FilterSettings`, `ParameterBinding`, `Staleness`, `Build`, `ErrorReports` | the parts of `VacuumTool` |
| `StringsFilter`, `PinboardFilter` | the two filters |

Supporting modules:

- `Common` and `Tson` hold the values the engine reads: paths, times, errors, and the parsed content file.
- `Externals.Env` bundles the library functions the engine calls but whose code is not part of this model. These are SHA1, variable expansion, `MakeFullPath`, wildcard tests, `GetFiles`, `FilterExtension.Equals`, the TSON text of a node, and the hashes-file format.
- `FileSystems.FileSystem` is a class over a map from path to (write time, text). `Delete` and `WriteAllText` change that map.
- `Strings`, `Sorting` and `Times` hold the base-library string operations, the path sort and the two time folds.

Code that mutates state is modelled as methods with loops. Each such method
is proved against a specification function. Examples:

- The constructor loops of `VacuumTarget` are methods proved against
  `CollectInputs`, `CollectOutputs` and `HashPreImage`.
- The sort's four loops are methods that keep the invariants of Kahn's
  algorithm.
- `FilterClass` is a class with a mutable extension list and mutable
  parameter values. The parameter-binding methods update exactly those
  fields.
- `Build.Filter` updates the file system, one target's turn at a time.

Targets are identified by their position in the target list. The sort
returns a permutation of positions.

Where the code and its documented intent diverge, the model follows the
code. Three such behaviours are modelled as written, with lemmas that state
their consequences:

- The context tests for a property named `ContentFileHashes` but stores the
  default under `ContentHashesFile`. See `Contexts.UserHashesFileIgnored` and
  `Contexts.ContentFileHashesSwitchesDefaultOff`.
- The sort counts one in-edge per shared path occurrence, but releases one
  per successor. A producer two of whose outputs a consumer reads is
  therefore reported as a circular dependency even when there is no cycle.
  See `TopologicalSort.DoubleLinkWithoutCycle`.
- The default class name `XxxStrings` becomes `<base>StringsStrings`. See
  `StringsFilter.DefaultClassName`.

## Model

| member | source | states |
|---|---|---|
| TopologicalSort.TopologicallySortVacuumTargets | VacuumLibrary/VacuumTool.cs:290-375 | succeeds exactly when the dependency graph is acyclic and no two targets share more than one path occurrence; the result is a permutation of the targets in which every producer precedes each consumer and which contains every root; a failure names a target whose in-edge count is positive |
| TopologicalSort.BuildInputIndex | VacuumLibrary/VacuumTool.cs:293-309 | the index lists, for every path, each target reading it as many times as it reads it |
| TopologicalSort.InitGraph | VacuumLibrary/VacuumTool.cs:312-316 | every target gets an empty successor set and a zero counter |
| TopologicalSort.AddConsumers | VacuumLibrary/VacuumTool.cs:328-333 | each listed consumer becomes a successor (once) and gets its counter bumped once per listing |
| TopologicalSort.AddPathEdges | VacuumLibrary/VacuumTool.cs:320-335 | one output path adds exactly the edges and counts of its consumers |
| TopologicalSort.AddTargetEdges | VacuumLibrary/VacuumTool.cs:318-336 | after a target's output paths its successor set is exactly the targets it feeds |
| TopologicalSort.BuildGraph | VacuumLibrary/VacuumTool.cs:318-336 | the successor map holds, duplicate-free, exactly the targets each target feeds, and each counter is the target's in-edge count |
| TopologicalSort.CollectRoots | VacuumLibrary/VacuumTool.cs:341-345 | the initial queue is the targets with no in-edge, in declaration order |
| TopologicalSort.RunQueue | VacuumLibrary/VacuumTool.cs:348-367 | the dequeue loop ends with an order that is duplicate-free, topological and starts with the roots, and with the graph holding exactly the targets not ordered |
| TopologicalSort.ReleaseSuccessors | VacuumLibrary/VacuumTool.cs:358-366 | decrementing each successor and enqueueing those that reach zero keeps the Kahn invariant |
| TopologicalSort.KahnDequeue | VacuumLibrary/VacuumTool.cs:350-356 | dequeuing a target moves it to the order and removes it from the graph while keeping the invariant |
| TopologicalSort.KahnSuccess | VacuumLibrary/VacuumTool.cs:369-374 | an emptied graph means the order is a topological permutation, so the graph is acyclic with single edges |
| TopologicalSort.KahnFailure | VacuumLibrary/VacuumTool.cs:369-372 | a target left in the graph has a positive in-edge count, and the graph has a cycle or a multiple link |
| TopologicalSort.StuckTarget | VacuumLibrary/VacuumTool.cs:360-372 | a target still in the graph has a counter that never reached its number of ordered producers |
| TopologicalSort.Nodes | VacuumLibrary/VacuumTool.cs:295-320 | the sort sees each target's name, input paths and output paths, position by position |
| TopologicalSort.FeedsIffWeight | VacuumLibrary/VacuumTool.cs:324-332 | a target feeds another exactly when the sort bumps the other's counter on its behalf |
| TopologicalSort.InCountBoundsPreds | VacuumLibrary/VacuumTool.cs:318-336 | a counter is at least the number of producers, with equality exactly when every producer shares one path occurrence |
| TopologicalSort.ZeroCountMeansPredsDone | VacuumLibrary/VacuumTool.cs:360-365 | a counter reaching zero means all producers are ordered and singly linked |
| TopologicalSort.TopologicalOrderIsAcyclic | VacuumLibrary/VacuumTool.cs:348-374 | a complete producer-first order rules out every cycle |
| TopologicalSort.SelfFeedingIsCyclic | VacuumLibrary/VacuumTool.cs:318-336 | a target reading its own output is a cycle |
| TopologicalSort.TwoCycleIsCyclic | VacuumLibrary/VacuumTool.cs:318-336 | two targets feeding each other are a cycle |
| TopologicalSort.TwoSharedPathsAreDoubleEdge | VacuumLibrary/VacuumTool.cs:320-333 | a consumer reading two outputs of one producer breaks single edges |
| TopologicalSort.DoubleLinkWithoutCycle | VacuumLibrary/VacuumTool.cs:328-333 | a concrete acyclic two-target graph that is not single-edged, which the sort rejects |
| Targets.NewVacuumTarget | VacuumLibrary/VacuumTarget.cs:23-184 | the path errors come first; a failure is exactly a rejection: the path error, or the implicit or explicit "no filter" error when no class matches; a success is the target built from the declaration: sorted resolved paths, signature, TargetName property, hash of the declaration and the first matching filter class |
| Targets.ResolveTargetPaths | VacuumLibrary/VacuumTarget.cs:30-119 | the lists are the expanded inputs and outputs, sorted, with the missing-input and missing-output errors first |
| Targets.ResolvedPathsShape | VacuumLibrary/VacuumTarget.cs:30-119 | resolved lists are sorted, have at least one path per raw input and exactly one per raw output, and are non-empty |
| Targets.ExpandInputs | VacuumLibrary/VacuumTarget.cs:38-82 | the input loop computes the fold that expands variables, makes full paths and replaces a wildcard by the files it matches (or fails when its directory is missing or it matches nothing) |
| Targets.InputsCoverEverySpec | VacuumLibrary/VacuumTarget.cs:38-82 | every raw input contributes at least one path; without wildcards the inputs expand exactly like outputs |
| Targets.ExpandOutputs | VacuumLibrary/VacuumTarget.cs:92-116 | the output loop computes the fold of expansions, with no wildcard handling |
| Targets.OutputsAreExpansions | VacuumLibrary/VacuumTarget.cs:92-116 | output i is the expansion of raw output i |
| Targets.OutputsFailIffSomeFails | VacuumLibrary/VacuumTarget.cs:92-116 | the outputs fail exactly when some raw output fails to expand |
| Targets.ExtensionsOf | VacuumLibrary/VacuumTarget.cs:121 | the signature lists the extension of each path, in order |
| Targets.FindImplicitFilter | VacuumLibrary/VacuumTarget.cs:123-147 | finds the first class one of whose extensions equals the signature, or reports that none does |
| Targets.FindExplicitFilter | VacuumLibrary/VacuumTarget.cs:148-162 | finds the first class whose full name ends with the filter name (ignoring case), or reports that none does |
| Targets.ChooseFilter | VacuumLibrary/VacuumTarget.cs:123-162 | the chosen class is the first match of the search the declaration asks for; failure gives that search's error and means no class matches |
| Targets.AppendParameters | VacuumLibrary/VacuumTarget.cs:173-180 | the loop appends each key followed by its value's text |
| Targets.ParameterTextAppend | VacuumLibrary/VacuumTarget.cs:173-180 | the parameter text of two lists in sequence is their texts in sequence |
| Targets.ComputeHash | VacuumLibrary/VacuumTarget.cs:164-183 | the hash is SHA1 of inputs, outputs, filter and parameters as written |
| Targets.HashIgnoresNameAndLocation | VacuumLibrary/VacuumTarget.cs:164-183 | renaming or moving a declaration does not change its hash |
| Targets.SameNameSameHashCode | VacuumLibrary/VacuumTarget.cs:186-189 | targets with equal names have equal hash codes |
| Targets.TargetProperties | VacuumLibrary/VacuumTarget.cs:33-34 | the target's own properties hold TargetName only |
| Build.BuildVacuumTargets | VacuumLibrary/VacuumTool.cs:275-285 | targets are built in declaration order; when the loop stops early, the first declaration not built is the one the constructor rejects, and the error names it and carries the constructor's error |
| Build.PrepareVacuumTargets | VacuumLibrary/VacuumTool.cs:271-288 | a declaration the constructor rejects fails the whole step with that declaration's name and the constructor's error; after building all targets, the result is those targets rearranged into a topological order exactly when the graph is acyclic with single edges |
| Build.Arrange | VacuumLibrary/VacuumTool.cs:287 | the sorted list holds the target at each position of the order |
| Build.TargetHashes | VacuumLibrary/VacuumTool.cs:691 | the hashes file lists every target's hash in order |
| Build.ReadOldContentFileHashes | VacuumLibrary/VacuumTool.cs:659-684 | reads the previous global and target hashes, empty when the file is missing; when the text does not parse or a Global, Targets or Targets-element node is null, it keeps what was read before that point and deletes the file |
| Build.WriteNewContentFileHashes | VacuumLibrary/VacuumTool.cs:686-704 | writes the global hash and the target hashes, or only warns when the file cannot be written |
| Build.NextRunSeesDefinitionsUnchanged | VacuumLibrary/VacuumTool.cs:659-704 | when the format reads back what it writes, the next run recovers this run's hashes and sees every definition unchanged |
| Build.FirstNull | VacuumLibrary/VacuumTool.cs:673-676 | the loop over the Targets node reads every element before the first null one |
| Build.MissingRecordChangesEveryDefinition | VacuumLibrary/VacuumTool.cs:659-684 | without a hashes file, or with one that does not parse or has no Global node, every definition counts as changed |
| Build.DeleteExisting | VacuumLibrary/VacuumTool.cs:565-572 | the paths are removed from the file system; exactly the existing ones are reported |
| Build.Clean | VacuumLibrary/VacuumTool.cs:559-582 | every output of every target and the hashes file are removed, and nothing else; exactly the existing ones are reported |
| Build.OutputsOfSpec | VacuumLibrary/VacuumTool.cs:561-572 | the paths Clean removes are exactly the output paths of some target |
| Build.CleanIdempotent | VacuumLibrary/VacuumTool.cs:559-582 | a second Clean after the first reports no deleted file and leaves the files as one Clean left them |
| Build.FirstMissing | VacuumLibrary/VacuumTool.cs:598-604 | the first path that does not exist, or none when all exist |
| Build.FindMissing | VacuumLibrary/VacuumTool.cs:646-653 | the existence loop finds the first missing path |
| Build.FilterTarget | VacuumLibrary/VacuumTool.cs:596-653 | one turn in the order of the checks: inputs exist, the target is stale, Context and Target properties exist, target parameters bind, the filter runs, outputs exist |
| Build.PassedTurnHasFiles | VacuumLibrary/VacuumTool.cs:598-653 | a passing turn had its inputs and, when it filtered, left its outputs; a turn that did not filter changed no file |
| Build.ForceFiltersEveryTarget | VacuumLibrary/VacuumTool.cs:606-633 | with Force, every target whose inputs exist has its target parameters bound |
| Build.TurnErrorKinds | VacuumLibrary/VacuumTool.cs:596-653 | a failing turn raises one of the loop's errors, naming the target or its filter |
| Build.TurnsChainedSnoc | VacuumLibrary/VacuumTool.cs:596-654 | a turn taken on the files left by the earlier turns extends the chain |
| Build.FilterTargets | VacuumLibrary/VacuumTool.cs:596-654 | the turns are taken in order, each on the files left by the previous one, and the loop stops at the first failure; each turn starts from the parameter values its class kept from the last earlier turn on that class, or from the entry values; afterwards each class holds the values of its last turn and every extension list is unchanged |
| Build.Filter | VacuumLibrary/VacuumTool.cs:584-657 | reads the old hashes, takes the turns as the loop does, with the classes' parameter values chained from turn to turn and their extensions unchanged, and, when all pass, writes the new hashes file |
| Build.FilterAndRecord | VacuumLibrary/VacuumTool.cs:596-656 | after the hashes are read: the turns as the loop takes them, and the hashes file written only when every turn passed |
| Build.TakeTurn | VacuumLibrary/VacuumTool.cs:596-654 | one more turn keeps the chain of turns, the chaining of parameter values and the unchanged extensions, and adds that turn's files |
| Build.RunTurn | VacuumLibrary/VacuumTool.cs:596-653 | the turn of target k starts from its class's current values; only that class's values change, and no extension list does |
| Build.ValuesAfter | VacuumLibrary/VacuumTool.cs:596-654 | the values of target i's class after the turns are those it had before the next turn |
| Build.ValuesBeforePrefix | VacuumLibrary/VacuumTool.cs:596-654 | a later turn does not change the values a class had before an earlier one |
| Build.UnusedClassKeepsValues | VacuumLibrary/VacuumTool.cs:629-637 | a class no turn used still holds its entry values |
| Build.ValuesBeforeLastUse | VacuumLibrary/VacuumTool.cs:629-637 | a class holds the values left by the last turn that used it |
| Build.StartValuesStep | VacuumLibrary/VacuumTool.cs:596-637 | a turn starting from its class's current values extends the chaining of start values |
| Build.ValuesAfterStep | VacuumLibrary/VacuumTool.cs:629-637 | a turn changes the values of its own class only, to its end values |
| Staleness.IsFilteringRequired | VacuumLibrary/VacuumTool.cs:706-743 | the decision equals the staleness predicate on the write times; Force always filters |
| Staleness.NewestWriteTime | VacuumLibrary/VacuumTool.cs:714-720 | the loop computes the latest of the start time and the write times |
| Staleness.OldestWriteTime | VacuumLibrary/VacuumTool.cs:722-730 | the loop computes the earliest of DateTime.MaxValue and the write times |
| Staleness.TimesOf | VacuumLibrary/VacuumTool.cs:716 | each path's time is its file's write time, or the missing-file time |
| Staleness.StaleIffSomeOutputOlder | VacuumLibrary/VacuumTool.cs:706-743 | without Force, a target is stale exactly when some input-side time is later than some output-side time |
| Staleness.UnchangedDefinitionIgnoresContentTime | VacuumLibrary/VacuumTool.cs:732-740 | with the definition unchanged, the content file's write time does not matter |
| Times.LatestIsMaximum | VacuumLibrary/VacuumTool.cs:714-720 | the newest-time fold is the maximum of its start and the times |
| Times.EarliestIsMinimum | VacuumLibrary/VacuumTool.cs:722-730 | the oldest-time fold is the minimum of its start and the times |
| FilterSettings.ApplyFilterSettings | VacuumLibrary/VacuumTool.cs:377-413 | classes are visited in order; each visited class gets its settings; the loop stops at the first failure; later classes are unchanged |
| FilterSettings.ApplyFilterSetting | VacuumLibrary/VacuumTool.cs:381-411 | one class gets the extensions of its first matching setting (failing without an Extensions property) and binds its filter parameters from that setting |
| FilterSettings.FindSetting | VacuumLibrary/VacuumTool.cs:381 | finds the first setting whose name the class name ends with, or none |
| FilterSettings.SettingExtensions | VacuumLibrary/VacuumTool.cs:392-398 | one extension per node, in order |
| FilterSettings.UnnamedClassKeepsExtensions | VacuumLibrary/VacuumTool.cs:384-387 | a class no setting names keeps its extensions and binds from no node: no warnings, no error, all required parameters left required |
| FilterSettings.FirstSettingWins | VacuumLibrary/VacuumTool.cs:381 | settings after the first match are never read |
| ParameterBinding.ApplyParameters | VacuumLibrary/VacuumTool.cs:415-515 | the instance's values, the warnings and the outcome are those of binding from its old values; extensions are untouched |
| ParameterBinding.BindSucceedsIff | VacuumLibrary/VacuumTool.cs:415-464 | binding completes (no error, nothing left required) exactly when every declared key is writable and convertible and every required name is supplied; without an error the warnings are the undeclared keys |
| ParameterBinding.BindKeysSpec | VacuumLibrary/VacuumTool.cs:428-458 | the key loop fails exactly when some declared key cannot be written or converted; otherwise it removes exactly the supplied names from the required set and warns once for each undeclared key |
| ParameterBinding.BindWithoutNode | VacuumLibrary/VacuumTool.cs:428-463 | without a parameter node, binding raises nothing and warns nothing, and every required name stays required, so it completes exactly when nothing is required |
| ParameterBinding.BindKeysErrorKinds | VacuumLibrary/VacuumTool.cs:442-452 | the key loop raises only write and conversion errors of this filter |
| ParameterBinding.BindFailureKinds | VacuumLibrary/VacuumTool.cs:442-463 | binding fails only with those errors or a required parameter of this filter left unset |
| ParameterBinding.BindKeysRequiredShrinks | VacuumLibrary/VacuumTool.cs:456 | the key loop only removes required names |
| ParameterBinding.BindErrorSticks | VacuumLibrary/VacuumTool.cs:443-451 | once an error is raised the remaining pairs change nothing |
| ParameterBinding.RequiredAreDeclared | VacuumLibrary/VacuumTool.cs:420-423 | every required name is a declared parameter |
| ParameterBinding.DeclaredKeysAreKeys | VacuumLibrary/VacuumTool.cs:430-436 | a key counts as declared exactly when it is supplied and found |
| ParameterBinding.DefaultsSet | VacuumLibrary/VacuumTool.cs:420-426 | the first loop sets each optional parameter to its default |
| ParameterBinding.UnsuppliedUntouched | VacuumLibrary/VacuumTool.cs:430-457 | the key loop never touches an unsupplied name |
| ParameterBinding.UnsuppliedOptionalGetsDefault | VacuumLibrary/VacuumTool.cs:420-457 | an optional parameter that is not supplied ends with its default |
| ParameterBinding.SuppliedValueKept | VacuumLibrary/VacuumTool.cs:445-454 | the last pair supplying a declared key decides its value |
| ParameterBinding.Find | VacuumLibrary/VacuumTool.cs:434 | finds the first parameter with the key's name, or none |
| ParameterBinding.ConvertTyped | VacuumLibrary/VacuumTool.cs:517-557 | an unsupported type gives no value; a supported type converts exactly when the node has the right kind, and the value has that type |
| ParameterBinding.ConvertRoundTrip | VacuumLibrary/VacuumTool.cs:517-557 | converting a value's own node at its own type gives the value back |
| ParameterBinding.TruncateToInt | VacuumLibrary/VacuumTool.cs:535 | the int cast truncates toward zero |
| ErrorReports.ReportErrorChain | VacuumLibrary/VacuumTool.cs:130-163 | one line per exception of the chain, outermost first, each with the location held by the walk at that point |
| ErrorReports.Chain | VacuumLibrary/VacuumTool.cs:163 | the chain starts with the exception itself |
| ErrorReports.StickyLocationSpec | VacuumLibrary/VacuumTool.cs:134-149 | the held location is that of the last located exception, and none exactly when none is located |
| ErrorReports.LocationSticks | VacuumLibrary/VacuumTool.cs:151-157 | after a located exception, unlocated inner exceptions are reported at the same line and column |
| ErrorReports.StickyAfter | VacuumLibrary/VacuumTool.cs:134-149 | the held location stays that of the last located exception until another is seen |
| ErrorReports.UnlocatedChainIsPlain | VacuumLibrary/VacuumTool.cs:152-157 | a chain without located exceptions is reported as plain messages |
| ErrorReports.StickyStep | VacuumLibrary/VacuumTool.cs:134-149 | one step of the walk updates the held location as the loop body does |
| ErrorReports.ChainStep | VacuumLibrary/VacuumTool.cs:163 | moving to the inner exception walks the rest of the chain |
| Contexts.NewContext | VacuumLibrary/VacuumContext.cs:25-102 | the context holds the layered properties with the hashes-file default, that file's location, the content file's write time, the global hash and the loaded filter classes, which are new and distinct objects, one per registered type in order, each with the type's name, its parameter lists, its Target/Context/Extensions flags, the type's extensions and no parameter values; a location error fails it, and otherwise it fails exactly when loading the classes fails, with that error |
| Contexts.LayerPrecedence | VacuumLibrary/VacuumContext.cs:33-48 | the command line beats the content file, which beats the built-ins, which beat the environment; OutputDir is always set |
| Contexts.AddFromList | VacuumLibrary/VacuumContext.cs:45 | the pairs are set in order, each overriding earlier values |
| Contexts.OverlayLookup | VacuumLibrary/VacuumContext.cs:45-48 | after setting pairs a key holds its last set value, or its earlier value when it is not set |
| Contexts.OverlayAppend | VacuumLibrary/VacuumContext.cs:45-48 | setting two lists is setting one after the other |
| Contexts.LastValueAppend | VacuumLibrary/VacuumContext.cs:45-48 | the last value over two lists comes from the second when it sets the key |
| Contexts.ContentProperties | VacuumLibrary/VacuumContext.cs:45 | content-file properties become pairs in order |
| Contexts.UserHashesFileIgnored | VacuumLibrary/VacuumContext.cs:50-58 | without ContentFileHashes, the hashes file is always the default, overwriting a user's ContentHashesFile |
| Contexts.ContentFileHashesSwitchesDefaultOff | VacuumLibrary/VacuumContext.cs:50-58 | setting ContentFileHashes only turns the default off; the path is still read from ContentHashesFile, and the constructor fails without it |
| Contexts.ComputeGlobalHash | VacuumLibrary/VacuumContext.cs:63-99 | the global hash is SHA1 of the assemblies, properties and filter settings as written |
| Contexts.AppendStrings | VacuumLibrary/VacuumContext.cs:66-69 | the loop appends each part |
| Contexts.AppendSetting | VacuumLibrary/VacuumContext.cs:76-96 | one setting appends its name, extensions and parameters |
| Contexts.AppendExtensions | VacuumLibrary/VacuumContext.cs:80-87 | each extension appends its inputs, then its outputs |
| Contexts.SettingsTextAppend | VacuumLibrary/VacuumContext.cs:76-97 | the text of two setting lists in sequence is their texts in sequence |
| Contexts.GlobalHashIgnoresTargets | VacuumLibrary/VacuumContext.cs:63-99 | the global hash does not depend on the targets |
| Contexts.ExpandAssemblyPaths | VacuumLibrary/VacuumContext.cs:126-140 | the loop computes the fold of assembly-path expansions, one path per raw assembly |
| Contexts.LoadFilterClasses | VacuumLibrary/VacuumContext.cs:119-207 | fails exactly when a path does not expand or an assembly does not load, reflect or register, with the first such error; success means every path was loaded and reflected, and the classes, new and distinct objects, and newest write time accumulate assembly by assembly; each class is built from its type as NewFilterClass builds it (name, parameter lists, Target/Context/Extensions flags, the type's extensions, no parameter values) |
| Contexts.LoadAssemblies | VacuumLibrary/VacuumContext.cs:142-206 | assemblies are loaded in order; it fails exactly at the first that does not load, reflect or register, with that error; a success accumulates their classes, new and distinct objects each built from its registered type (name, parameter lists, Target/Context/Extensions flags, the type's extensions, no parameter values), and the latest write time |
| Contexts.LoadAssembly | VacuumLibrary/VacuumContext.cs:144-203 | one more assembly: it fails exactly when it does not load, reflect or register, with that error; otherwise the earlier classes are kept, the new classes built from its registered types are appended, and the write time is folded in |
| Contexts.LoadErrorKinds | VacuumLibrary/VacuumContext.cs:142-198 | an assembly loop error is a load, reflection, non-read/write or duplicate-parameter error |
| Contexts.ClassesOfTypes | VacuumLibrary/VacuumContext.cs:184-198 | one assembly gives a new class for each registered type, in order, built from that type, and distinct; it fails exactly when a registered type cannot be classified, with the first such error |
| Contexts.RegisterType | VacuumLibrary/VacuumContext.cs:186-197 | one more type: it is skipped, fails with its classification error, or appends a new class built from it |
| Contexts.RegisterErrorKinds | VacuumLibrary/VacuumContext.cs:184-198 | a registration error is a non-read/write or duplicate-parameter error |
| Contexts.RegisterErrorSpec | VacuumLibrary/VacuumContext.cs:184-198 | registration has no error exactly when every registered type classifies; an error is that of the first registered type that does not |
| Contexts.RegisterErrorStep | VacuumLibrary/VacuumContext.cs:184-194 | one more type adds its classification error, if it is registered and fails |
| Contexts.RegisterErrorSticks | VacuumLibrary/VacuumContext.cs:184-198 | once a type fails, the later types do not change the error |
| Contexts.BuiltFromSkip | VacuumLibrary/VacuumContext.cs:186-192 | a type that is abstract or not an IFilter adds no class |
| Contexts.BuiltFromAdd | VacuumLibrary/VacuumContext.cs:194-196 | a registered type adds its own class at the end |
| Contexts.ExpandAssemblies | VacuumLibrary/VacuumContext.cs:124-140 | a successful expansion gives one path per raw assembly |
| Contexts.LoadErrorSpec | VacuumLibrary/VacuumContext.cs:142-206 | the assembly loop has no error exactly when every assembly loads, reflects and registers; an error comes from the first that does not |
| Contexts.LoadErrorStep | VacuumLibrary/VacuumContext.cs:144-198 | one more assembly adds its load, reflection or registration error |
| Contexts.LoadErrorSticks | VacuumLibrary/VacuumContext.cs:142-206 | once an assembly fails, the later ones do not change the error |
| Contexts.LoadedFromSnoc | VacuumLibrary/VacuumContext.cs:144-165 | a path that loads and reflects extends the loaded assemblies |
| Contexts.FilterTypes | VacuumLibrary/VacuumContext.cs:184-192 | registration keeps only some types |
| Contexts.FilterTypesSelect | VacuumLibrary/VacuumContext.cs:184-198 | exactly the non-abstract IFilter types are registered, in their original order |
| Contexts.AssemblyTimes | VacuumLibrary/VacuumContext.cs:200 | each assembly's write time, in order |
| Contexts.BuiltFromAppend | VacuumLibrary/VacuumContext.cs:194-196 | class lists built from two type lists, joined, are built from the joined type lists |
| Contexts.AccumulateStep | VacuumLibrary/VacuumContext.cs:194-203 | one more assembly extends the classes and takes the later write time |
| FilterClasses.NewFilterClass | VacuumLibrary/FilterClass.cs:29-75 | fails exactly when classification fails; a success has the computed parameter lists in property order, has a Target, Context or Extensions slot exactly when the type has a property of that name, the type's extensions and no values set |
| FilterClasses.ClassifySlots | VacuumLibrary/FilterClass.cs:39-52 | a successful classification records a Target, Context or Extensions property exactly when the type has one of that name |
| FilterClasses.FilterClass.constructor | VacuumLibrary/FilterClass.cs:29-75 | records the schema and the initial instance state |
| FilterClasses.ClassifyProperties | VacuumLibrary/FilterClass.cs:39-74 | the property loop computes the classification fold |
| FilterClasses.ClassifySucceedsIff | VacuumLibrary/FilterClass.cs:55-72 | classification succeeds exactly when every parameter property is read/write and no name repeats within its scope |
| FilterClasses.ClassifyStepSucceedsIff | VacuumLibrary/FilterClass.cs:55-72 | one property fails exactly when it is a parameter that is not read/write or repeats a name in its scope |
| FilterClasses.ClassifyStepParameters | VacuumLibrary/FilterClass.cs:67-72 | a successful step appends the property to the list of its own scope only |
| FilterClasses.ClassifyParameters | VacuumLibrary/FilterClass.cs:39-74 | a successful classification's lists are the parameter properties of each scope, in order |
| FilterClasses.ParametersOf | VacuumLibrary/FilterClass.cs:55-72 | the parameters of a scope are exactly its properties with one attribute of that scope |
| FilterClasses.Names | VacuumLibrary/FilterClass.cs:70-72 | the names of a parameter list, in order |
| FilterClasses.ParameterScopesDisjoint | VacuumLibrary/FilterClass.cs:69-72 | after success, each scope's names are distinct |
| FilterClasses.ClassifyFailureSticks | VacuumLibrary/FilterClass.cs:63-65 | a failure stops classification: later properties do not change it |
| FilterClasses.ClassifyErrorKinds | VacuumLibrary/FilterClass.cs:63-72 | the only errors name the type and one of its parameter properties |
| ParameterAttributes.NewParameterAttribute | VacuumLibrary/ParameterAttribute.cs:8-11 | empty description, no default, required |
| ParameterAttributes.NewParameterAttributeWithDescription | VacuumLibrary/ParameterAttribute.cs:17-20 | the given description, no default, required |
| ParameterAttributes.SetDefault | VacuumLibrary/ParameterAttribute.cs:31-37 | a default makes the parameter optional and changes nothing else |
| FileSystems.FileSystem.constructor | VacuumLibrary/VacuumTool.cs:567-569 | the file system starts from the given files, directories and read-only paths |
| FileSystems.FileSystem.Delete | VacuumLibrary/VacuumTool.cs:569 | removes exactly that path |
| FileSystems.FileSystem.WriteAllText | VacuumLibrary/VacuumTool.cs:698 | writes the text with the current time unless the path is read-only |
| Sorting.Sort | VacuumLibrary/VacuumTarget.cs:84 | the result is sorted and a permutation of the input |
| Sorting.Insert | VacuumLibrary/VacuumTarget.cs:84 | inserting into a sorted list keeps it sorted and adds exactly that element |
| Sorting.SortUnique | VacuumLibrary/VacuumTarget.cs:84 | two sorted permutations of the same paths are equal |
| Sorting.SortIgnoresArrivalOrder | VacuumLibrary/VacuumTarget.cs:69-84 | the input list does not depend on the order the directory listing returns files in |
| Sorting.SortedHeadIsLeast | VacuumLibrary/VacuumTarget.cs:84 | the head of a sorted list is below every element |
| Sorting.SortedTail | VacuumLibrary/VacuumTarget.cs:84 | the tail of a sorted list is sorted and is the list without its head |
| Sorting.PathLeTotal | VacuumLibrary/VacuumTarget.cs:84 | any two paths are ordered |
| Sorting.PathLeReflexive | VacuumLibrary/VacuumTarget.cs:84 | the order is reflexive |
| Sorting.PathLeTransitive | VacuumLibrary/VacuumTarget.cs:84 | the order is transitive |
| Sorting.PathLeAntisymmetric | VacuumLibrary/VacuumTarget.cs:84 | the order is antisymmetric |
| Strings.Upper | VacuumLibrary/VacuumTarget.cs:153 | upper-casing maps each character |
| Strings.UpperSlice | VacuumLibrary/VacuumTarget.cs:153 | upper-casing commutes with taking a suffix |
| Strings.EndsWithImpliesIgnoreCase | VacuumLibrary/VacuumTarget.cs:153 | an exact suffix is also a case-insensitive one |
| Strings.ReplaceAllAtStart | Vacuum.Filters/Filters/StringsToDataAndCsFilter.cs:63-64 | a string starting with the pattern starts with the replacement in its rewrite |
| Strings.ReplaceAllAbsent | Vacuum.Filters/Filters/StringsToDataAndCsFilter.cs:64 | a string without the pattern is unchanged |
| Strings.ReplaceAllWithoutFirst | Vacuum.Filters/Filters/StringsToDataAndCsFilter.cs:64 | a string without the pattern's first character is unchanged |
| Strings.NatToString | Vacuum.Filters/Filters/StringsToDataAndCsFilter.cs:173-174 | the decimal text is non-empty and made of digits |
| Strings.NatToStringInjective | Vacuum.Filters/Filters/StringsToDataAndCsFilter.cs:173-174 | different numbers print differently |
| StringsFilter.StringsToDataAndCsFilter.Filter | Vacuum.Filters/Filters/StringsToDataAndCsFilter.cs:51-82 | the arity errors come first; then ClassName is rewritten, the strings file is read, and the outputs are the C# lines and the data strings of its entries |
| StringsFilter.StringsToDataAndCsFilter.constructor | Vacuum.Filters/Filters/StringsToDataAndCsFilter.cs:41-46 | the two parameter properties hold the given values |
| StringsFilter.StringsParameterSchema | Vacuum.Filters/Filters/StringsToDataAndCsFilter.cs:41-46 | the filter has the target parameters ClassName and Namespace, with Namespace the only required one, and no filter parameters |
| StringsFilter.ClassNameRewrite | Vacuum.Filters/Filters/StringsToDataAndCsFilter.cs:63-64 | a name starting with Xxx is rewritten to start with the base name plus "Strings"; other names are kept |
| StringsFilter.DefaultClassName | Vacuum.Filters/Filters/StringsToDataAndCsFilter.cs:42-64 | the default XxxStrings becomes the base name, "Strings", "Strings" |
| StringsFilter.RewriteXxxPrefix | Vacuum.Filters/Filters/StringsToDataAndCsFilter.cs:63-64 | "Xxx" and a rest without X becomes the base name, "Strings" and the rest |
| StringsFilter.RewriteOnce | Vacuum.Filters/Filters/StringsToDataAndCsFilter.cs:63-64 | rewriting again changes nothing unless the base name itself starts with Xxx |
| StringsFilter.ReadStringsFile | Vacuum.Filters/Filters/StringsToDataAndCsFilter.cs:96-99 | succeeds exactly when every value is a string and the keys are distinct, and gives the pairs in order |
| StringsFilter.CreateStringsData | Vacuum.Filters/Filters/StringsToDataAndCsFilter.cs:101-133 | one entry per pair, in order, with its argument count |
| StringsFilter.Entries | Vacuum.Filters/Filters/StringsToDataAndCsFilter.cs:109-130 | entry i has pair i's name and value and its argument count |
| StringsFilter.DataStrings | Vacuum.Filters/Filters/StringsToDataAndCsFilter.cs:68 | the data array is the entries' values in order |
| StringsFilter.DataFollowsFile | Vacuum.Filters/Filters/StringsToDataAndCsFilter.cs:66-68 | the data file holds the strings file's texts in file order, with entry i named by key i |
| StringsFilter.CountArguments | Vacuum.Filters/Filters/StringsToDataAndCsFilter.cs:116-127 | the counting loop computes ArgCount |
| StringsFilter.ArgCountCountsOpenings | Vacuum.Filters/Filters/StringsToDataAndCsFilter.cs:119-125 | the count is the number of positions holding a '{' not followed by '{' |
| StringsFilter.ArgCountBounds | Vacuum.Filters/Filters/StringsToDataAndCsFilter.cs:119-125 | a string shorter than two characters has no argument, and no string has more than its length minus one |
| StringsFilter.EscapedBraces | Vacuum.Filters/Filters/StringsToDataAndCsFilter.cs:119-125 | concrete counts: "{{" has 0, "{{0}" has 1, "{0}{1}" has 2 |
| StringsFilter.ArgumentLists | Vacuum.Filters/Filters/StringsToDataAndCsFilter.cs:168-181 | the two builders hold the argument names and their declarations joined by ", " |
| StringsFilter.ArgNames | Vacuum.Filters/Filters/StringsToDataAndCsFilter.cs:171-174 | name j is the prefix followed by j |
| StringsFilter.JoinIsStringJoin | Vacuum.Filters/Filters/StringsToDataAndCsFilter.cs:171-181 | the builders' joining equals String.Join |
| StringsFilter.JoinEnds | Vacuum.Filters/Filters/StringsToDataAndCsFilter.cs:176-180 | a join has no leading or trailing separator |
| StringsFilter.ArgumentListEnds | Vacuum.Filters/Filters/StringsToDataAndCsFilter.cs:171-181 | the argument list runs from arg0 to arg(n-1) |
| StringsFilter.ParametersDeclareArguments | Vacuum.Filters/Filters/StringsToDataAndCsFilter.cs:173-174 | parameter j declares argument j |
| StringsFilter.WriteAccessor | Vacuum.Filters/Filters/StringsToDataAndCsFilter.cs:159-185 | entry i's line is a property or a formatting method reading strings[i] |
| StringsFilter.AccessorReadsItsString | Vacuum.Filters/Filters/StringsToDataAndCsFilter.cs:163-184 | each accessor line indexes its own string, and different entries index different strings |
| StringsFilter.CsHeader | Vacuum.Filters/Filters/StringsToDataAndCsFilter.cs:139-155 | the header has its fixed length |
| StringsFilter.WriteCsOutput | Vacuum.Filters/Filters/StringsToDataAndCsFilter.cs:135-190 | the writer produces the header, one accessor per entry and the closing braces |
| StringsFilter.LinesLayout | Vacuum.Filters/Filters/StringsToDataAndCsFilter.cs:135-190 | the file is the header, then entry i's accessor at line header+i, then two closing braces |
| StringsFilter.MapIndexedAt | Vacuum.Filters/Filters/StringsToDataAndCsFilter.cs:157-186 | the accessor of entry i sits at position i |
| PinboardFilter.Filter | Vacuum.Filters/Filters/PinboardToDataFilter.cs:26-57 | one input and one output are required; otherwise the data file receives the rectangle table of the loaded pinboard |
| PinboardFilter.BuildRectangles | Vacuum.Filters/Filters/PinboardToDataFilter.cs:37-44 | the array holds the screen first and then each rectangle by index |
| PinboardFilter.TableFromSlots | Vacuum.Filters/Filters/PinboardToDataFilter.cs:37-44 | a sequence with the screen at 0 and rectangle k at k+1 is the table |
| PinboardFilter.RectangleTable | Vacuum.Filters/Filters/PinboardToDataFilter.cs:37-44 | the table has one more entry than the pinboard has rectangles |
| PinboardFilter.Rectangles | Vacuum.Filters/Filters/PinboardToDataFilter.cs:41-44 | rectangle i has the geometry of info i |
| PinboardFilter.ToRectangle | Vacuum.Filters/Filters/PinboardToDataFilter.cs:39 | a rectangle keeps an info's position and size |
| PinboardFilter.TableKeepsGeometry | Vacuum.Filters/Filters/PinboardToDataFilter.cs:37-44 | two pinboards give the same table exactly when their geometries agree one by one: the names are dropped and nothing else is |

## Left out

- I/O is modelled by the `FileSystem` class and by parameters. Directory creation before writing an output is not modelled. `DateTime.Now` and the executing assembly's directory are parameters.
- Console messages and warnings are not modelled. The exceptions are `Error` values; their message texts are not modelled.
- In `Build.Filter` and `FilterTarget`, reflection (`Activator.CreateInstance`, `PropertyInfo.SetValue`, `MethodInfo.Invoke`) becomes explicit state and an `Invoker` function. That function returns the files after the filter ran and, optionally, an error message.
- The TSON parser and formatter are not part of this model. The content file, the strings file and the hashes file are given parsed. The hashes file is read and written through the `Env` functions `parseHashes` and `formatHashes`. A parsed hashes file keeps the null Global, Targets and element nodes the source can meet.
- SHA1, `ExpandVariables`, `MakeFullPath`, wildcard tests, `GetFiles`, `FilterExtension.Equals` and `Path.GetExtension` are `Env` functions. Their code is not part of this model.
- Command-line parsing, the `Command` dispatch in `Execute`, and `WriteContentFilterUsage`/`WriteParameters` are not modelled. So are the `ShowProperties` printing, template creation, and the debug-only stack trace.
- `ParsedPath.CompareTo` is not part of this model. Paths are strings sorted by ordinal lexicographic order.
- Case-insensitive comparison folds ASCII letters only.
- `EndsWith` in the filter-settings lookup (VacuumLibrary/VacuumTool.cs:381) and `StartsWith("Xxx")` in the strings filter (Vacuum.Filters/Filters/StringsToDataAndCsFilter.cs:63) use the current culture in .NET. The model compares them ordinally.
- Dictionary and HashSet enumeration order is not modelled:
  - the successor sets are insertion-ordered lists;
  - `graph.First()` in the circular-dependency error is modelled as some remaining target.
- Null nodes in the content file are not modelled. The top-level `FilterAssemblies`, `FilterSettings`, `Properties` and `Targets` arrays and a property's `Value` may be null in the file (VacuumLibrary/ContentFileV4.cs:44-49), and the source then throws a null dereference (VacuumLibrary/VacuumContext.cs:45, :66, :76; VacuumLibrary/VacuumTool.cs:275, :381). The model's `ContentFile` always has them.
- A setting's `Extensions` is never null (VacuumLibrary/ContentFileV4.cs:27-28). An empty list leaves the class's extensions unchanged, because the assignment sits inside the loop (VacuumLibrary/VacuumTool.cs:394-408). The model does the same.
- ParameterBinding.TruncateToInt: the overflow of `(int)` on an out-of-range double is not modelled.
- Tson.NumberNode: TSON numbers are exact reals. Floating-point rounding of parsed numbers is not modelled.
- The MessagePack encoding of the data files is not modelled. A data file is the value it serializes.
- The C# writer's indentation is not modelled. Neither is the expansion of its `{{n}}` placeholders: they are taken as String.Format arguments.
- Parameter descriptions are carried but never read, because only the help text uses them.
- FilterSettings.ApplyFilterSettings: requires the filter classes to be distinct objects. `Contexts.NewContext` guarantees this for the classes it loads.
- `FilterClass` reads the `ForFilter` flag of `ContentFilterParameterAttribute`, while binding reads `Required` and `Default` of `ParameterAttribute`. The model uses one attribute type that has a scope and a default.
- `StringsToDataAndCsFilter.ReadStringsFile`: a duplicate key or a non-string value makes it fail with an unreadable-input error. Which exception the source throws is not modelled.
- The other filters of the repository (copy, SVG, resx and the image compilers) are not modelled.
