# Verified models of mcp-abap-adt

mcp-abap-adt is a server that lets a client work with SAP ABAP systems over HTTP. Most of it hands requests on; this
project models the parts that compute something on the way and proves what they promise. The models keep the branches,
constants and error cases of the source. Where the source updates an object, a list or a map step by step, the model is
a class or a method with loops, proved against a function or a transition system, and the promises are proved of that.

| module | models |
|---|---|
| `Sequences`, `Order`, `Text` | the list, sort and replace operations of JavaScript that the source uses, with their laws |
| `LineScanner`, `WorkerPool`, `SearchSource`, `SearchOutcome` | the source search: a pool of coroutines over one cursor, a cap per target, a deadline, the merge and the truncation flags |
| `SearchSchedules`, `SearchFailures`, `SearchEndToEnd` | which lists the schedules of one search can return, searches that disappoint, and the search as a whole from listing to hits |
| `Glob`, `Deduplication`, `PackageEnumerator` | the object filter, compiled to the text of a regular expression, and the list of targets |
| `SourceReader` | the source units of a target, with the parts of a function group |
| `MapLimited`, `PackageUnits` | bounded-concurrency map, and the expansion of a package into comparable units |
| `ProbeBatch` | probing landscape systems with a worker pool under a time budget |
| `Landscape`, `LandscapeGraph`, `IncludePrecedence`, `LandscapeWarnings` | reading SAP Logon landscape files along a possibly cyclic include graph, and what the graph says about the files read and the definitions merged, and what the warnings say |
| `TransportBatches`, `TransportElsewhere` | packing IN-lists into statements of bounded length, and the join they replace |
| `RowKeys`, `TableCompare`, `TableLaws` | comparing the rows of two tables by key |
| `AtcEntities`, `AtcDecoding`, `AtcWorklist` | coding and decoding of XML entities, the decoding chain against one pass, and the tag machine that attributes ATC findings |
| `BraceMatcher` | finding the closing brace of a block of TypeScript |
| `SourceNormalisation` | comparing source texts up to line ends and trailing blanks |
| `Breakpoints`, `OverlappingOperations` | the registry of debugger breakpoints against the set the server holds, step by step and with adds and deletes that overlap |
| `AuthLocks` | the lock per destination around token acquisition |

JavaScript runs one coroutine at a time and switches only at an `await`. A concurrent algorithm is therefore a
transition system whose steps are the stretches between two suspensions; "every run" means every interleaving of those
steps, for every number of workers and every answer of the clock. The class of the same module carries out the steps, and
each of its methods is proved to make exactly the step of the transition system.

What an operation computes is defined twice: as the code does it, and independently, as what the result should be, in the
terms of its inputs and with the constants written out. The rows of the table that speak of every element of a result state
the second, and the proofs connect the two.

Some of the promises are not kept in every case. The model then keeps the code as it is, states exactly when the promise
holds, and shows an input for which it does not:

- The order of search results depends on the schedule if there is more than one pump and two targets have hits that agree on
  package, name, include and line, because the comparator does not look at the object type
  (`ScheduleIndependence`, `OrderDependsOnSchedule`).
- A target that has matches can be listed as having none: with a cap below one, and with any cap if the deadline strikes
  before its first hit (`NoHitsList`, `CapZeroSilences`, `DeadlineSilences`).
- Two objects can share a deduplication key if a package name holds a blank (`EnumeratesTheWanted`, `KeysCanCollide`).
- An include cut off at the depth limit can be missing from the landscape, and a file two includes from the root can be lost
  behind a detour. Nothing is lost if no chain of includes from the root has more than six files, and a file more than five
  includes away is always lost (`ReadsExactlyTheReachable`, `ShortChainsComplete`, `ReadIsNear`, `NearFileLost`).
- The comment in the source that the including file wins is not always right: a file that it includes can have been read
  before it, through another file. The file read first wins (`MergePrecedence`, `EarlierWins`, `IncluderBeaten`). On the graph:
  an includer wins, in whatever order the files list their includes, if and only if every chain of at most six files from the
  root to the included file passes it (`ReadBefore`, `IncluderWinsExactly`).
- A function group that a package lists twice can be reported as not comparable and have units all the same, when the two
  expansions answer differently (`ReportedWithUnits`, `ReportedAndListed`); anything else is reported or has units, never both
  (`EveryItemAccounted`).
- A repeated key in the target table shadows the earlier row, so that a clean result does not mean equal tables
  (`TargetConservation`, `CleanExactly`, `ShadowedTargetRow`).
- The brace matcher for input schemas does not know string literals (`SameExactly`, `BraceInString`).
- An add loses breakpoints the registry did not know (`AddKeepsOthers`, `RestartLosesOthers`). Of calls that overlap, only those
  count that the call handled last was built on: those adopted before it began, directly or through others. A breakpoint added
  by any other call is lost, one that a call removed comes back, and the registry need not end with the server's set
  (`EveryInterleaving`, `Survives`, `Agrees`, `ConditionLost`, `StaggeredSurvives`).
- Two requests that wait for one acquisition both go ahead when it ends (`ExclusiveExactlyWhenSafe`,
  `ThreeCanAcquireAtOnce`).
- The comment in the source that decoding the ampersand last keeps doubly encoded entities whole is not always right: a
  character that a numeric reference produces can complete an `&amp;` (`DecodesOnceExactly`, `LetterDecodedTwice`,
  `PairDecodedTwice`).

## Model

| member | source | states |
|---|---|---|
| LineScanner.AllHitsExact | src/lib/search-source/lineScanner.ts:21-41 | the list of hits holds each line asked for with its number and its first 255 characters, once, in order, and nothing else; asked for is a line that in lower case holds the query and the second term and none of the excluded terms, each as a piece of text at some position, and that, if comments are left out, neither begins with a star nor has a double quote as its first character that is not white space |
| LineScanner.HitIsAskedFor | src/lib/search-source/lineScanner.ts:17-41 | the test of a line and the cut to 255 characters do just that |
| LineScanner.ScanLines | src/lib/search-source/lineScanner.ts:43-74 | the scan returns the first `max_hits` of that list, and is capped exactly when the list goes on |
| SearchSource.IncrementalCap | src/lib/search-source/orchestrator.ts:180-216 | handing the remaining allowance from unit to unit cuts the target's concatenated hits where one cut at `maxHits` would |
| SearchSource.ProbeStep | src/lib/search-source/orchestrator.ts:180-194 | when the allowance is used up exactly at the end of a unit, the probe finds out whether a later unit has another hit |
| SearchSource.ScanStep | src/lib/search-source/orchestrator.ts:195-216 | a capped scan leaves the target with its first `maxHits` hits, an uncapped one with all hits so far |
| SearchSource.ClaimKeepsInv | src/lib/search-source/orchestrator.ts:95-103 | the stop check and `next++` in one step keep the pool's invariant, with or without the deadline |
| SearchSource.UnitKeepsInv | src/lib/search-source/orchestrator.ts:170-217 | so does the arrival of a unit, including the deadline check before it |
| SearchSource.FinishKeepsInv | src/lib/search-source/orchestrator.ts:219-229 | so does delivering a target's hits or listing it without hits |
| SearchSource.NoPumpStuck | src/lib/search-source/orchestrator.ts:94-104 | in every reachable state every pump that has not stopped can go on |
| SearchSource.ResumeProgresses | src/lib/search-source/orchestrator.ts:86-107 | every step leaves less to do, so every run ends |
| SearchSource.EveryRun | src/lib/search-source/orchestrator.ts:86-107 | for every interleaving, number of pumps and clock: hits, no-hits list, source count and cap flag are those of what the run has done to each target (finished in full, cut by the deadline before a unit, or nothing delivered); when all pumps have stopped, a target has finished or was not begun, and without the deadline all have finished in full; with one pump in the given order |
| SearchSource.SearchRun.ClaimNextTarget | src/lib/search-source/orchestrator.ts:95-102 | makes exactly the claiming step on the shared cursor and the timeout flag |
| SearchSource.SearchRun.ScanUnit | src/lib/search-source/orchestrator.ts:175-216 | the unit loop's body, which counts and scans, makes exactly the step defined by the target's hit list |
| SearchSource.SearchRun.DeliverTarget | src/lib/search-source/orchestrator.ts:219-229 | pushing to the shared lists makes exactly the finishing step |
| SearchSource.SearchRun.Run | src/lib/search-source/orchestrator.ts:86-107 | resuming any pump at any time ends, in a state some run reaches with every pump stopped |
| SearchOutcome.HitLePreorder | src/lib/search-source/orchestrator.ts:237-243 | the comparator of hits is a total preorder |
| Order.LessExactly | src/lib/search-source/orchestrator.ts:237-243 | one string is less than another if they are the same up to a position at which it ends or has the smaller character |
| SearchOutcome.HitTies | src/lib/search-source/orchestrator.ts:237-243 | two hits tie exactly when package, object name, include and line agree; the object type plays no part |
| SearchOutcome.HitLeExactly | src/lib/search-source/orchestrator.ts:237-243 | hits go by package, object name, include and line, the strings alphabetically |
| SearchOutcome.TargetLeExactly | src/lib/search-source/orchestrator.ts:245-252 | targets go by package, type and name; the types are classes, function groups, programs |
| SearchSchedules.GivenOrder | src/lib/search-source/orchestrator.ts:93-106 | some run delivers the targets in their given order |
| SearchSchedules.HeldUp | src/lib/search-source/orchestrator.ts:93-106 | with more than one pump, some run delivers any chosen target after all others |
| SearchSchedules.ScheduleIndependence | src/lib/search-source/orchestrator.ts:162-243 | all runs that the deadline does not cut short return the same list if and only if there is one pump or no two targets have hits that tie |
| SearchFailures.OrderDependsOnSchedule | src/lib/search-source/orchestrator.ts:237-243 | a class and a program of one name, for which two runs return different lists |
| SearchOutcome.DeliveredElements | src/lib/search-source/orchestrator.ts:162-243 | whatever the order, the list is sorted by package, object name, include and line, and is, as a multiset, the capped hits of all targets |
| SearchOutcome.NothingLost | src/lib/search-source/orchestrator.ts:180-219 | the caps cut nothing if and only if no target has more than `maxHits` matches |
| SearchOutcome.CapFlagIsHonest | src/lib/search-source/orchestrator.ts:219-268 | of a run the deadline did not cut short, `by_object_cap` is false if and only if the results are every match in the kept targets, each once |
| SearchOutcome.PrefixesDelivered | src/lib/search-source/orchestrator.ts:162-243 | of any run: the list is sorted and made of a prefix of each target's capped hits |
| SearchOutcome.NoHitsNames | src/lib/search-source/orchestrator.ts:219-252 | of any run: the no-hits list names exactly the finished targets that delivered nothing |
| SearchOutcome.NoHitsSorted | src/lib/search-source/orchestrator.ts:219-268 | the no-hits list is given if asked for, sorted by package, type and name |
| SearchOutcome.NoHitsList | src/lib/search-source/orchestrator.ts:175-252 | of any run: the list names only targets without a match, if and only if no finished target with a match met a cap below one or the deadline before its first hit |
| SearchOutcome.NoHitsListComplete | src/lib/search-source/orchestrator.ts:219-252 | of a run without the deadline: it names exactly the targets without a match, if and only if the cap is at least one or there is no match |
| SearchFailures.CapZeroSilences | src/lib/search-source/orchestrator.ts:180-225 | with a cap of zero, a target with a match is listed as having none |
| SearchFailures.DeadlineSilences | src/lib/search-source/orchestrator.ts:175-225 | with any cap, a target with a match whose first unit arrives after the deadline is listed as having none |
| SearchOutcome.NoHitsScheduleIndependent | src/lib/search-source/orchestrator.ts:245-252 | the sorted no-hits list does not depend on the schedule |
| SearchOutcome.RunPool | src/lib/search-source/orchestrator.ts:156-269 | the result of the pool: list, no-hits list, counts and flags as the run has left them for each target, and complete unless the deadline fired |
| SearchOutcome.KeptTargetsExactly | src/lib/search-source/orchestrator.ts:119-150 | the first 500 targets are kept, or as many as asked for; a negative number leaves out that many at the end |
| SearchOutcome.JobExactly | src/lib/search-source/orchestrator.ts:119-135 | 100 hits are taken of each, or as many as asked for; a time budget counts if it is positive |
| SearchOutcome.RunSearchSource | src/lib/search-source/orchestrator.ts:109-269 | the three argument errors in order; otherwise the outcome above for the targets kept, with counts and flags, by a pool of 8 pumps or as many as asked for, at least one and at most sixteen |
| SearchEndToEnd.FindsExactlyTheMatches | src/lib/search-source/orchestrator.ts:139-269 | with all three flags down, and keys that tell the objects asked for apart, the results are, sorted and each once, exactly the lines asked for in the units of the objects that the listed items denote |
| Glob.GlobToPattern | src/lib/search-source/packageEnumerator.ts:38-46 | the loop emits the compiled text between the two anchors |
| Glob.ReadBack | src/lib/search-source/packageEnumerator.ts:38-46 | read as a regular expression, the text has one term per character of the pattern: dot-star, dot or the literal |
| Glob.CompilePreservesMeaning | src/lib/search-source/packageEnumerator.ts:38-46 | for every pattern and name, the expression accepts the name if and only if the name can be cut into one piece per pattern character, wildcards taking no line terminator |
| Glob.OnOneLine | src/lib/search-source/packageEnumerator.ts:38-46 | on a name without line terminators that is the usual meaning of `*` and `?`, ignoring case |
| PackageEnumerator.EnumerateScanTargets | src/lib/search-source/packageEnumerator.ts:48-87 | the nested loops return the sorted first targets of each key among the wanted items, or the error of the first package that cannot be listed |
| PackageEnumerator.ListingExactly | src/lib/search-source/packageEnumerator.ts:57-60 | the packages are listed in order, by their names in upper case, up to the first that cannot be listed |
| PackageEnumerator.ScanItem | src/lib/search-source/packageEnumerator.ts:63-76 | one item extends the set of keys and the list exactly as the reference does |
| PackageEnumerator.EnumeratedList | src/lib/search-source/packageEnumerator.ts:59-86 | the list is sorted by package, type and name and free of duplicates; each target in it is denoted by an item that is no package, has type PROG/P, FUGR/F or CLAS/OC as the target is a program, a function group or a class, of a type asked for, with a name that fits the filter; and each target denoted has one of its key in the list |
| PackageEnumerator.EnumeratesTheWanted | src/lib/search-source/packageEnumerator.ts:63-76 | it is exactly the set of the targets denoted if and only if no two different ones share a key |
| PackageEnumerator.KeyExactly | src/lib/search-source/packageEnumerator.ts:68 | the key is package, type and name with blanks between |
| PackageEnumerator.BlankFreePackages | src/lib/search-source/packageEnumerator.ts:68-70 | keys tell targets apart as long as package names hold no blank |
| PackageEnumerator.KeysCanCollide | src/lib/search-source/packageEnumerator.ts:68-70 | two different objects with one key, of which the second is dropped |
| Deduplication.SortedFirsts | src/lib/search-source/packageEnumerator.ts:68-86 | sorting the first elements of all keys gives a sorted list without duplicates, with one element per key, which drops nothing but repetitions if and only if no two different elements share a key |
| SourceReader.SplitLinesJoin | src/lib/search-source/sourceReader.ts:34-36 | the lines hold no line feed and joined again give the text with CRLF turned into LF |
| SourceReader.SplitLinesUnique | src/lib/search-source/sourceReader.ts:34-36 | no other list of lines does |
| SourceReader.ChildrenRead | src/lib/search-source/sourceReader.ts:55-110 | the parts of a function group are read in the order of type and name, each once: the children whose type begins with FUGR/, except modules named VIEW and so on; they are all of those if and only if no two different ones share a key |
| SourceReader.BarFreeTypes | src/lib/search-source/sourceReader.ts:105-107 | keys tell parts apart as long as types hold no bar |
| SourceReader.UnitsExactly | src/lib/search-source/sourceReader.ts:63-130 | the units of a target are that of its program, that of its class, or those of its parts, a module being read as a module of the group and any other part as an include, each under its own name; for groups as long as types hold no bar |
| SourceReader.GroupUnitsInOrder | src/lib/search-source/sourceReader.ts:110-127 | and those of a group come in the order of its parts |
| SourceReader.CollectChildren | src/lib/search-source/sourceReader.ts:100-109 | the loop keeps the first of each key among the wanted parts |
| SourceReader.ReadSourceUnits | src/lib/search-source/sourceReader.ts:63-130 | the generator yields the units specified, for programs, classes and function groups, skipping what cannot be read |
| MapLimited.StepKeepsInv | src/lib/adt/packageUnits.ts:211-220 | taking an index, finishing a call and storing its result keep the ownership ledger and the results |
| MapLimited.EveryRun | src/lib/adt/packageUnits.ts:203-224 | for every interleaving and limit the results are `fn` of the items in item order, and the captured variables are those of a sequential run in some order |
| MapLimited.NoWorkerStuck | src/lib/adt/packageUnits.ts:211-220 | in every reachable state every worker that has not returned can go on |
| MapLimited.StepProgresses | src/lib/adt/packageUnits.ts:211-220 | every step leaves less to do |
| MapLimited.Run.constructor | src/lib/adt/packageUnits.ts:208-213 | the number of workers is the limit, at most one per item and at least one |
| MapLimited.Run.StepWorker | src/lib/adt/packageUnits.ts:213-219 | the worker's code makes exactly the step |
| MapLimited.Run.Finish | src/lib/adt/packageUnits.ts:222-223 | waiting for all workers ends with every result in place |
| PackageUnits.Classify | src/lib/adt/packageUnits.ts:114-147 | one slot per directly readable item and per function group, in package order; the rest is reported |
| PackageUnits.Expanded | src/lib/adt/packageUnits.ts:155-187 | whatever the order of the calls, every group is expanded, and the empty ones are reported |
| PackageUnits.Reassemble | src/lib/adt/packageUnits.ts:189-197 | the slots in order give the units in order |
| PackageUnits.CollectComparableUnits | src/lib/adt/packageUnits.ts:88-200 | whatever the schedule and limit, and whatever each call answers: the units are, item by item in order, that of an object read under its own address (name in upper case, type, no parent, address and `/source/main`), or those of the modules of a function group (FUGR/FF, the group as parent, `fmodules` in the address) followed by those of its includes (FUGR/I, `includes`), where of several expansions of one group name the one that finished last counts; nothing for any other type or an item not asked for; eight workers unless told otherwise |
| PackageUnits.UnitsExactly | src/lib/adt/packageUnits.ts:96-197 | a unit is in the result if and only if it is that of an item, field by field as above |
| PackageUnits.CallsExactly | src/lib/adt/packageUnits.ts:141-160 | an expansion is asked for once for each function group looked at, in the order of the items |
| PackageUnits.KeptExactly | src/lib/adt/packageUnits.ts:154-183 | the expansion that counts for a name is the last to finish of those made for it |
| PackageUnits.KeptIsCall | src/lib/adt/packageUnits.ts:154-183 | for each group expanded, one of the calls made for its name counts |
| PackageUnits.EveryItemAccounted | src/lib/adt/packageUnits.ts:114-197 | unless it is a group listed more than once, a considered item is reported if and only if it has no units in the result, and these are all that its own reads yield |
| PackageUnits.ReportedWithUnits | src/lib/adt/packageUnits.ts:182-197 | a group is reported and has units if and only if a call for the same entry yields none and the call that counts for the name yields some |
| PackageUnits.ReportedAndListed | src/lib/adt/packageUnits.ts:155-187 | a group listed twice of which that is so |
| PackageUnits.MissingExactly | src/lib/adt/packageUnits.ts:114-186 | an entry, name in upper case and type, is reported if and only if it stands for an item looked at whose address cannot be built, whose group has neither modules nor includes, or whose type is not compared |
| PackageUnits.MissingCounted | src/lib/adt/packageUnits.ts:114-186 | and as often as it stands for one |
| ProbeBatch.StepKeepsInv | src/lib/landscape/probe.ts:274-283 | a turn of a worker's loop keeps every claimed system probed or being probed by exactly one call |
| ProbeBatch.EveryRun | src/lib/landscape/probe.ts:265-291 | for every interleaving and clock, the systems with an address before some position are probed, once each, and no other is touched; if the budget ended no worker that position is the end; without workers nothing is probed |
| ProbeBatch.StepProgresses | src/lib/landscape/probe.ts:273-284 | every step leaves less to do |
| ProbeBatch.ProbeRun.constructor | src/lib/landscape/probe.ts:286-289 | the number of workers is the smaller of the concurrency and the number of systems, and can be zero |
| ProbeBatch.ProbeRun.StepWorker | src/lib/landscape/probe.ts:273-284 | the loop's body makes exactly the step |
| ProbeBatch.ProbeRun.Finish | src/lib/landscape/probe.ts:286-291 | waiting for all workers ends with the probes described |
| Landscape.ParseInv | src/lib/landscape/landscapeReader.ts:57-224 | what one parse of a fresh file keeps about visited set, files read, warnings, services and workspaces, at any depth and whatever was visited before |
| Landscape.ReadOnce | src/lib/landscape/landscapeReader.ts:63-79 | on any include graph no file is read twice, only reachable files are read, and a visited file that was not read is malformed and has a warning |
| Landscape.ReadsExactlyTheReachable | src/lib/landscape/landscapeReader.ts:153-215 | the files read are exactly the reachable ones if and only if every readable file named in a depth warning was read on another way |
| LandscapeGraph.ShortChainsComplete | src/lib/landscape/landscapeReader.ts:153-215 | they are exactly the reachable ones if no chain of different readable files from the root, each including the next, has more than six |
| LandscapeGraph.ReadIsNear | src/lib/landscape/landscapeReader.ts:178-195 | a file that is read is at most five includes from the root |
| LandscapeGraph.NearFileLost | src/lib/landscape/landscapeReader.ts:173-181 | a file two includes from the root that is never read, because the file including it is first met at depth five |
| LandscapeGraph.DetourExists | src/lib/landscape/landscapeReader.ts:173-181 | a landscape of that shape |
| Landscape.NoDepthWarningMeansComplete | src/lib/landscape/landscapeReader.ts:178-181 | without a depth warning the files read are exactly the reachable ones |
| Landscape.MergePrecedence | src/lib/landscape/landscapeReader.ts:101-114 | a service is merged if and only if a file read defines it, as the first of them does: the last service in the file with that uuid, not blank, and no type or type SAPGUI; workspaces and unresolved includes are those of all files read |
| LandscapeGraph.ReadAfterIncluder | src/lib/landscape/landscapeReader.ts:188-197 | every file but the root is read after a file that includes it |
| LandscapeGraph.EarlierWins | src/lib/landscape/landscapeReader.ts:201-206 | of two files that alone define a service differently, the merged one is the first file's exactly if it was read earlier, whichever includes the other |
| LandscapeGraph.IncluderBeaten | src/lib/landscape/landscapeReader.ts:201-206 | a landscape in which an included file beats its includer |
| IncludePrecedence.ReadBefore | src/lib/landscape/landscapeReader.ts:153-215 | a file through which every chain of at most six files from the root to another leads is read before that other |
| IncludePrecedence.ParseAlong | src/lib/landscape/landscapeReader.ts:167-197 | where each file of a chain of at most six includes the next one first, the chain is read first |
| IncludePrecedence.IncluderWinsExactly | src/lib/landscape/landscapeReader.ts:153-215 | of two files that alone define a service differently, one gives the merged definition whenever the other is read, in whatever order the files list their includes, if and only if every such chain to the other passes it |
| Landscape.LandscapeReader.ParseServices | src/lib/landscape/landscapeReader.ts:101-114 | per uuid, not blank, the last service without a type or with type SAPGUI; and in order a warning for each service with a uuid and another type |
| Landscape.LandscapeReader.ParseLandscapeXml | src/lib/landscape/landscapeReader.ts:57-224 | the recursion on the shared visited set computes the specified traversal |
| Landscape.LandscapeReader.FollowInclude | src/lib/landscape/landscapeReader.ts:157-215 | one include: skipped, recorded, warned about or merged, in the order of the checks |
| Landscape.ReadLandscapeFile | src/lib/landscape/landscapeReader.ts:229-254 | the three error cases, and otherwise the traversal from the root, with the services merged in order |
| LandscapeWarnings.WarningsExactly | src/lib/landscape/landscapeReader.ts:99-215 | each include of a file read is read itself or has a warning, for being too deep, missing or unusable as the case may be; no warning says otherwise; and the warnings about types are those of the files read, in order |
| Landscape.MarkUniqueSids | src/lib/landscape/landscapeReader.ts:371-380 | a sid is marked unique exactly when it is not blank and no other system has it |
| TransportBatches.GreedyIsPacking | src/lib/adt/transportCheck.ts:340-362 | the batches give back the values in order, none is empty, each is a single value or fits the limit |
| TransportBatches.GreedyIsOptimal | src/lib/adt/transportCheck.ts:340-362 | no division into such batches has fewer of them |
| TransportBatches.BatchByLength | src/lib/adt/transportCheck.ts:340-362 | the loop computes the greedy packing |
| TransportBatches.QuoteLength | src/lib/adt/transportCheck.ts:349-364 | the quoted list is two characters shorter than the cost the loop adds up |
| TransportBatches.StatementLength | src/lib/adt/transportCheck.ts:386-394 | every statement stays two characters inside the limit, unless it holds a single name that cannot fit |
| TransportElsewhere.LookUpObjects | src/lib/adt/transportCheck.ts:386-402 | the batches together find exactly the rows whose name is asked for, by statements of at most 253 characters unless a single name is too long |
| TransportElsewhere.LookUpHeaders | src/lib/adt/transportCheck.ts:409-425 | the map holds the header of every request asked for that has one, found by statements bounded likewise |
| TransportElsewhere.Place | src/lib/adt/transportCheck.ts:427-449 | the last loop places exactly the candidates with a header of status D or L, of one of the eleven functions, and without a parent of our own, with the owner and the status from the header and the pgmid of the first object of that name and type |
| TransportElsewhere.PhasesAreJoin | src/lib/adt/transportCheck.ts:375-452 | filtering in code what the two phases found gives the rows of the single join |
| TransportElsewhere.FindObjectsElsewhere | src/lib/adt/transportCheck.ts:375-452 | the result is, as a multiset, that of the single join; a placement occurs once for each row of E071 that gives rise to it, which is so if its name is not blank and holds no quote, its entry is not in the own tree, and its header is open, releasable and no task of it, with owner and status from the header and pgmid from the first object of that name and type |
| TransportElsewhere.JoinExact | src/lib/adt/transportCheck.ts:380-449 | a row of E071 is reported if and only if its name is not blank and holds no quote, it names one of the transport's objects, and it sits in an open, releasable request outside the transport's own tree |
| TransportElsewhere.JoinMember | src/lib/adt/transportCheck.ts:427-449 | a reported placement stands for a row of E071 with the owner and status of its header and the pgmid of the transport's object |
| TransportElsewhere.JoinCounted | src/lib/adt/transportCheck.ts:427-449 | the same count for the join |
| TransportElsewhere.AffectedWithinObjects | src/lib/adt/transportCheck.ts:218-231 | the announced number of affected objects never exceeds the number of objects in the transport |
| RowKeys.PrefixedUnique | src/lib/adt/tableCompare.ts:51-65 | a length-prefixed value can be taken off the front in one way only, whatever digits and colons it holds |
| RowKeys.RowKeyInjective | src/lib/adt/tableCompare.ts:58-65 | two rows have equal keys if and only if they agree on every key field |
| TableCompare.IndexTarget | src/lib/adt/tableCompare.ts:117-118 | the index holds the last target row of each key |
| TableCompare.CompareFields | src/lib/adt/tableCompare.ts:134-139 | exactly the columns in which the rows hold different texts, with the text of the source and of the target, in column order |
| TableCompare.ScanAll | src/lib/adt/tableCompare.ts:120-149 | the source loop with its set of seen keys computes the specified scan |
| TableCompare.CompareTableRows | src/lib/adt/tableCompare.ts:79-169 | the error without key fields; otherwise the key fields without MANDT, the columns of both sides that are neither MANDT nor ignored nor keys, in ascending order, every source row accounted for as below, and the keys of the target rows without a partner, in order |
| TableCompare.ScanExactly | src/lib/adt/tableCompare.ts:125-149 | in order: the key of each source row without a partner; the key of each row that differs from the last target row with its key, with the differences while fewer than the cap (200 by default) are listed; the rest counted as identical |
| TableCompare.ListsUnique | src/lib/adt/tableCompare.ts:113-115 | a sorted list of a set of columns is unique, so the compared columns are determined |
| TableLaws.SourceConservation | src/lib/adt/tableCompare.ts:125-149 | source rows = identical + different + only in source, always |
| TableLaws.TargetConservation | src/lib/adt/tableCompare.ts:117-156 | the same equation for the target holds if and only if as many source rows as target rows have a partner |
| TableLaws.UniqueKeysBalance | src/lib/adt/tableCompare.ts:117-156 | which is so when keys are unique on both sides |
| TableLaws.ShadowedTargetRow | src/lib/adt/tableCompare.ts:117-118 | a repeated target key whose earlier row, though different, is neither compared nor listed |
| TableLaws.CleanMeansEqual | src/lib/adt/tableCompare.ts:125-156 | with unique target keys, nothing is reported if and only if both sides have the same keys and partners agree on every column that is not ignored |
| TableLaws.CleanExactly | src/lib/adt/tableCompare.ts:117-156 | for any tables: they are equal row by row if and only if nothing is reported and no target row differs from the one that shadows it |
| TableLaws.OneSidedSwap | src/lib/adt/tableCompare.ts:129-156 | swapping the sides swaps the two one-sided lists, in order |
| TableLaws.CountsSwap | src/lib/adt/tableCompare.ts:141-148 | with unique keys the counts of identical and differing rows survive the swap |
| TableLaws.DifferentMembers | src/lib/adt/tableCompare.ts:134-144 | below the cap the detailed differences are exactly those of the partners that differ: the key, and each column with the text of the source and of the target |
| TableLaws.DifferencesSwap | src/lib/adt/tableCompare.ts:134-148 | below the cap swapping the sides mirrors every field difference |
| AtcEntities.EscapePass | src/lib/adt/atc.ts:64-70 | a pass adds one coded character, provided the ampersand goes first |
| AtcEntities.EscapeSpells | src/lib/adt/atc.ts:64-70 | the four passes spell each special character as its entity and leave the rest |
| AtcEntities.EscapedCharacters | src/lib/adt/atc.ts:64-70 | the four characters and their entities |
| AtcEntities.EscapedIsSafe | src/lib/adt/debuggerBreakpoints.ts:45-51 | the escaped text holds no delimiter, and each ampersand in it begins one of the four entities |
| AtcEntities.DecodePass | src/lib/adt/atc.ts:140-151 | a pass takes one coded character back, provided the ampersand goes last |
| AtcEntities.DecodeEscape | src/lib/adt/atc.ts:140-151 | decoding undoes escaping, for every text and whatever numeric references stand for |
| AtcEntities.NumericExactly | src/lib/adt/atc.ts:147 | a decimal reference is an ampersand, a hash, one or more digits and a semicolon |
| AtcEntities.NumericReplaced | src/lib/adt/atc.ts:147 | every decimal reference is replaced by its character, in place |
| AtcDecoding.FirstPasses | src/lib/adt/atc.ts:142-146 | the first passes together replace each of their entities once: no pass makes or breaks one for another |
| AtcDecoding.OnceIsOwn | src/lib/adt/atc.ts:142-149 | reading once from left to right gives what the last pass would give if it replaced only what the original text spells out |
| AtcDecoding.OnceNamed | src/lib/adt/atc.ts:142-149 | the named references of the one-pass decoder and what they stand for |
| AtcDecoding.DecodesOnceExactly | src/lib/adt/atc.ts:140-151 | for every text: the chain replaces each reference once, and nothing else, if and only if no `&amp;` in the text after five passes has a character that a numeric reference produced |
| AtcDecoding.DecodesOnce | src/lib/adt/atc.ts:140-151 | which is so if no numeric reference of the text names a character of `&amp;` |
| AtcDecoding.LetterDecodedTwice | src/lib/adt/atc.ts:147-149 | a reference that names a letter, and a text that is decoded twice |
| AtcDecoding.PairDecodedTwice | src/lib/adt/atc.ts:147-149 | two references that do so together |
| AtcWorklist.ParseAtcWorklist | src/lib/adt/atc.ts:194-269 | the machine outputs one finding per finding tag, in order, with the object of the last object tag before it, blank if there is none, and the last of the quickfixes tags directly after it, none if there is none; and counts the object tags |
| AtcWorklist.FindingsAreRead | src/lib/adt/atc.ts:222-266 | the declarative attribution agrees with reading the stream from any position on |
| AtcWorklist.ParsePrint | src/lib/adt/atc.ts:174-270 | writing a worklist as tags and parsing them gives back every finding under its own object |
| AtcWorklist.SummariseChecks | src/lib/adt/atc.ts:361-386 | a check is listed exactly when it has findings, with their number, the worst priority and how many have it |
| BraceMatcher.SearchIsFirst | tools/generate-tools-docs.js:178-216 | the scan finds the first closing brace at which the depth outside literals returns to zero, and fails exactly when there is none |
| BraceMatcher.ItemsNeutral | tools/generate-tools-docs.js:185-214 | well-formed text inside a block (code, escapes, three kinds of literals, nested blocks) leaves the scanner as it was |
| BraceMatcher.FindsTheClosingBrace | tools/generate-tools-docs.js:178-216 | for every block of that grammar and whatever follows, the brace found is the block's own |
| BraceMatcher.FindMatchingBrace | tools/generate-tools-docs.js:178-216 | the loop with its flags computes that scan, or -1 |
| BraceMatcher.FindToolDefinitionBlock | tools/generate-tools-docs.js:96-148 | the block cut out starts at the first brace after the first `export const TOOL_DEFINITION` and ends where the matcher says |
| BraceMatcher.NaiveClose | tools/generate-tools-docs.js:158-170 | the loop without flags finds the first position where all braces cancel |
| BraceMatcher.SameExactly | tools/generate-tools-docs.js:150-171 | for every text the results are the same if and only if the braces in literals balance out up to the right brace, and cancel the true depth at no closing brace before it, or at none where there is no right brace |
| BraceMatcher.BraceInString | tools/generate-tools-docs.js:158-170 | a closing brace in a string at which it stops |
| BraceMatcher.NaiveAgreesWithoutHiddenBraces | tools/generate-tools-docs.js:150-171 | in particular, in success and in failure, when no literal or escape holds a brace |
| SourceNormalisation.EndingsThenSplit | src/lib/verifyWrite.ts:37-39 | the two replacements and the split cut a text at CRLF, CR and LF |
| SourceNormalisation.NormalizeIsContent | src/lib/verifyWrite.ts:35-43 | the chain joins the trimmed lines without the empty ones at the end |
| SourceNormalisation.ContentExactly | src/lib/verifyWrite.ts:35-43 | those lines are the only ones that are the lines of the text, cut at CRLF, CR and LF, without blanks and tabs at their ends, up to the last that is not empty |
| SourceNormalisation.NormalizeEqual | src/lib/adt/secondarySystem.ts:273-281 | two texts normalise equally if and only if those lists of lines are equal |
| SourceNormalisation.NormalizeIdempotent | src/lib/verifyWrite.ts:35-43 | normalising twice is normalising once |
| SourceNormalisation.VerifySourceWritten | src/lib/verifyWrite.ts:57-107 | verified exactly when the source read back and the one sent have the same such lines; otherwise the reason; the two lengths |
| Breakpoints.AdoptDistinct | src/lib/adt/debuggerBreakpoints.ts:101-107 | an answer with distinct, non-empty URIs is adopted as it is |
| Breakpoints.EveryRun | src/lib/adt/debuggerBreakpoints.ts:98-224 | over every sequential run, with failures and restarts, the registry equals the server's set after each success and is unchanged by each failure |
| Breakpoints.AddedSet | src/lib/adt/debuggerBreakpoints.ts:176-191 | after an add the server holds the new breakpoint at its URI and, elsewhere, exactly what the registry held |
| Breakpoints.AddKeepsOthers | src/lib/adt/debuggerBreakpoints.ts:169-191 | an add keeps every other breakpoint if and only if the registry knew them |
| Breakpoints.DeletedSet | src/lib/adt/debuggerBreakpoints.ts:194-210 | a delete removes exactly the given id, and with an unknown id sends nothing |
| Breakpoints.RestartLosesOthers | src/lib/adt/debuggerBreakpoints.ts:98-107 | after a restart the first add drops what the server still held |
| OverlappingOperations.RequestConsistsOf | src/lib/adt/debuggerBreakpoints.ts:181-188 | the request of an add or a delete is the registry it starts from under the layer of that operation |
| OverlappingOperations.EveryInterleaving | src/lib/adt/debuggerBreakpoints.ts:98-224 | in every state that any number of overlapping adds and deletes can reach, whichever fail, the registry and the server's set are what the layers of the calls adopted and handled last leave, the top layer at each URI deciding; the layers below a call's own are, as soon as it has begun, those of a call adopted already |
| OverlappingOperations.Survives | src/lib/adt/debuggerBreakpoints.ts:181-188 | a breakpoint stands on the server if and only if the top layer at its URI, of the call handled last, adds it, or no layer covers the URI and it was registered before |
| OverlappingOperations.NewSurvives | src/lib/adt/debuggerBreakpoints.ts:181-188 | a new breakpoint survives if and only if the call that adds it is the one handled last, or one that call was built on, and no later one of those covers its URI |
| OverlappingOperations.Agrees | src/lib/adt/debuggerBreakpoints.ts:181-188 | the registry holds the same as the server if and only if the layers of the calls adopted and handled last leave the same at each URI that one of them covers |
| OverlappingOperations.AloneIsApply | src/lib/adt/debuggerBreakpoints.ts:176-224 | a call that nothing overlaps makes the sequential step, in success and in each kind of failure |
| OverlappingOperations.AddSurvives | src/lib/adt/debuggerBreakpoints.ts:181-188 | where all the adds overlap, the server ends with what the one handled last would have left alone |
| OverlappingOperations.AddsAgree | src/lib/adt/debuggerBreakpoints.ts:181-188 | and the registry with the server's set if and only if the add handled last and the one adopted last transmit the same, or were both registered before |
| OverlappingOperations.ConditionLost | src/lib/adt/debuggerBreakpoints.ts:181-188 | a run in which setting a condition is undone by another add |
| OverlappingOperations.StaggeredSurvives | src/lib/adt/debuggerBreakpoints.ts:181-188 | a run of three adds in which the first survives without being handled last or registered before, and the second is lost |
| Breakpoints.DebuggerBreakpoints.AddBreakpoint | src/lib/adt/debuggerBreakpoints.ts:176-191 | reading, syncing and adopting makes exactly the add step, success or failure |
| Breakpoints.DebuggerBreakpoints.DeleteBreakpoint | src/lib/adt/debuggerBreakpoints.ts:194-210 | the same for a delete, including the error for an unknown id |
| Breakpoints.DebuggerBreakpoints.DeleteAllBreakpoints | src/lib/adt/debuggerBreakpoints.ts:218-224 | the same for deleting all |
| AuthLocks.StepKeepsInv | src/server/StreamableHttpServer.ts:208-224 | arriving, the finally callback and the resumption of the waiters keep the invariant of the map |
| AuthLocks.EveryInterleaving | src/server/StreamableHttpServer.ts:208-224 | an entry names an acquisition in flight, the one started last, so an older one never removes a newer entry, and no entry is left without one in flight; whoever has begun to acquire did so after the acquisition it found on arrival had succeeded |
| AuthLocks.ExclusiveExactlyWhenSafe | src/server/StreamableHttpServer.ts:209-222 | a run never has two acquisitions for one destination in flight if and only if no acquisition succeeds while two requests await it, or while one awaits it and a newer one is registered |
| AuthLocks.TwoOverlappingExclude | src/server/StreamableHttpServer.ts:209-222 | with at most two overlapping requests per destination acquisitions exclude each other |
| AuthLocks.ThreeCanAcquireAtOnce | src/server/StreamableHttpServer.ts:211-223 | a run of three requests after which two acquire at once |
| AuthLocks.WakeEachIsResolve | src/server/StreamableHttpServer.ts:212-222 | the waiters going on one after the other, each overwriting the entry of the one before, is the step of the model |
| AuthLocks.RequestHandler.ReachLock | src/server/StreamableHttpServer.ts:211-222 | a request that finds an entry waits for it, any other starts acquiring and registers itself |
| AuthLocks.RequestHandler.AcquisitionSettled | src/server/StreamableHttpServer.ts:217-221 | the callback removes the entry only if it is its own |
| AuthLocks.RequestHandler.AcquisitionResolved | src/server/StreamableHttpServer.ts:212-223 | the waiters go on without looking at the map again, or fail with what they awaited |

## Left out

- HTTP, ADT, OAuth, DNS and file access: reads are functions of their arguments, or arbitrary replies where they may fail.
- Clocks: a deadline check is an arbitrary boolean (true only if there is a deadline), which allows more than a real clock.
- XML parsing and tag matching: the models start from parsed entries, services, includes and tags.
- Upper- and lower-casing, URL encoding and case folding: functions given from outside, about which nothing is assumed.
- UTF-16: characters are Unicode code points, so lengths count a character outside the basic plane once and not twice, and a `?` of the object filter takes it whole.
- Sorting in place: `sort` is a stable sort on values; comparators are only asked about different elements where they say 1 for equal ones.
- SearchOutcome.RunSearchSource: the resolved packages and enumerated targets are given, free of duplicates as `PackageEnumerator.EnumeratedList` shows them to be; the units of a target are a function of the target, as `SourceReader.UnitsOf` is one, and an exception from enumerating is not modelled.
- PackageEnumerator.EnumerateScanTargets: the flag for subpackages is part of the listing function.
- SourceReader.ReadSourceUnits: the units are yielded as one list, and the requests behind each read, with the parsing of a group's structure, are given from outside.
- MapLimited.Run.Finish: a callback that throws is not modelled; the package expansion catches its errors.
- PackageUnits.CollectComparableUnits: the order of the reported items is that of the schedule, so they are compared as a multiset.
- ProbeBatch.EveryRun: the result of a probe is a function of the address, and a probe that throws is not modelled.
- Landscape.ReadsExactlyTheReachable: reachability is through includes whose URL resolves to a local file; resolving URLs is not part of this model, and neither is the warning for a URL that cannot be resolved.
- Landscape.MergePrecedence: the insertion order of services, and the order of unresolved includes, are not stated.
- Landscape.ReadLandscapeFile: up to the merged data; turning services into systems, folders and sessions, and the final sort, only add case splits. The collection of workspace items is part of a file's contents.
- TransportElsewhere.FindObjectsElsewhere: the row reader is assumed to honour IN-lists without cutting at 2000 rows, and E070 to have one row per request; values are already trimmed.
- TransportElsewhere.AffectedWithinObjects: the other findings of `analyseTransport`, and gathering a transport's objects, are case splits on status and function.
- TableCompare.CompareTableRows: a row is a map from columns to strings; the order of columns within a row plays no part. The summary of differences is left out.
- AtcWorklist.ParseAtcWorklist: attributes are read already, and a location is kept as it stands; the completeness attribute of the worklist is left out.
- AtcWorklist.SummariseChecks: the counts per priority and per object are the same loop with one counter and are left out.
- AtcEntities.NumericReplaced: which character `String.fromCharCode` yields for a code is a function given from outside.
- BraceMatcher.FindMatchingBrace: scanning properties of an input schema (`parseTopLevelProperties`) is left out.
- Breakpoints.EveryRun: sequential operations, against a server that replaces its set and echoes it with distinct, non-empty URIs.
- OverlappingOperations.EveryInterleaving: a restart of the process while calls are in flight is left out; ids, which the server assigns, are taken as the registry holds them when a delete begins.
- AuthLocks.EveryInterleaving: the continuations waiting for one promise run back to back, as JavaScript's microtasks do here; several token brokers and the requests that skip the lock are left out.
- The reference-counted critical section and the parsing of server addresses: each is settled by reading one body.
