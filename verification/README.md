# The sensor orchestrator, verified

A Dafny model of the orchestrator of the harness framework: it resolves a graph of sensors, brings the
dependencies of a root sensor up, runs the root's step pipeline, and keeps a registry of running sensors that
several processes share under one file lock. The proofs cover what that code promises over all inputs, all
schedules and all interleavings of lock sections. `dafny verify dfyconfig.toml` checks the project.

## Layout

| files | part of the program |
|---|---|
| `Dag.dfy`, `Graphs.dfy`, `Order.dfy` | dependency resolution |
| `Preflight.dfy`, `RunWithDeps.dfy`, `DeathWatch.dfy` | one run: the pass over the dependencies, the root, the watch for dying dependencies |
| `Holders.dfy`, `Registry.dfy`, `LiveDeps.dfy` | the registry: hold records, saving and repair, the lock sections |
| `HoldProtocol.dfy`, `HoldEntries.dfy`, `HoldFailures.dfy`, `PersistentRuns.dfy` | the lock sections of many processes, interleaved |
| `SensorCycles.dfy`, `StaticRefs.dfy`, `Interpolation.dfy` | the static rules |
| `Template.dfy`, `Steps.dfy`, `Engine.dfy`, `InterpolationSound.dfy` | templates, steps and the pipeline at run time; the rules against the runs |
| `Stream.dfy`, `HealthGate.dfy`, `Verdicts.dfy`, `Evidence.dfy` | signal streams |
| `Options.dfy`, `Picks.dfy` | optional values; the positions a filter keeps, the reference for every function that filters a list |
| `SampleContract.dfy`, `ShellQuote.dfy`, `Jsons.dfy` | the two printers |

Code that changes things step by step is modelled by classes, arrays and loops that are proved equal to
functions on values; the promises are then proved of those functions. Protocols are state machines with one
step per lock section, channel operation or shared access, and are proved over every run of steps.

What the outside world answers is an input: sensor files, process liveness, run and attach results, clock
readings, the log seen at each poll, what a command prints. An input is quantified over in every theorem, so
nothing is assumed of it beyond its type, except where a row below says so.

## Where the code falls short of what it promises

Each item names a lemma with a concrete run or input and, where the promise holds at times, the lemma that says exactly
when.

- Two clients under one holder id share one hold record, so the first detach stops the dependency under the second
  (`HoldFailures.SharedIdOrphans`; exactly when: `HoldFailures.DistinctIffHeld`).
- A stop, and the tear-down after a failed health gate, remove the registry entry in a lock section of their own by run
  id. A client that attached in between is left without an entry, even with distinct holder ids
  (`HoldFailures.StopRaceOrphans`, `HoldFailures.GateRaceOrphans`). A process that detaches after it has rebound its own
  record looks for the wrong pid and leaves the record behind (`HoldFailures.StaleAfterRebind`); the program does not
  take that sequence today. The records stay exact precisely as long as each removal meets no other client's record,
  each detach finds its own and no attach takes a dead client's pid for alive (`HoldProtocol.HeldThroughoutIffQuiet`).
  If the stop directly follows the detach that decides it, the removal is always harmless
  (`HoldProtocol.PromptStopIsQuiet`).
- The record of a client that died without detaching counts as a hold: until an attach under the same id reaps it, no
  detach stops the dependency (`HoldProtocol.DetachStopsIffLast`; what reaping leaves: `HoldProtocol.RejoinPids`).
- lib/registry/state.go:117 speaks of the single blocking entry of a sensor; a fresh spawn appends behind the entry of a
  process that has died (`HoldFailures.TwoBlockingEntries`; exactly when: `HoldProtocol.OneBlockingIffNoneBehind`).
- lib/orchestrator/run.go:193-197 says an annotated closing line belongs to a root that was cancelled because a
  dependency died. A root that returns by itself just after a death was found is annotated as well
  (`DeathWatch.UncancelledRootReadsDeath`; it was cancelled exactly when: `DeathWatch.CancelledIffInTime`).
- A persistent run that returns while the registry cannot be read leaves its entry behind
  (`PersistentRuns.LoneRunStrands`; exactly when: `PersistentRuns.AllReturnedRestoresIff`).
- The renderer accepts output keys with dots and trims white space that `\s` does not match, and the static rules see
  neither (`InterpolationSound.DottedKeyIsMissed`; what they see: `StaticRefs.SeenIff`). They also accept a reference to
  an output that an assertion declares, which no assertion ever fills (`InterpolationSound.AssertOutputIsMissing`). A
  reference resolves exactly when a step that has already run and is no assertion declares the key
  (`InterpolationSound.AskResolvesIff`).
- The read after a process was found dead looks at one individual signal only, so a process that has logged a passing
  signal behind one of unknown verdict is reported as silently dead (`HealthGate.SilentDeathCanMiss`; exactly when:
  `HealthGate.SilentDeathMissesIff`).
- lib/watcher/health_gate.go:100-105 promises a cursor past every line consumed; it falls behind by one byte for each line
  that ends in a carriage return, so that later reads begin inside earlier lines (`HealthGate.CursorLagsHere`; exactly
  when: `HealthGate.CursorIffNoReturns`).
- A comment at lib/template/actions.go:18-20 promises that the severity of an earlier step is always populated; no step
  records one, and the accessor always yields the empty string (`Steps.SeverityIsEmpty`). The model follows the code.

Two error branches of the resolver, the `visiting` guard and "did not end at root", can never fire (`Dag.Resolve`).

## Model

| member | source | states |
|---|---|---|
| Dag.Loader.LoadRecursive | lib/orchestrator/dag.go:38-74 | registers only sensors reachable from the id, each as its file describes it; on success everything the new ones require is registered too; it fails only on a reachable unreadable file or a reachable sensor that requires itself, and the visiting guard fires only if an id was marked without being registered |
| Dag.TopoSort | lib/orchestrator/dag.go:88-134 | lists the smallest-first order of the graph, and an error exactly when that order is incomplete or does not end at the root |
| Dag.KahnOrderUnique | lib/orchestrator/dag.go:101-126 | a graph has one smallest-first order, so map iteration order cannot show in the result |
| Dag.SmallestFirstIsTopological | lib/orchestrator/dag.go:109-126 | in that order nothing repeats and each dependency comes before its dependents |
| Dag.KahnCompleteIffAcyclic | lib/orchestrator/dag.go:127-129 | the count test succeeds exactly when the graph has no cycle |
| Dag.RootComesLast | lib/orchestrator/dag.go:130-132 | a complete order of a graph reachable from the root ends with the root |
| Dag.CountEdges | lib/orchestrator/dag.go:89-99 | in-degrees count the required edges and the dependents lists record each edge once |
| Dag.PopLeast | lib/orchestrator/dag.go:109-118 | takes the queued id that precedes all others, as a prefix or by the first differing character, and leaves the others |
| Order.LessIff | lib/orchestrator/dag.go:113 | one id precedes another exactly if it is a proper prefix or has the smaller character at the first difference |
| Dag.Release | lib/orchestrator/dag.go:120-125 | lowers the in-degrees of the dependents and queues exactly those that reach zero |
| Dag.Resolve | lib/orchestrator/dag.go:29-74 | succeeds if and only if everything reachable is readable and lies on no cycle; the result lists each reachable sensor once, dependencies first, root last; each error has its real cause: a reachable unreadable file, a reachable sensor that requires itself, or, with everything readable, a reachable cycle, and then the counts are those of the sensors that could be listed and of all reachable ones; two of the code's errors are unreachable |
| Dag.EarlierIsSmaller | lib/orchestrator/dag.go:109-126 | of two sensors in the resolved order the earlier has the smaller id in that sense, unless the later one was still waiting for a dependency when the earlier was listed |
| Dag.ResolutionUnique | lib/orchestrator/dag.go:29-36 | a root has at most one resolved order |
| Preflight.FirstFailedDep | lib/orchestrator/run.go:215-228 | the first required id whose recorded verdict is fail or error, none exactly when there is none |
| Preflight.RunDeps | lib/orchestrator/preflight.go:56-136 | exit code 0 if and only if some resolved order has valid sensors throughout and passable dependencies; the order is the resolved one whenever there is one; on success a dependency's verdict fails exactly when it or a transitive dependency failed on its own, nothing behind a failure was run or attached, and the root is cascaded exactly when something behind it failed; on every path the acts are the due ones of a prefix of passable dependencies, the signals are exactly theirs and the live stack is theirs; a pass that fails over a valid graph stopped at the first dependency it could not get past, with that dependency's code |
| Preflight.PassIsDetermined | lib/orchestrator/preflight.go:56-136 | that contract leaves nothing open: two outcomes that meet it over the same world are equal, signals, acts, live stack and codes included |
| Preflight.SignalSays | lib/orchestrator/cascade.go:44-62 | the signal of each dependency a pass got past: an error that blames the first of its dependencies that failed, or else what its own run or health gate reported, or a pass for one that came up |
| Preflight.CascadeSays | lib/orchestrator/preflight.go:130-135 | the cascade of the root of a completed pass is an error in the root's name that blames the first of its dependencies that failed, and there is none if none failed |
| Preflight.LiveStackIs | lib/orchestrator/preflight.go:102-121 | the live stack holds, in the order of the acts, exactly the handles of the attaches that left a dependency running |
| Preflight.TaintedIsOwnOrBlocked | lib/orchestrator/preflight.go:92-105 | failing means failing on its own or having something behind it that did |
| Preflight.BlockedByDep | lib/orchestrator/preflight.go:92-96 | a sensor is blocked exactly when a direct dependency is failing |
| Preflight.TaintHasRealSource | lib/orchestrator/cascade.go:19-63 | every failing verdict goes back to a transitive dependency that really ran or was attached and failed |
| RunWithDeps.Run.DetachLiveDep | lib/orchestrator/live_deps.go:371-403 | one detach, and output only if the registry entry was found |
| RunWithDeps.Run.DetachAll | lib/orchestrator/run.go:121-127 | detaches every live dependency once in reverse attach order; a second call does nothing |
| RunWithDeps.Run.RunWithDeps | lib/orchestrator/run.go:61-191 | the pass over the dependencies is the one outcome of `Preflight.RunDeps`; on every return path all attached dependencies are detached exactly once in reverse order, stdout is the whole transcript, a closing line exists exactly on the paths that have one and is then the last line, and the exit code is that of the pass, the cascade or the root |
| RunWithDeps.TranscriptShape | lib/orchestrator/run.go:129-190 | the transcript begins with the lines of the acts in order, has the root's stream exactly if the root ran, and ends with detach lines followed by nothing but the closing line |
| RunWithDeps.ClosingSays | lib/orchestrator/run.go:129-190 | the closing line is the error of a cascade, or the root's own signal, or that signal turned into an error of high severity that names the dependency that died |
| RunWithDeps.DetachLinesAre | lib/orchestrator/live_deps.go:371-403 | one line per detached handle whose entry is still there, in the order of the detaches, and no other |
| DeathWatch.Diagnose | lib/orchestrator/live_dep_death.go:74-86 | missing entry, recorded exit, dead process, in this order of precedence |
| DeathWatch.PollOnce | lib/orchestrator/live_dep_death.go:47-92 | reports the first dead dependency of the live stack, none exactly when all are well |
| DeathWatch.InvHolds | lib/orchestrator/run.go:152-184 | the protocol invariant of root, poller and forwarder in every schedule |
| DeathWatch.DeathIsSettledWhenRead | lib/orchestrator/run.go:152-184 | at most one death is sent, the send never blocks, and what the root reads is final and names a member of the live stack |
| DeathWatch.RecordedDeathIsStable | lib/orchestrator/run.go:152-184 | once the forwarder has signalled, no step changes the recorded death |
| DeathWatch.CancelledRootReadsDeath | lib/orchestrator/run.go:152-184 | without a cancel from outside, a root that was cancelled while it was running always reads the death that cancelled it |
| DeathWatch.CancelledIffInTime | lib/orchestrator/run.go:152-184 | in an undisturbed run that is over, the root was cancelled while it was running if and only if the forwarder cancelled before the root returned |
| DeathWatch.UncancelledRootReadsDeath | lib/orchestrator/run.go:176-197 | a concrete run in which the root returns by itself, is never cancelled, and still reads a death |
| DeathWatch.ClosingNamesLiveDep | lib/orchestrator/run.go:176-190 | the closing line of a run carries exactly the death its root has read, and the dependency it names is a member of the live stack |
| DeathWatch.SomeTaskCanMove | lib/orchestrator/run.go:152-184 | no deadlock: until all three tasks are over, one of them can make a step without outside help |
| DeathWatch.ScheduleIsBounded | lib/orchestrator/run.go:152-184 | every schedule makes at most fourteen steps that are not quiet polls |
| Holders.AddHolder | lib/registry/held_by.go:7-9 | appends one record, in place when there is room |
| Holders.RemoveHolder | lib/registry/held_by.go:17-26 | deletes the first matching record and nothing else, in place |
| Holders.ReapDead | lib/registry/held_by.go:36-48 | compacts the shared array to the survivors and returns the dead sensor records |
| Holders.SelectPartitions | lib/registry/held_by.go:36-48 | reaped and kept records together are a permutation of the old list |
| Holders.SelectIsOrdered | lib/registry/held_by.go:36-48 | what is kept are the records at exactly the positions that satisfy the test, in their order |
| Holders.ReapProperties | lib/registry/held_by.go:36-48 | manual records and live sensors are never reaped |
| Holders.ReapDeadSameIDHolders | lib/orchestrator/live_deps.go:335-344 | compacts away exactly the dead sensor records of one holder id |
| Holders.HasLiveSameIDHolder | lib/orchestrator/live_deps.go:354-361 | finds a live sensor record of the id exactly when there is one |
| Registry.ValidateEntry | lib/registry/sanitize.go:32-51 | accepts exactly the valid entries |
| Registry.Save | lib/registry/state.go:73-94 | writes the state exactly when every entry is valid, and otherwise leaves the file alone |
| Registry.RepairedHoldersOk | lib/registry/sanitize.go:91-113 | the hold records that survive repair are valid |
| Registry.HoldersKeptExactly | lib/registry/sanitize.go:91-113 | the records that survive are, in order, exactly those that are no sensor records with a pid below 1, each unchanged unless its pid is negative and then with pid 0 |
| Registry.HoldersReportedExactly | lib/registry/sanitize.go:91-113 | the reports name, in order, exactly the positions of the invalid records, with their old pids and whether they were dropped |
| Registry.HoldersUntouchedIff | lib/registry/sanitize.go:91-113 | no report about holders exactly when all were valid, exactly when the list is unchanged |
| Registry.RepairedEntryOk | lib/registry/sanitize.go:72-133 | a kept entry becomes valid and is reported on exactly when it changed |
| Registry.EntriesKeptExactly | lib/registry/sanitize.go:72-133 | the entries that survive are, in order, exactly those with a positive pid and pgid; each keeps all its fields but a negative watcher pid, its repaired records, and a missing run id, which becomes its pid in decimal digits followed by -legacy on a blocking entry |
| Registry.ReportsExactly | lib/registry/sanitize.go:72-133 | something is reported exactly if it was wrong with some entry: the field, its old value, and whether an entry or record was dropped for it |
| Registry.DecimalWrites | lib/registry/sanitize.go:119-127 | the digits of a synthesised run id read back as the pid, without a leading zero |
| Registry.RepairedCanBeSaved | lib/registry/sanitize.go:72-133 | repair establishes the invariant that saving checks |
| Registry.RepairKeepsOrder | lib/registry/sanitize.go:72-133 | survivors keep their order and are repaired one by one |
| Registry.ReportsExactlyUnclean | lib/registry/sanitize.go:72-133 | the report is empty exactly when every entry was clean |
| Registry.ReportsExactlyChanges | lib/registry/sanitize.go:72-133 | the report is empty exactly when nothing changed |
| Registry.RepairTwice | lib/registry/sanitize.go:72-133 | a second repair changes and reports nothing |
| Registry.SanitizeAll | lib/registry/sanitize.go:72-133 | the in-place compaction of entries and hold records computes the repair |
| LiveDeps.RegistryFile.Attach | lib/orchestrator/live_deps.go:111-149 | the attach section: join the first blocking entry of the dependency if its process lives, or append a freshly spawned one, then save; failing requirements and a failed start leave the file as it is |
| LiveDeps.RegistryFile.Detach | lib/orchestrator/live_deps.go:371-403 | the detach section removes the first record under the given holder id and pid, decides to stop exactly when none is left, and changes no entry but for its records |
| LiveDeps.RegistryFile.RemoveEntryByRunID | lib/orchestrator/live_deps.go:658-665 | the removal section drops the entries of one run and saves |
| LiveDeps.RegistryFile.Rebind | lib/orchestrator/live_deps.go:800-820 | the rebind section changes the pid of the first matching record in the first blocking entry |
| LiveDeps.RegistryFile.FindBlockingEntry | lib/registry/state.go:119-126 | the first blocking entry of a sensor |
| LiveDeps.RegistryFile.FindEntryByRunID | lib/registry/state.go:140-147 | the first entry of a run |
| LiveDeps.AttachChanges | lib/orchestrator/live_deps.go:111-149 | an attach changes the records of the first blocking entry alone if its process is alive; otherwise it appends the spawned process as a blocking entry with its pids that the client holds, and leaves all others as they are |
| LiveDeps.DetachChanges | lib/orchestrator/live_deps.go:371-403 | a detach deletes the first record of the same process from the first entry of the run and nothing else, and decides to stop exactly if no record is left |
| LiveDeps.RebindChanges | lib/orchestrator/live_deps.go:800-820 | a rebind changes the pid of the first record of the same process in the first blocking entry and nothing else |
| LiveDeps.RemovalChanges | lib/orchestrator/live_deps.go:658-665 | a removal drops exactly the entries of the run and leaves the others unchanged, in order |
| LiveDeps.RemoveMatchIsFirst | lib/registry/held_by.go:17-26 | the section's list function deletes the first match, like the method in place |
| HoldProtocol.SectionsAreSaved | lib/orchestrator/live_deps.go:111-149 | once a client takes part no section of the protocol is refused by the save check |
| HoldProtocol.RejoinPids | lib/orchestrator/live_deps.go:335-361 | whatever was recorded before, after an attach to a running entry the holder id is recorded under exactly those of its old pids that are alive, or, if none is, under the new pid alone |
| HoldProtocol.StepKeepsHeld | lib/orchestrator/live_deps.go:95-403 | with distinct ids one step, a client's crash included, keeps one record per attached client and no orphan, if and only if a removal meets no other client's record, a detach finds its own, and an attach takes no dead client of its id for alive |
| HoldProtocol.HeldThroughoutIffQuiet | lib/orchestrator/live_deps.go:95-403 | over whole runs of any interleaving, with clients that crash and stale records of dead ones: the records are exact at every moment if and only if every step was quiet in that sense |
| HoldProtocol.DetachStopsIffLast | lib/orchestrator/live_deps.go:371-403 | a detach decides to stop exactly when it finds its own record, no other client holds the run, and neither a foreign record nor one of a dead client is left |
| HoldProtocol.PromptStopIsQuiet | lib/orchestrator/live_deps.go:625-725 | a stop that directly follows its detach disturbs nobody |
| HoldProtocol.ForeignUntouched | lib/orchestrator/live_deps.go:371-403 | whatever the ids and records, no step other than a removal touches the manual records and those of strangers |
| HoldProtocol.ForeignStays | lib/orchestrator/live_deps.go:371-403 | over whole runs, whatever the holder ids: an entry with foreign records is never removed and keeps those records in order |
| HoldProtocol.OneBlockingIffNoneBehind | lib/registry/state.go:117-126 | at most one blocking entry per dependency at every moment of a run, if and only if every fresh spawn found none |
| HoldEntries.StepKeepsEntries | lib/orchestrator/live_deps.go:95-403 | in any state of the protocol a removal drops exactly the entries of its run, and every other step keeps all entries with all their fields but the records and adds nothing unless it is an attach that finds no living process |
| HoldEntries.LaterAttachJoins | lib/orchestrator/live_deps.go:111-149 | over whole runs of any interleaving: after an attach that does not spawn behind a dead entry, and as long as its run is not removed, every later attach to the dependency joins that run if its process lives and spawns if it does not |
| HoldFailures.DistinctIffHeld | lib/orchestrator/live_deps.go:347-361 | distinct holder ids are necessary and sufficient for exact records in all quiet runs |
| HoldFailures.SharedIdOrphans | lib/orchestrator/live_deps.go:347-361 | two clients under one id: the first detach orphans the second |
| HoldFailures.StopRaceOrphans | lib/orchestrator/live_deps.go:658-665 | an attach between the deciding detach and the removal is orphaned although all ids are distinct |
| HoldFailures.GateRaceOrphans | lib/orchestrator/live_deps.go:252-285 | an attach to a process in its health gate is orphaned when the gate fails |
| HoldFailures.StaleAfterRebind | lib/orchestrator/live_deps.go:387 | attach, rebind and detach by one process leave its record behind and stop nothing |
| HoldFailures.TwoBlockingEntries | lib/orchestrator/live_deps.go:548-559 | a second attach after the process has died leaves two blocking entries |
| PersistentRuns.InsertSection | lib/orchestrator/lifecycle.go:339-371 | inserts unless the run id is taken, the registry is unreadable or the save is refused |
| PersistentRuns.RemoveSection | lib/orchestrator/lifecycle.go:379-392 | removes the own run id only if the insert went through |
| PersistentRuns.InvHolds | lib/orchestrator/lifecycle.go:339-392 | in every interleaving the file is the initial one followed by the entries of the runs still present |
| PersistentRuns.AllReturnedRestoresIff | lib/orchestrator/lifecycle.go:339-392 | when all runs have returned, the file is what it was before the first insert if and only if no persisted run returned while the registry could not be read |
| PersistentRuns.RestoredIffNonePresent | lib/orchestrator/lifecycle.go:339-392 | at every moment of every interleaving the file is the initial one exactly when no run's entry is in it |
| PersistentRuns.LoneRunStrands | lib/orchestrator/lifecycle.go:383-385 | one run that returns at such a moment leaves its entry behind |
| PersistentRuns.ReadableReturnSucceeds | lib/orchestrator/lifecycle.go:379-392 | a removal with a readable registry is never refused |
| PersistentRuns.ReturnRemovesOwnOnly | lib/orchestrator/lifecycle.go:339-392 | a run never removes another run's entry, in particular not one whose id it collided with |
| SensorCycles.RuleSensorCycles | lib/sensor/validate.go:283-354 | terminates; accepts exactly when no chain of six references in steps or requirements of the sensor files leaves the sensor; in particular rejects every reachable cycle of references, however long; a cycle verdict names a real cycle and a depth verdict a real simple chain |
| SensorCycles.EdgeIff | lib/sensor/validate.go:295-327 | an edge is followed exactly if the file of the one sensor, the checked one before a peer of the same id, names the other in a sensor step or a required sensor, and the other is neither empty nor itself |
| SensorCycles.CycleMakesLongWalk | lib/sensor/validate.go:333-348 | every cycle found is one the depth cap would also have met |
| SensorCycles.ExpandLightens | lib/sensor/validate.go:328-352 | replacing a frame by its children lowers the sum of (degree bound + 1) to the remaining depth |
| SensorCycles.ExhaustedMeansShort | lib/sensor/validate.go:328-353 | an empty stack means every walk was seen and is short |
| Template.SpelledResolves | lib/template/actions.go:69-138 | every fixture, environment, verdict, severity, output and response accessor resolves to exactly what it asks for, and fails exactly when that is not there |
| Template.MatchEndIff | lib/template/actions.go:34-35 | a placeholder stands exactly where the opening, at least one character and no brace, and two closing braces are |
| Template.AccessorIff | lib/template/actions.go:37-40 | an accessor is one identifier, alone or followed by a dot, a letter and further dotted segments |
| Template.CharacterClasses | lib/template/actions.go:34-53 | the character classes of the two patterns, and the white space that trimming removes, by code point |
| Template.RenderActions | lib/template/actions.go:45-67 | the loop renders left to right and stops evaluating at the first failure |
| Template.RenderOkIff | lib/template/actions.go:45-67 | rendering succeeds exactly when every accessor has a value, and otherwise fails with the first that has none |
| Template.RenderPrinted | lib/template/actions.go:34-67 | rendering the printed form of text and holes is their compositional meaning; a text may contain anything, dollar signs included, except the opening of a placeholder |
| StaticRefs.FindAllIsComplete | lib/sensor/validate.go:167 | the scan from left to right misses no match, because no match begins inside another |
| StaticRefs.FindAtIff | lib/sensor/validate.go:167 | the scanner matches exactly where the pattern stands: braces, blanks, steps, an identifier, outputs, an identifier, blanks, braces |
| StaticRefs.SeenIff | lib/sensor/validate.go:167 | the static pattern sees a placeholder that the renderer resolves to a step output exactly when the key is one identifier and only regular blanks surround it; it then finds the same step and key |
| InterpolationSound.SeenIffPlain | lib/sensor/validate.go:167 | the rules find a reference in a text exactly if a placeholder of the text asks the renderer for that output, with one identifier as its key and only regular blanks around it |
| Steps.ExecuteShell | lib/step/shell/shell.go:57-126 | aborted in error unless everything renders and starts; then the worst of exit code and stream, all declared outputs or an error |
| Steps.ShellVerdict | lib/step/shell/shell.go:104-126 | a command that was started and whose outputs could be taken ends with the worst of its signals and its exit code, which the step's own map translates; without an entry 0 passes and anything else fails |
| Steps.ResolveWith | lib/step/shell/shell.go:133-165 | succeeds exactly when every string input renders and every object input names a fixture of the pool |
| Steps.ExecuteHttp | lib/step/http/http.go:55-148 | aborted, network error, or the verdict of expect with all declared outputs or an error |
| Steps.BuildBody | lib/step/http/body.go:24-62 | succeeds exactly when at most one source is declared and that one is available |
| Steps.ExecuteAssert | lib/step/assert/assert.go:53-95 | error without a renderable value, else pass or fail; never an output |
| Steps.ExecuteSensor | lib/step/sensor/sensor.go:70-110 | mirrors the sub-run's verdict and fills every declared output |
| Steps.GoingOnFillsOutputs | lib/step/shell/shell.go:112-124 | a step that lets the run go on has filled exactly its declared outputs, an assertion none |
| Steps.SeverityIsEmpty | lib/step/shell/shell.go:210-236 | asking for the severity of an earlier step always yields the empty string |
| Steps.StepAccessorYields | lib/step/shell/shell.go:210-236 | each accessor of an earlier step yields what that step recorded: verdict, outputs, response status and headers |
| Engine.RunSteps | lib/exec/engine.go:40-83 | executes exactly the shortest prefix that ends in fail or error, or all steps; the stream is their signals in order and one aggregate with the worst verdict over them |
| Engine.AggregateSays | lib/exec/aggregate.go:9-45 | the aggregate lists id, kind, verdict and stderr of each executed step, and carries their worst verdict, spelled out, with its severity |
| Engine.IndividualsSplit | lib/exec/engine.go:40-83 | the stream of a run is the stream of its beginning followed by that of the rest |
| Engine.FailedCommandStops | lib/exec/engine.go:40-83 | a command that exits with a code other than 0 that its step does not map fails and ends the run, whatever it printed and whether or not its outputs can be taken |
| Engine.StopsBeforeLacking | lib/exec/engine.go:40-83 | a run ends without an aggregate exactly before the first step that lacks what its kind needs |
| Engine.ResultOf | lib/exec/engine.go:40-83 | an earlier result is seen under its step's id unless a later step had the same id |
| Engine.TemplatesSee | lib/template/actions.go:69-100 | at every step fixture and environment accessors yield the fixtures and the environment of the run, and fail exactly when the name is not there |
| Engine.FailingStep | skills/heal-sensor/scripts/diagnose.go:133-150 | the last failing step of the list, none exactly when none fails |
| Engine.BlameMatchesAggregate | lib/exec/aggregate.go:16-45 | on a run's aggregate the blamed step is the last one listed exactly when the aggregate fails |
| Interpolation.RuleStepIDsUnique | lib/sensor/validate.go:120-129 | accepts exactly unique ids and names a real duplicate |
| Interpolation.StepIndex | lib/sensor/validate.go:266-276 | maps each id to its first position |
| Interpolation.WalkExpectStrings | lib/sensor/validate.go:249-262 | collects the references of exactly the string leaves of the tree |
| Interpolation.StepOutputsRefsIn | lib/sensor/validate.go:213-244 | collects exactly the references mentioned in the step's templates, in whatever map order |
| Interpolation.RuleInterpolationOrder | lib/sensor/validate.go:169-183 | accepts exactly when every reference names an earlier step; an error names an offending reference |
| Interpolation.RuleInterpolationDeclared | lib/sensor/validate.go:185-202 | accepts exactly when every reference to a known step names a declared output; an error names an offending reference |
| InterpolationSound.ValidateInterpolation | lib/sensor/validate.go:29-49 | the three rules in order accept exactly the sensors the next theorems are about |
| InterpolationSound.AskResolvesIff | lib/template/actions.go:69-138 | with unique ids, in every run, any placeholder for a step output resolves exactly when a step that has already run, and is no assertion, declares that key, however it is written |
| InterpolationSound.AskYields | lib/template/actions.go:69-138 | the placeholder then yields the text that was extracted for the output, or for a sub-run its verdict where that was asked for |
| InterpolationSound.OutputsTextRendersIff | lib/template/actions.go:45-67 | a template that asks only for step outputs renders exactly when each of them is provided in that sense |
| InterpolationSound.AcceptedResolves | lib/sensor/validate.go:169-202 | in every run of an accepted sensor, every reference the rules see in the step up next names a step that has run, and resolves exactly when that step is no assertion |
| InterpolationSound.CleanTextRenders | lib/template/actions.go:45-67 | an accepted sensor renders every template whose placeholders are visible references to steps other than assertions |
| InterpolationSound.CleanStepsGoOn | lib/sensor/validate.go:169-202 | in an accepted sensor with such templates only, a command is started, a request is sent and an assertion is decided exactly when all else is ready: no step ever stops at a template |
| InterpolationSound.HiddenKey | lib/template/actions.go:39 | a key that is no identifier is invisible to the rules, and renders exactly when a step that has already run declares it and is no assertion |
| InterpolationSound.DottedKeyIsMissed | lib/sensor/validate.go:167 | a concrete accepted sensor whose second step can never render |
| InterpolationSound.AssertOutputIsMissing | lib/sensor/validate.go:185-202 | a concrete accepted sensor whose second step asks for a declared output of an assertion and can never render |
| InterpolationSound.AssertedRuns | lib/step/assert/assert.go:53-95 | a run that comes to that second step exists |
| InterpolationSound.DottedRuns | lib/step/shell/shell.go:57-126 | a run of the sensor with the dotted key that comes to its second step exists |
| Stream.CollectedExactly | lib/subprocess/stream.go:274-341 | in every schedule: individuals are the valid ones of an order-preserving interleaving of both streams' matches, nothing lost or repeated; the raw log interleaves both streams; the stderr excerpt is the first 4096 bytes of the newline-terminated lines |
| Stream.InvStep | lib/subprocess/stream.go:274-320 | each step of scanners, closer and collector keeps the invariant, the channel bound included |
| Stream.ExcerptIsCapped | lib/subprocess/stream.go:287-296 | capping line by line is capping the whole at the end |
| Stream.NeverStuck | lib/subprocess/stream.go:270-325 | no schedule deadlocks |
| Stream.ScheduleIsBounded | lib/subprocess/stream.go:270-325 | every schedule ends within a bound linear in the number of lines |
| HealthGate.ReadNextIndividual | lib/watcher/health_gate.go:107-138 | the byte-level read with its cursor |
| HealthGate.IndividualIff | lib/watcher/health_gate.go:140-161 | a line counts exactly if it decodes to an object with a verdict that is none of the nine kinds of notice |
| HealthGate.ReadIsWhole | lib/watcher/health_gate.go:107-138 | on a log of whole lines a read from a line boundary consumes the lines up to the first individual signal once and stops on a boundary |
| HealthGate.CursorLags | lib/watcher/health_gate.go:107-138 | on any log of whole lines a read from a line boundary takes them without their carriage returns, and its cursor falls behind the bytes read by one for each of those |
| HealthGate.CursorIffNoReturns | lib/watcher/health_gate.go:100-138 | the cursor stands where the next line begins exactly if no line that was read ends in a carriage return |
| HealthGate.CursorLagsHere | lib/watcher/health_gate.go:117-120 | a concrete log of one line on which the cursor stops a byte early |
| HealthGate.WaitForReady | lib/watcher/health_gate.go:53-98 | the polling loop over any finite sequence of observations |
| HealthGate.WaitAnswers | lib/watcher/health_gate.go:53-98 | across polls each line is read exactly once in order, each turn's read being the one from the boundary where the turn before stopped to its own; ready comes with the first individual signal of one of the four verdicts if it is pass or warn, failed if it is fail or error; a timeout comes on an expired turn with a live process, has read all the log shows and found nothing decisive; a silent death comes on a turn with a dead process whose last read went to the end of the last log or to its first individual signal; only a turn that has just read an individual signal outlives death or deadline |
| HealthGate.SilentDeathMissesIff | lib/watcher/health_gate.go:77-92 | for every turn that finds the process dead after an empty-handed read, with a last log whose first decisive line is given: the wait answers with a silent death if and only if an individual signal of unknown verdict stands between the point where that read stopped and the line |
| HealthGate.SilentDeathIsDeadTurn | lib/watcher/health_gate.go:77-98 | every silent death comes from such a turn |
| HealthGate.LastReadDecidesIff | lib/watcher/health_gate.go:79-91 | the read after death finds the first decisive signal exactly when no undecided individual stands before it |
| HealthGate.SilentDeathCanMiss | lib/watcher/health_gate.go:79-91 | a concrete log with a passing signal that is answered with a silent death |
| Evidence.SortByRank | lib/signal/aggregate.go:96-101 | stable order, worst rank first |
| Evidence.WorstFirstPermutes | lib/signal/aggregate.go:96-101 | the order is a permutation of the signals |
| Evidence.WorstFirstRanks | lib/signal/aggregate.go:96-101 | signals of rank r or worse are exactly an initial segment of the order |
| Evidence.SelectTopEvidence | lib/signal/aggregate.go:86-117 | exactly the first n items of the evidence in that order, all of it if there are fewer, and nothing for a negative n |
| Evidence.AllEvidenceSplit | lib/signal/aggregate.go:86-117 | the evidence of some signals followed by others is theirs followed by that of the others |
| Evidence.MoreEvidenceExtends | lib/signal/aggregate.go:86-117 | a larger n only adds at the end |
| Evidence.MaxStreamVerdict | lib/signal/aggregate.go:67-80 | the worst verdict, spelled out, with the severity of the first signal that has it, or pass and info |
| Evidence.CountVerdicts | lib/signal/aggregate.go:122-131 | counts each of the four verdicts and nothing else |
| Evidence.HistogramAgrees | lib/signal/aggregate.go:86-131 | the histogram counts the same signals that make up the ranks of the evidence order |
| Evidence.AggregateFailsIff | lib/signal/aggregate.go:50-62 | the aggregate fails exactly when a failing signal was counted, the exit code failed, or a one-shot run timed out |
| Evidence.AggregateSays | lib/signal/aggregate.go:50-62 | the aggregate is an error of high severity for a one-shot run that timed out; otherwise the worst of signals and exit code, an intended timeout counting as a pass, and on a tie what the exit code says |
| Evidence.StopVerdict | lib/orchestrator/live_deps.go:668-681 | the closing verdict of a stopped dependency is the worst of its signals, but fail with high severity if it had died before and no failing signal was counted |
| SampleContract.EmitFromJSONSchema | lib/fixture/sample_contract.go:330-362 | the loop over required names computes the sample |
| SampleContract.SampleValidatesIff | lib/fixture/sample_contract.go:330-376 | the sample validates under type, enum, required, properties and items exactly when the schema is samplable: first enum values fit, and an unknown or missing type leaves null possible |
| SampleContract.SampleSays | lib/fixture/sample_contract.go:330-376 | what a sample consists of: the first enum value; exactly the required keys, each with the sample of its property or null; the sample of the items schema once; otherwise the zero value of the first named type |
| ShellQuote.E2eFixtureCheckCommand | lib/planning/layer/commands.go:85-109 | which parts are joined for which of the two paths |
| ShellQuote.EscapeIsOneWord | lib/planning/layer/commands.go:113-115 | the shell reads a quoted string as one word, the string itself |
| ShellQuote.QuotedAddsItself | lib/planning/layer/commands.go:113-115 | quoted text adds itself to the word being read wherever it stands |
| ShellQuote.CheckCommandReads | lib/planning/layer/commands.go:85-109 | the whole command is read as the intended words and operators whatever the paths contain |

## Left out

- Processes, signals, pids and clocks: liveness is an arbitrary function of the pid, waiting is a choice of the scheduler.
- Decoding YAML and JSON, JSON Schema validation, file creation and renaming: parsed data is an input, a save is one step.
- The fix-up of the root id and the absolute paths in `runWithDepsImpl`, and registry fields that no rule reads (command, log directory, timestamps).
- What a run or an attach prints before its verdict: one opaque item of the transcript.
- Other writers of the registry (/start-sensor, /stop-sensor, persistent runs) in the interleavings of the hold protocol, and a registry that cannot be read in one of its sections.
- Freshness of run ids: a spawned run id is one that nothing mentions yet; ids synthesised for legacy entries by repair can collide and are not covered by that.
- `LoadSanitized`: it loads outside the lock, so it is no section of the hold protocol.
- Pointers into the registry slice across two sections: each section loads its own state, as in the code.
- Environment variables built for shell and sensor steps, and the matchers of expect blocks: what a command or request answers is an input.
- Which text a regular expression of an output, a parse pattern or an expect block matches: an input, except for the two patterns of placeholders, whose scanners are written out.
- The other validation rules, the prepare and teardown phases, signal fields such as timestamps, rationales and confidence: they would only add easy members.
- HealthGate.WaitAnswers: assumes a log that grows by whole lines without carriage returns; what one read makes of carriage returns is `HealthGate.CursorLags`, what several polls make of it is not covered.
- Stream.CollectedExactly: takes each stream as the lines its scanner yields; lines over the scanner's limit of 1 MiB end a stream in the code.
- Characters stand for bytes in captures, logs and quoting.
- Evidence.SortByRank: inserts where the code calls the library's stable sort.
- ShellQuote.CheckCommandReads: the shell is modelled for blanks, single quotes, backslashes, `&&` and `>`; text with any other unquoted special character has no reading in the model.
- Avro, protobuf and OpenAPI samples, the inferential runner, hooks and recipes.
