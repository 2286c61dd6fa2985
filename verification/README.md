# aptos-debugger, modelled and verified

The program is a Debug Adapter Protocol server that drives a Move VM one bytecode instruction at a
time. This project models its four linked cores in Dafny and proves what they promise:

- **The debug loop** (`DebugContext.dfy`, `Stepping.dfy`): breakpoint hits with their suppression on
  the line just hit, the step operations, the command loop. `DapDebugContext` is a class as in the
  source; its methods are proved against the functions the theorems talk about.
- **The two processes** (`Protocol.dfy`, `ProtocolTheorems.dfy`): the server's thread and the VM's
  thread over two FIFO channels, every blocking point and every send a step of its own, in all
  interleavings.
- **Moved-out locals** (`Snapshots.dfy`, `MovedLocals.dfy`, `Debugging.dfy`): the depth-indexed table of the debug
  context against a VM whose history remembers which activation moved what.
- **All of it at once** (`Interleaving.dfy`, `Landings.dfy`): the theorems about hits, about moved-out locals and
  about where a step lands in every interleaving of the two threads.
- **Variables** (`DebugValues.dfy`, `Variables.dfy`, `Exploration.dfy`): value trees, their one-line
  display, and the append-only table of references a client explores lazily.
- **Serialisation** (`Serialization.dfy`): the typed walk over a value against the untyped one.
- **The server** (`PendingBreakpoints.dfy`, `Server.dfy`, `Frames.dfy`): the request handlers, the one
  list of breakpoints for all files, and the way from a frame id to an activation's locals.
- **Texts** (`Numerals.dfy`, `Locations.dfy`, `HexNames.dfy`): printing and parsing of locations,
  shortening of addresses.

`dafny verify dfyconfig.toml` checks everything.

## What the model takes for granted

- One VM thread; its debug context, and with it both channel ends it holds, is dropped when the thread
  ends. `Terminated` is the last event it sends.
- `configurationDone` starts the VM at most once.
- Console and socket output always succeeds. Channels are unbounded and FIFO.
- A stack trace lists callers innermost first and no more of them than the stack is deep.
- Path canonicalisation, falling back to the text as it is, and the cutting of a path into components are two
  arbitrary functions; idempotence and the like are assumed only where a member says so. Paths are compared by
  components, as Rust does it, and printed and parsed as texts.
- The VM is an arbitrary finite sequence of instructions. Each shows the debug loop a depth, a source
  line if known, the kind of instruction, the locals of the running frame already serialised, and callers.
- What a blocking receive returns, or which commands will arrive, is a parameter of the class methods.
  The interleaving itself is the subject of the protocol modules, and `VmThreadRunsDebugLoop` ties both.
- The server's steps in the protocol are its handlers cut at every send and receive. What they make of an
  event is what the contracts of `Server.DapServer` ask for (`ProtocolConveys`), and the list of breakpoints
  is the same function.
- The type resolver, the decoding of bytes as UTF-8, the two ways of printing an address and the place
  of the address in a signer are fields of `Serialization.Env`, about which nothing is assumed.

## Where the code falls short of what one would expect

Each of these has a lemma with a concrete input or an exact condition:

- Clearing the breakpoints of a file by a path that differs from the canonical one in its components, such as
  a link, leaves them in place (`ClearCanMiss`; exactly when: `AppliedExactlyWhen` for one request,
  `ListRefinesMap` for a session). A request that sets breakpoints canonicalises its path, an empty one does
  not.
- A breakpoint set before launch on the line of the entry is passed over at the entry stop, which is not shown,
  and missed if no later instruction is on that line (`EntryBreakpointMissed`; exactly when the launch does not
  come back at the first set line: `LaunchStopsAtFirstSet`).
- Stepping over can run on past the point where stepping out stops, when the caller's line is unknown or
  is the starting line (`StepOverCanOutlastStepOut`; exactly when: `StepOverBeforeStepOut`).
- After an aborted execution a later frame at the same depth can show a value that was never its own
  (`AbortLeavesStaleValue`; exactly when: `ShownIffNotStale`).
- A frame about to return has lost its moved-out locals already at the stop on `Ret` (`ReturnDropsMovedValue`;
  exactly when: `ShownIffNotStale`).
- Frame ids from 99000 on run into the references of expandable values (`FrameReferenceRange`).
- The typed view of a value with an enum tag out of range, or a signer without an address, is an error text
  and no longer relates to the untyped view (`TypedRelabelsUntyped` is an equivalence).

## Model

| member | source | states |
|---|---|---|
| Protocol.InvKept | src/server.rs:303-341 | every step of either thread or of the client keeps the control-token invariant: stop, resume queued, running, event queued, over, or disconnecting, each with the queues and breakpoints it allows |
| Protocol.VmStepKeeps | src/debugger/dap_context.rs:109-137 | each step of the VM thread, before an instruction, in the command loop or at its end, moves the token as it must |
| Protocol.CommandTakenKeeps | src/debugger/dap_context.rs:122-137 | taking one queued command, an update or the resume behind it, keeps the invariant |
| Protocol.ClientStepKeeps | src/server.rs:177-210 | accepting any client request between handlers keeps the invariant |
| Protocol.ServerSendKeeps | src/server.rs:269-280 | sending a breakpoint list, or `Continue` after it, keeps the invariant |
| Protocol.ServerStepKeeps | src/server.rs:303-320 | receiving an event or a broken channel, dropping the ends and joining keep the invariant |
| Protocol.ModesExclude | src/server.rs:256-341 | no two modes of the token hold at once |
| Protocol.ReachableInv | src/server.rs:256-341 | the invariant holds after every possible sequence of steps |
| ProtocolTheorems.OneModeAlways | src/server.rs:256-341 | in every reachable state exactly one mode of the token holds |
| ProtocolTheorems.StoppedStateIsCurrent | src/server.rs:303-320 | between requests the server's stopped state is the snapshot built from the instruction the VM waits before, or None with the VM at its end |
| ProtocolTheorems.NoResumeOutlivesItsStop | src/server.rs:322-326 | nothing is queued while the VM runs; at a stop a resume command is last in the queue and the server waits for it |
| ProtocolTheorems.LeaveStopIsCommandLoop | src/debugger/dap_context.rs:122-137 | the VM's single steps at a stop add up to one run of the command loop on the queued commands |
| ProtocolTheorems.VmThreadRunsDebugLoop | src/debugger/dap_context.rs:64-138 | the VM thread's steps at one instruction are one call of the debug loop, with the event it sends |
| Server.ProtocolConveys | src/server.rs:303-320 | what the protocol keeps of an event and tells the client of it is what the handlers do |
| ProtocolTheorems.PendingFollowsRequests | src/server.rs:177-210 | along any interleaving the server's list is the fold of the setBreakpoints requests made |
| ProtocolTheorems.ResumesInStep | src/server.rs:204-210 | whenever the VM takes a resume command its breakpoints are those of the server's list |
| ProtocolTheorems.ResumesWithClientBreakpoints | src/server.rs:269-280 | and they are, file by file, the lines of the client's last request as sent, cut to 32 bits, made before launch or while stopped, in every session in which the list serves its requests |
| ProtocolTheorems.SomeStep | src/server.rs:303-341 | with a handler under way one of the two threads can always move |
| ProtocolTheorems.StepsCountDown | src/server.rs:539-551 | every step of either thread decreases a lexicographic measure on handler phase, instructions, VM phase and queue |
| ProtocolTheorems.Settle | src/server.rs:303-341 | under any scheduler the server comes to rest: idle, or disconnected with the VM thread gone |
| ProtocolTheorems.DisconnectCompletes | src/server.rs:539-551 | from wherever disconnect can be asked for, the VM runs to its end and the join returns |
| ProtocolTheorems.DisconnectingTakesOnlyUpdates | src/debugger/dap_context.rs:122-137 | on the way only queued updates are taken, no step stays pending, and the breakpoints end as the server's |
| DebugContext.SummaryStep | src/debugger/dap_context.rs:198-235 | one look at an instruction keeps the one-cell suppression state a summary of the whole history |
| DebugContext.WalkSummarised | src/debugger/dap_context.rs:198-235 | over any run, breakpoints changing at will, the cell is Some((L,d)) iff the last hit was there and all since was deeper or on L; an instruction is a hit iff its line is set and not still held |
| DebugContext.CommandsTaken | src/debugger/dap_context.rs:122-137 | the command loop takes updates, the last of which counts, up to the first resume, or all of them and runs to the next breakpoint |
| DebugContext.DapDebugContext.constructor | src/debugger/dap_context.rs:152-161 | a fresh context steps into the first known line and has an empty history |
| DebugContext.DapDebugContext.HandlePotentiallyMovedLocals | src/debugger/dap_context.rs:165-196 | the table afterwards |
| DebugContext.DapDebugContext.CheckIfBreakpointGotHit | src/debugger/dap_context.rs:198-235 | a hit exactly if the line is set and the history is not still at it at this depth; the cell stays a summary |
| DebugContext.DapDebugContext.ShouldStopForTheNextCmdOp | src/debugger/dap_context.rs:237-275 | whether the pending step stops here, after which none is pending |
| DebugContext.DapDebugContext.Run | src/debugger/dap_context.rs:64-138 | the whole call: event sent, commands taken and new state, for any arrivals and a send that may fail |
| Stepping.InstructionUndisturbed | src/debugger/dap_context.rs:84-107 | one instruction under a script of step commands: the hit depends on breakpoints and cell only, and names the stop |
| Stepping.StepsLeaveBreakpointsAlone | src/debugger/dap_context.rs:84-107 | over a whole trace, under any script of step commands and any loss of connection, the hits are those of the undisturbed run and each stops the VM while connected |
| Stepping.ScriptsAgreeOnHits | src/debugger/dap_context.rs:198-276 | two scripts of step commands over one trace have the same hits |
| Stepping.NextStopIsFirst | src/debugger/dap_context.rs:237-275 | the next stop is the first instruction that is a hit or that the pending operation stops at |
| Stepping.FirstEventAtNextStop | src/debugger/dap_context.rs:64-107 | a run of the debug loop sends its first event exactly at the next stop, if it can be sent |
| Stepping.StepOrder | src/debugger/dap_context.rs:237-304 | from one stop, step into stops no later than step over, that no later than continue, and step out no later than continue |
| Stepping.StepOverBeforeStepOut | src/debugger/dap_context.rs:243-268 | step over stops no later than step out exactly if the landing is a hit or a new known line was met in frame by then; so whenever the landing line is known and new |
| Stepping.StepOverCanOutlastStepOut | src/debugger/dap_context.rs:249-253 | a caller without line information ends the step out and not the step over |
| Stepping.OperationLands | src/debugger/dap_context.rs:278-304 | without a breakpoint first, a resume command lands on the first instruction its operation stops at |
| Stepping.ContinueRunsOn | src/debugger/dap_context.rs:268 | without a breakpoint first, continuing never stops |
| Stepping.StepOutLeaves | src/debugger/dap_context.rs:264-267 | step out from depth D lands on the first instruction below D, however the frames in between were left, an abort included; at depth 0 it never stops |
| Stepping.StepOutLands | src/debugger/dap_context.rs:292-301 | where frames are left one by one, that is at depth D - 1 |
| Stepping.StepOverLands | src/debugger/dap_context.rs:244-258 | step over lands on the first instruction at most as deep whose known line differs |
| Stepping.StepIntoLands | src/debugger/dap_context.rs:259-263 | step into lands on the first known line that differs, at any depth |
| MovedLocals.TableKept | src/debugger/dap_context.rs:165-196 | after every VM step the table holds exactly the last move per depth and local since the last return from the depth |
| MovedLocals.ReadingsKept | src/debugger/dap_context.rs:184-193 | for a live activation that reading and the one by activation agree whenever the former names it |
| MovedLocals.NothingLeftBehindKept | src/debugger/dap_context.rs:191-193 | without aborts every entry belongs to the activation live at its depth |
| MovedLocals.RunsKeepInv | src/debugger/dap_context.rs:165-196 | all of this over whole runs |
| MovedLocals.ShownIffNotStale | src/debugger/dap_context.rs:306-340 | at any stop a local shows its live value, else the one its own activation moved out last, else none, exactly when no aborted activation left a value there; a frame on its return does so exactly when the local has a value or was never moved out |
| MovedLocals.ShownFaithfully | src/debugger/dap_context.rs:353-415 | in every abort-free run this holds for every local of every frame listed |
| MovedLocals.AbortLeavesStaleValue | src/debugger/dap_context.rs:191-193 | a concrete run with an abort after which a fresh frame shows a foreign value |
| MovedLocals.ReturnDropsMovedValue | src/debugger/dap_context.rs:191-193 | a concrete run in which a moved-out local shows nothing at the stop on the return |
| MovedLocals.FrameResolves | src/server/variables.rs:111-130 | the reference of frame k at depth D resolves to the valued locals, in index order, of the activation at depth D - k, completed with those it moved out |
| Debugging.EventsAreSnapshots | src/debugger/dap_context.rs:64-138 | in a whole run, through stops, commands and lost connections, each event sent carries the snapshot with the table of all moves recorded so far |
| Debugging.TablesAgree | src/debugger/dap_context.rs:165-196 | that table is the one of the VM whose steps were observed |
| Debugging.SnapshotShowsActivation | src/debugger/dap_context.rs:353-415 | a snapshot taken before a step shows each frame in reach as the activation it stands for, by its locals and by its reference |
| Debugging.EveryStopIsFaithful | src/debugger/dap_context.rs:64-138 | in every abort-free run, under any commands and any loss of connection, every stop the client is told of does so |
| Debugging.WholeRunsAreFaithful | src/debugger/dap_context.rs:152-161 | so it is from a fresh debug context on a VM not yet started |
| Interleaving.FollowsKept | src/debugger/dap_context.rs:64-138 | every step of either thread or the client keeps the remembered hit and the table those of the instructions looked at so far, the VM at its place in the program |
| Interleaving.RunsFollow | src/debugger/dap_context.rs:64-138 | so does every possible sequence of steps |
| Interleaving.StopsOnHistoricalHits | src/debugger/dap_context.rs:84-107 | in every interleaving, while the client waits, the next instruction stops at a breakpoint exactly if its line is set and the history of all looks is not still at it; after the entry stop the lines set are those of the server's list |
| Interleaving.IdleShowsActivation | src/server.rs:303-320 | in every interleaving over an abort-free run, whenever the server is idle with a stopped state, the VM waits at the last instruction looked at and the state shows each frame in reach as its activation |
| Landings.UpcomingIsNextStop | src/debugger/dap_context.rs:64-107 | the upcoming halt is the next stop of a single run, with the table of all moves up to there |
| Landings.OutcomeKept | src/server.rs:232-341 | the stopped state a handler will return with, fixed by program, queued commands and breakpoints, is the same before and after every step of either thread |
| Landings.SettlesAtOutcome | src/server.rs:303-341 | under every scheduler the handler returns with that state |
| Landings.HandlersReturn | src/server.rs:322-341 | from every reachable state no deadlock, and every handler returns with its outcome: the snapshot of the stop the VM then waits at, or None with the VM at its end |
| Landings.ResumeLands | src/server.rs:322-341 | from every idle stop, under every schedule, a resume command comes back with the snapshot of the first instruction ahead at which the debug loop stops for it, by the server's breakpoints, or with None |
| Landings.ResumeTells | src/server.rs:322-341 | in every interleaving the client is told of that landing by the right reason: a breakpoint on its line exactly if that is set and the history of all looks is not still at it, else a step, and the end when there is no landing |
| Landings.LaunchLands | src/server.rs:232-301 | under every schedule a launch comes back at the first known line without breakpoints, else at the first set line behind it, or with None |
| Landings.LaunchTells | src/server.rs:256-301 | and is told of it as the entry, or as the breakpoint on its line, or as the end |
| Landings.LaunchStopsAtFirstSet | src/server.rs:256-281 | with breakpoints that is the first set line of the program exactly if the entry is not on a set line |
| Landings.EntryBreakpointMissed | src/server.rs:256-281 | a concrete program with its entry line set that runs to its end with nothing shown |
| Frames.CallersAreActivations | src/debugger/dap_context.rs:371-372 | from what the VM lets see of its call stack, the subtraction never underflows, and all frames get the depths of pairwise distinct activations |
| Frames.FrameShown | src/server.rs:423-454 | the k-th frame shown has id k, the shortened name of the k-th function on the stack, and the path and line of its place, none and 0 if unknown |
| Frames.FramesWithoutStop | src/server.rs:455-467 | with no stop a replay shows one frame, of its entry function, and a test none |
| Frames.ScopesOffered | src/server.rs:479-512 | the transaction scope is offered for frame 0 of a replay, stopped or not, the locals for any frame while stopped, and nothing else |
| Frames.LocalsScopeLeads | src/server.rs:479-537 | while stopped the one scope of locals offered for a frame id below 99000 leads, by a variables request, to the valued locals of that frame |
| Frames.TransactionScopeLeads | src/server/replay.rs:209-228 | the transaction scope leads to its facts as texts and to one variable that counts the arguments and opens to them |
| Frames.ClientSeesActivation | src/server.rs:498-531 | from a frame of the stack trace by scopes and variables the client gets exactly the locals of that activation |
| PendingBreakpoints.LinesOfUpdated | src/server.rs:182-206 | file by file, what one request does to the list: the lines of the path replaced go, the lines sent come, each as the 32-bit number congruent to it |
| PendingBreakpoints.AppliedExactlyWhen | src/server.rs:199-206 | a request takes its effect on its file and no other exactly unless it clears by a path whose components are not the canonical ones, with breakpoints under either path |
| PendingBreakpoints.ClearCanMiss | src/server.rs:199-205 | a concrete clear, by a link to the file, that leaves its breakpoint |
| PendingBreakpoints.PendingCanonical | src/utils.rs:10-13 | with an idempotent canonicalisation all paths in the list are those of canonical texts |
| PendingBreakpoints.AgreementStep | src/server.rs:199-206 | where the list holds the lines last asked for, it does so after one more request exactly if that one sets lines, names its file canonically, or clears where nothing is wanted |
| PendingBreakpoints.StandForOnly | src/server.rs:189 | a line sent has one such number, and is it if it has 32 bits |
| PendingBreakpoints.ListRefinesMap | src/server.rs:182-206 | all along a session the list holds for each file the lines of the last request for it, cut to 32 bits, exactly if each request is one of these |
| PendingBreakpoints.NothingUnderSentPath | src/server.rs:199-206 | where equal components mean equal files, a clear by another than the canonical path serves exactly if nothing is wanted for the file |
| Variables.RenderedShows | src/server/variables.rs:54-78 | a rendered list has the names, order and displays of its values, and references that lead to them |
| Variables.PartsOpen | src/server/variables.rs:80-109 | children are the fields under their names, the items under their bracketed decimal index, all different, or the one referent under `*ref` |
| Variables.OpensExactly | src/server/variables.rs:56-77 | which values can be opened, and that the others have no children |
| Variables.ReferenceRanges | src/server/variables.rs:38-51 | which numbers lead to a frame, to a stored value, to nothing |
| Variables.StoredVariables.StoreExpandable | src/server/variables.rs:23-27 | the next number, and one entry more |
| Variables.StoredVariables.DebugValueToVariable | src/server/variables.rs:54-78 | the variable shows the value, by reference exactly if it can be opened |
| Variables.StoredVariables.ExpandedChildren | src/server/variables.rs:80-109 | the fields, items or referent of the entry, each under its own name, in order, the table grown by those that can be opened; none for no entry |
| Variables.StoredVariables.LocalsForFrame | src/server/variables.rs:111-130 | the valued locals of the frame rendered in order, none for an unknown frame |
| Variables.StoredVariables.GetVariables | src/server/variables.rs:33-52 | the answer and the new table for any reference, good or not |
| Exploration.ServeOpens | src/server.rs:521-537 | a variables request for the reference of a shown value is answered with its children and shows them |
| Exploration.ServeShowsParts | src/server/variables.rs:80-109 | these are its fields, its items by number, or what it refers to |
| Exploration.ExploreFaithful | src/server/variables.rs:80-109 | opening references recursively, one variables request each, yields the tree of the value, read off it independently, and adds one entry per opening node below it |
| Exploration.ExplorationRebuildsTree | src/server/variables.rs:23-109 | so from storing a value on, with all earlier entries unchanged |
| Exploration.ServeIssues | src/server.rs:521-537 | the references of one answer are the next free numbers |
| Exploration.ReferencesAreFresh | src/server/variables.rs:23-27 | over any requests within a stop, references are consecutive, distinct, and apart from frame references and the transaction scope |
| Exploration.ReferencesKeepTheirMeaning | src/server/variables.rs:33-52 | a reference shows the same names and values however many requests come in between |
| Exploration.FrameReferenceRange | src/server/variables.rs:38-51 | frame references resolve to frames below id 99000, and to stored values from there on |
| Exploration.CollapsedMatchesExpanded | src/debugger/debug_value.rs:37-103 | the collapsed display is the header and brackets around the names and values sent for the children |
| DebugValues.Fmt | src/debugger/debug_value.rs:37-103 | the writer appends exactly the display of the value |
| DebugValues.LeafDisplays | src/debugger/debug_value.rs:40-44 | what each value that cannot be opened is shown as |
| DebugValues.FmtStructFields | src/debugger/debug_value.rs:58-67 | the fields of a struct, separated by commas, names left out where empty |
| DebugValues.FmtVariantFields | src/debugger/debug_value.rs:75-80 | the fields of an enum variant |
| DebugValues.FmtItems | src/debugger/debug_value.rs:86-91 | the items of a vector |
| Serialization.TypedRelabelsUntyped | src/debugger/debug_value.rs:176-189 | the typed view is the untyped one with names, type arguments, field labels and variants put on, strings decoded and signers shown by address, exactly if tags and signers are as the types say |
| Serialization.ContainerRelabels | src/debugger/debug_value.rs:218-230 | the same for containers |
| Serialization.AdtRelabels | src/debugger/debug_value.rs:242-282 | the same for structs and enums |
| Serialization.EnumRelabels | src/debugger/debug_value.rs:249-261 | exactly the tag leaf is dropped, and the variant is the one it selects |
| Serialization.StringRelabels | src/debugger/debug_value.rs:284-294 | a decodable `0x1::string::String` is shown by its text |
| Serialization.SignerRelabels | src/debugger/debug_value.rs:349-354 | a signer is shown by its address exactly if it holds one |
| Serialization.FieldsRelabel | src/debugger/debug_value.rs:296-312 | field by field, labels and types by position |
| Serialization.UntypedRelabelsItself | src/debugger/debug_value.rs:191-216 | without a type nothing is put on |
| Serialization.UntypedDepicts | src/debugger/debug_value.rs:191-216 | the untyped view has the kind, the texts and the elements of the value, in order, down to the leaves |
| Serialization.ReferenceShowsElement | src/debugger/debug_value.rs:356-414 | a reference to the i-th element shows what the container shows in that place |
| Serialization.ShownAsString | src/debugger/debug_value.rs:242-247 | a struct is shown as a string exactly if it is called 0x1::string::String and its bytes decode, and then by that text |
| Serialization.IllTaggedShown | src/debugger/debug_value.rs:249-261 | what stands for an enum with a tag that selects nothing, and for a signer without an address |
| Serialization.TypesWritten | src/debugger/debug_value.rs:130-156 | how types are written, structs by the name the resolver has for them |
| Serialization.TypesReadApart | src/debugger/debug_value.rs:130-156 | different types built of numbers, addresses and signers are never written alike |
| Locations.PrintParse | src/utils.rs:28-32 | printing and parsing a canonical location gives it back, whatever ':' its path contains |
| Locations.PrintInjective | src/utils.rs:28-32 | two canonical locations never print alike |
| Locations.ParsePrint | src/debugger/dap_context.rs:347-350 | an accepted text is the print of its location exactly if its path is canonical and its line a plain numeral |
| Locations.AcceptedLines | src/debugger/dap_context.rs:348 | a line is accepted exactly if it is digits, perhaps behind a plus sign, of a number of 32 bits, and is that number |
| Locations.AcceptedTexts | src/debugger/dap_context.rs:347-350 | a location is accepted exactly if the part behind its last colon is such a line |
| HexNames.TrimmedShape | src/utils.rs:35-46 | what a hex-headed name becomes |
| HexNames.TrimPreserves | src/utils.rs:34-47 | cut at the first "::", the number, having "0x", and all behind the cut survive |
| HexNames.TrimIdempotent | src/utils.rs:34-47 | trimming twice is trimming once, and other names stay |
| HexNames.TrimNormalForm | src/utils.rs:34-47 | two hex-headed names are shown alike exactly if prefix, digits behind leading zeros and rest agree |
| HexNames.HexDigitsAre | src/utils.rs:40 | the digits of base 16, of either case, and their values |
| HexNames.TrimsTo | src/utils.rs:34-47 | behind "0x" or nothing leading zeros go, of zeros alone one stays, and "00" is put where there was no "0x" |
| HexNames.OthersStay | src/utils.rs:35-42 | every name without such a head stays as it is |
| Server.DapServer.HandleSetBreakpoints | src/server.rs:177-230 | the new list, which ends in the lines asked for under their file, what is sent, what is confirmed |
| Server.DapServer.WaitForVmEvent | src/server.rs:303-320 | a stop is told of with its reason and its state kept, any end is told of as one and clears the state; the variable table is emptied at a stop only |
| Server.DapServer.SendCommandAndWait | src/server.rs:322-341 | one command out, one event in, conveyed with its reason; the stopped state and the variable table afterwards |
| Server.DapServer.HandleConfigurationDone | src/server.rs:232-301 | the entry stop, told of as such, or the breakpoints and `Continue` sent and the second event conveyed; the stopped state and the variable table afterwards |
| Server.DapServer.HandleStackTrace | src/server.rs:423-477 | the frames shown |
| Server.DapServer.HandleVariables | src/server.rs:521-537 | the answer and the table, the transaction scope included |

## Left out

- Building packages, source maps, fetching and executing transactions, and the failure of any of these
  beyond "the VM was not started": foreign libraries and I/O.
- JSON framing, TCP and stdio, console and error messages, and the requests `initialize`, `launch` and
  `threads`: plumbing.
- Starting the VM a second time, which a repeated `configurationDone` would do, also after a disconnect.
- Capturing the thread state for further debug contexts: the thread pools it serves are not part of this model.
- Cutting line numbers and ids to 64 bits; only the cut of a requested line to 32 bits is modelled.
- The arms that repeat one another for each integer width, in values, vectors and indexed references:
  one arm for numbers, one for u16, one for bytes and one for addresses stand for them.
- Decoding transaction arguments into debug values: a one-pass map of the same shape as the serialiser.
- Looking types up in the VM (src/debugger/resolver.rs): the resolver is an arbitrary function here.
- The message `Terminated` may carry.
- The handlers of `continue`, `next`, `stepIn` and `stepOut` beyond the one command each of them sends.
- The text of a path beyond its components, where the server only shows it: locations in breakpoints, stops
  and frames are modelled as they are compared.
- The type name of a local, which the source always leaves empty.
- Serialization.StringRelabels: does not speak of elements behind the first of a string struct, which the
  source drops; a Move string has only one.
- MovedLocals.ShownIffNotStale: takes the locals of a frame as serialised at the stop, so it does not
  relate the serialisation of a moved value to that of the live one.
