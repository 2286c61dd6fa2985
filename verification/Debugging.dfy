/** A whole debugged run: the VM's call stack on one side, the debug loop with its stops and commands on
    the other. Whatever the client commands, each stop it is told of shows the right locals. */
module Debugging {
  import opened Prelude
  import opened DapTypes
  import opened Snapshots
  import opened DebugContext
  import opened Stepping
  import opened Variables
  import opened MovedLocals

  /** The debug loop sees every step but the start of a top-level execution. */
  ghost predicate TraceOf(vm: Vm, steps: seq<Step>, trace: seq<Observation>)
    decreases |steps|
  {
    if steps == [] then trace == []
    else
      && Enabled(vm, steps[0])
      && if steps[0].Start? then TraceOf(Do(vm, steps[0]), steps[1..], trace)
         else trace != [] && Observes(trace[0], vm, steps[0]) && TraceOf(Do(vm, steps[0]), steps[1..], trace[1..])
  }

  /** The VM before the step the `i`-th observation was taken at, and that step. */
  ghost function Before(vm: Vm, steps: seq<Step>, trace: seq<Observation>, i: nat): (r: (Vm, Step))
    requires TraceOf(vm, steps, trace) && i < |trace|
    ensures Enabled(r.0, r.1) && !r.1.Start? && Observes(trace[i], r.0, r.1)
    decreases |steps|
  {
    if steps[0].Start? then Before(Do(vm, steps[0]), steps[1..], trace, i)
    else if i == 0 then (vm, steps[0])
    else Before(Do(vm, steps[0]), steps[1..], trace[1..], i - 1)
  }

  lemma {:induction false} TraceWellFormed(vm: Vm, steps: seq<Step>, trace: seq<Observation>)
    requires TraceOf(vm, steps, trace)
    ensures forall i :: 0 <= i < |trace| ==> WellFormed(trace[i])
    decreases |steps|
  {
    if steps != [] {
      TraceWellFormed(Do(vm, steps[0]), steps[1..], if steps[0].Start? then trace else trace[1..]);
    }
  }

  // ---------- The debug loop's side ----------

  function Recorded(table: MovedTable, o: Observation): MovedTable {
    RecordMoves(table, o.depth, o.instruction, o.locals)
  }

  /** The table of moved locals before the `i`-th instruction of a trace. */
  function TableBefore(table: MovedTable, trace: seq<Observation>, i: nat): MovedTable
    requires i <= |trace|
    decreases i
  {
    if i == 0 then table else TableBefore(Recorded(table, trace[0]), trace[1..], i - 1)
  }

  /** The event, if there is one, is a stop with the snapshot built from this instruction and table. */
  ghost predicate IsSnapshot(event: Option<DapEvent>, o: Observation, table: MovedTable)
    requires WellFormed(o)
  {
    event.Some? ==> event.value.Stopped? && event.value.vmState == BuildState(o, Recorded(table, o))
  }

  lemma OneInstruction(ctx: Ctx, o: Observation, sendOk: bool, arrivals: seq<DapCommand>)
    requires WellFormed(o)
    ensures var (ctx', event, taken) := DebugLoop(ctx, o, sendOk, arrivals);
            ctx'.moved == Recorded(ctx.moved, o) && IsSnapshot(event, o, ctx.moved)
  {
    CommandsTaken(Advance(ctx, o).0, o, arrivals);
  }

  /** Through stops, commands and lost connections, each event sent carries the snapshot with the table
      of all moves recorded so far. */
  lemma {:induction false} EventsAreSnapshots(ctx: Ctx, trace: seq<Observation>, link: seq<bool>,
                                              arrivals: seq<DapCommand>, i: nat)
    requires i < |trace| == |link| && forall j :: 0 <= j < |trace| ==> WellFormed(trace[j])
    ensures IsSnapshot(Play(ctx, trace, link, arrivals)[i].event, trace[i], TableBefore(ctx.moved, trace, i))
    decreases |trace|
  {
    var (ctx', event, taken) := DebugLoop(ctx, trace[0], link[0], arrivals);
    OneInstruction(ctx, trace[0], link[0], arrivals);
    if |trace| > 1 {
      EventsAreSnapshots(ctx', trace[1..], link[1..], arrivals[taken..], if i == 0 then 0 else i - 1);
    }
  }

  // ---------- The VM's side ----------

  /** Nothing but the moves of live activations is in the table. */
  ghost predicate Clean(vm: Vm) { Inv(vm) && NothingLeftBehind(vm) }

  lemma StartsClean()
    ensures Clean(Init()) && Init().table == NewCtx().moved
  {
  }

  lemma StepRecordsTable(vm: Vm, step: Step, o: Observation)
    requires Enabled(vm, step) && !step.Start? && Observes(o, vm, step)
    ensures TableAt(vm, step) == Recorded(vm.table, o)
  {
  }

  lemma StepRecords(vm: Vm, step: Step, o: Observation)
    requires Clean(vm) && Enabled(vm, step) && !step.Abort?
    ensures Clean(Do(vm, step))
    ensures step.Start? ==> Do(vm, step).table == vm.table
    ensures !step.Start? && Observes(o, vm, step) ==> Do(vm, step).table == TableAt(vm, step) == Recorded(vm.table, o)
  {
    InvKept(vm, step);
    NothingLeftBehindKept(vm, step);
  }

  lemma {:induction false} TablesAgree(vm: Vm, steps: seq<Step>, trace: seq<Observation>, i: nat)
    requires TraceOf(vm, steps, trace) && Clean(vm) && Abort !in steps && i < |trace|
    ensures Clean(Before(vm, steps, trace, i).0)
    ensures Before(vm, steps, trace, i).0.table == TableBefore(vm.table, trace, i)
    decreases |steps|
  {
    var step := steps[0];
    StepRecords(vm, step, trace[0]);
    if step.Start? {
      TablesAgree(Do(vm, step), steps[1..], trace, i);
    } else if i > 0 {
      TablesAgree(Do(vm, step), steps[1..], trace[1..], i - 1);
    }
  }

  // ---------- Both together ----------

  /** A snapshot shows, for each local of frame `k`, the live value, or else the one that activation moved
      out last, or else none; and the frame's reference leads to exactly those with a value. */
  ghost predicate ShowsActivation(state: VmStoppedState, at: Vm, depth: nat, k: nat) {
    && depth < |at.stack|
    && var locals := at.stack[depth].locals;
    && |FrameLocals(k, state)| == |locals|
    && (forall idx :: 0 <= idx < |locals| ==> FrameLocals(k, state)[idx].value == Expected(at, depth, idx))
    && (forall table {:trigger Target(table, Some(state), FrameLocalsRef(k))} ::
         Target(table, Some(state), FrameLocalsRef(k)) == ExpectedFields(at, depth, 0))
  }

  lemma SnapshotShowsActivation(at: Vm, step: Step, o: Observation, k: nat)
    requires Clean(at) && Viewed(at, step, o, k) && k < 99_000
    ensures ShowsActivation(BuildState(o, TableAt(at, step)), at, o.depth - k, k)
  {
    var state, depth := BuildState(o, TableAt(at, step)), o.depth - k;
    FieldsFrom(at, step, o, k, 0);
    forall idx | 0 <= idx < |at.stack[depth].locals|
      ensures FrameLocals(k, state)[idx].value == Expected(at, depth, idx)
    {
      ShownWhenClean(at, step, o, k, idx);
    }
    forall table ensures Target(table, Some(state), FrameLocalsRef(k)) == ExpectedFields(at, depth, 0) {
      FrameResolves(at, step, o, k, table);
    }
  }

  /** If frame `k` is in reach before `step`, the state shows it as the activation it stands for there. */
  ghost predicate ShowsFrame(state: VmStoppedState, at: Vm, step: Step, o: Observation, k: nat) {
    Viewed(at, step, o, k) ==> ShowsActivation(state, at, o.depth - k, k)
  }

  lemma SnapshotShowsFrame(at: Vm, step: Step, o: Observation, table: MovedTable, k: nat)
    requires Clean(at) && at.table == table && WellFormed(o) && k < 99_000
    ensures ShowsFrame(BuildState(o, Recorded(table, o)), at, step, o, k)
  {
    if Viewed(at, step, o, k) {
      StepRecordsTable(at, step, o);
      SnapshotShowsActivation(at, step, o, k);
    }
  }

  ghost predicate FaithfulIfSent(event: Option<DapEvent>, at: Vm, step: Step, o: Observation, k: nat) {
    event.Some? ==> event.value.Stopped? && ShowsFrame(event.value.vmState, at, step, o, k)
  }

  lemma EventShowsFrame(event: Option<DapEvent>, at: Vm, step: Step, o: Observation, table: MovedTable, k: nat)
    requires Clean(at) && at.table == table && WellFormed(o) && k < 99_000
    requires IsSnapshot(event, o, table)
    ensures FaithfulIfSent(event, at, step, o, k)
  {
    SnapshotShowsFrame(at, step, o, table, k);
  }

  lemma EventInRun(vm: Vm, ctx: Ctx, steps: seq<Step>, trace: seq<Observation>,
                   link: seq<bool>, arrivals: seq<DapCommand>, i: nat)
    requires Clean(vm) && ctx.moved == vm.table && TraceOf(vm, steps, trace) && Abort !in steps
    requires i < |trace| == |link|
    ensures forall j :: 0 <= j < |trace| ==> WellFormed(trace[j])
    ensures Clean(Before(vm, steps, trace, i).0)
    ensures IsSnapshot(Play(ctx, trace, link, arrivals)[i].event, trace[i], Before(vm, steps, trace, i).0.table)
  {
    TraceWellFormed(vm, steps, trace);
    EventsAreSnapshots(ctx, trace, link, arrivals, i);
    TablesAgree(vm, steps, trace, i);
  }

  /** In an abort-free run under the debugger, from a clean VM and a debug context with the same table,
      whatever commands arrive at whichever stops and whenever the connection is lost: every stop the
      client is told of shows, for each frame in reach, the activation it stands for. */
  lemma EveryStopIsFaithful(vm: Vm, ctx: Ctx, steps: seq<Step>, trace: seq<Observation>,
                            link: seq<bool>, arrivals: seq<DapCommand>, i: nat, k: nat)
    requires Clean(vm) && ctx.moved == vm.table && TraceOf(vm, steps, trace) && Abort !in steps
    requires i < |trace| == |link| && k < 99_000
    ensures forall j :: 0 <= j < |trace| ==> WellFormed(trace[j])
    ensures var (at, step) := Before(vm, steps, trace, i);
            FaithfulIfSent(Play(ctx, trace, link, arrivals)[i].event, at, step, trace[i], k)
  {
    EventInRun(vm, ctx, steps, trace, link, arrivals, i);
    var r := Before(vm, steps, trace, i);
    EventShowsFrame(Play(ctx, trace, link, arrivals)[i].event, r.0, r.1, trace[i], r.0.table, k);
  }

  /** So it is in every whole run: a fresh debug context on a VM that has not started yet. */
  lemma WholeRunsAreFaithful(steps: seq<Step>, trace: seq<Observation>,
                             link: seq<bool>, arrivals: seq<DapCommand>, i: nat, k: nat)
    requires TraceOf(Init(), steps, trace) && Abort !in steps
    requires i < |trace| == |link| && k < 99_000
    ensures forall j :: 0 <= j < |trace| ==> WellFormed(trace[j])
    ensures var (at, step) := Before(Init(), steps, trace, i);
            FaithfulIfSent(Play(NewCtx(), trace, link, arrivals)[i].event, at, step, trace[i], k)
  {
    StartsClean();
    EveryStopIsFaithful(Init(), NewCtx(), steps, trace, link, arrivals, i, k);
  }
}
