/** The theorems about hits and about moved-out locals, carried over from single runs of the debug loop to
    every interleaving of the server and the VM thread. */
module Interleaving {
  import opened Prelude
  import opened Locations
  import opened DapTypes
  import opened Snapshots
  import opened DebugContext
  import opened Protocol
  import opened ProtocolTheorems
  import opened Debugging
  import MovedLocals

  /** Every launch among the actions is one of `program`. */
  ghost predicate Launches(actions: seq<Action>, program: seq<Observation>) {
    forall i :: 0 <= i < |actions| && actions[i].ClientConfigurationDone? ==> actions[i].program == program
  }

  /** The look the debug loop takes in this action, with the breakpoints in force at that moment. */
  function LookIn(s: State, a: Action): seq<Look> {
    if a.VmStep? && s.vm.Running? && s.vm.rest != []
    then [Look(s.ctx.breakpoints, s.vm.rest[0].depth, s.vm.rest[0].line)]
    else []
  }

  /** All looks taken so far, behind those given. */
  ghost function LooksAfter(fs: FileSystem, looks: seq<Look>, s: State, actions: seq<Action>): seq<Look>
    requires Possible(fs, s, actions)
    decreases |actions|
  {
    if actions == [] then looks
    else LooksAfter(fs, looks + LookIn(s, actions[0]), Do(fs, s, actions[0]), actions[1..])
  }

  /** The looks are at the first instructions of the program, one by one. */
  ghost predicate LooksAt(looks: seq<Look>, program: seq<Observation>) {
    |looks| <= |program| &&
    forall i :: 0 <= i < |looks| ==> looks[i].depth == program[i].depth && looks[i].line == program[i].line
  }

  /** The debug context is the one left by the looks taken. */
  ghost predicate LeftBy(ctx: Ctx, program: seq<Observation>, looks: seq<Look>) {
    && LooksAt(looks, program)
    && ctx.lastHit == Walk(looks).0
    && ctx.moved == TableBefore(map[], program, |looks|)
  }

  /** The VM thread is where the looks have brought it in the program. */
  ghost predicate Follows(s: State, program: seq<Observation>, looks: seq<Look>) {
    && (s.phase.Unlaunched? ==> s.vm.Unstarted?)
    && match s.vm
       case Unstarted => looks == [] && LeftBy(s.ctx, program, [])
       case Running(rest) => LeftBy(s.ctx, program, looks) && rest == program[|looks|..]
       case AtStop(o, rest, _) =>
         && LeftBy(s.ctx, program, looks) && rest == program[|looks|..]
         && looks != [] && o == program[|looks| - 1]
       case _ => true
  }

  lemma {:induction false} TableBeforeNext(table: MovedTable, trace: seq<Observation>, n: nat)
    requires n < |trace|
    ensures TableBefore(table, trace, n + 1) == Recorded(TableBefore(table, trace, n), trace[n])
    decreases n
  {
    if n > 0 { TableBeforeNext(Recorded(table, trace[0]), trace[1..], n - 1); }
  }

  /** One look brings the context and the program one instruction on. */
  lemma LookLeaves(ctx: Ctx, program: seq<Observation>, looks: seq<Look>)
    requires LeftBy(ctx, program, looks) && |looks| < |program|
    ensures var o := program[|looks|];
            LeftBy(Advance(ctx, o).0, program, looks + [Look(ctx.breakpoints, o.depth, o.line)])
  {
    var o := program[|looks|];
    var looks' := looks + [Look(ctx.breakpoints, o.depth, o.line)];
    assert looks'[..|looks|] == looks;
    TableBeforeNext(map[], program, |looks|);
  }

  /** Every step of either thread or of the client keeps program, context and looks together. */
  lemma FollowsKept(fs: FileSystem, s: State, a: Action, program: seq<Observation>, looks: seq<Look>)
    requires Follows(s, program, looks) && Enabled(s, a)
    requires a.ClientConfigurationDone? ==> a.program == program
    ensures Follows(Do(fs, s, a), program, looks + LookIn(s, a))
  {
    if LookIn(s, a) == [] {
      assert looks + LookIn(s, a) == looks;
    } else {
      LookLeaves(s.ctx, program, looks);
    }
  }

  lemma {:induction false} RunsFollow(fs: FileSystem, s: State, actions: seq<Action>, program: seq<Observation>,
                                      looks: seq<Look>)
    requires Follows(s, program, looks) && Possible(fs, s, actions) && Launches(actions, program)
    ensures Follows(Exec(fs, s, actions), program, LooksAfter(fs, looks, s, actions))
    decreases |actions|
  {
    if actions != [] {
      var a := actions[0];
      FollowsKept(fs, s, a, program, looks);
      RunsFollow(fs, Do(fs, s, a), actions[1..], program, looks + LookIn(s, a));
    }
  }

  lemma InitialFollows(program: seq<Observation>)
    ensures Follows(Initial(), program, [])
  {
  }

  /** The looks of a whole session. */
  ghost function Looks(fs: FileSystem, actions: seq<Action>): seq<Look>
    requires Possible(fs, Initial(), actions)
  {
    LooksAfter(fs, [], Initial(), actions)
  }

  lemma SessionFollows(fs: FileSystem, actions: seq<Action>, program: seq<Observation>)
    requires Possible(fs, Initial(), actions) && Launches(actions, program)
    ensures Follows(Exec(fs, Initial(), actions), program, Looks(fs, actions))
    ensures Reachable(fs, Exec(fs, Initial(), actions))
  {
    InitialFollows(program);
    RunsFollow(fs, Initial(), actions, program, []);
  }

  /** The event is a stop at a breakpoint on this line. */
  predicate StopsOn(event: DapEvent, line: Option<SourceLoc>) {
    event.Stopped? && line.Some? && event.reason == Breakpoint(line.value)
  }

  /** The line is set and the history is not still at it at this depth. */
  ghost predicate HistoricalHit(breakpoints: set<SourceLoc>, history: seq<Visit>, o: Observation) {
    o.line.Some? && o.line.value in breakpoints && !StillAt(history, Hit(o.line.value, o.depth))
  }

  lemma HitIsHistorical(ctx: Ctx, program: seq<Observation>, looks: seq<Look>, o: Observation)
    requires LeftBy(ctx, program, looks)
    ensures IsHit(ctx.breakpoints, ctx.lastHit, o.depth, o.line) <==> HistoricalHit(ctx.breakpoints, Walk(looks).1, o)
  {
    WalkSummarised(looks);
    if o.line.Some? {
      assert ctx.lastHit == Some(Hit(o.line.value, o.depth)) <==> StillAt(Walk(looks).1, Hit(o.line.value, o.depth));
    }
  }

  lemma AwaitedRun(s: State)
    requires Inv(s) && Awaiting(s.phase) && s.vm.Running?
    ensures s.evtQ == [] && s.ctx.breakpoints == (if s.phase.AwaitEntry? then {} else LocSet(s.pending))
  {
  }

  lemma NextStep(s: State, looks: seq<Look>)
    requires Awaiting(s.phase) && s.vm.Running? && s.vm.rest != [] && ProgramOk(s.vm) && s.evtQ == []
    requires var o := s.vm.rest[0];
             IsHit(s.ctx.breakpoints, s.ctx.lastHit, o.depth, o.line) <==>
               HistoricalHit(s.ctx.breakpoints, Walk(looks).1, o)
    ensures var evtQ := VmDo(s).evtQ;
            var o := s.vm.rest[0];
            |evtQ| <= 1 && (HistoricalHit(s.ctx.breakpoints, Walk(looks).1, o) <==>
                            evtQ != [] && StopsOn(evtQ[0], o.line))
  {
  }

  /** In every interleaving: while the client waits, the VM's next instruction stops at a breakpoint exactly
      if its line is set, by the looks at all instructions before, and the history is not still at it.
      After the entry stop the lines set are those of the server's list. */
  lemma StopsOnHistoricalHits(fs: FileSystem, actions: seq<Action>, program: seq<Observation>)
    requires Possible(fs, Initial(), actions) && Launches(actions, program)
    requires var s := Exec(fs, Initial(), actions);
             Awaiting(s.phase) && s.vm.Running? && s.vm.rest != []
    ensures var s := Exec(fs, Initial(), actions);
            var looks := Looks(fs, actions);
            && LooksAt(looks, program) && s.vm.rest == program[|looks|..]
            && s.ctx.breakpoints == (if s.phase.AwaitEntry? then {} else LocSet(s.pending))
            && var o := program[|looks|];
            && Enabled(s, VmStep)
            && var evtQ := Do(fs, s, VmStep).evtQ;
            && |evtQ| <= 1
            && (HistoricalHit(s.ctx.breakpoints, Walk(looks).1, o) <==> evtQ != [] && StopsOn(evtQ[0], o.line))
  {
    SessionFollows(fs, actions, program);
    var s := Exec(fs, Initial(), actions);
    ReachableIsSound(fs, s);
    var looks := Looks(fs, actions);
    AwaitedRun(s);
    HitIsHistorical(s.ctx, program, looks, s.vm.rest[0]);
    NextStep(s, looks);
  }

  /** The state shows frame `k` at the `i`-th instruction of a run as the activation it stands for. */
  ghost predicate ShowsFrameAt(state: VmStoppedState, vm: MovedLocals.Vm, steps: seq<MovedLocals.Step>,
                               program: seq<Observation>, i: nat, k: nat)
    requires TraceOf(vm, steps, program) && i < |program|
  {
    ShowsFrame(state, Before(vm, steps, program, i).0, Before(vm, steps, program, i).1, program[i], k)
  }

  lemma SnapshotInRun(vm: MovedLocals.Vm, steps: seq<MovedLocals.Step>, program: seq<Observation>, i: nat, k: nat)
    requires TraceOf(vm, steps, program) && Clean(vm) && MovedLocals.Abort !in steps && i < |program| && k < 99_000
    requires WellFormed(program[i])
    ensures ShowsFrameAt(BuildState(program[i], Recorded(TableBefore(vm.table, program, i), program[i])), vm, steps,
                         program, i, k)
  {
    var r := Before(vm, steps, program, i);
    TablesAgree(vm, steps, program, i);
    SnapshotShowsFrame(r.0, r.1, program[i], TableBefore(vm.table, program, i), k);
  }

  /** The state is the snapshot built at the `i`-th instruction of the program. */
  ghost predicate TakenAt(state: VmStoppedState, program: seq<Observation>, i: nat)
    requires i < |program|
  {
    WellFormed(program[i]) && state == BuildState(program[i], Recorded(TableBefore(map[], program, i), program[i]))
  }

  lemma SnapshotInWholeRun(state: VmStoppedState, steps: seq<MovedLocals.Step>, program: seq<Observation>, i: nat,
                           k: nat)
    requires TraceOf(MovedLocals.Init(), steps, program) && MovedLocals.Abort !in steps && i < |program| && k < 99_000
    requires TakenAt(state, program, i)
    ensures ShowsFrameAt(state, MovedLocals.Init(), steps, program, i, k)
  {
    StartsClean();
    SnapshotInRun(MovedLocals.Init(), steps, program, i, k);
  }

  /** An idle server with a stopped state holds the snapshot built at the last instruction looked at. */
  lemma IdleAtLastLook(s: State, program: seq<Observation>, looks: seq<Look>)
    requires Inv(s) && Follows(s, program, looks) && s.phase.Idle? && s.stopped.Some?
    ensures 0 < |looks| <= |program| && s.vm.AtStop? && s.vm.o == program[|looks| - 1]
    ensures TakenAt(s.stopped.value, program, |looks| - 1)
  {
    TableBeforeNext(map[], program, |looks| - 1);
  }

  lemma IdleShowsFrame(s: State, program: seq<Observation>, looks: seq<Look>, steps: seq<MovedLocals.Step>, k: nat)
    requires Inv(s) && Follows(s, program, looks) && s.phase.Idle? && s.stopped.Some?
    requires TraceOf(MovedLocals.Init(), steps, program) && MovedLocals.Abort !in steps && k < 99_000
    ensures 0 < |looks| <= |program| && s.vm.AtStop? && s.vm.o == program[|looks| - 1]
    ensures ShowsFrameAt(s.stopped.value, MovedLocals.Init(), steps, program, |looks| - 1, k)
  {
    IdleAtLastLook(s, program, looks);
    SnapshotInWholeRun(s.stopped.value, steps, program, |looks| - 1, k);
  }

  /** In every interleaving over a program that is an abort-free run: whenever the server is idle with a
      stopped state, that state shows each frame in reach as the activation it stands for, right before
      the last instruction looked at. */
  lemma IdleShowsActivation(fs: FileSystem, actions: seq<Action>, steps: seq<MovedLocals.Step>,
                            program: seq<Observation>, k: nat)
    requires Possible(fs, Initial(), actions) && Launches(actions, program)
    requires Exec(fs, Initial(), actions).phase.Idle? && Exec(fs, Initial(), actions).stopped.Some?
    requires TraceOf(MovedLocals.Init(), steps, program) && MovedLocals.Abort !in steps && k < 99_000
    ensures var state := Exec(fs, Initial(), actions).stopped.value;
            var n := |Looks(fs, actions)|;
            && 0 < n <= |program| && Exec(fs, Initial(), actions).vm.AtStop?
            && Exec(fs, Initial(), actions).vm.o == program[n - 1]
            && ShowsFrameAt(state, MovedLocals.Init(), steps, program, n - 1, k)
  {
    SessionFollows(fs, actions, program);
    ReachableIsSound(fs, Exec(fs, Initial(), actions));
    IdleShowsFrame(Exec(fs, Initial(), actions), program, Looks(fs, actions), steps, k);
  }
}
