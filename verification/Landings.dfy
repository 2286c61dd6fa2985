/** Where a handler comes back: the instruction the VM stops at next, whatever the schedule, and so where a
    resume command and a launch land (src/server.rs, `send_command_and_wait`, `handle_configuration_done`). */
module Landings {
  import opened Prelude
  import opened Locations
  import opened DapTypes
  import opened Snapshots
  import opened DebugContext
  import opened Protocol
  import opened ProtocolTheorems
  import opened Debugging
  import opened Interleaving
  import Stepping

  // ---------- The next stop in the rest of a program ----------

  /** The VM stopped before `o` for this reason, with `rest` to come. */
  datatype Halt = Halt(ctx: Ctx, o: Observation, rest: seq<Observation>, reason: StopReason)

  function Upcoming(ctx: Ctx, rest: seq<Observation>): Option<Halt>
    decreases |rest|
  {
    if rest == [] then None
    else
      var (ctx', reason) := Advance(ctx, rest[0]);
      if reason.Some? then Some(Halt(ctx', rest[0], rest[1..], reason.value)) else Upcoming(ctx', rest[1..])
  }

  /** The halt after this one, when these commands arrive. */
  function Onward(h: Halt, cmds: seq<DapCommand>): Option<Halt> {
    Upcoming(CommandLoop(h.ctx, h.o, cmds).0, h.rest)
  }

  ghost predicate Showable(h: Option<Halt>) {
    h.Some? ==> WellFormed(h.value.o) && WellFormedProgram(h.value.rest)
  }

  /** What a handler leaves behind: the stopped state, and the last event it sent to the client. */
  datatype Reply = Reply(stopped: Option<VmStoppedState>, told: Option<Notice>)

  ghost function Shown(h: Option<Halt>): Reply
    requires Showable(h)
  {
    match h
    case Some(halt) => Reply(Some(BuildState(halt.o, halt.ctx.moved)), Some(StoppedNotice(halt.reason)))
    case None => Reply(None, Some(TerminatedNotice))
  }

  lemma {:induction false} UpcomingShowable(ctx: Ctx, rest: seq<Observation>)
    requires WellFormedProgram(rest)
    ensures Showable(Upcoming(ctx, rest))
    decreases |rest|
  {
    if rest != [] { UpcomingShowable(Advance(ctx, rest[0]).0, rest[1..]); }
  }

  /** The halt is the one at the `n`-th instruction of a trace, with the table of all moves up to there;
      there is none behind the end. */
  ghost predicate HaltsAt(h: Option<Halt>, table: MovedTable, trace: seq<Observation>, n: nat) {
    && (h.Some? <==> n < |trace|)
    && (h.Some? ==>
         && h.value.o == trace[n] && h.value.rest == trace[n + 1..]
         && h.value.ctx.moved == TableBefore(table, trace, n + 1))
  }

  /** The upcoming halt is the next stop of a single run. */
  lemma {:induction false} UpcomingIsNextStop(ctx: Ctx, rest: seq<Observation>)
    ensures HaltsAt(Upcoming(ctx, rest), ctx.moved, rest, Stepping.NextStop(ctx, rest))
    decreases |rest|
  {
    if rest != [] {
      var (ctx', reason) := Advance(ctx, rest[0]);
      assert ctx'.moved == Recorded(ctx.moved, rest[0]);
      if reason.None? {
        UpcomingIsNextStop(ctx', rest[1..]);
      } else {
        assert TableBefore(Recorded(ctx.moved, rest[0]), rest[1..], 0) == Recorded(ctx.moved, rest[0]);
      }
    }
  }

  ghost predicate TellsAt(h: Option<Halt>, breakpoints: set<SourceLoc>, last: Option<Hit>,
                          trace: seq<Observation>, n: nat)
  {
    h.Some? ==>
      && n < |trace|
      && if Stepping.Hits(breakpoints, last, trace)[n]
         then trace[n].line.Some? && h.value.reason == Breakpoint(trace[n].line.value)
         else h.value.reason == Step
  }

  /** Its reason is a breakpoint exactly if it is a hit of the undisturbed run. */
  lemma {:induction false} UpcomingTells(ctx: Ctx, rest: seq<Observation>)
    ensures TellsAt(Upcoming(ctx, rest), ctx.breakpoints, ctx.lastHit, rest, Stepping.NextStop(ctx, rest))
    decreases |rest|
  {
    if rest != [] && Advance(ctx, rest[0]).1.None? { UpcomingTells(Advance(ctx, rest[0]).0, rest[1..]); }
    UpcomingIsNextStop(ctx, rest);
  }

  lemma {:induction false} TableBehind(table: MovedTable, trace: seq<Observation>, m: nat, n: nat)
    requires m + n <= |trace|
    ensures TableBefore(TableBefore(table, trace, m), trace[m..], n) == TableBefore(table, trace, m + n)
    decreases m
  {
    if m > 0 {
      assert trace[1..][m - 1..] == trace[m..];
      TableBehind(Recorded(table, trace[0]), trace[1..], m - 1, n);
    } else {
      assert trace[0..] == trace;
    }
  }

  /** What halts at the `n`-th instruction behind a halt, halts there in the whole. */
  lemma HaltsBehind(h: Option<Halt>, first: Halt, table: MovedTable, trace: seq<Observation>, m: nat,
                    n: nat, at: nat)
    requires HaltsAt(Some(first), table, trace, m) && HaltsAt(h, first.ctx.moved, first.rest, n) && at == m + 1 + n
    ensures HaltsAt(h, table, trace, at)
  {
    if h.Some? {
      TableBehind(table, trace, m + 1, n + 1);
      assert first.rest[n + 1..] == trace[m + n + 2..];
    }
  }

  /** The state shown at the `n`-th instruction of a trace, none behind its end. */
  ghost function StateAt(table: MovedTable, trace: seq<Observation>, n: nat): Option<VmStoppedState>
    requires WellFormedProgram(trace)
  {
    if n < |trace| then Some(BuildState(trace[n], TableBefore(table, trace, n + 1))) else None
  }

  lemma ShownAt(h: Option<Halt>, table: MovedTable, trace: seq<Observation>, n: nat)
    requires HaltsAt(h, table, trace, n) && WellFormedProgram(trace)
    ensures Showable(h) && Shown(h).stopped == StateAt(table, trace, n)
  {
  }

  // ---------- The outcome of a handler ----------

  ghost function ShownFrom(ctx: Ctx, rest: seq<Observation>): Reply
    requires WellFormedProgram(rest)
  {
    UpcomingShowable(ctx, rest);
    Shown(Upcoming(ctx, rest))
  }

  /** What will be shown once the VM has taken what is queued for it and then these commands. */
  ghost function Awaited(s: State, cmds: seq<DapCommand>): Reply
    requires ProgramOk(s.vm)
  {
    match s.vm
    case Running(rest) => ShownFrom(s.ctx, rest)
    case AtStop(o, rest, _) => ShownFrom(CommandLoop(s.ctx, o, s.cmdQ + cmds).0, rest)
    case _ => Shown(None)
  }

  /** What is sent from the entry stop on. */
  function RunOn(pending: seq<SourceLoc>): seq<DapCommand> { [SetBreakpoints(pending), Continue] }

  /** The halt at which a launch comes back: the entry, or the one behind it if breakpoints are listed. */
  function LaunchHalt(ctx: Ctx, program: seq<Observation>, pending: seq<SourceLoc>): Option<Halt> {
    var entry := Upcoming(ctx, program);
    if entry.None? then None
    else if pending == [] then Some(entry.value.(reason := Entry))
    else Onward(entry.value, RunOn(pending))
  }

  lemma LaunchShowable(ctx: Ctx, program: seq<Observation>, pending: seq<SourceLoc>)
    requires WellFormedProgram(program)
    ensures Showable(LaunchHalt(ctx, program, pending))
  {
    UpcomingShowable(ctx, program);
    var entry := Upcoming(ctx, program);
    if entry.Some? {
      var ctx' := CommandLoop(entry.value.ctx, entry.value.o, RunOn(pending)).0;
      UpcomingShowable(ctx', entry.value.rest);
    }
  }

  ghost function LaunchShown(ctx: Ctx, program: seq<Observation>, pending: seq<SourceLoc>): Reply
    requires WellFormedProgram(program)
  {
    LaunchShowable(ctx, program, pending);
    Shown(LaunchHalt(ctx, program, pending))
  }

  ghost function ReplyTo(event: DapEvent): Reply { Reply(AfterEvent(Some(event)), Some(NoticeOf(Some(event)))) }

  /** What the handler under way will leave behind when it returns. */
  ghost function Outcome(s: State): Reply
    requires ProgramOk(s.vm)
  {
    match s.phase
    case AwaitEntry =>
      if s.evtQ == [] then if s.vm.Running? then LaunchShown(s.ctx, s.vm.rest, s.pending) else Shown(None)
      else if !s.evtQ[0].Stopped? then ReplyTo(s.evtQ[0])
      else if s.pending == [] then ReplyTo(s.evtQ[0]).(told := Some(StoppedNotice(Entry)))
      else Awaited(s, RunOn(s.pending))
    case SendUpdate => Awaited(s, RunOn(s.pending))
    case SendContinue => Awaited(s, [Continue])
    case Await => if s.evtQ == [] then Awaited(s, []) else ReplyTo(s.evtQ[0])
    case _ => Reply(s.stopped, s.told)
  }

  lemma CommandTakenKeepsAwaited(s: State, cmds: seq<DapCommand>)
    requires s.vm.AtStop? && ProgramOk(s.vm) && s.cmdQ != []
    requires IsResume(s.cmdQ[0]) ==> s.cmdQ == [s.cmdQ[0]] && cmds == []
    ensures Awaited(VmDo(s), cmds) == Awaited(s, cmds)
  {
    assert (s.cmdQ + cmds)[0] == s.cmdQ[0] && (s.cmdQ + cmds)[1..] == s.cmdQ[1..] + cmds;
  }

  ghost predicate QuietRun(s: State) {
    Awaiting(s.phase) && s.vm.Running? && ProgramOk(s.vm) && s.cmdQ == [] && s.evtQ == []
  }

  lemma PassingKeepsOutcome(s: State)
    requires QuietRun(s) && (s.vm.rest == [] || Advance(s.ctx, s.vm.rest[0]).1.None?)
    ensures ProgramOk(VmDo(s).vm) && Outcome(VmDo(s)) == Outcome(s)
  {
  }

  lemma StoppingKeepsOutcome(s: State)
    requires QuietRun(s) && s.vm.rest != [] && Advance(s.ctx, s.vm.rest[0]).1.Some?
    ensures ProgramOk(VmDo(s).vm) && Outcome(VmDo(s)) == Outcome(s)
  {
    var s' := VmDo(s);
    assert s'.cmdQ + RunOn(s'.pending) == RunOn(s.pending);
  }

  lemma CommandLoopKeepsOutcome(s: State)
    requires Inv(s) && s.vm.AtStop? && s.cmdQ != [] && (s.phase.SendContinue? || s.phase.Await?)
    ensures ProgramOk(VmDo(s).vm) && Outcome(VmDo(s)) == Outcome(s)
  {
    if s.evtQ == [] {
      FirstOfQueue(s);
      CommandTakenKeepsAwaited(s, if s.phase.Await? then [] else [Continue]);
    }
  }

  lemma RunIsQuiet(s: State)
    requires Inv(s) && Awaiting(s.phase) && s.vm.Running?
    ensures QuietRun(s)
  {
  }

  /** The handler under way will hold another stopped state than now. */
  predicate Expecting(phase: Phase) { phase.AwaitEntry? || phase.SendUpdate? || phase.SendContinue? || phase.Await? }

  lemma UnexpectedKeepsOutcome(s: State)
    requires Enabled(s, VmStep) && !Expecting(s.phase)
    ensures ProgramOk(VmDo(s).vm) && Outcome(VmDo(s)) == Outcome(s)
  {
  }

  lemma ExpectingVm(s: State)
    requires Inv(s) && Enabled(s, VmStep) && Expecting(s.phase)
    ensures s.vm.Running? ==> Awaiting(s.phase)
    ensures s.vm.AtStop? ==> s.cmdQ != [] && (s.phase.SendContinue? || s.phase.Await?)
    ensures s.vm.Finished? ==> s.phase.Await? || (s.phase.AwaitEntry? && s.evtQ != [] && !s.evtQ[0].Stopped?)
  {
  }

  lemma FinishingKeepsOutcome(s: State)
    requires Enabled(s, VmStep) && s.vm.Finished?
    requires s.phase.Await? || (s.phase.AwaitEntry? && s.evtQ != [] && !s.evtQ[0].Stopped?)
    ensures ProgramOk(VmDo(s).vm) && Outcome(VmDo(s)) == Outcome(s)
  {
  }

  lemma VmStepKeepsOutcome(s: State)
    requires Inv(s) && Enabled(s, VmStep)
    ensures ProgramOk(VmDo(s).vm) && Outcome(VmDo(s)) == Outcome(s)
  {
    if !Expecting(s.phase) {
      UnexpectedKeepsOutcome(s);
    } else {
      ExpectingVm(s);
      match s.vm
      case Running(rest) =>
        RunIsQuiet(s);
        if rest == [] || Advance(s.ctx, rest[0]).1.None? { PassingKeepsOutcome(s); }
        else { StoppingKeepsOutcome(s); }
      case AtStop(_, _, _) => CommandLoopKeepsOutcome(s);
      case _ => FinishingKeepsOutcome(s);
    }
  }

  /** What is queued first is no resume command, or the one thing the server waits for. */
  lemma FirstOfQueue(s: State)
    requires Inv(s) && s.vm.AtStop? && s.cmdQ != [] && s.evtQ == [] && (s.phase.SendContinue? || s.phase.Await?)
    ensures IsResume(s.cmdQ[0]) ==> s.phase.Await? && s.cmdQ == [s.cmdQ[0]]
  {
    if |s.cmdQ| > 1 {
      var updates := s.cmdQ[..|s.cmdQ| - 1];
      assert updates[0] == s.cmdQ[0];
    }
  }

  lemma ServerStepKeepsOutcome(fs: FileSystem, s: State, a: Action)
    requires Inv(s) && IsSystem(a) && !a.VmStep? && Enabled(s, a)
    ensures Inv(Do(fs, s, a)) && Outcome(Do(fs, s, a)) == Outcome(s)
  {
    InvKept(fs, s, a);
    if s.phase.SendUpdate? {
      assert (s.cmdQ + [SetBreakpoints(s.pending)]) + [Continue] == s.cmdQ + RunOn(s.pending);
    } else if s.phase.SendContinue? {
      assert (s.cmdQ + [Continue]) + [] == s.cmdQ + [Continue];
    }
  }

  /** Whatever either thread does next, the outcome of the handler under way stays the same. */
  lemma OutcomeKept(fs: FileSystem, s: State, a: Action)
    requires Inv(s) && IsSystem(a) && Enabled(s, a)
    ensures Inv(Do(fs, s, a)) && Outcome(Do(fs, s, a)) == Outcome(s)
  {
    InvKept(fs, s, a);
    if a.VmStep? { VmStepKeepsOutcome(s); } else { ServerStepKeepsOutcome(fs, s, a); }
  }

  /** Under every schedule the handler returns with its outcome. */
  lemma {:induction false} SettlesAtOutcome(fs: FileSystem, s: State, scheduler: nat -> Action, n: nat)
    requires Inv(s)
    ensures var r := Settle(fs, s, scheduler, n);
            Outcome(s) == Reply(r.stopped, r.told)
    decreases Rank(s.phase), InstructionsLeft(s.vm), VmRank(s.vm), |s.cmdQ|
  {
    if !AtRest(s.phase) {
      var a := Scheduled(s, scheduler(n));
      StepsCountDown(fs, s, a);
      OutcomeKept(fs, s, a);
      SettlesAtOutcome(fs, Do(fs, s, a), scheduler, n + 1);
    }
  }

  lemma IdleState(s: State)
    requires Inv(s) && s.phase.Idle?
    ensures if s.stopped.Some? then s.vm.AtStop? && s.stopped == Some(s.vm.snapshot) else VmDone(s)
  {
  }

  /** The two sides never both block: from any reachable state with a handler under way, some thread can
      move, and under every schedule the handler returns. It does so with its outcome; an idle server then
      holds the snapshot of the stop the VM waits at, or None once the VM is done. */
  lemma HandlersReturn(fs: FileSystem, s: State, scheduler: nat -> Action)
    requires Reachable(fs, s) && !AtRest(s.phase)
    ensures Inv(s)
    ensures exists a :: IsSystem(a) && Enabled(s, a)
    ensures var r := Settle(fs, s, scheduler, 0);
            && AtRest(r.phase) && r.pending == s.pending && Reply(r.stopped, r.told) == Outcome(s)
            && (r.phase.Idle? ==>
                 if r.stopped.Some? then r.vm.AtStop? && r.stopped == Some(r.vm.snapshot) else VmDone(r))
  {
    ReachableIsSound(fs, s);
    var a := SomeStep(s);
    assert IsSystem(a) && Enabled(s, a);
    SettlesAtOutcome(fs, s, scheduler, 0);
    var r := Settle(fs, s, scheduler, 0);
    if r.phase.Idle? { IdleState(r); }
  }

  // ---------- Where a resume command lands ----------

  /** The context a stopped VM goes on with: the server's breakpoints, and the operation commanded. */
  function Resumed(s: State, cmd: DapCommand): Ctx
    requires s.vm.AtStop? && IsResume(cmd)
  {
    s.ctx.(breakpoints := LocSet(s.pending), nextOp := ParseCmdOp(cmd, s.vm.o.depth, s.vm.o.line))
  }

  lemma {:induction false} UpdatesThenResume(ctx: Ctx, o: Observation, updates: seq<DapCommand>, cmd: DapCommand)
    requires OnlyUpdates(updates) && IsResume(cmd)
    ensures CommandLoop(ctx, o, updates + [cmd]).0 ==
            ctx.(breakpoints := Latest(ctx.breakpoints, updates), nextOp := ParseCmdOp(cmd, o.depth, o.line))
    decreases |updates|
  {
    if updates == [] {
      assert (updates + [cmd])[0] == cmd;
    } else {
      assert (updates + [cmd])[0] == updates[0] && (updates + [cmd])[1..] == updates[1..] + [cmd];
      LatestStep(ctx.breakpoints, updates);
      UpdatesThenResume(Receive(ctx, o, updates[0]), o, updates[1..], cmd);
    }
  }

  lemma ResumeOutcome(fs: FileSystem, s: State, cmd: DapCommand)
    requires Inv(s) && s.phase.Idle? && s.stopped.Some? && IsResume(cmd)
    ensures s.vm.AtStop? && ProgramOk(s.vm)
    ensures ProgramOk(Do(fs, s, ClientResume(cmd)).vm)
    ensures Outcome(Do(fs, s, ClientResume(cmd))) == ShownFrom(Resumed(s, cmd), s.vm.rest)
  {
    assert In(s, Stop);
    UpdatesThenResume(s.ctx, s.vm.o, s.cmdQ, cmd);
    assert s.cmdQ + [cmd] + [] == s.cmdQ + [cmd];
  }

  /** From every idle state with a stop, under every schedule, a resume command comes back with the
      snapshot of the first instruction ahead at which the debug loop stops for it, by the breakpoints of
      the server's list; or with None when there is none. So the landings of single runs are those of all
      interleavings. */
  lemma ResumeLands(fs: FileSystem, s: State, cmd: DapCommand, scheduler: nat -> Action)
    requires Reachable(fs, s) && s.phase.Idle? && s.stopped.Some? && IsResume(cmd)
    ensures s.vm.AtStop? && WellFormedProgram(s.vm.rest) && Inv(Do(fs, s, ClientResume(cmd)))
    ensures var ctx := s.ctx.(breakpoints := LocSet(s.pending));
            var n := Stepping.StopAfter(ctx, s.vm.o.depth, s.vm.o.line, cmd, s.vm.rest);
            Settle(fs, Do(fs, s, ClientResume(cmd)), scheduler, 0).stopped == StateAt(s.ctx.moved, s.vm.rest, n)
  {
    ReachableIsSound(fs, s);
    InvKept(fs, s, ClientResume(cmd));
    ResumeOutcome(fs, s, cmd);
    SettlesAtOutcome(fs, Do(fs, s, ClientResume(cmd)), scheduler, 0);
    var ctx := Resumed(s, cmd);
    UpcomingIsNextStop(ctx, s.vm.rest);
    ShownAt(Upcoming(ctx, s.vm.rest), ctx.moved, s.vm.rest, Stepping.NextStop(ctx, s.vm.rest));
  }

  // ---------- What a resume command is answered with ----------

  /** The looks the debug loop takes on its way along a trace, the breakpoints staying as they are. */
  function LooksAlong(breakpoints: set<SourceLoc>, trace: seq<Observation>): seq<Look> {
    seq(|trace|, i requires 0 <= i < |trace| => Look(breakpoints, trace[i].depth, trace[i].line))
  }

  /** The hits of an undisturbed run are those by the history, continued along the trace. */
  lemma {:induction false} HitsAreHistorical(breakpoints: set<SourceLoc>, looks: seq<Look>,
                                             trace: seq<Observation>, n: nat)
    requires n < |trace|
    ensures Stepping.Hits(breakpoints, Walk(looks).0, trace)[n] <==>
              HistoricalHit(breakpoints, Walk(looks + LooksAlong(breakpoints, trace[..n])).1, trace[n])
    decreases n
  {
    if n == 0 {
      assert looks + LooksAlong(breakpoints, trace[..0]) == looks;
      HitByHistory(breakpoints, looks, trace[0]);
    } else {
      var first := Look(breakpoints, trace[0].depth, trace[0].line);
      assert (looks + [first])[..|looks|] == looks;
      assert (looks + [first]) + LooksAlong(breakpoints, trace[1..][..n - 1])
             == looks + LooksAlong(breakpoints, trace[..n]);
      HitsAreHistorical(breakpoints, looks + [first], trace[1..], n - 1);
    }
  }

  lemma HitByHistory(breakpoints: set<SourceLoc>, looks: seq<Look>, o: Observation)
    ensures IsHit(breakpoints, Walk(looks).0, o.depth, o.line) <==> HistoricalHit(breakpoints, Walk(looks).1, o)
  {
    WalkSummarised(looks);
    if o.line.Some? {
      assert Walk(looks).0 == Some(Hit(o.line.value, o.depth)) <==> StillAt(Walk(looks).1, Hit(o.line.value, o.depth));
    }
  }

  /** What the client is told of a stop at the `n`-th instruction: a breakpoint exactly if its line is set
      and the history of all looks is not still at it; and of the end when there is no such instruction. */
  ghost predicate ToldAt(told: Option<Notice>, breakpoints: set<SourceLoc>, looks: seq<Look>,
                         trace: seq<Observation>, n: nat)
  {
    if n >= |trace| then told == Some(TerminatedNotice)
    else if HistoricalHit(breakpoints, Walk(looks + LooksAlong(breakpoints, trace[..n])).1, trace[n])
    then told == Some(StoppedNotice(Breakpoint(trace[n].line.value)))
    else told == Some(StoppedNotice(Step))
  }

  lemma ShownTells(h: Option<Halt>, breakpoints: set<SourceLoc>, looks: seq<Look>, trace: seq<Observation>, n: nat)
    requires Showable(h) && (h.Some? <==> n < |trace|)
    requires TellsAt(h, breakpoints, Walk(looks).0, trace, n)
    ensures ToldAt(Shown(h).told, breakpoints, looks, trace, n)
  {
    if n < |trace| { HitsAreHistorical(breakpoints, looks, trace, n); }
  }

  lemma UpcomingTold(ctx: Ctx, looks: seq<Look>, rest: seq<Observation>)
    requires WellFormedProgram(rest) && ctx.lastHit == Walk(looks).0
    ensures ToldAt(ShownFrom(ctx, rest).told, ctx.breakpoints, looks, rest, Stepping.NextStop(ctx, rest))
  {
    UpcomingShowable(ctx, rest);
    UpcomingIsNextStop(ctx, rest);
    UpcomingTells(ctx, rest);
    ShownTells(Upcoming(ctx, rest), ctx.breakpoints, looks, rest, Stepping.NextStop(ctx, rest));
  }

  lemma ResumeAnswer(fs: FileSystem, s: State, cmd: DapCommand, looks: seq<Look>, scheduler: nat -> Action)
    requires Inv(s) && s.phase.Idle? && s.stopped.Some? && IsResume(cmd) && s.ctx.lastHit == Walk(looks).0
    ensures s.vm.AtStop? && Inv(Do(fs, s, ClientResume(cmd)))
    ensures var ctx := s.ctx.(breakpoints := LocSet(s.pending));
            var n := Stepping.StopAfter(ctx, s.vm.o.depth, s.vm.o.line, cmd, s.vm.rest);
            ToldAt(Settle(fs, Do(fs, s, ClientResume(cmd)), scheduler, 0).told, LocSet(s.pending), looks, s.vm.rest, n)
  {
    InvKept(fs, s, ClientResume(cmd));
    ResumeOutcome(fs, s, cmd);
    SettlesAtOutcome(fs, Do(fs, s, ClientResume(cmd)), scheduler, 0);
    UpcomingTold(Resumed(s, cmd), looks, s.vm.rest);
  }

  /** In every interleaving the client is told of the landing of a resume command by the right reason: a
      breakpoint on its line exactly if that is set and the whole history is not still at it. */
  lemma ResumeTells(fs: FileSystem, actions: seq<Action>, program: seq<Observation>, cmd: DapCommand,
                    scheduler: nat -> Action)
    requires Possible(fs, Initial(), actions) && Launches(actions, program) && IsResume(cmd)
    requires Exec(fs, Initial(), actions).phase.Idle? && Exec(fs, Initial(), actions).stopped.Some?
    ensures var s := Exec(fs, Initial(), actions);
            && s.vm.AtStop? && |Looks(fs, actions)| <= |program| && s.vm.rest == program[|Looks(fs, actions)|..]
            && Inv(Do(fs, s, ClientResume(cmd)))
            && var ctx := s.ctx.(breakpoints := LocSet(s.pending));
            var n := Stepping.StopAfter(ctx, s.vm.o.depth, s.vm.o.line, cmd, s.vm.rest);
            ToldAt(Settle(fs, Do(fs, s, ClientResume(cmd)), scheduler, 0).told,
                   LocSet(s.pending), Looks(fs, actions), s.vm.rest, n)
  {
    SessionFollows(fs, actions, program);
    var s := Exec(fs, Initial(), actions);
    ReachableIsSound(fs, s);
    IdleState(s);
    ResumeAnswer(fs, s, cmd, Looks(fs, actions), scheduler);
  }

  // ---------- Where a launch lands ----------

  /** The first instruction whose line is known. */
  function FirstKnown(trace: seq<Observation>): (n: nat)
    ensures n <= |trace|
    ensures forall i :: 0 <= i < n ==> trace[i].line.None?
    ensures n < |trace| ==> trace[n].line.Some?
    decreases |trace|
  {
    if trace == [] || trace[0].line.Some? then 0 else 1 + FirstKnown(trace[1..])
  }

  predicate LineSet(breakpoints: set<SourceLoc>, o: Observation) {
    o.line.Some? && o.line.value in breakpoints
  }

  /** The first instruction from `from` on whose line is set. */
  function FirstSet(breakpoints: set<SourceLoc>, trace: seq<Observation>, from: nat): (n: nat)
    requires from <= |trace|
    ensures from <= n <= |trace|
    ensures forall i :: from <= i < n ==> !LineSet(breakpoints, trace[i])
    ensures n < |trace| ==> LineSet(breakpoints, trace[n])
    decreases |trace| - from
  {
    if from == |trace| || LineSet(breakpoints, trace[from]) then from else FirstSet(breakpoints, trace, from + 1)
  }

  /** Where a launch lands: the entry without breakpoints, else the first set line behind the entry. */
  function LaunchStop(breakpoints: set<SourceLoc>, program: seq<Observation>): nat {
    var entry := FirstKnown(program);
    if breakpoints == {} || entry == |program| then entry else FirstSet(breakpoints, program, entry + 1)
  }

  /** A launch misses the first set line exactly if that is the line of the entry, whose stop is passed over. */
  lemma LaunchStopsAtFirstSet(breakpoints: set<SourceLoc>, program: seq<Observation>)
    requires breakpoints != {}
    ensures var entry := FirstKnown(program);
            LaunchStop(breakpoints, program) == FirstSet(breakpoints, program, 0) <==>
              entry == |program| || !LineSet(breakpoints, program[entry])
  {
  }

  /** It steps to the first known line, has no breakpoints and remembers no hit. */
  predicate Fresh(ctx: Ctx) { ctx.nextOp == StepIntoOp(None) && ctx.breakpoints == {} && ctx.lastHit == None }

  lemma {:induction false} EntryLands(ctx: Ctx, trace: seq<Observation>)
    requires Fresh(ctx)
    ensures Stepping.NextStop(ctx, trace) == FirstKnown(trace)
    ensures Upcoming(ctx, trace).Some? ==> Upcoming(ctx, trace).value.ctx.lastHit == None
    decreases |trace|
  {
    if trace != [] && trace[0].line.None? { EntryLands(Advance(ctx, trace[0]).0, trace[1..]); }
  }

  lemma EntryHalts(ctx: Ctx, program: seq<Observation>)
    requires Fresh(ctx)
    ensures HaltsAt(Upcoming(ctx, program), ctx.moved, program, FirstKnown(program))
    ensures Upcoming(ctx, program).Some? ==> Upcoming(ctx, program).value.ctx.lastHit == None
  {
    EntryLands(ctx, program);
    UpcomingIsNextStop(ctx, program);
  }

  lemma {:induction false} RunLands(ctx: Ctx, trace: seq<Observation>, from: nat, rest: seq<Observation>)
    requires ctx.nextOp == RunUntilBreakpoint && ctx.lastHit == None && from <= |trace| && rest == trace[from..]
    ensures from + Stepping.NextStop(ctx, rest) == FirstSet(ctx.breakpoints, trace, from)
    decreases |rest|
  {
    if rest != [] && !LineSet(ctx.breakpoints, rest[0]) {
      RunLands(Advance(ctx, rest[0]).0, trace, from + 1, rest[1..]);
    }
  }

  lemma OnwardRuns(h: Halt, pending: seq<SourceLoc>)
    ensures Onward(h, RunOn(pending)) ==
            Upcoming(h.ctx.(breakpoints := LocSet(pending), nextOp := RunUntilBreakpoint), h.rest)
  {
    var updates := [SetBreakpoints(pending)];
    assert updates + [Continue] == RunOn(pending);
    UpdatesThenResume(h.ctx, h.o, updates, Continue);
  }

  lemma RunHaltsBehind(h: Halt, pending: seq<SourceLoc>, table: MovedTable, program: seq<Observation>, n: nat)
    requires HaltsAt(Some(h), table, program, n) && h.ctx.lastHit == None
    ensures HaltsAt(Onward(h, RunOn(pending)), table, program, FirstSet(LocSet(pending), program, n + 1))
  {
    var ctx := h.ctx.(breakpoints := LocSet(pending), nextOp := RunUntilBreakpoint);
    OnwardRuns(h, pending);
    UpcomingIsNextStop(ctx, h.rest);
    RunLands(ctx, program, n + 1, h.rest);
    HaltsBehind(Onward(h, RunOn(pending)), h, table, program, n,
                Stepping.NextStop(ctx, h.rest), FirstSet(LocSet(pending), program, n + 1));
  }

  lemma LaunchHalts(ctx: Ctx, program: seq<Observation>, pending: seq<SourceLoc>)
    requires Fresh(ctx)
    ensures HaltsAt(LaunchHalt(ctx, program, pending), ctx.moved, program, LaunchStop(LocSet(pending), program))
  {
    EntryHalts(ctx, program);
    var entry := Upcoming(ctx, program);
    if pending != [] {
      assert pending[0] in LocSet(pending);
      if entry.Some? { RunHaltsBehind(entry.value, pending, ctx.moved, program, FirstKnown(program)); }
    }
  }

  /** In every interleaving a launch comes back with the snapshot of the instruction of `LaunchStop`, by the
      breakpoints listed before it; or with None when there is none. */
  lemma LaunchLands(fs: FileSystem, s: State, program: seq<Observation>, scheduler: nat -> Action)
    requires Reachable(fs, s) && Enabled(s, ClientConfigurationDone(program))
    ensures Inv(Do(fs, s, ClientConfigurationDone(program)))
    ensures Settle(fs, Do(fs, s, ClientConfigurationDone(program)), scheduler, 0).stopped ==
            StateAt(map[], program, LaunchStop(LocSet(s.pending), program))
  {
    ReachableIsSound(fs, s);
    assert In(s, Prelaunch);
    var s' := Do(fs, s, ClientConfigurationDone(program));
    InvKept(fs, s, ClientConfigurationDone(program));
    LaunchHalts(s'.ctx, program, s.pending);
    ShownAt(LaunchHalt(s'.ctx, program, s.pending), map[], program, LaunchStop(LocSet(s.pending), program));
    SettlesAtOutcome(fs, s', scheduler, 0);
  }

  lemma {:induction false} RunTells(ctx: Ctx, rest: seq<Observation>)
    requires ctx.nextOp == RunUntilBreakpoint
    ensures var h := Upcoming(ctx, rest);
            h.Some? ==> h.value.o.line.Some? && h.value.reason == Breakpoint(h.value.o.line.value)
    decreases |rest|
  {
    if rest != [] && Advance(ctx, rest[0]).1.None? { RunTells(Advance(ctx, rest[0]).0, rest[1..]); }
  }

  lemma LaunchHaltTells(ctx: Ctx, program: seq<Observation>, pending: seq<SourceLoc>)
    ensures var h := LaunchHalt(ctx, program, pending);
            h.Some? ==>
              if pending == [] then h.value.reason == Entry
              else h.value.o.line.Some? && h.value.reason == Breakpoint(h.value.o.line.value)
  {
    var entry := Upcoming(ctx, program);
    if entry.Some? && pending != [] {
      OnwardRuns(entry.value, pending);
      RunTells(entry.value.ctx.(breakpoints := LocSet(pending), nextOp := RunUntilBreakpoint), entry.value.rest);
    }
  }

  lemma LaunchAnswer(fs: FileSystem, s: State, program: seq<Observation>, scheduler: nat -> Action)
    requires Inv(s) && s.phase.AwaitEntry? && s.vm == Running(program) && s.ctx == NewCtx() && s.evtQ == []
    ensures var n := LaunchStop(LocSet(s.pending), program);
            var told := Settle(fs, s, scheduler, 0).told;
            if n >= |program| then told == Some(TerminatedNotice)
            else if s.pending == [] then told == Some(StoppedNotice(Entry))
            else program[n].line.Some? && told == Some(StoppedNotice(Breakpoint(program[n].line.value)))
  {
    LaunchHalts(s.ctx, program, s.pending);
    LaunchHaltTells(s.ctx, program, s.pending);
    SettlesAtOutcome(fs, s, scheduler, 0);
  }

  /** It is told of as the entry, or as the breakpoint it is; or as the end. */
  lemma LaunchTells(fs: FileSystem, s: State, program: seq<Observation>, scheduler: nat -> Action)
    requires Reachable(fs, s) && Enabled(s, ClientConfigurationDone(program))
    ensures Inv(Do(fs, s, ClientConfigurationDone(program)))
    ensures var n := LaunchStop(LocSet(s.pending), program);
            var told := Settle(fs, Do(fs, s, ClientConfigurationDone(program)), scheduler, 0).told;
            if n >= |program| then told == Some(TerminatedNotice)
            else if s.pending == [] then told == Some(StoppedNotice(Entry))
            else program[n].line.Some? && told == Some(StoppedNotice(Breakpoint(program[n].line.value)))
  {
    ReachableIsSound(fs, s);
    assert In(s, Prelaunch);
    InvKept(fs, s, ClientConfigurationDone(program));
    LaunchAnswer(fs, Do(fs, s, ClientConfigurationDone(program)), program, scheduler);
  }

  /** A program with two lines, and the first of them set. */
  lemma EntryPassedOver(program: seq<Observation>, loc: SourceLoc, other: SourceLoc)
    requires program == [Observation("f", Some(loc), 0, OtherInstruction, [], []),
                         Observation("f", Some(other), 0, Ret, [], [])]
    requires loc != other
    ensures WellFormedProgram(program)
    ensures FirstSet({loc}, program, 0) == 0 && LaunchStop({loc}, program) == 2
  {
    assert !LineSet({loc}, program[1]);
  }

  /** It does happen: with a breakpoint on the line of the entry, and no other instruction on it, every
      launch runs the VM to its end with nothing shown. */
  lemma EntryBreakpointMissed(fs: FileSystem, s: State, loc: SourceLoc, other: SourceLoc, scheduler: nat -> Action)
    requires Reachable(fs, s) && s.phase.Unlaunched? && LocSet(s.pending) == {loc} && loc != other
    ensures var program := [Observation("f", Some(loc), 0, OtherInstruction, [], []),
                            Observation("f", Some(other), 0, Ret, [], [])];
            && FirstSet(LocSet(s.pending), program, 0) == 0
            && Enabled(s, ClientConfigurationDone(program))
            && Inv(Do(fs, s, ClientConfigurationDone(program)))
            && Settle(fs, Do(fs, s, ClientConfigurationDone(program)), scheduler, 0).stopped == None
  {
    var program := [Observation("f", Some(loc), 0, OtherInstruction, [], []),
                    Observation("f", Some(other), 0, Ret, [], [])];
    EntryPassedOver(program, loc, other);
    LaunchLands(fs, s, program, scheduler);
  }
}
