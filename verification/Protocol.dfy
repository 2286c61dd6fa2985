/** The server and the VM thread as two processes over two channels, interleaved step by step
    (src/server.rs, src/debugger/dap_context.rs). */
module Protocol {
  import opened Prelude
  import opened Locations
  import opened DapTypes
  import opened Snapshots
  import opened DebugContext
  import opened PendingBreakpoints

  /** Where the server's one thread is. Between requests it is `Unlaunched`, `Idle` or `Left`; in the
      two `Await` phases it sits in `recv`; the others lie between two effects of one handler. */
  datatype Phase =
    | Unlaunched
    | AwaitEntry      // `configurationDone`: the VM is started, its first event is awaited
    | SendUpdate      // the entry stop has come and there are breakpoints to send
    | SendContinue    // they are sent, `Continue` is next
    | Await           // a resume command is sent, the next event is awaited
    | Idle
    | Publishing      // `setBreakpoints`: the list is updated, not yet sent
    | Dropping        // `disconnect`: the command sender is gone
    | Joining         // the event receiver is gone too, the VM thread is joined
    | Left

  /** Where the VM thread is: before an instruction, in the command loop, done but with its debug
      context alive, or gone. `rest` are the instructions still to come. */
  datatype VmPhase =
    | Unstarted
    | Running(rest: seq<Observation>)
    | AtStop(o: Observation, rest: seq<Observation>, snapshot: VmStoppedState)
    | Finished
    | Exited

  /** The event a handler that waited for the VM closes with. */
  datatype Notice = StoppedNotice(reason: StopReason) | TerminatedNotice

  /** `told` is the last such event the client was sent. */
  datatype State = State(
    phase: Phase,
    pending: seq<SourceLoc>,
    stopped: Option<VmStoppedState>,
    vm: VmPhase,
    ctx: Ctx,
    cmdQ: seq<DapCommand>,
    evtQ: seq<DapEvent>,
    told: Option<Notice>)

  datatype Action =
    | ClientSetBreakpoints(req: Request)
    | ClientConfigurationDone(program: seq<Observation>)
    | ClientResume(cmd: DapCommand)
    | ClientDisconnect
    | ServerSend
    | ServerRecv
    | ServerDrop
    | ServerJoin
    | VmStep

  function Initial(): State { State(Unlaunched, [], None, Unstarted, NewCtx(), [], [], None) }

  predicate AtRest(phase: Phase) { phase.Unlaunched? || phase.Idle? || phase.Left? }

  predicate Awaiting(phase: Phase) { phase.AwaitEntry? || phase.Await? }

  predicate SenderAlive(phase: Phase) {
    !(phase.Unlaunched? || phase.Dropping? || phase.Joining? || phase.Left?)
  }

  predicate ReceiverAlive(phase: Phase) { SenderAlive(phase) || phase.Dropping? }

  ghost predicate WellFormedProgram(program: seq<Observation>) {
    forall i :: 0 <= i < |program| ==> WellFormed(program[i])
  }

  ghost predicate ProgramOk(vm: VmPhase) {
    (vm.Running? || vm.AtStop?) ==> WellFormedProgram(vm.rest)
  }

  ghost predicate Enabled(s: State, a: Action) {
    match a
    case ClientSetBreakpoints(_) => AtRest(s.phase)
    case ClientConfigurationDone(program) => s.phase.Unlaunched? && WellFormedProgram(program)
    case ClientResume(cmd) => AtRest(s.phase) && IsResume(cmd)
    case ClientDisconnect => s.phase.Unlaunched? || s.phase.Idle?
    case ServerSend => s.phase.SendUpdate? || s.phase.SendContinue? || s.phase.Publishing?
    case ServerRecv => Awaiting(s.phase) && (s.evtQ != [] || s.vm.Exited?)
    case ServerDrop => s.phase.Dropping?
    case ServerJoin => s.phase.Joining? && s.vm.Exited?
    case VmStep =>
      && ProgramOk(s.vm)
      && match s.vm
         case Running(_) => true
         case AtStop(_, _, _) => s.cmdQ != [] || !SenderAlive(s.phase)
         case Finished => true
         case _ => false
  }

  predicate IsSystem(a: Action) {
    a.ServerSend? || a.ServerRecv? || a.ServerDrop? || a.ServerJoin? || a.VmStep?
  }

  /** A command behind the others, unless the debug context and with it the receiver is gone. */
  function Sent(s: State, cmd: DapCommand): seq<DapCommand> {
    if s.vm.Exited? then s.cmdQ else s.cmdQ + [cmd]
  }

  /** An event behind the others, unless the receiver is gone. */
  function Emitted(s: State, event: DapEvent): seq<DapEvent> {
    if ReceiverAlive(s.phase) then s.evtQ + [event] else s.evtQ
  }

  /** `wait_for_vm_event`: the stopped state after what `recv` returned, None being a broken channel. */
  function AfterEvent(event: Option<DapEvent>): Option<VmStoppedState> {
    match event
    case Some(Stopped(_, vmState)) => Some(vmState)
    case _ => None
  }

  /** The event sent to the client after what `recv` returned, unless the stop is the entry's. */
  function NoticeOf(event: Option<DapEvent>): Notice {
    match event
    case Some(Stopped(reason, _)) => StoppedNotice(reason)
    case _ => TerminatedNotice
  }

  function VmDo(s: State): State
    requires Enabled(s, VmStep)
  {
    match s.vm
    case Running(rest) =>
      if rest == [] then
        s.(vm := Finished, evtQ := Emitted(s, Terminated(None)))
      else
        var o := rest[0];
        var (ctx, reason) := Advance(s.ctx, o);
        if reason.None? then s.(vm := Running(rest[1..]), ctx := ctx)
        else if !ReceiverAlive(s.phase) then s.(vm := Running(rest[1..]), ctx := ctx.(nextOp := RunUntilBreakpoint))
        else
          var snapshot := BuildState(o, ctx.moved);
          s.(vm := AtStop(o, rest[1..], snapshot), ctx := ctx, evtQ := Emitted(s, Stopped(reason.value, snapshot)))
    case AtStop(o, rest, _) =>
      if s.cmdQ == [] then s.(vm := Running(rest), ctx := s.ctx.(nextOp := RunUntilBreakpoint))
      else
        var cmd := s.cmdQ[0];
        s.(vm := if IsResume(cmd) then Running(rest) else s.vm, ctx := Receive(s.ctx, o, cmd), cmdQ := s.cmdQ[1..])
    case Finished => s.(vm := Exited, cmdQ := [])
  }

  function RecvDo(s: State): State
    requires Enabled(s, ServerRecv)
  {
    var event := if s.evtQ == [] then None else Some(s.evtQ[0]);
    var evtQ := if s.evtQ == [] then [] else s.evtQ[1..];
    var entryStop := s.phase.AwaitEntry? && event.Some? && event.value.Stopped?;
    s.(phase := if entryStop && s.pending != [] then SendUpdate else Idle,
       stopped := AfterEvent(event),
       evtQ := evtQ,
       told := if !entryStop then Some(NoticeOf(event))
               else if s.pending != [] then s.told else Some(StoppedNotice(Entry)))
  }

  function Do(fs: FileSystem, s: State, a: Action): State
    requires Enabled(s, a)
  {
    match a
    case ClientSetBreakpoints(req) =>
      s.(pending := Updated(fs, s.pending, req), phase := if s.phase.Idle? then Publishing else s.phase)
    case ClientConfigurationDone(program) => s.(phase := AwaitEntry, vm := Running(program))
    case ClientResume(cmd) => if s.phase.Idle? then s.(phase := Await, cmdQ := Sent(s, cmd)) else s
    case ClientDisconnect => s.(phase := if s.phase.Idle? then Dropping else Left)
    case ServerSend =>
      if s.phase.SendContinue? then s.(phase := Await, cmdQ := Sent(s, Continue))
      else s.(phase := if s.phase.SendUpdate? then SendContinue else Idle, cmdQ := Sent(s, SetBreakpoints(s.pending)))
    case ServerRecv => RecvDo(s)
    case ServerDrop => s.(phase := Joining, evtQ := [])
    case ServerJoin => s.(phase := Left)
    case VmStep => VmDo(s)
  }

  ghost predicate Possible(fs: FileSystem, s: State, actions: seq<Action>)
    decreases |actions|
  {
    actions == [] || (Enabled(s, actions[0]) && Possible(fs, Do(fs, s, actions[0]), actions[1..]))
  }

  ghost function Exec(fs: FileSystem, s: State, actions: seq<Action>): State
    requires Possible(fs, s, actions)
    decreases |actions|
  {
    if actions == [] then s else Exec(fs, Do(fs, s, actions[0]), actions[1..])
  }

  // ---------- The control token ----------

  datatype Mode =
    | Prelaunch
    | Stop          // the server owns the token: the VM waits in its command loop
    | ResumeQueued  // one resume command is on its way, behind updates only
    | Run           // the VM owns the token: nothing is in either queue
    | EventQueued   // the token is on its way back
    | Over          // the VM has come to its end
    | Disconnecting

  /** The VM's breakpoints once it has taken all queued updates are the server's. */
  ghost predicate InStep(s: State, updates: seq<DapCommand>) {
    OnlyUpdates(updates) && Latest(s.ctx.breakpoints, updates) == LocSet(s.pending)
  }

  ghost predicate VmDone(s: State) { s.vm.Finished? || s.vm.Exited? }

  /** While an event is awaited: nothing is set before the entry stop, everything thereafter. */
  ghost predicate AwaitedInStep(s: State) {
    s.ctx.breakpoints == if s.phase.AwaitEntry? then {} else LocSet(s.pending)
  }

  ghost predicate In(s: State, mode: Mode) {
    match mode
    case Prelaunch =>
      && s.phase.Unlaunched? && s.vm.Unstarted? && s.stopped == None
      && s.cmdQ == [] && s.evtQ == [] && s.ctx == NewCtx()
    case Stop =>
      && (s.phase.Idle? || s.phase.Publishing? || s.phase.SendUpdate? || s.phase.SendContinue?)
      && s.vm.AtStop? && s.evtQ == [] && OnlyUpdates(s.cmdQ)
      && s.stopped == Some(s.vm.snapshot)
      && (s.phase.Idle? || s.phase.SendContinue? ==> InStep(s, s.cmdQ))
      && (s.phase.SendUpdate? ==> s.cmdQ == [])
    case ResumeQueued =>
      && s.phase.Await? && s.vm.AtStop? && s.evtQ == []
      && s.cmdQ != [] && IsResume(s.cmdQ[|s.cmdQ| - 1]) && InStep(s, s.cmdQ[..|s.cmdQ| - 1])
    case Run => Awaiting(s.phase) && s.vm.Running? && s.cmdQ == [] && s.evtQ == [] && AwaitedInStep(s)
    case EventQueued =>
      && Awaiting(s.phase) && |s.evtQ| == 1
      && (if s.evtQ[0].Stopped?
          then s.vm.AtStop? && s.vm.snapshot == s.evtQ[0].vmState && s.cmdQ == [] && AwaitedInStep(s)
          else VmDone(s))
    case Over =>
      && VmDone(s) && s.evtQ == [] && (s.phase.Idle? || s.phase.Publishing? || s.phase.Await?)
      && (!s.phase.Await? ==> s.stopped == None)
    case Disconnecting =>
      && (s.phase.Dropping? || s.phase.Joining? || s.phase.Left?)
      && (s.phase.Joining? ==> s.evtQ == [])
      && (s.vm.Unstarted? ==> s.phase.Left?)
      && (s.phase.Left? ==> s.vm.Unstarted? || s.vm.Exited?)
      && (s.vm.AtStop? || s.vm.Running? ==> InStep(s, s.cmdQ))
      && (s.vm.Running? ==> s.cmdQ == [] && s.ctx.nextOp.RunUntilBreakpoint?)
  }

  /** The snapshot of a stop is the one built from the instruction stopped at. */
  ghost predicate SnapshotOk(s: State) {
    s.vm.AtStop? ==> WellFormed(s.vm.o) && s.vm.snapshot == BuildState(s.vm.o, s.ctx.moved)
  }

  ghost predicate Inv(s: State) {
    ProgramOk(s.vm) && SnapshotOk(s) && exists mode :: In(s, mode)
  }

  lemma ModesExclude(s: State, m: Mode, n: Mode)
    requires In(s, m) && In(s, n)
    ensures m == n
  {
  }

  lemma VmStepKeeps(s: State, mode: Mode)
    requires In(s, mode) && ProgramOk(s.vm) && SnapshotOk(s) && Enabled(s, VmStep)
    ensures Inv(VmDo(s))
  {
    var s' := VmDo(s);
    match s.vm
    case Running(rest) =>
      if s'.vm.Running? {
        assert In(s', mode);
      } else if mode.Disconnecting? {
        assert In(s', Disconnecting);
      } else {
        assert In(s', EventQueued);
      }
    case AtStop(o, rest, _) =>
      if s.cmdQ == [] {
        assert In(s', Disconnecting);
      } else {
        CommandTakenKeeps(s, mode);
      }
    case Finished =>
      assert In(s', mode);
  }

  lemma LatestStep(breakpoints: set<SourceLoc>, updates: seq<DapCommand>)
    requires updates != [] && OnlyUpdates(updates)
    ensures OnlyUpdates(updates[1..])
    ensures Latest(LocSet(updates[0].locations), updates[1..]) == Latest(breakpoints, updates)
  {
  }

  lemma CommandTakenKeeps(s: State, mode: Mode)
    requires In(s, mode) && ProgramOk(s.vm) && SnapshotOk(s) && s.vm.AtStop? && s.cmdQ != []
    ensures Inv(VmDo(s))
  {
    var s' := VmDo(s);
    match mode
    case Stop =>
      LatestStep(s.ctx.breakpoints, s.cmdQ);
      assert In(s', Stop);
    case ResumeQueued =>
      var updates := s.cmdQ[..|s.cmdQ| - 1];
      if updates == [] {
        assert In(s', Run);
      } else {
        LatestStep(s.ctx.breakpoints, updates);
        assert updates[0] == s.cmdQ[0] && s'.cmdQ[..|s'.cmdQ| - 1] == updates[1..];
        assert In(s', ResumeQueued);
      }
    case Disconnecting =>
      LatestStep(s.ctx.breakpoints, s.cmdQ);
      assert In(s', Disconnecting);
    case _ =>
  }

  lemma ClientStepKeeps(fs: FileSystem, s: State, a: Action, mode: Mode)
    requires In(s, mode) && ProgramOk(s.vm) && SnapshotOk(s) && Enabled(s, a) && !IsSystem(a)
    ensures Inv(Do(fs, s, a))
  {
    var s' := Do(fs, s, a);
    match a
    case ClientSetBreakpoints(_) => assert In(s', mode);
    case ClientConfigurationDone(_) => assert In(s', Run);
    case ClientResume(_) =>
      if mode.Stop? {
        assert s'.cmdQ[..|s'.cmdQ| - 1] == s.cmdQ;
        assert In(s', ResumeQueued);
      } else {
        assert In(s', mode);
      }
    case ClientDisconnect => assert In(s', Disconnecting);
  }

  lemma ServerSendKeeps(fs: FileSystem, s: State, mode: Mode)
    requires In(s, mode) && ProgramOk(s.vm) && SnapshotOk(s) && Enabled(s, ServerSend)
    ensures Inv(Do(fs, s, ServerSend))
  {
    var s' := Do(fs, s, ServerSend);
    if s.phase.SendContinue? {
      assert s'.cmdQ[..|s'.cmdQ| - 1] == s.cmdQ;
      assert In(s', ResumeQueued);
    } else {
      assert In(s', mode);
    }
  }

  lemma ServerStepKeeps(fs: FileSystem, s: State, a: Action, mode: Mode)
    requires In(s, mode) && ProgramOk(s.vm) && SnapshotOk(s) && Enabled(s, a)
    requires a.ServerRecv? || a.ServerDrop? || a.ServerJoin?
    ensures Inv(Do(fs, s, a))
  {
    var s' := Do(fs, s, a);
    if a.ServerRecv? {
      if mode.EventQueued? && s.evtQ[0].Stopped? {
        assert In(s', Stop);
      } else {
        assert In(s', Over);
      }
    } else {
      assert In(s', Disconnecting);
    }
  }

  lemma InvKept(fs: FileSystem, s: State, a: Action)
    requires Inv(s) && Enabled(s, a)
    ensures Inv(Do(fs, s, a))
  {
    var mode :| In(s, mode);
    if a.VmStep? { VmStepKeeps(s, mode); }
    else if a.ServerSend? { ServerSendKeeps(fs, s, mode); }
    else if IsSystem(a) { ServerStepKeeps(fs, s, a, mode); }
    else { ClientStepKeeps(fs, s, a, mode); }
  }

  lemma {:induction false} ReachableInv(fs: FileSystem, s: State, actions: seq<Action>)
    requires Inv(s) && Possible(fs, s, actions)
    ensures Inv(Exec(fs, s, actions))
    decreases |actions|
  {
    if actions != [] {
      InvKept(fs, s, actions[0]);
      ReachableInv(fs, Do(fs, s, actions[0]), actions[1..]);
    }
  }
}
