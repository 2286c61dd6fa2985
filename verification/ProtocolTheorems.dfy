/** What holds in every interleaving of the server and the VM thread. */
module ProtocolTheorems {
  import opened Prelude
  import opened Locations
  import opened DapTypes
  import opened Snapshots
  import opened DebugContext
  import opened PendingBreakpoints
  import opened Protocol

  /** Some possible sequence of actions, of the client and of both threads, leads to `s`. */
  ghost predicate Reachable(fs: FileSystem, s: State) {
    exists actions :: Possible(fs, Initial(), actions) && Exec(fs, Initial(), actions) == s
  }

  lemma ReachableIsSound(fs: FileSystem, s: State)
    requires Reachable(fs, s)
    ensures Inv(s)
  {
    var actions :| Possible(fs, Initial(), actions) && Exec(fs, Initial(), actions) == s;
    assert In(Initial(), Prelaunch);
    ReachableInv(fs, Initial(), actions);
  }

  /** In every reachable state exactly one mode holds. */
  lemma OneModeAlways(fs: FileSystem, s: State)
    requires Reachable(fs, s)
    ensures exists mode :: In(s, mode)
    ensures forall m, n :: In(s, m) && In(s, n) ==> m == n
  {
    ReachableIsSound(fs, s);
    forall m, n | In(s, m) && In(s, n) ensures m == n { ModesExclude(s, m, n); }
  }

  /** Between requests the server's stopped state is the snapshot of the stop the VM is waiting at, built
      from the instruction it waits before; or it is None, and the VM has come to its end. */
  lemma StoppedStateIsCurrent(fs: FileSystem, s: State)
    requires Reachable(fs, s) && s.phase.Idle?
    ensures if s.stopped.Some?
            then s.vm.AtStop? && WellFormed(s.vm.o) && s.stopped == Some(BuildState(s.vm.o, s.ctx.moved))
            else VmDone(s)
  {
    ReachableIsSound(fs, s);
  }

  /** No resume command outlives the stop it was sent in: nothing is queued for the VM while it runs, so
      each stop starts with an empty queue; at a stop a resume command is the last in the queue, and
      then the server is waiting for its effect. */
  lemma NoResumeOutlivesItsStop(fs: FileSystem, s: State)
    requires Reachable(fs, s)
    ensures s.vm.Running? ==> s.cmdQ == []
    ensures s.vm.AtStop? ==>
              forall i :: 0 <= i < |s.cmdQ| && IsResume(s.cmdQ[i]) ==> i == |s.cmdQ| - 1 && s.phase.Await?
  {
    ReachableIsSound(fs, s);
    if s.vm.AtStop? && s.cmdQ != [] {
      var front := s.cmdQ[..|s.cmdQ| - 1];
      assert forall i :: 0 <= i < |front| ==> s.cmdQ[i] == front[i];
    }
  }

  // ---------- The VM thread runs the debug loop ----------

  /** The VM's steps at one stop, up to the one that leaves the command loop. */
  ghost function LeaveStop(s: State): (r: State)
    requires s.vm.AtStop? && ProgramOk(s.vm)
    requires (exists i :: 0 <= i < |s.cmdQ| && IsResume(s.cmdQ[i])) || !SenderAlive(s.phase)
    decreases |s.cmdQ|
  {
    var s' := VmDo(s);
    if s'.vm.AtStop? then
      assert forall i :: 0 < i < |s.cmdQ| ==> s'.cmdQ[i - 1] == s.cmdQ[i];
      LeaveStop(s')
    else s'
  }

  lemma {:induction false} LeaveStopIsCommandLoop(s: State)
    requires s.vm.AtStop? && ProgramOk(s.vm)
    requires (exists i :: 0 <= i < |s.cmdQ| && IsResume(s.cmdQ[i])) || !SenderAlive(s.phase)
    ensures var (ctx, taken) := CommandLoop(s.ctx, s.vm.o, s.cmdQ);
            LeaveStop(s) == s.(vm := Running(s.vm.rest), ctx := ctx, cmdQ := s.cmdQ[taken..])
    decreases |s.cmdQ|
  {
    var s' := VmDo(s);
    if s'.vm.AtStop? {
      assert forall i :: 0 < i < |s.cmdQ| ==> s'.cmdQ[i - 1] == s.cmdQ[i];
      LeaveStopIsCommandLoop(s');
    }
  }

  /** Taken together, the VM thread's steps at one instruction are one call of the debug loop: on the
      commands that have arrived by the time it leaves the stop, with the event sent if there is one. */
  lemma VmThreadRunsDebugLoop(s: State, arrivals: seq<DapCommand>)
    requires s.vm.Running? && s.vm.rest != [] && ProgramOk(s.vm)
    requires (exists i :: 0 <= i < |arrivals| && IsResume(arrivals[i])) || !SenderAlive(s.phase)
    ensures var o := s.vm.rest[0];
            var (ctx, event, taken) := DebugLoop(s.ctx, o, ReceiverAlive(s.phase), arrivals);
            var s' := VmDo(s);
            && s'.evtQ == s.evtQ + (if event.Some? then [event.value] else [])
            && (s'.vm.AtStop? <==> event.Some?)
            && (if s'.vm.AtStop?
                then ProgramOk(s'.vm)
                     && LeaveStop(s'.(cmdQ := arrivals)) ==
                       s'.(vm := Running(s.vm.rest[1..]), ctx := ctx, cmdQ := arrivals[taken..])
                else s'.vm == Running(s.vm.rest[1..]) && s'.ctx == ctx)
  {
    var s' := VmDo(s);
    if s'.vm.AtStop? {
      LeaveStopIsCommandLoop(s'.(cmdQ := arrivals));
    }
  }

  // ---------- Breakpoints are in step ----------

  /** The `setBreakpoints` requests among the actions. */
  function Requests(actions: seq<Action>): seq<Request> {
    if actions == [] then []
    else (if actions[0].ClientSetBreakpoints? then [actions[0].req] else []) + Requests(actions[1..])
  }

  function PendingFrom(fs: FileSystem, pending: seq<SourceLoc>, requests: seq<Request>): seq<SourceLoc>
    decreases |requests|
  {
    if requests == [] then pending else PendingFrom(fs, Updated(fs, pending, requests[0]), requests[1..])
  }

  lemma {:induction false} PendingFromSnoc(fs: FileSystem, pending: seq<SourceLoc>, requests: seq<Request>,
                                           req: Request)
    ensures PendingFrom(fs, pending, requests + [req]) == Updated(fs, PendingFrom(fs, pending, requests), req)
    decreases |requests|
  {
    if requests == [] {
      assert (requests + [req])[1..] == [];
    } else {
      assert (requests + [req])[1..] == requests[1..] + [req];
      PendingFromSnoc(fs, Updated(fs, pending, requests[0]), requests[1..], req);
    }
  }

  lemma PendingFromEmptySnoc(fs: FileSystem, requests: seq<Request>, front: seq<Request>, last: Request)
    requires requests == front + [last]
    requires PendingFrom(fs, [], front) == PendingAfter(fs, front)
    ensures PendingFrom(fs, [], requests) == PendingAfter(fs, requests)
  {
    PendingFromSnoc(fs, [], front, last);
    PendingAfterSnoc(fs, front, last);
  }

  lemma {:induction false} PendingFromEmpty(fs: FileSystem, requests: seq<Request>)
    ensures PendingFrom(fs, [], requests) == PendingAfter(fs, requests)
  {
    if requests != [] {
      var front, last := requests[..|requests| - 1], requests[|requests| - 1];
      PendingFromEmpty(fs, front);
      PendingFromEmptySnoc(fs, requests, front, last);
    }
  }

  lemma {:induction false} PendingFollowsRequests(fs: FileSystem, s: State, actions: seq<Action>)
    requires Possible(fs, s, actions)
    ensures Exec(fs, s, actions).pending == PendingFrom(fs, s.pending, Requests(actions))
    decreases |actions|
  {
    if actions != [] {
      var a := actions[0];
      PendingFollowsRequests(fs, Do(fs, s, a), actions[1..]);
      if a.ClientSetBreakpoints? {
        assert Requests(actions) == [a.req] + Requests(actions[1..]);
        assert Do(fs, s, a).pending == Updated(fs, s.pending, a.req);
        assert PendingFrom(fs, s.pending, Requests(actions)) ==
          PendingFrom(fs, Do(fs, s, a).pending, Requests(actions[1..]));
      } else {
        assert Do(fs, s, a).pending == s.pending;
        assert Requests(actions) == Requests(actions[1..]);
      }
    }
  }

  /** Whenever the VM takes a resume command, its breakpoints are those of the server's list. */
  lemma ResumesInStep(fs: FileSystem, s: State)
    requires Reachable(fs, s)
    requires s.vm.AtStop? && s.cmdQ != [] && IsResume(s.cmdQ[0])
    ensures s.ctx.breakpoints == LocSet(s.pending)
  {
    ReachableIsSound(fs, s);
    NoResumeOutlivesItsStop(fs, s);
  }

  /** In any interleaving they are exactly the ones the client has asked for, file by file, be it before
      the launch or while stopped, given that the list serves its requests (`ListRefinesMap`): the lines
      sent, or what they are in 32 bits. */
  lemma ResumesWithClientBreakpoints(fs: FileSystem, actions: seq<Action>, loc: SourceLoc)
    requires AllServe(fs, Requests(actions))
    requires Possible(fs, Initial(), actions)
    requires var s := Exec(fs, Initial(), actions);
             s.vm.AtStop? && s.cmdQ != [] && IsResume(s.cmdQ[0])
    ensures var sent := Wanted(fs, Requests(actions), loc.path);
            var breakpoints := Exec(fs, Initial(), actions).ctx.breakpoints;
            && (loc in breakpoints <==> exists i :: 0 <= i < |sent| && StandsFor(loc.line, sent[i]))
            && ((forall i :: 0 <= i < |sent| ==> 0 <= sent[i] < 0x1_0000_0000) ==>
                 (loc in breakpoints <==> loc.line in sent))
  {
    var s := Exec(fs, Initial(), actions);
    ResumesInStep(fs, s);
    PendingFollowsRequests(fs, Initial(), actions);
    PendingFromEmpty(fs, Requests(actions));
    ListRefinesMap(fs, Requests(actions));
    LinesAreMembers(s.pending, loc);
    var lines, sent := LinesOf(s.pending, loc.path), Wanted(fs, Requests(actions), loc.path);
    assert StandFor(lines, sent);
    LineAmong(lines, sent, loc.line);
  }

  // ---------- Every handler returns, whatever the schedule ----------

  function Rank(phase: Phase): nat {
    match phase
    case AwaitEntry => 4
    case SendUpdate => 3
    case SendContinue => 2
    case Await => 1
    case Publishing => 1
    case Dropping => 2
    case Joining => 1
    case _ => 0
  }

  function InstructionsLeft(vm: VmPhase): nat {
    if vm.Running? || vm.AtStop? then |vm.rest| else 0
  }

  function VmRank(vm: VmPhase): nat {
    match vm
    case AtStop(_, _, _) => 3
    case Running(_) => 2
    case Finished => 1
    case _ => 0
  }

  /** A step of one of the two threads that can be taken as long as a handler is under way. */
  ghost function SomeStep(s: State): (a: Action)
    requires Inv(s) && !AtRest(s.phase)
    ensures IsSystem(a) && Enabled(s, a)
  {
    if Enabled(s, ServerSend) then ServerSend
    else if Enabled(s, ServerRecv) then ServerRecv
    else if Enabled(s, ServerDrop) then ServerDrop
    else if Enabled(s, ServerJoin) then ServerJoin
    else VmStep
  }

  /** Either side's every step brings the handler closer to its end. */
  lemma StepsCountDown(fs: FileSystem, s: State, a: Action)
    requires Inv(s) && !AtRest(s.phase) && IsSystem(a) && Enabled(s, a)
    ensures var s' := Do(fs, s, a);
            || Rank(s'.phase) < Rank(s.phase)
            || (s'.phase == s.phase &&
                 (|| InstructionsLeft(s'.vm) < InstructionsLeft(s.vm)
                  || (InstructionsLeft(s'.vm) == InstructionsLeft(s.vm) &&
                       (|| VmRank(s'.vm) < VmRank(s.vm)
                        || (VmRank(s'.vm) == VmRank(s.vm) && |s'.cmdQ| < |s.cmdQ|)))))
  {
  }

  /** The step the scheduler wishes if it can be taken now, some other one if not. */
  ghost function Scheduled(s: State, wish: Action): (a: Action)
    requires Inv(s) && !AtRest(s.phase)
    ensures IsSystem(a) && Enabled(s, a)
  {
    if IsSystem(wish) && Enabled(s, wish) then wish else SomeStep(s)
  }

  /** Where a handler under way can get to by one step. */
  lemma StepsStayOnCourse(fs: FileSystem, s: State, a: Action)
    requires Inv(s) && !AtRest(s.phase) && IsSystem(a) && Enabled(s, a)
    ensures var s' := Do(fs, s, a);
            && s'.pending == s.pending
            && (if s.phase.Dropping? || s.phase.Joining?
                then s'.phase.Dropping? || s'.phase.Joining? || (s'.phase.Left? && s'.vm.Exited?)
                else !(s'.phase.Dropping? || s'.phase.Joining? || s'.phase.Left? || s'.phase.Unlaunched?))
  {
  }

  /** Lets the two threads run until the server is ready for the next request. The scheduler may pick
      any step that is possible at the moment, and may change its mind at any time. */
  ghost function Settle(fs: FileSystem, s: State, scheduler: nat -> Action, n: nat): (r: State)
    requires Inv(s)
    ensures Inv(r) && AtRest(r.phase) && r.pending == s.pending
    ensures s.phase.Dropping? || s.phase.Joining? ==> r.phase.Left? && r.vm.Exited?
    ensures !AtRest(s.phase) && !(s.phase.Dropping? || s.phase.Joining?) ==> r.phase.Idle?
    ensures AtRest(s.phase) ==> r == s
    decreases Rank(s.phase), InstructionsLeft(s.vm), VmRank(s.vm), |s.cmdQ|
  {
    if AtRest(s.phase) then s
    else
      var a := Scheduled(s, scheduler(n));
      StepsCountDown(fs, s, a);
      StepsStayOnCourse(fs, s, a);
      InvKept(fs, s, a);
      Settle(fs, Do(fs, s, a), scheduler, n + 1)
  }

  /** Disconnecting completes from wherever it can be asked for: under every schedule the VM runs to the
      end of its program and the join returns. */
  lemma DisconnectCompletes(fs: FileSystem, s: State, scheduler: nat -> Action)
    requires Reachable(fs, s) && Enabled(s, ClientDisconnect)
    ensures Inv(Do(fs, s, ClientDisconnect))
    ensures var r := Settle(fs, Do(fs, s, ClientDisconnect), scheduler, 0);
            r.phase.Left? && if s.phase.Unlaunched? then r.vm.Unstarted? else r.vm.Exited?
  {
    ReachableIsSound(fs, s);
    InvKept(fs, s, ClientDisconnect);
  }

  /** On the way it takes no command but updates already queued; with the last of them its breakpoints
      are the server's, and it runs on without any step pending. */
  lemma DisconnectingTakesOnlyUpdates(fs: FileSystem, s: State)
    requires Reachable(fs, s) && (s.phase.Dropping? || s.phase.Joining?)
    ensures s.vm.AtStop? && s.cmdQ != [] ==> s.cmdQ[0].SetBreakpoints?
    ensures s.vm.AtStop? && s.cmdQ == [] ==> s.ctx.breakpoints == LocSet(s.pending)
    ensures s.vm.Running? ==> s.ctx.nextOp.RunUntilBreakpoint? && s.ctx.breakpoints == LocSet(s.pending)
  {
    ReachableIsSound(fs, s);
  }
}
