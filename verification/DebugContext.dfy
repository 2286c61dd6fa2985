/** The VM side of the debugger: what happens before each instruction (src/debugger/dap_context.rs). */
module DebugContext {
  import opened Prelude
  import opened Locations
  import opened DapTypes
  import opened Snapshots

  datatype DebuggerOp =
    | StepOverOp(lineStackDepth: nat, lineLoc: Option<SourceLoc>)
    | StepIntoOp(lineLoc: Option<SourceLoc>)
    | StepOutOp(targetStackDepth: nat)
    | RunUntilBreakpoint

  /** The last breakpoint that was hit, and the depth it was hit at. */
  datatype Hit = Hit(loc: SourceLoc, depth: nat)

  /** The state of the debug context as a value. */
  datatype Ctx = Ctx(nextOp: DebuggerOp, breakpoints: set<SourceLoc>, moved: MovedTable, lastHit: Option<Hit>)

  function NewCtx(): Ctx { Ctx(StepIntoOp(None), {}, map[], None) }

  // ---------- Breakpoints ----------

  predicate IsHit(breakpoints: set<SourceLoc>, last: Option<Hit>, depth: nat, line: Option<SourceLoc>) {
    line.Some? && line.value in breakpoints && last != Some(Hit(line.value, depth))
  }

  /** The remembered hit once an instruction at this depth and line has been looked at. */
  function NextLastHit(breakpoints: set<SourceLoc>, last: Option<Hit>, depth: nat,
                       line: Option<SourceLoc>): Option<Hit> {
    if IsHit(breakpoints, last, depth, line) then Some(Hit(line.value, depth))
    else if last.Some? && (depth > last.value.depth || line == Some(last.value.loc)) then last
    else None
  }

  /** One instruction the debugger has looked at. */
  datatype Visit = Visit(depth: nat, line: Option<SourceLoc>, hit: bool)

  /** In the whole history the most recent hit was at (`hit.loc`, `hit.depth`), and every instruction
      since was deeper or on that line. */
  ghost predicate StillAt(history: seq<Visit>, hit: Hit) {
    exists k :: 0 <= k < |history| && HitSince(history, hit, k)
  }

  ghost predicate HitSince(history: seq<Visit>, hit: Hit, k: nat)
    requires k < |history|
  {
    && history[k] == Visit(hit.depth, Some(hit.loc), true)
    && forall j :: k < j < |history| ==>
         !history[j].hit && (history[j].depth > hit.depth || history[j].line == Some(hit.loc))
  }

  /** The one remembered hit is a faithful summary of the whole history. */
  ghost predicate Summarises(last: Option<Hit>, history: seq<Visit>) {
    forall hit :: last == Some(hit) <==> StillAt(history, hit)
  }

  lemma SummaryStep(breakpoints: set<SourceLoc>, last: Option<Hit>, history: seq<Visit>, depth: nat,
                    line: Option<SourceLoc>)
    requires Summarises(last, history)
    ensures var visit := Visit(depth, line, IsHit(breakpoints, last, depth, line));
            Summarises(NextLastHit(breakpoints, last, depth, line), history + [visit])
  {
    var isHit := IsHit(breakpoints, last, depth, line);
    var history' := history + [Visit(depth, line, isHit)];
    var last' := NextLastHit(breakpoints, last, depth, line);
    forall hit ensures last' == Some(hit) <==> StillAt(history', hit) {
      if last' == Some(hit) {
        if isHit {
          assert HitSince(history', hit, |history|);
        } else {
          var k :| 0 <= k < |history| && HitSince(history, hit, k);
          assert HitSince(history', hit, k);
        }
      }
      if StillAt(history', hit) {
        var k :| 0 <= k < |history'| && HitSince(history', hit, k);
        if k < |history| {
          assert history'[|history|] == Visit(depth, line, isHit);
          forall j | k < j < |history|
            ensures !history[j].hit && (history[j].depth > hit.depth || history[j].line == Some(hit.loc))
          {
            assert history'[j] == history[j];
          }
          assert HitSince(history, hit, k);
        }
      }
    }
  }

  /** One look at an instruction, with the breakpoints in force at that moment. */
  datatype Look = Look(breakpoints: set<SourceLoc>, depth: nat, line: Option<SourceLoc>)

  function Walk(looks: seq<Look>): (Option<Hit>, seq<Visit>) {
    if looks == [] then (None, [])
    else
      var (last, history) := Walk(looks[..|looks| - 1]);
      var look := looks[|looks| - 1];
      (NextLastHit(look.breakpoints, last, look.depth, look.line),
       history + [Visit(look.depth, look.line, IsHit(look.breakpoints, last, look.depth, look.line))])
  }

  /** Over any run, with breakpoints changing at will: the remembered hit summarises the history, and an
      instruction is a hit exactly if its line is in the set and the history is not still at that line
      and depth. */
  lemma {:induction false} WalkSummarised(looks: seq<Look>)
    ensures Summarises(Walk(looks).0, Walk(looks).1)
    ensures |Walk(looks).1| == |looks|
    ensures forall k :: 0 <= k < |looks| ==>
              var history := Walk(looks).1;
              var look := looks[k];
              && history[k].depth == look.depth && history[k].line == look.line
              && (history[k].hit <==>
                   look.line.Some? && look.line.value in look.breakpoints
                   && !StillAt(history[..k], Hit(look.line.value, look.depth)))
  {
    if looks != [] {
      var n := |looks| - 1;
      var look := looks[n];
      var (last, before) := Walk(looks[..n]);
      var history := Walk(looks).1;
      WalkSummarised(looks[..n]);
      SummaryStep(look.breakpoints, last, before, look.depth, look.line);
      forall k | 0 <= k < |looks|
        ensures history[k].depth == looks[k].depth && history[k].line == looks[k].line
        ensures history[k].hit <==>
                  looks[k].line.Some? && looks[k].line.value in looks[k].breakpoints
                  && !StillAt(history[..k], Hit(looks[k].line.value, looks[k].depth))
      {
        assert history[..k] == before[..k];
        if k == n { assert before[..k] == before; } else { assert history[k] == before[k]; }
      }
    }
  }

  // ---------- Step operations ----------

  predicate LineChanged(current: Option<SourceLoc>, start: Option<SourceLoc>) {
    current.Some? && current != start
  }

  predicate OpStops(op: DebuggerOp, depth: nat, line: Option<SourceLoc>) {
    match op
    case StepOverOp(startDepth, start) => depth <= startDepth && LineChanged(line, start)
    case StepIntoOp(start) => LineChanged(line, start)
    case StepOutOp(target) => depth <= target
    case RunUntilBreakpoint => false
  }

  function ParseCmdOp(cmd: DapCommand, depth: nat, line: Option<SourceLoc>): DebuggerOp
    requires IsResume(cmd)
  {
    match cmd
    case Continue => RunUntilBreakpoint
    case StepInto => StepIntoOp(line)
    case StepOver => StepOverOp(depth, line)
    case StepOut => if depth == 0 then RunUntilBreakpoint else StepOutOp(depth - 1)
  }

  // ---------- One instruction ----------

  /** Everything up to the decision whether to stop. A breakpoint names the stop even when a step
      operation would have stopped as well. */
  function Advance(ctx: Ctx, o: Observation): (Ctx, Option<StopReason>) {
    var hit := IsHit(ctx.breakpoints, ctx.lastHit, o.depth, o.line);
    var stepped := OpStops(ctx.nextOp, o.depth, o.line);
    (Ctx(if stepped then RunUntilBreakpoint else ctx.nextOp,
         ctx.breakpoints,
         RecordMoves(ctx.moved, o.depth, o.instruction, o.locals),
         NextLastHit(ctx.breakpoints, ctx.lastHit, o.depth, o.line)),
     if hit then Some(Breakpoint(o.line.value)) else if stepped then Some(Step) else None)
  }

  /** The effect of one received command while stopped at `o`. */
  function Receive(ctx: Ctx, o: Observation, cmd: DapCommand): Ctx {
    if cmd.SetBreakpoints? then ctx.(breakpoints := LocSet(cmd.locations))
    else ctx.(nextOp := ParseCmdOp(cmd, o.depth, o.line))
  }

  /** The command loop, given all commands that will ever arrive; behind the last one the sender is
      gone. Yields the context on leaving the loop and the number of commands taken. */
  function CommandLoop(ctx: Ctx, o: Observation, arrivals: seq<DapCommand>): (r: (Ctx, nat))
    ensures r.1 <= |arrivals|
    decreases |arrivals|
  {
    if arrivals == [] then (ctx.(nextOp := RunUntilBreakpoint), 0)
    else
      var ctx' := Receive(ctx, o, arrivals[0]);
      if IsResume(arrivals[0]) then (ctx', 1)
      else
        var (ctx'', n) := CommandLoop(ctx', o, arrivals[1..]);
        (ctx'', n + 1)
  }

  /** One whole call: the context afterwards, the event sent if any, the number of commands taken. */
  function DebugLoop(ctx: Ctx, o: Observation, sendOk: bool,
                     arrivals: seq<DapCommand>): (r: (Ctx, Option<DapEvent>, nat))
    requires WellFormed(o)
    ensures r.2 <= |arrivals|
  {
    var (ctx', reason) := Advance(ctx, o);
    if reason.None? then (ctx', None, 0)
    else if !sendOk then (ctx'.(nextOp := RunUntilBreakpoint), None, 0)
    else
      var (ctx'', n) := CommandLoop(ctx', o, arrivals);
      (ctx'', Some(Stopped(reason.value, BuildState(o, ctx'.moved))), n)
  }

  /** The breakpoints once a run of updates is through: those of the last one. */
  function Latest(breakpoints: set<SourceLoc>, updates: seq<DapCommand>): set<SourceLoc>
    requires OnlyUpdates(updates)
  {
    if updates == [] then breakpoints else LocSet(updates[|updates| - 1].locations)
  }

  /** The loop takes updates, of which the last one counts, up to and including the first command to
      resume; without one it takes all there are and then runs to the next breakpoint. */
  lemma {:induction false} CommandsTaken(ctx: Ctx, o: Observation, arrivals: seq<DapCommand>)
    ensures var (ctx', n) := CommandLoop(ctx, o, arrivals);
            var resumed := n > 0 && IsResume(arrivals[n - 1]);
            var updates := arrivals[..if resumed then n - 1 else n];
            && OnlyUpdates(updates)
            && ctx'.breakpoints == Latest(ctx.breakpoints, updates)
            && ctx'.nextOp == (if resumed then ParseCmdOp(arrivals[n - 1], o.depth, o.line) else RunUntilBreakpoint)
            && ctx'.moved == ctx.moved && ctx'.lastHit == ctx.lastHit
            && (!resumed ==> n == |arrivals|)
    decreases |arrivals|
  {
    if arrivals != [] && !IsResume(arrivals[0]) {
      CommandsTaken(Receive(ctx, o, arrivals[0]), o, arrivals[1..]);
      var n := CommandLoop(ctx, o, arrivals).1;
      assert n > 1 ==> arrivals[1..][n - 2] == arrivals[n - 1];
      var taken := if IsResume(arrivals[n - 1]) then n - 1 else n;
      assert arrivals[..taken] == [arrivals[0]] + arrivals[1..][..taken - 1];
    }
  }

  // ---------- The object the VM calls ----------

  class DapDebugContext {
    var nextCmdOp: DebuggerOp
    var breakpoints: set<SourceLoc>
    var movedLocals: MovedTable
    var lastBreakpointHit: Option<Hit>
    /** Every instruction looked at so far. */
    ghost var history: seq<Visit>

    ghost predicate Valid()
      reads this
    {
      Summarises(lastBreakpointHit, history)
    }

    function View(): Ctx
      reads this
    {
      Ctx(nextCmdOp, breakpoints, movedLocals, lastBreakpointHit)
    }

    constructor ()
      ensures Valid() && View() == NewCtx() && history == []
    {
      nextCmdOp := StepIntoOp(None);
      breakpoints := {};
      movedLocals := map[];
      lastBreakpointHit := None;
      history := [];
    }

    method HandlePotentiallyMovedLocals(o: Observation)
      modifies this`movedLocals
      ensures movedLocals == RecordMoves(old(movedLocals), o.depth, o.instruction, o.locals)
    {
      match o.instruction
      case MoveLoc(idx) =>
        if idx < |o.locals| {
          if o.depth !in movedLocals {
            movedLocals := movedLocals[o.depth := map[]];
          }
          movedLocals := movedLocals[o.depth := movedLocals[o.depth][idx := o.locals[idx].value]];
        }
      case Ret =>
        movedLocals := movedLocals - {o.depth};
      case OtherInstruction =>
    }

    method CheckIfBreakpointGotHit(depth: nat, line: Option<SourceLoc>) returns (hit: Option<SourceLoc>)
      requires Valid()
      modifies this`lastBreakpointHit, this`history
      ensures Valid()
      ensures history == old(history) + [Visit(depth, line, hit.Some?)]
      ensures hit.Some? <==> line.Some? && line.value in breakpoints && !StillAt(old(history), Hit(line.value, depth))
      ensures hit.Some? ==> hit == line
      ensures hit.Some? <==> IsHit(breakpoints, old(lastBreakpointHit), depth, line)
      ensures lastBreakpointHit == NextLastHit(breakpoints, old(lastBreakpointHit), depth, line)
    {
      SummaryStep(breakpoints, lastBreakpointHit, history, depth, line);
      history := history + [Visit(depth, line, IsHit(breakpoints, lastBreakpointHit, depth, line))];
      var suppressed := false;
      if lastBreakpointHit.Some? {
        var lastLoc, lastDepth := lastBreakpointHit.value.loc, lastBreakpointHit.value.depth;
        if depth > lastDepth {
          suppressed := false;
        } else if line == Some(lastLoc) {
          suppressed := depth == lastDepth;
        } else {
          lastBreakpointHit := None;
        }
      }
      if suppressed {
        return None;
      }
      hit := if line.Some? && line.value in breakpoints then line else None;
      if hit.Some? {
        lastBreakpointHit := Some(Hit(hit.value, depth));
      }
    }

    method ShouldStopForTheNextCmdOp(depth: nat, line: Option<SourceLoc>) returns (shouldStop: bool)
      modifies this`nextCmdOp
      ensures shouldStop == OpStops(old(nextCmdOp), depth, line)
      ensures nextCmdOp == if shouldStop then RunUntilBreakpoint else old(nextCmdOp)
    {
      match nextCmdOp {
        case StepOverOp(lineStackDepth, lineLoc) =>
          if lineStackDepth >= depth {
            shouldStop := match (line, lineLoc)
              case (Some(cur), Some(start)) => cur != start
              case (Some(_), None) => true
              case _ => false;
          } else {
            shouldStop := false;
          }
        case StepIntoOp(lineLoc) =>
          shouldStop := match (line, lineLoc)
            case (Some(cur), Some(start)) => cur != start
            case (Some(_), None) => true
            case _ => false;
        case StepOutOp(target) =>
          shouldStop := depth <= target;
        case RunUntilBreakpoint =>
          shouldStop := false;
      }
      if shouldStop {
        nextCmdOp := RunUntilBreakpoint;
      }
    }

    /** `debug_loop`. Whether the event can still be sent, and the commands that arrive until the sender
        is dropped, are given. */
    method Run(o: Observation, sendOk: bool, arrivals: seq<DapCommand>) returns (event: Option<DapEvent>, taken: nat)
      requires Valid() && WellFormed(o)
      modifies this
      ensures Valid()
      ensures (View(), event, taken) == DebugLoop(old(View()), o, sendOk, arrivals)
      ensures history ==
              old(history) + [Visit(o.depth, o.line, IsHit(old(breakpoints), old(lastBreakpointHit), o.depth, o.line))]
    {
      HandlePotentiallyMovedLocals(o);
      var hit := CheckIfBreakpointGotHit(o.depth, o.line);
      var shouldStop := ShouldStopForTheNextCmdOp(o.depth, o.line);
      taken := 0;
      if !shouldStop && hit.None? {
        return None, 0;
      }
      var state := BuildState(o, movedLocals);
      var reason := if hit.Some? then Breakpoint(hit.value) else Step;
      if !sendOk {
        nextCmdOp := RunUntilBreakpoint;
        return None, 0;
      }
      event := Some(Stopped(reason, state));
      ghost var start := View();
      while true
        invariant Valid() && taken <= |arrivals|
        invariant history == old(history) + [Visit(o.depth, o.line, hit.Some?)]
        invariant (CommandLoop(View(), o, arrivals[taken..]).0, taken + CommandLoop(View(), o, arrivals[taken..]).1)
                  == CommandLoop(start, o, arrivals)
        decreases |arrivals| - taken
      {
        if taken == |arrivals| {
          nextCmdOp := RunUntilBreakpoint;
          return;
        }
        var cmd := arrivals[taken];
        assert arrivals[taken..][1..] == arrivals[taken + 1..];
        taken := taken + 1;
        if cmd.SetBreakpoints? {
          breakpoints := LocSet(cmd.locations);
          continue;
        }
        nextCmdOp := ParseCmdOp(cmd, o.depth, o.line);
        break;
      }
    }
  }
}
