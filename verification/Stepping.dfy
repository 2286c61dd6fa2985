/** Runs of the debug context over whole instruction traces: step operations against breakpoints, the
    order of the step operations, and where each of them lands (src/debugger/dap_context.rs). */
module Stepping {
  import opened Prelude
  import opened Locations
  import opened DapTypes
  import opened Snapshots
  import opened DebugContext

  // ---------- Step commands leave breakpoints alone ----------

  /** What became of one instruction. */
  datatype Outcome = Outcome(hit: bool, event: Option<DapEvent>)

  /** A whole trace, with the commands that arrive until the sender is dropped and, per instruction,
      whether an event could be sent. */
  function Play(ctx: Ctx, trace: seq<Observation>, link: seq<bool>, arrivals: seq<DapCommand>): (outcomes: seq<Outcome>)
    requires |link| == |trace| && forall i :: 0 <= i < |trace| ==> WellFormed(trace[i])
    ensures |outcomes| == |trace|
    decreases |trace|
  {
    if trace == [] then []
    else
      var o := trace[0];
      var (ctx', event, taken) := DebugLoop(ctx, o, link[0], arrivals);
      [Outcome(IsHit(ctx.breakpoints, ctx.lastHit, o.depth, o.line), event)]
      + Play(ctx', trace[1..], link[1..], arrivals[taken..])
  }

  /** The hits of an undisturbed run: a matter of the breakpoints and the trace alone. */
  function Hits(breakpoints: set<SourceLoc>, last: Option<Hit>, trace: seq<Observation>): (hits: seq<bool>)
    ensures |hits| == |trace|
    decreases |trace|
  {
    if trace == [] then []
    else
      var o := trace[0];
      [IsHit(breakpoints, last, o.depth, o.line)]
      + Hits(breakpoints, NextLastHit(breakpoints, last, o.depth, o.line), trace[1..])
  }

  /** The instruction was a hit or not, and while events could be sent a hit stopped the VM as one. */
  ghost predicate Undisturbed(outcome: Outcome, hit: bool, o: Observation, sendOk: bool) {
    && outcome.hit == hit
    && (hit ==> o.line.Some?)
    && (outcome.event.Some? ==> sendOk && outcome.event.value.Stopped?)
    && (sendOk && hit ==> outcome.event.Some? && outcome.event.value.reason == Breakpoint(o.line.value))
    && (outcome.event.Some? && !hit ==> outcome.event.value.reason == Step)
  }

  ghost predicate OnlyResumes(script: seq<DapCommand>) { forall i :: 0 <= i < |script| ==> IsResume(script[i]) }

  lemma InstructionUndisturbed(ctx: Ctx, o: Observation, sendOk: bool, arrivals: seq<DapCommand>)
    requires WellFormed(o) && OnlyResumes(arrivals)
    ensures var (ctx', event, taken) := DebugLoop(ctx, o, sendOk, arrivals);
            var hit := IsHit(ctx.breakpoints, ctx.lastHit, o.depth, o.line);
            && Undisturbed(Outcome(hit, event), hit, o, sendOk)
            && ctx'.breakpoints == ctx.breakpoints
            && ctx'.lastHit == NextLastHit(ctx.breakpoints, ctx.lastHit, o.depth, o.line)
            && OnlyResumes(arrivals[taken..])
  {
    CommandsTaken(Advance(ctx, o).0, o, arrivals);
  }

  /** Whatever steps are commanded and whenever the connection breaks, the same instructions are hits,
      and each of them stops the VM as a breakpoint while events can be sent. */
  lemma {:induction false} StepsLeaveBreakpointsAlone(ctx: Ctx, trace: seq<Observation>, link: seq<bool>,
                                                      arrivals: seq<DapCommand>)
    requires |link| == |trace| && forall i :: 0 <= i < |trace| ==> WellFormed(trace[i])
    requires OnlyResumes(arrivals)
    ensures var outcomes := Play(ctx, trace, link, arrivals);
            var hits := Hits(ctx.breakpoints, ctx.lastHit, trace);
            forall i :: 0 <= i < |trace| ==> Undisturbed(outcomes[i], hits[i], trace[i], link[i])
    decreases |trace|
  {
    if trace != [] {
      var (ctx', event, taken) := DebugLoop(ctx, trace[0], link[0], arrivals);
      InstructionUndisturbed(ctx, trace[0], link[0], arrivals);
      StepsLeaveBreakpointsAlone(ctx', trace[1..], link[1..], arrivals[taken..]);
    }
  }

  /** Two runs over one trace with different scripts of step commands have the same hits. */
  lemma ScriptsAgreeOnHits(ctx: Ctx, trace: seq<Observation>,
                           linkA: seq<bool>, scriptA: seq<DapCommand>, linkB: seq<bool>, scriptB: seq<DapCommand>,
                           i: nat)
    requires |linkA| == |linkB| == |trace| && forall i :: 0 <= i < |trace| ==> WellFormed(trace[i])
    requires OnlyResumes(scriptA) && OnlyResumes(scriptB) && i < |trace|
    ensures Play(ctx, trace, linkA, scriptA)[i].hit == Play(ctx, trace, linkB, scriptB)[i].hit
  {
    StepsLeaveBreakpointsAlone(ctx, trace, linkA, scriptA);
    StepsLeaveBreakpointsAlone(ctx, trace, linkB, scriptB);
  }

  // ---------- The next stop ----------

  /** The index of the first instruction that stops; the length of the trace when none does. */
  function NextStop(ctx: Ctx, trace: seq<Observation>): (n: nat)
    ensures n <= |trace|
    decreases |trace|
  {
    if trace == [] then 0
    else
      var (ctx', reason) := Advance(ctx, trace[0]);
      if reason.Some? then 0 else 1 + NextStop(ctx', trace[1..])
  }

  /** A played trace sends its first event there, if the event can be sent, and none before. */
  lemma {:induction false} FirstEventAtNextStop(ctx: Ctx, trace: seq<Observation>, link: seq<bool>,
                                                arrivals: seq<DapCommand>)
    requires |link| == |trace| && forall i :: 0 <= i < |trace| ==> WellFormed(trace[i])
    ensures var n := NextStop(ctx, trace);
            && (forall i :: 0 <= i < n ==> Play(ctx, trace, link, arrivals)[i].event.None?)
            && (n < |trace| ==> (Play(ctx, trace, link, arrivals)[n].event.Some? <==> link[n]))
    decreases |trace|
  {
    if trace != [] && Advance(ctx, trace[0]).1.None? {
      FirstEventAtNextStop(Advance(ctx, trace[0]).0, trace[1..], link[1..], arrivals);
    }
  }

  predicate StopsAt(op: DebuggerOp, hits: seq<bool>, trace: seq<Observation>, i: nat)
    requires i < |trace| == |hits|
  {
    hits[i] || OpStops(op, trace[i].depth, trace[i].line)
  }

  /** The next stop in terms of the undisturbed hits and the pending operation. */
  lemma {:induction false} NextStopIsFirst(ctx: Ctx, trace: seq<Observation>)
    ensures var n := NextStop(ctx, trace);
            var hits := Hits(ctx.breakpoints, ctx.lastHit, trace);
            && (forall i :: 0 <= i < n ==> !StopsAt(ctx.nextOp, hits, trace, i))
            && (n < |trace| ==> StopsAt(ctx.nextOp, hits, trace, n))
    decreases |trace|
  {
    if trace != [] {
      var (ctx', reason) := Advance(ctx, trace[0]);
      var hits := Hits(ctx.breakpoints, ctx.lastHit, trace);
      NextStopIsFirst(ctx', trace[1..]);
      if reason.None? {
        forall i | 0 <= i < NextStop(ctx, trace) ensures !StopsAt(ctx.nextOp, hits, trace, i) {
          assert i > 0 ==> !StopsAt(ctx'.nextOp, hits[1..], trace[1..], i - 1);
        }
      }
    }
  }

  /** The next stop when the VM, stopped at depth `depth` on line `line`, is told `cmd`. */
  function StopAfter(ctx: Ctx, depth: nat, line: Option<SourceLoc>, cmd: DapCommand, trace: seq<Observation>): nat
    requires IsResume(cmd)
  {
    NextStop(ctx.(nextOp := ParseCmdOp(cmd, depth, line)), trace)
  }

  lemma StopAfterIsFirst(ctx: Ctx, depth: nat, line: Option<SourceLoc>, cmd: DapCommand, trace: seq<Observation>)
    requires IsResume(cmd)
    ensures var n := StopAfter(ctx, depth, line, cmd, trace);
            var hits := Hits(ctx.breakpoints, ctx.lastHit, trace);
            && (forall i :: 0 <= i < n ==> !StopsAt(ParseCmdOp(cmd, depth, line), hits, trace, i))
            && (n < |trace| ==> StopsAt(ParseCmdOp(cmd, depth, line), hits, trace, n))
  {
    NextStopIsFirst(ctx.(nextOp := ParseCmdOp(cmd, depth, line)), trace);
  }

  /** Finer steps never stop later than coarser ones. */
  lemma StepOrder(ctx: Ctx, depth: nat, line: Option<SourceLoc>, trace: seq<Observation>)
    ensures StopAfter(ctx, depth, line, StepInto, trace) <= StopAfter(ctx, depth, line, StepOver, trace)
            <= StopAfter(ctx, depth, line, Continue, trace)
    ensures StopAfter(ctx, depth, line, StepOut, trace) <= StopAfter(ctx, depth, line, Continue, trace)
    ensures depth == 0 ==> StopAfter(ctx, depth, line, StepOut, trace) == StopAfter(ctx, depth, line, Continue, trace)
  {
    StopAfterIsFirst(ctx, depth, line, StepInto, trace);
    StopAfterIsFirst(ctx, depth, line, StepOver, trace);
    StopAfterIsFirst(ctx, depth, line, StepOut, trace);
    StopAfterIsFirst(ctx, depth, line, Continue, trace);
    var hits := Hits(ctx.breakpoints, ctx.lastHit, trace);
    var over, next := StopAfter(ctx, depth, line, StepOver, trace), StopAfter(ctx, depth, line, Continue, trace);
    var out := StopAfter(ctx, depth, line, StepOut, trace);
    assert over < |trace| ==> StopsAt(StepIntoOp(line), hits, trace, over);
    assert next < |trace| ==> StopsAt(StepOverOp(depth, line), hits, trace, next);
    assert next < |trace| ==> StopsAt(ParseCmdOp(StepOut, depth, line), hits, trace, next);
  }

  /** It does happen: a caller without line information ends the step out but not the step over. */
  lemma StepOverCanOutlastStepOut()
    ensures var line := Some(SourceLoc(["m.move"], 7));
            var trace := [Observation("caller", None, 0, OtherInstruction, [], [])];
            StopAfter(NewCtx(), 1, line, StepOut, trace) == 0 && StopAfter(NewCtx(), 1, line, StepOver, trace) == 1
  {
    var line := Some(SourceLoc(["m.move"], 7));
    var trace := [Observation("caller", None, 0, OtherInstruction, [], [])];
    var over := NewCtx().(nextOp := StepOverOp(1, line));
    assert NextStop(over, trace) == 1 + NextStop(Advance(over, trace[0]).0, trace[1..]);
  }

  /** An instruction a step over from (`depth`, `line`) would stop at by itself. */
  predicate NewLineInFrame(o: Observation, depth: nat, line: Option<SourceLoc>) {
    o.depth <= depth && LineChanged(o.line, line)
  }

  /** Stepping over can outlast stepping out, when the caller's line is unknown or the starting line.
      It does not exactly if the landing is a breakpoint hit or a new line was met on the way. */
  lemma StepOverBeforeStepOut(ctx: Ctx, depth: nat, line: Option<SourceLoc>, trace: seq<Observation>)
    ensures var out := StopAfter(ctx, depth, line, StepOut, trace);
            out < |trace| ==>
              (StopAfter(ctx, depth, line, StepOver, trace) <= out <==>
                || Hits(ctx.breakpoints, ctx.lastHit, trace)[out]
                || exists i :: 0 <= i <= out && NewLineInFrame(trace[i], depth, line))
    ensures var out := StopAfter(ctx, depth, line, StepOut, trace);
            (out < |trace| ==> LineChanged(trace[out].line, line)) ==>
              StopAfter(ctx, depth, line, StepOver, trace) <= out
  {
    StopAfterIsFirst(ctx, depth, line, StepOver, trace);
    StopAfterIsFirst(ctx, depth, line, StepOut, trace);
    var hits := Hits(ctx.breakpoints, ctx.lastHit, trace);
    var over, out := StopAfter(ctx, depth, line, StepOver, trace), StopAfter(ctx, depth, line, StepOut, trace);
    if out < |trace| {
      if over <= out {
        assert StopsAt(StepOverOp(depth, line), hits, trace, over);
        assert over < out ==> !StopsAt(ParseCmdOp(StepOut, depth, line), hits, trace, over);
      }
      if hits[out] { assert StopsAt(StepOverOp(depth, line), hits, trace, out); }
      if i :| 0 <= i <= out && NewLineInFrame(trace[i], depth, line) {
        assert StopsAt(StepOverOp(depth, line), hits, trace, i);
      }
      if LineChanged(trace[out].line, line) {
        assert hits[out] || NewLineInFrame(trace[out], depth, line);
      }
    }
  }

  // ---------- Where steps land ----------

  predicate Adjacent(before: nat, after: nat) { before <= after + 1 && after <= before + 1 }

  function DepthBefore(depth: nat, trace: seq<Observation>, i: nat): nat
    requires i < |trace|
  {
    if i == 0 then depth else trace[i - 1].depth
  }

  /** From one instruction to the next the depth changes by one at most. */
  ghost predicate Gradual(depth: nat, trace: seq<Observation>) {
    forall i :: 0 <= i < |trace| ==> Adjacent(DepthBefore(depth, trace, i), trace[i].depth)
  }

  /** No breakpoint is hit up to and including the next stop for `cmd`. */
  ghost predicate NoBreakpointFirst(ctx: Ctx, depth: nat, line: Option<SourceLoc>, cmd: DapCommand,
                                    trace: seq<Observation>)
    requires IsResume(cmd)
  {
    forall i :: 0 <= i <= StopAfter(ctx, depth, line, cmd, trace) && i < |trace| ==>
      !Hits(ctx.breakpoints, ctx.lastHit, trace)[i]
  }

  /** Without a breakpoint first, the next stop is the first instruction the operation itself stops at. */
  lemma OperationLands(ctx: Ctx, depth: nat, line: Option<SourceLoc>, cmd: DapCommand, trace: seq<Observation>)
    requires IsResume(cmd) && NoBreakpointFirst(ctx, depth, line, cmd, trace)
    ensures var n := StopAfter(ctx, depth, line, cmd, trace);
            var op := ParseCmdOp(cmd, depth, line);
            && (forall i :: 0 <= i < n ==> !OpStops(op, trace[i].depth, trace[i].line))
            && (n < |trace| ==> OpStops(op, trace[n].depth, trace[n].line))
  {
    StopAfterIsFirst(ctx, depth, line, cmd, trace);
    var hits := Hits(ctx.breakpoints, ctx.lastHit, trace);
    var n := StopAfter(ctx, depth, line, cmd, trace);
    var op := ParseCmdOp(cmd, depth, line);
    forall i | 0 <= i < n ensures !OpStops(op, trace[i].depth, trace[i].line) {
      assert !StopsAt(ParseCmdOp(cmd, depth, line), Hits(ctx.breakpoints, ctx.lastHit, trace), trace, i);
    }
    assert n < |trace| ==> !hits[n];
  }

  /** Without a breakpoint first, continuing never stops. */
  lemma ContinueRunsOn(ctx: Ctx, depth: nat, line: Option<SourceLoc>, trace: seq<Observation>)
    requires NoBreakpointFirst(ctx, depth, line, Continue, trace)
    ensures StopAfter(ctx, depth, line, Continue, trace) == |trace|
  {
    OperationLands(ctx, depth, line, Continue, trace);
  }

  /** Without a breakpoint first, stepping out lands on the first instruction above its frame, however
      the frames in between were left, by returns or by an abort; out of the outermost frame it is
      continuing. */
  lemma StepOutLeaves(ctx: Ctx, depth: nat, line: Option<SourceLoc>, trace: seq<Observation>)
    requires NoBreakpointFirst(ctx, depth, line, StepOut, trace)
    ensures var n := StopAfter(ctx, depth, line, StepOut, trace);
            if depth == 0 then n == |trace|
            else
              && (forall i :: 0 <= i < n ==> trace[i].depth >= depth)
              && (n < |trace| ==> trace[n].depth < depth)
  {
    OperationLands(ctx, depth, line, StepOut, trace);
  }

  /** Where frames are left one by one, that is the first instruction back in the caller. */
  lemma StepOutLands(ctx: Ctx, depth: nat, line: Option<SourceLoc>, trace: seq<Observation>)
    requires depth > 0 && Gradual(depth, trace)
    requires NoBreakpointFirst(ctx, depth, line, StepOut, trace)
    ensures var n := StopAfter(ctx, depth, line, StepOut, trace);
            && (forall i :: 0 <= i < n ==> trace[i].depth >= depth)
            && (n < |trace| ==> trace[n].depth == depth - 1)
  {
    StepOutLeaves(ctx, depth, line, trace);
    var n := StopAfter(ctx, depth, line, StepOut, trace);
    if n < |trace| {
      assert Adjacent(DepthBefore(depth, trace, n), trace[n].depth);
    }
  }

  /** Without a breakpoint first, stepping over lands on the first new known line in this frame or a
      caller. */
  lemma StepOverLands(ctx: Ctx, depth: nat, line: Option<SourceLoc>, trace: seq<Observation>)
    requires NoBreakpointFirst(ctx, depth, line, StepOver, trace)
    ensures var n := StopAfter(ctx, depth, line, StepOver, trace);
            && (forall i :: 0 <= i < n ==> !NewLineInFrame(trace[i], depth, line))
            && (n < |trace| ==> NewLineInFrame(trace[n], depth, line))
  {
    OperationLands(ctx, depth, line, StepOver, trace);
  }

  /** Without a breakpoint first, stepping into lands on the first new known line anywhere. */
  lemma StepIntoLands(ctx: Ctx, depth: nat, line: Option<SourceLoc>, trace: seq<Observation>)
    requires NoBreakpointFirst(ctx, depth, line, StepInto, trace)
    ensures var n := StopAfter(ctx, depth, line, StepInto, trace);
            && (forall i :: 0 <= i < n ==> trace[i].line.None? || trace[i].line == line)
            && (n < |trace| ==> trace[n].line.Some? && trace[n].line != line)
  {
    OperationLands(ctx, depth, line, StepInto, trace);
  }
}
