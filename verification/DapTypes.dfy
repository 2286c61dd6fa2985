/** The vocabulary both sides of the channel pair share (src/debugger/dap_types.rs). */
module DapTypes {
  import opened Prelude
  import opened DebugValues
  import opened Locations

  datatype DapCommand = Continue | StepInto | StepOver | StepOut | SetBreakpoints(locations: seq<SourceLoc>)

  datatype StopReason = Entry | Step | Breakpoint(at: SourceLoc)

  datatype LocalInfo = LocalInfo(index: nat, name: string, value: DebugValue)

  datatype FrameInfo = FrameInfo(functionName: string, location: Option<SourceLoc>, locals: seq<LocalInfo>)

  datatype VmStoppedState = VmStoppedState(
    functionName: string,
    stackTrace: seq<FrameInfo>,
    locals: seq<LocalInfo>,
    location: Option<SourceLoc>)

  datatype DapEvent = Stopped(reason: StopReason, vmState: VmStoppedState) | Terminated(message: Option<string>)

  /** Everything but a breakpoint update lets the VM run on. */
  predicate IsResume(cmd: DapCommand) { !cmd.SetBreakpoints? }

  predicate OnlyUpdates(cmds: seq<DapCommand>) {
    forall i :: 0 <= i < |cmds| ==> cmds[i].SetBreakpoints?
  }

  function LocSet(locations: seq<SourceLoc>): set<SourceLoc> {
    set loc | loc in locations
  }
}
