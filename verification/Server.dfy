/** The server's request handlers (src/server.rs). What a blocking receive returns is a parameter, None
    standing for a broken channel; what is sent to the VM is kept in a list. */
module Server {
  import opened Prelude
  import opened Locations
  import opened HexNames
  import opened DebugValues
  import opened DapTypes
  import opened Variables
  import opened Exploration
  import opened PendingBreakpoints
  import opened Protocol

  datatype StackFrame = StackFrame(id: int, name: string, path: Option<Path>, line: int)

  /** `locals` is the presentation hint. */
  datatype Scope = Scope(name: string, locals: bool, reference: int)

  function FrameFor(id: int, functionName: string, location: Option<SourceLoc>): StackFrame {
    match location
    case Some(loc) => StackFrame(id, TrimHexAddress(functionName), Some(loc.path), loc.line)
    case None => StackFrame(id, TrimHexAddress(functionName), None, 0)
  }

  /** The functions on the stack with their places: the stopped one, then its callers. */
  function Functions(state: VmStoppedState): seq<(string, Option<SourceLoc>)> {
    [(state.functionName, state.location)]
    + seq(|state.stackTrace|, i requires 0 <= i < |state.stackTrace| =>
        (state.stackTrace[i].functionName, state.stackTrace[i].location))
  }

  /** The stack trace shown. */
  function StackFrames(session: Option<Session>, state: Option<VmStoppedState>): seq<StackFrame> {
    match state
    case Some(s) =>
      var functions := Functions(s);
      seq(|functions|, i requires 0 <= i < |functions| => FrameFor(i, functions[i].0, functions[i].1))
    case None =>
      match session
      case Some(t) => [StackFrame(0, t.entryName, None, 0)]
      case None => []
  }

  function Scopes(session: Option<Session>, state: Option<VmStoppedState>, frameId: int): seq<Scope> {
    (if frameId == 0 && session.Some? then [Scope("Transaction Info", false, SCOPE_TRANSACTION_INFO)] else [])
    + (if state.Some? then [Scope("Locals", true, FrameLocalsRef(frameId))] else [])
  }

  predicate IsStop(event: Option<DapEvent>) { event.Some? && event.value.Stopped? }

  /** A stop is told of with the reason the VM gave for it, and its state is kept; any end, a broken channel
      included, is told of as one, and clears the state. */
  ghost predicate Conveys(event: Option<DapEvent>, notice: Notice, state: Option<VmStoppedState>) {
    if IsStop(event) then notice == StoppedNotice(event.value.reason) && state == Some(event.value.vmState)
    else notice == TerminatedNotice && state == None
  }

  /** What the protocol makes of an event is what the handlers convey. */
  lemma ProtocolConveys(event: Option<DapEvent>)
    ensures Conveys(event, NoticeOf(event), AfterEvent(event))
  {
  }

  class DapServer {
    const fs: FileSystem
    const storedVariables: StoredVariables
    var session: Option<Session>
    /** The command sender and the event receiver are there. */
    var connected: bool
    var pendingBreakpoints: seq<SourceLoc>
    var vmStoppedState: Option<VmStoppedState>
    /** All commands handed to the sender. */
    var sent: seq<DapCommand>

    constructor (fs: FileSystem, session: Option<Session>)
      ensures this.fs == fs && this.session == session && fresh(storedVariables)
      ensures !connected && pendingBreakpoints == [] && vmStoppedState == None && sent == []
      ensures storedVariables.expandableVars == []
    {
      this.fs := fs;
      this.session := session;
      storedVariables := new StoredVariables();
      connected := false;
      pendingBreakpoints := [];
      vmStoppedState := None;
      sent := [];
    }

    /** Answers with the lines confirmed, one for each asked for. */
    method HandleSetBreakpoints(req: Request) returns (confirmed: seq<int>)
      modifies this`pendingBreakpoints, this`sent
      ensures pendingBreakpoints == Updated(fs, old(pendingBreakpoints), req)
      ensures sent == old(sent) + (if connected then [SetBreakpoints(pendingBreakpoints)] else [])
      ensures confirmed == req.lines
      ensures |pendingBreakpoints| >= |req.lines|
      ensures var added := pendingBreakpoints[|pendingBreakpoints| - |req.lines|..];
              forall i :: 0 <= i < |added| ==>
                added[i].path == FileOf(fs, req.path) && StandsFor(added[i].line, req.lines[i])
    {
      var added := NewBreakpoints(fs, req);
      var canonicalPath := if added != [] then added[0].path else fs.components(req.path);
      var kept: seq<SourceLoc> := [];
      for i := 0 to |pendingBreakpoints|
        invariant kept == WithoutPath(pendingBreakpoints[..i], canonicalPath)
        invariant pendingBreakpoints == old(pendingBreakpoints)
      {
        assert pendingBreakpoints[..i + 1][..i] == pendingBreakpoints[..i];
        if pendingBreakpoints[i].path != canonicalPath {
          kept := kept + [pendingBreakpoints[i]];
        }
      }
      assert pendingBreakpoints[..|pendingBreakpoints|] == pendingBreakpoints;
      pendingBreakpoints := kept + added;
      TruncatedStandFor(req.lines);
      if connected {
        sent := sent + [SetBreakpoints(pendingBreakpoints)];
      }
      confirmed := req.lines;
    }

    /** Without a channel nothing changes; a stop replaces the state and empties the variable table; an
        end of any kind clears the state only. */
    method WaitForVmEvent(event: Option<DapEvent>) returns (notice: Notice)
      modifies this`vmStoppedState, storedVariables
      ensures !connected ==> notice == TerminatedNotice && vmStoppedState == old(vmStoppedState)
      ensures connected ==> Conveys(event, notice, vmStoppedState)
      ensures storedVariables.expandableVars ==
              if connected && IsStop(event) then [] else old(storedVariables.expandableVars)
    {
      if !connected {
        return TerminatedNotice;
      }
      match event
      case Some(Stopped(reason, vmState)) =>
        vmStoppedState := Some(vmState);
        storedVariables.Clear();
        notice := StoppedNotice(reason);
      case Some(Terminated(_)) =>
        vmStoppedState := None;
        notice := TerminatedNotice;
      case None =>
        vmStoppedState := None;
        notice := TerminatedNotice;
    }

    /** One resume command out, one event in. */
    method SendCommandAndWait(cmd: DapCommand, event: Option<DapEvent>) returns (notice: Notice)
      modifies this`vmStoppedState, this`sent, storedVariables
      ensures sent == old(sent) + (if connected then [cmd] else [])
      ensures connected ==> Conveys(event, notice, vmStoppedState)
      ensures !connected ==> notice == TerminatedNotice && vmStoppedState == old(vmStoppedState)
      ensures storedVariables.expandableVars ==
              if connected && IsStop(event) then [] else old(storedVariables.expandableVars)
    {
      if connected {
        sent := sent + [cmd];
      }
      notice := WaitForVmEvent(event);
    }

    /** The entry stop is shown to the client only when no breakpoints are set; otherwise they are sent
        and the VM runs on to the first of them. */
    method HandleConfigurationDone(started: bool, first: Option<DapEvent>, second: Option<DapEvent>)
      returns (notice: Option<Notice>)
      modifies this`connected, this`vmStoppedState, this`sent, storedVariables
      ensures connected == (started || old(connected))
      ensures !started ==> notice == None && sent == old(sent) && vmStoppedState == old(vmStoppedState)
      ensures started ==>
                var runOn := IsStop(first) && pendingBreakpoints != [];
                && sent == old(sent) + (if runOn then [SetBreakpoints(pendingBreakpoints), Continue] else [])
                && notice.Some?
                && (if runOn then Conveys(second, notice.value, vmStoppedState)
                    else if IsStop(first) then
                      notice.value == StoppedNotice(Entry) && vmStoppedState == Some(first.value.vmState)
                    else notice.value == TerminatedNotice && vmStoppedState == None)
      ensures storedVariables.expandableVars ==
              if started && IsStop(first) then [] else old(storedVariables.expandableVars)
    {
      if !started {
        return None;
      }
      connected := true;
      var entry := WaitForVmEvent(first);
      if entry.TerminatedNotice? {
        return Some(entry);
      }
      if pendingBreakpoints != [] {
        sent := sent + [SetBreakpoints(pendingBreakpoints)];
        sent := sent + [Continue];
        var next := WaitForVmEvent(second);
        return Some(next);
      }
      notice := Some(StoppedNotice(Entry));
    }

    /** Both ends are dropped; the stopped state is left as it was. */
    method HandleDisconnect()
      modifies this`connected
      ensures !connected
    {
      connected := false;
    }

    method HandleStackTrace() returns (frames: seq<StackFrame>)
      ensures frames == StackFrames(session, vmStoppedState)
    {
      if vmStoppedState.Some? {
        var state := vmStoppedState.value;
        frames := [FrameFor(0, state.functionName, state.location)];
        for i := 0 to |state.stackTrace|
          invariant frames == StackFrames(session, vmStoppedState)[..i + 1]
        {
          var frame := FrameFor(i + 1, state.stackTrace[i].functionName, state.stackTrace[i].location);
          assert StackFrames(session, vmStoppedState)[i + 1] == frame;
          frames := frames + [frame];
        }
      } else if session.Some? {
        frames := [StackFrame(0, session.value.entryName, None, 0)];
      } else {
        frames := [];
      }
    }

    method HandleScopes(frameId: int) returns (scopes: seq<Scope>)
      ensures scopes == Scopes(session, vmStoppedState, frameId)
    {
      scopes := [];
      if frameId == 0 && session.Some? {
        scopes := scopes + [Scope("Transaction Info", false, SCOPE_TRANSACTION_INFO)];
      }
      if vmStoppedState.Some? {
        scopes := scopes + [Scope("Locals", true, FrameLocalsRef(frameId))];
      }
    }

    method HandleVariables(reference: int) returns (vars: seq<Variable>)
      modifies storedVariables
      ensures (storedVariables.expandableVars, vars) ==
              Serve(session, vmStoppedState, old(storedVariables.expandableVars), reference)
    {
      if reference != SCOPE_TRANSACTION_INFO {
        vars := storedVariables.GetVariables(vmStoppedState, reference);
        return;
      }
      if session.None? {
        return [];
      }
      vars := FactVariables(session.value.facts);
      var args := session.value.args;
      if args != [] {
        var refId := storedVariables.StoreExpandable(Struct(None, [], args));
        vars := vars + [Variable("args", ArgsText(args), refId)];
      }
    }
  }
}
