/** From a frame in the stack trace to the activation whose locals are shown for it: the VM's call stack,
    the snapshot, the stack trace, the scope and the variables request taken together. */
module Frames {
  import opened Prelude
  import opened DebugValues
  import opened Numerals
  import opened Locations
  import opened HexNames
  import opened DapTypes
  import opened Snapshots
  import opened Variables
  import opened Exploration
  import opened Server
  import opened MovedLocals

  /** The depth computed for frame `k` of a stack trace, the running frame being frame 0. */
  function DepthOf(o: Observation, k: nat): int { o.depth - k }

  /** What the VM lets the debugger see of its call stack never makes the depth of a frame negative, and
      different frames get the depths of different activations. */
  lemma CallersAreActivations(vm: Vm, step: Step, o: Observation)
    requires Inv(vm) && Observes(o, vm, step)
    ensures WellFormed(o) && o.depth < |vm.stack| && vm.stack[DepthOf(o, 0)] == Top(vm)
    ensures forall i, j :: 0 <= i < j <= |o.callers| ==>
              0 <= DepthOf(o, j) < DepthOf(o, i) && vm.stack[DepthOf(o, j)].id != vm.stack[DepthOf(o, i)].id
  {
  }

  lemma FunctionsListed(o: Observation, table: MovedTable, k: nat)
    requires WellFormed(o) && k <= |o.callers|
    ensures var functions := Functions(BuildState(o, table));
            && |functions| == 1 + |o.callers|
            && functions[k] == (if k == 0 then (o.functionName, o.line)
                                else (o.callers[k - 1].functionName, o.callers[k - 1].location))
  {
  }

  /** The frame is shown with this id, the shortened name, and the path and line of the place, if known. */
  ghost predicate FrameShows(frame: StackFrame, id: nat, functionName: string, location: Option<SourceLoc>) {
    && frame.id == id
    && frame.name == TrimHexAddress(functionName)
    && (location.Some? ==> frame.path == Some(location.value.path) && frame.line == location.value.line)
    && (location.None? ==> frame.path == None && frame.line == 0)
  }

  /** The `k`-th frame shown has id `k` and the name and place of the `k`-th function on the stack. */
  lemma FrameShown(o: Observation, table: MovedTable, session: Option<Session>, k: nat)
    requires WellFormed(o) && k <= |o.callers|
    ensures var frames := StackFrames(session, Some(BuildState(o, table)));
            && |frames| == 1 + |o.callers|
            && if k == 0 then FrameShows(frames[0], 0, o.functionName, o.line)
               else FrameShows(frames[k], k, o.callers[k - 1].functionName, o.callers[k - 1].location)
  {
    FunctionsListed(o, table, k);
  }

  /** With no stop, that is before the first one and after the end, a replay shows one frame, of its entry
      function and without a place, and a test none. */
  lemma FramesWithoutStop(session: Option<Session>)
    ensures var frames := StackFrames(session, None);
            if session.None? then frames == []
            else |frames| == 1 && frames[0].id == 0 && frames[0].name == session.value.entryName
                 && frames[0].path == None && frames[0].line == 0
  {
  }

  /** The variables behind a reference are these, in this order. */
  ghost predicate LeadsTo(session: Option<Session>, state: Option<VmStoppedState>, table: Table, reference: int,
                          fields: seq<Field>) {
    Serve(session, state, table, reference) == (table + Stored(fields), Rendered(|table|, fields))
  }

  /** A transaction scope is offered for frame 0 of a replay, be there a stop or not, and a scope of locals,
      for any frame, while stopped; there is no other and the locals come last. */
  lemma ScopesOffered(session: Option<Session>, state: Option<VmStoppedState>, frameId: int)
    ensures var scopes := Scopes(session, state, frameId);
            && ((exists i :: 0 <= i < |scopes| && !scopes[i].locals) <==> frameId == 0 && session.Some?)
            && ((exists i :: 0 <= i < |scopes| && scopes[i].locals) <==> state.Some?)
            && |scopes| == (if frameId == 0 && session.Some? then 1 else 0) + (if state.Some? then 1 else 0)
            && (forall i :: 0 <= i < |scopes| - 1 ==> !scopes[i].locals)
            && forall i :: 0 <= i < |scopes| ==>
                 scopes[i].name == if scopes[i].locals then "Locals" else "Transaction Info"
  {
    var scopes := Scopes(session, state, frameId);
    if state.Some? { assert scopes[|scopes| - 1].locals; }
    if frameId == 0 && session.Some? { assert !scopes[0].locals; }
  }

  /** While stopped, the last scope offered for a frame id is the only one of locals, and leads to the
      locals of that frame that have a value. */
  lemma LocalsScopeLeads(session: Option<Session>, state: VmStoppedState, table: Table, frameId: nat)
    requires frameId < 99_000
    ensures var scopes := Scopes(session, Some(state), frameId);
            && LocalsScope(session, Some(state), frameId).Some?
            && (forall i :: 0 <= i < |scopes| - 1 ==> !scopes[i].locals)
            && LeadsTo(session, Some(state), table, LocalsScope(session, Some(state), frameId).value,
                       LocalFields(FrameLocals(frameId, state)))
  {
    FrameReferenceRange(table, state, frameId);
  }

  /** `n` in decimal, followed by " args". */
  ghost predicate CountsArgs(text: string, n: nat) {
    && |text| > 5 && text[|text| - 5..] == " args"
    && PlainNumeral(text[..|text| - 5]) && DecimalValue(text[..|text| - 5]) == n
  }

  /** A scope that is not one of locals leads to the facts of the transaction, as plain texts, and, if there
      are arguments, to one more variable that counts them and leads to them. */
  lemma TransactionScopeLeads(session: Option<Session>, state: Option<VmStoppedState>, table: Table,
                              frameId: int, i: nat)
    requires var scopes := Scopes(session, state, frameId);
             i < |scopes| && !scopes[i].locals
    ensures frameId == 0 && session.Some?
    ensures var t := session.value;
            var n := |t.facts|;
            var (table', vars) := Serve(session, state, table, Scopes(session, state, frameId)[i].reference);
            && |vars| == (if t.args == [] then n else n + 1)
            && Texts(vars[..n]) == t.facts
            && (forall j :: 0 <= j < n ==> vars[j].reference == 0)
            && (t.args != [] ==>
                 && vars[n].name == "args" && CountsArgs(vars[n].value, |t.args|)
                 && LeadsTo(session, state, table', vars[n].reference, t.args))
  {
    ArgsCounted(session.value.args);
    FactsFirst(session.value, state, table);
  }

  lemma FactsFirst(t: Session, state: Option<VmStoppedState>, table: Table)
    ensures var (table', vars) := Serve(Some(t), state, table, SCOPE_TRANSACTION_INFO);
            var n := |t.facts|;
            && |vars| == (if t.args == [] then n else n + 1)
            && Texts(vars[..n]) == t.facts
            && (forall j :: 0 <= j < n ==> vars[j].reference == 0)
            && (t.args != [] ==>
                 && vars[n].name == "args" && vars[n].value == ArgsText(t.args)
                 && LeadsTo(Some(t), state, table', vars[n].reference, t.args))
  {
    var (table', vars) := Serve(Some(t), state, table, SCOPE_TRANSACTION_INFO);
    assert vars[..|t.facts|] == FactVariables(t.facts);
  }

  lemma ArgsCounted(args: seq<Field>)
    ensures CountsArgs(ArgsText(args), |args|)
  {
    DecimalIsPlain(|args|);
    var text := Decimal(|args|) + " args";
    assert text[|text| - 5..] == " args" && text[..|text| - 5] == Decimal(|args|);
  }

  /** The reference of the Locals scope offered for a frame id, if there is one. */
  function LocalsScope(session: Option<Session>, state: Option<VmStoppedState>, frameId: int): Option<int> {
    var scopes := Scopes(session, state, frameId);
    if scopes != [] && scopes[|scopes| - 1].locals then Some(scopes[|scopes| - 1].reference) else None
  }

  /** In every run without aborts: take any frame of the stack trace the client is shown, ask for its
      scopes by its id, then for the variables behind the Locals scope. The answer lists, in index order,
      the locals of exactly the activation that many levels up, each with its live value, or else the
      one that activation itself moved out last, and leaves out those with neither. */
  lemma ClientSeesActivation(steps: seq<Step>, step: Step, o: Observation, k: nat, session: Option<Session>,
                             table: Table)
    requires Abort !in steps && Exec(Init(), steps).Some?
    requires var vm := Exec(Init(), steps).value;
             Viewed(vm, step, o, k) && k < 99_000
    ensures var vm := Exec(Init(), steps).value;
            var state := Some(BuildState(o, TableAt(vm, step)));
            && k < |StackFrames(session, state)|
            && var scope := LocalsScope(session, state, StackFrames(session, state)[k].id);
            && scope.Some?
            && var shown := ExpectedFields(vm, o.depth - k, 0);
            Serve(session, state, table, scope.value) == (table + Stored(shown), Rendered(|table|, shown))
  {
    var vm := Exec(Init(), steps).value;
    AbortFreeRun(steps);
    FrameShown(o, TableAt(vm, step), session, k);
    LocalsScopeLeads(session, BuildState(o, TableAt(vm, step)), table, k);
    FrameResolves(vm, step, o, k, table);
  }
}
