/** Whether the values shown for moved-out locals are the right ones: the table of the debug context
    against a VM that remembers which activation moved what (src/debugger/dap_context.rs). */
module MovedLocals {
  import opened Prelude
  import opened DebugValues
  import opened Snapshots
  import opened Variables

  // ---------- A VM with a call stack ----------

  /** One activation of a function; no two ever share an id. */
  datatype Activation = Activation(id: nat, locals: seq<Local>)

  datatype Event = Moved(id: nat, depth: nat, idx: nat, value: DebugValue) | Returned(depth: nat)

  /** The stack is listed outermost first, so an activation's index is its depth. The table is that of
      the debug context; the history is kept for the statements only. */
  datatype Vm = Vm(stack: seq<Activation>, nextId: nat, table: MovedTable, history: seq<Event>)

  datatype Step =
    | Start(locals: seq<Local>)
    | Move(idx: nat)
    | Store(idx: nat, value: DebugValue)
    | Call(locals: seq<Local>)
    | Return
    | Write(shown: seq<seq<Local>>)
    | Other
    | Abort

  function Init(): Vm { Vm([], 0, map[], []) }

  function Depth(vm: Vm): nat
    requires vm.stack != []
  {
    |vm.stack| - 1
  }

  function Top(vm: Vm): Activation
    requires vm.stack != []
  {
    vm.stack[Depth(vm)]
  }

  /** Same locals, and the same ones among them without a value. */
  predicate SameShape(a: seq<Local>, b: seq<Local>) {
    |a| == |b| && forall i :: 0 <= i < |a| ==> (a[i].value.Invalid? <==> b[i].value.Invalid?)
  }

  /** A top-level execution starts on an empty stack; a move takes a local that has a value; a store gives
      one; a write through references changes values in any frame but neither gives nor takes one. */
  predicate Enabled(vm: Vm, step: Step) {
    if step.Start? then vm.stack == []
    else
      && vm.stack != []
      && match step
         case Move(idx) => idx < |Top(vm).locals| && !Top(vm).locals[idx].value.Invalid?
         case Store(idx, value) => idx < |Top(vm).locals| && !value.Invalid?
         case Write(shown) =>
           |shown| == |vm.stack| && forall d :: 0 <= d < |shown| ==> SameShape(shown[d], vm.stack[d].locals)
         case _ => true
  }

  function InstructionOf(step: Step): Instruction {
    match step
    case Move(idx) => MoveLoc(idx)
    case Return => Ret
    case _ => OtherInstruction
  }

  /** The table as the debug context leaves it before the step is carried out. */
  function TableAt(vm: Vm, step: Step): MovedTable
    requires Enabled(vm, step)
  {
    if step.Start? then vm.table
    else RecordMoves(vm.table, Depth(vm), InstructionOf(step), Top(vm).locals)
  }

  function SetLocal(vm: Vm, idx: nat, value: DebugValue): seq<Activation>
    requires vm.stack != [] && idx < |Top(vm).locals|
  {
    var top := Top(vm);
    vm.stack[Depth(vm) := top.(locals := top.locals[idx := top.locals[idx].(value := value)])]
  }

  function Do(vm: Vm, step: Step): Vm
    requires Enabled(vm, step)
  {
    var table := TableAt(vm, step);
    match step
    case Start(locals) => vm.(stack := [Activation(vm.nextId, locals)], nextId := vm.nextId + 1)
    case Call(locals) => vm.(stack := vm.stack + [Activation(vm.nextId, locals)], nextId := vm.nextId + 1)
    case Move(idx) =>
      vm.(stack := SetLocal(vm, idx, Invalid), table := table,
          history := vm.history + [Moved(Top(vm).id, Depth(vm), idx, Top(vm).locals[idx].value)])
    case Store(idx, value) => vm.(stack := SetLocal(vm, idx, value))
    case Return =>
      vm.(stack := vm.stack[..Depth(vm)], table := table, history := vm.history + [Returned(Depth(vm))])
    case Write(shown) =>
      vm.(stack := seq(|vm.stack|, d requires 0 <= d < |vm.stack| => vm.stack[d].(locals := shown[d])))
    case Other => vm
    case Abort => vm.(stack := [])
  }

  function Exec(vm: Vm, steps: seq<Step>): Option<Vm>
    decreases |steps|
  {
    if steps == [] then Some(vm)
    else if !Enabled(vm, steps[0]) then None
    else Exec(Do(vm, steps[0]), steps[1..])
  }

  lemma ExecStep(vm: Vm, step: Step, rest: seq<Step>)
    requires Enabled(vm, step)
    ensures Exec(vm, [step] + rest) == Exec(Do(vm, step), rest)
  {
    assert ([step] + rest)[1..] == rest;
  }

  lemma ExecTwo(vm: Vm, s0: Step, s1: Step)
    requires Enabled(vm, s0) && Enabled(Do(vm, s0), s1)
    ensures Exec(vm, [s0, s1]) == Some(Do(Do(vm, s0), s1))
  {
    ExecStep(vm, s0, [s1]);
    ExecStep(Do(vm, s0), s1, []);
    assert [s0, s1] == [s0] + [s1] && [s1] == [s1] + [];
  }

  lemma ExecFour(vm: Vm, s0: Step, s1: Step, s2: Step, s3: Step)
    requires Enabled(vm, s0) && Enabled(Do(vm, s0), s1)
    requires Enabled(Do(Do(vm, s0), s1), s2) && Enabled(Do(Do(Do(vm, s0), s1), s2), s3)
    ensures Exec(vm, [s0, s1, s2, s3]) == Some(Do(Do(Do(Do(vm, s0), s1), s2), s3))
  {
    ExecStep(vm, s0, [s1, s2, s3]);
    ExecStep(Do(vm, s0), s1, [s2, s3]);
    ExecTwo(Do(Do(vm, s0), s1), s2, s3);
    assert [s0, s1, s2, s3] == [s0] + [s1, s2, s3] && [s1, s2, s3] == [s1] + [s2, s3];
  }

  // ---------- Two readings of the history ----------

  /** The value a local had when this activation last moved it. */
  function LastMoveBy(history: seq<Event>, id: nat, idx: nat): Option<DebugValue> {
    if history == [] then None
    else
      var last := history[|history| - 1];
      if last.Moved? && last.id == id && last.idx == idx then Some(last.value)
      else LastMoveBy(history[..|history| - 1], id, idx)
  }

  /** The last move of this local number at this depth since the last return from it, whoever made it. */
  function LatestMove(history: seq<Event>, depth: nat, idx: nat): Option<(nat, DebugValue)> {
    if history == [] then None
    else
      var last := history[|history| - 1];
      if last.Returned? && last.depth == depth then None
      else if last.Moved? && last.depth == depth && last.idx == idx then Some((last.id, last.value))
      else LatestMove(history[..|history| - 1], depth, idx)
  }

  function LatestValue(history: seq<Event>, depth: nat, idx: nat): Option<DebugValue> {
    var latest := LatestMove(history, depth, idx);
    if latest.Some? then Some(latest.value.1) else None
  }

  function Lookup(table: MovedTable, depth: nat, idx: nat): Option<DebugValue> {
    if depth in table && idx in table[depth] then Some(table[depth][idx]) else None
  }

  ghost predicate MovesSane(history: seq<Event>, nextId: nat) {
    forall k :: 0 <= k < |history| && history[k].Moved? ==> history[k].id < nextId && !history[k].value.Invalid?
  }

  lemma {:induction false} ReadingsSane(history: seq<Event>, nextId: nat, depth: nat, idx: nat)
    requires MovesSane(history, nextId)
    ensures LastMoveBy(history, nextId, idx).None?
    ensures LatestMove(history, depth, idx).Some? ==>
              LatestMove(history, depth, idx).value.0 < nextId && !LatestMove(history, depth, idx).value.1.Invalid?
  {
    if history != [] { ReadingsSane(history[..|history| - 1], nextId, depth, idx); }
  }

  lemma LastMoveByStep(history: seq<Event>, e: Event, id: nat, idx: nat)
    ensures LastMoveBy(history + [e], id, idx) ==
            if e.Moved? && e.id == id && e.idx == idx then Some(e.value) else LastMoveBy(history, id, idx)
  {
    assert (history + [e])[..|history|] == history;
  }

  lemma LatestMoveStep(history: seq<Event>, e: Event, depth: nat, idx: nat)
    ensures LatestMove(history + [e], depth, idx) ==
            if e.Returned? && e.depth == depth then None
            else if e.Moved? && e.depth == depth && e.idx == idx then Some((e.id, e.value))
            else LatestMove(history, depth, idx)
  {
    assert (history + [e])[..|history|] == history;
  }

  // ---------- What every step keeps ----------

  ghost predicate TableReadsHistory(vm: Vm) {
    forall d: nat, i: nat :: Lookup(vm.table, d, i) == LatestValue(vm.history, d, i)
  }

  ghost predicate IdsSane(vm: Vm) {
    && MovesSane(vm.history, vm.nextId)
    && (forall d :: 0 <= d < |vm.stack| ==> vm.stack[d].id < vm.nextId)
    && (forall d, e :: 0 <= d < e < |vm.stack| ==> vm.stack[d].id != vm.stack[e].id)
  }

  /** For a live activation the two readings agree whenever the later one names that activation. */
  ghost predicate ReadingsAgree(vm: Vm) {
    forall d: nat, i: nat {:trigger LatestMove(vm.history, d, i)} :: d < |vm.stack| ==> AgreeAt(vm, d, i)
  }

  ghost predicate AgreeAt(vm: Vm, d: nat, i: nat)
    requires d < |vm.stack|
  {
    var mine, latest := LastMoveBy(vm.history, vm.stack[d].id, i), LatestMove(vm.history, d, i);
    if mine.Some? then latest == Some((vm.stack[d].id, mine.value))
    else latest.Some? ==> latest.value.0 != vm.stack[d].id
  }

  ghost predicate Inv(vm: Vm) { TableReadsHistory(vm) && IdsSane(vm) && ReadingsAgree(vm) }

  lemma TableKept(vm: Vm, step: Step)
    requires Inv(vm) && Enabled(vm, step)
    ensures TableReadsHistory(Do(vm, step))
  {
    var vm' := Do(vm, step);
    if step.Move? || step.Return? {
      var e := vm'.history[|vm.history|];
      forall d: nat, i: nat
        ensures Lookup(vm'.table, d, i) == LatestValue(vm'.history, d, i)
      {
        LatestMoveStep(vm.history, e, d, i);
        assert Lookup(vm.table, d, i) == LatestValue(vm.history, d, i);
      }
    }
  }

  lemma ReadingsKept(vm: Vm, step: Step)
    requires Inv(vm) && Enabled(vm, step)
    ensures ReadingsAgree(Do(vm, step))
  {
    var vm' := Do(vm, step);
    forall d: nat, i: nat | d < |vm'.stack| ensures AgreeAt(vm', d, i) {
      if vm'.stack[d].id == vm.nextId {
        ReadingsSane(vm.history, vm.nextId, d, i);
      } else {
        assert d < |vm.stack| && vm'.stack[d].id == vm.stack[d].id;
        assert AgreeAt(vm, d, i) by { var _ := LatestMove(vm.history, d, i); }
        if step.Move? || step.Return? {
          var e := vm'.history[|vm.history|];
          LatestMoveStep(vm.history, e, d, i);
          LastMoveByStep(vm.history, e, vm.stack[d].id, i);
        }
      }
    }
  }

  lemma InvKept(vm: Vm, step: Step)
    requires Inv(vm) && Enabled(vm, step)
    ensures Inv(Do(vm, step))
  {
    TableKept(vm, step);
    ReadingsKept(vm, step);
  }

  /** Without aborts nothing is left behind: entries belong to the activation that is live at their depth. */
  ghost predicate NothingLeftBehind(vm: Vm) {
    forall d: nat, i: nat {:trigger LatestMove(vm.history, d, i)} ::
      LatestMove(vm.history, d, i).Some? ==> d < |vm.stack| && LatestMove(vm.history, d, i).value.0 == vm.stack[d].id
  }

  lemma NothingLeftBehindKept(vm: Vm, step: Step)
    requires Inv(vm) && NothingLeftBehind(vm) && Enabled(vm, step) && !step.Abort?
    ensures NothingLeftBehind(Do(vm, step))
  {
    var vm' := Do(vm, step);
    forall d: nat, i: nat | LatestMove(vm'.history, d, i).Some?
      ensures d < |vm'.stack| && LatestMove(vm'.history, d, i).value.0 == vm'.stack[d].id
    {
      if step.Move? || step.Return? {
        LatestMoveStep(vm.history, vm'.history[|vm.history|], d, i);
      }
    }
  }

  lemma {:induction false} RunsKeepInv(vm: Vm, steps: seq<Step>)
    requires Inv(vm) && Exec(vm, steps).Some?
    ensures Inv(Exec(vm, steps).value)
    ensures NothingLeftBehind(vm) && Abort !in steps ==> NothingLeftBehind(Exec(vm, steps).value)
    decreases |steps|
  {
    if steps != [] {
      InvKept(vm, steps[0]);
      if NothingLeftBehind(vm) && Abort !in steps { NothingLeftBehindKept(vm, steps[0]); }
      RunsKeepInv(Do(vm, steps[0]), steps[1..]);
    }
  }

  // ---------- What is shown at a stop ----------

  /** `o` is what the debug context sees before `step`: the running frame, and callers innermost first,
      perhaps not all of them, perhaps with their locals out of reach. */
  ghost predicate Observes(o: Observation, vm: Vm, step: Step) {
    && vm.stack != []
    && o.depth == Depth(vm)
    && o.instruction == InstructionOf(step)
    && o.locals == Top(vm).locals
    && |o.callers| < |vm.stack|
    && forall i :: 0 <= i < |o.callers| && o.callers[i].locals.Some? ==>
         o.callers[i].locals.value == vm.stack[o.depth - 1 - i].locals
  }

  /** What ought to be shown: the live value, else the one this very activation moved out, else none. */
  function Expected(vm: Vm, depth: nat, idx: nat): DebugValue
    requires depth < |vm.stack| && idx < |vm.stack[depth].locals|
  {
    var live := vm.stack[depth].locals[idx].value;
    var moved := LastMoveBy(vm.history, vm.stack[depth].id, idx);
    if !live.Invalid? then live else if moved.Some? then moved.value else Invalid
  }

  /** An aborted activation at this depth moved this local number out, nothing has returned from the
      depth since, and the live activation has not moved it itself. */
  ghost predicate Stale(vm: Vm, depth: nat, idx: nat)
    requires depth < |vm.stack|
  {
    var latest := LatestMove(vm.history, depth, idx);
    latest.Some? && latest.value.0 != vm.stack[depth].id
  }

  /** The frame with id `k` in a stack trace belongs to the activation `k` levels up. */
  ghost predicate InReach(o: Observation, k: nat) {
    k == 0 || (k <= |o.callers| && o.callers[k - 1].locals.Some?)
  }

  /** At a stop before `step`, a local of frame `k` shows what it ought to exactly when no aborted
      activation left a value in its place. In the frame about to return, whose moved locals are dropped
      already, it does exactly when the local has a value or this activation never moved it. */
  lemma ShownIffNotStale(vm: Vm, step: Step, o: Observation, k: nat, idx: nat)
    requires Inv(vm) && Enabled(vm, step) && !step.Start? && Observes(o, vm, step) && InReach(o, k)
    requires idx < |vm.stack[o.depth - k].locals|
    ensures var d := o.depth - k;
            var shown := FrameLocals(k, BuildState(o, TableAt(vm, step)));
            && |shown| == |vm.stack[d].locals|
            && shown[idx].index == idx && shown[idx].name == vm.stack[d].locals[idx].name
            && (step.Return? && k == 0 ==>
                 && shown[idx].value == vm.stack[d].locals[idx].value
                 && (shown[idx].value == Expected(vm, d, idx) <==>
                      !vm.stack[d].locals[idx].value.Invalid? || LastMoveBy(vm.history, vm.stack[d].id, idx).None?))
            && (!(step.Return? && k == 0) ==>
                 (shown[idx].value == Expected(vm, d, idx) <==>
                   !vm.stack[d].locals[idx].value.Invalid? || !Stale(vm, d, idx)))
  {
    var d := o.depth - k;
    var table := TableAt(vm, step);
    var live := vm.stack[d].locals[idx].value;
    assert FrameLocals(k, BuildState(o, table)) == BuildLocals(vm.stack[d].locals, MovedAt(table, d));
    assert AgreeAt(vm, d, idx) by { var _ := LatestMove(vm.history, d, idx); }
    ReadingsSane(vm.history, vm.nextId, d, idx);
    assert Lookup(vm.table, d, idx) == LatestValue(vm.history, d, idx);
    if live.Invalid? && !(step.Return? && k == 0) {
      assert Lookup(table, d, idx) == Lookup(vm.table, d, idx);
    }
  }

  /** The debug context is about to look at `step` in `vm`, and frame `k` is listed with its locals; it is
      not the frame about to return. */
  ghost predicate Viewed(vm: Vm, step: Step, o: Observation, k: nat) {
    Enabled(vm, step) && !step.Start? && Observes(o, vm, step) && InReach(o, k) && !(step.Return? && k == 0)
  }

  lemma ShownWhenClean(vm: Vm, step: Step, o: Observation, k: nat, idx: nat)
    requires Inv(vm) && NothingLeftBehind(vm) && Viewed(vm, step, o, k) && idx < |vm.stack[o.depth - k].locals|
    ensures var shown := FrameLocals(k, BuildState(o, TableAt(vm, step)));
            && |shown| == |vm.stack[o.depth - k].locals|
            && shown[idx].name == vm.stack[o.depth - k].locals[idx].name
            && shown[idx].value == Expected(vm, o.depth - k, idx)
  {
    assert LatestMove(vm.history, o.depth - k, idx).Some? ==>
      LatestMove(vm.history, o.depth - k, idx).value.0 == vm.stack[o.depth - k].id;
    ShownIffNotStale(vm, step, o, k, idx);
  }

  lemma AbortFreeRun(steps: seq<Step>)
    requires Abort !in steps && Exec(Init(), steps).Some?
    ensures Inv(Exec(Init(), steps).value) && NothingLeftBehind(Exec(Init(), steps).value)
  {
    RunsKeepInv(Init(), steps);
  }

  /** In every run without aborts, every local of every frame in reach shows what it ought to. */
  lemma ShownFaithfully(steps: seq<Step>, step: Step, o: Observation, k: nat, idx: nat)
    requires Abort !in steps && Exec(Init(), steps).Some?
    requires var vm := Exec(Init(), steps).value;
             Viewed(vm, step, o, k) && idx < |vm.stack[o.depth - k].locals|
    ensures var vm := Exec(Init(), steps).value;
            var shown := FrameLocals(k, BuildState(o, TableAt(vm, step)));
            && |shown| == |vm.stack[o.depth - k].locals|
            && shown[idx].value == Expected(vm, o.depth - k, idx)
  {
    AbortFreeRun(steps);
    ShownWhenClean(Exec(Init(), steps).value, step, o, k, idx);
  }

  /** With an abort the table can outlive the activation: a fresh top-level frame shows a value that was
      never its own. */
  lemma AbortLeavesStaleValue()
    ensures var steps := [Start([Local("x", Primitive("7"))]), Move(0), Abort, Start([Local("y", Invalid)])];
            && Exec(Init(), steps).Some?
            && var vm := Exec(Init(), steps).value;
            && vm.stack == [Activation(1, [Local("y", Invalid)])]
            && Expected(vm, 0, 0) == Invalid
            && var o := Observation("f", None, 0, OtherInstruction, Top(vm).locals, []);
            && Observes(o, vm, Other)
            && FrameLocals(0, BuildState(o, TableAt(vm, Other)))[0].value == Primitive("7")
  {
    var s0, s1, s2, s3 := Start([Local("x", Primitive("7"))]), Move(0), Abort, Start([Local("y", Invalid)]);
    var vm2 := Do(Do(Init(), s0), s1);
    var vm4 := Do(Do(vm2, s2), s3);
    ExecFour(Init(), s0, s1, s2, s3);
    assert vm2.history == [Moved(0, 0, 0, Primitive("7"))];
    assert LastMoveBy(vm4.history, 1, 0) == LastMoveBy([], 1, 0);
  }

  /** At a stop on the return itself a local moved out in the same activation shows no value any more. */
  lemma ReturnDropsMovedValue()
    ensures var steps := [Start([Local("x", Primitive("7"))]), Move(0)];
            && Exec(Init(), steps).Some?
            && var vm := Exec(Init(), steps).value;
            && Enabled(vm, Return)
            && Expected(vm, 0, 0) == Primitive("7")
            && var o := Observation("f", None, 0, Ret, Top(vm).locals, []);
            && Observes(o, vm, Return)
            && FrameLocals(0, BuildState(o, TableAt(vm, Return)))[0].value == Invalid
  {
    var s0, s1 := Start([Local("x", Primitive("7"))]), Move(0);
    var vm2 := Do(Do(Init(), s0), s1);
    ExecTwo(Init(), s0, s1);
    assert vm2.history == [Moved(0, 0, 0, Primitive("7"))];
  }

  // ---------- From a frame id to the variables shown ----------

  /** The locals of an activation as they ought to be shown, those without any value left out. */
  function ExpectedFields(vm: Vm, depth: nat, from: nat): seq<Field>
    requires depth < |vm.stack| && from <= |vm.stack[depth].locals|
    decreases |vm.stack[depth].locals| - from
  {
    if from == |vm.stack[depth].locals| then []
    else
      (if Expected(vm, depth, from).Invalid? then []
       else [Field(vm.stack[depth].locals[from].name, Expected(vm, depth, from))])
      + ExpectedFields(vm, depth, from + 1)
  }

  /** The scope offered for frame `k` of a stack trace at depth D resolves to the activation at depth
      D - k: its locals with a value, in index order, completed with those it moved out itself. */
  lemma FrameResolves(vm: Vm, step: Step, o: Observation, k: nat, table: Table)
    requires Inv(vm) && NothingLeftBehind(vm) && Viewed(vm, step, o, k) && k < 99_000
    ensures Target(table, Some(BuildState(o, TableAt(vm, step))), FrameLocalsRef(k)) ==
            ExpectedFields(vm, o.depth - k, 0)
  {
    FieldsFrom(vm, step, o, k, 0);
    var shown := FrameLocals(k, BuildState(o, TableAt(vm, step)));
    assert shown[0..] == shown;
  }

  lemma {:induction false} FieldsFrom(vm: Vm, step: Step, o: Observation, k: nat, from: nat)
    requires Inv(vm) && NothingLeftBehind(vm) && Viewed(vm, step, o, k)
    requires from <= |vm.stack[o.depth - k].locals|
    ensures var shown := FrameLocals(k, BuildState(o, TableAt(vm, step)));
            && |shown| == |vm.stack[o.depth - k].locals|
            && LocalFields(shown[from..]) == ExpectedFields(vm, o.depth - k, from)
    decreases |vm.stack[o.depth - k].locals| - from
  {
    var shown := FrameLocals(k, BuildState(o, TableAt(vm, step)));
    if from < |vm.stack[o.depth - k].locals| {
      ShownWhenClean(vm, step, o, k, from);
      FieldsFrom(vm, step, o, k, from + 1);
      assert shown[from..][1..] == shown[from + 1..];
    } else {
      assert shown == BuildLocals(vm.stack[o.depth - k].locals, MovedAt(TableAt(vm, step), o.depth - k));
    }
  }
}
