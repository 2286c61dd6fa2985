/** What the VM lets the debugger see before each instruction, the table of moved-out locals, and the
    snapshot built from both at a stop (src/debugger/dap_context.rs). */
module Snapshots {
  import opened Prelude
  import opened DebugValues
  import opened Locations
  import opened DapTypes

  /** The debugger tells apart only moves out of a local and returns. */
  datatype Instruction = MoveLoc(idx: nat) | Ret | OtherInstruction

  /** A local with its name and its serialised current value. */
  datatype Local = Local(name: string, value: DebugValue)

  /** A caller; its locals may be out of reach of the interpreter's debug interface. */
  datatype Caller = Caller(functionName: string, location: Option<SourceLoc>, locals: Option<seq<Local>>)

  /** The arguments of one `debug_loop` call. Callers are listed innermost first; the depth of the
      running frame counts all callers, listed or not. */
  datatype Observation = Observation(
    functionName: string,
    line: Option<SourceLoc>,
    depth: nat,
    instruction: Instruction,
    locals: seq<Local>,
    callers: seq<Caller>)

  ghost predicate WellFormed(o: Observation) { |o.callers| <= o.depth }

  type MovedLocals = map<nat, DebugValue>
  type MovedTable = map<nat, MovedLocals>

  function MovedAt(table: MovedTable, depth: nat): Option<MovedLocals> {
    if depth in table then Some(table[depth]) else None
  }

  /** `handle_potentially_moved_locals` at one instruction. */
  function RecordMoves(table: MovedTable, depth: nat, instruction: Instruction, locals: seq<Local>): MovedTable {
    match instruction
    case MoveLoc(idx) =>
      if idx < |locals| then
        table[depth := (if depth in table then table[depth] else map[])[idx := locals[idx].value]]
      else table
    case Ret => table - {depth}
    case OtherInstruction => table
  }

  /** The value shown for a local: its own, or else the one it was moved out with. */
  function ShownValue(value: DebugValue, idx: nat, moved: Option<MovedLocals>): DebugValue {
    if value.Invalid? && moved.Some? && idx in moved.value then moved.value[idx] else value
  }

  function BuildLocals(locals: seq<Local>, moved: Option<MovedLocals>): seq<LocalInfo> {
    seq(|locals|, i requires 0 <= i < |locals| => LocalInfo(i, locals[i].name, ShownValue(locals[i].value, i, moved)))
  }

  /** `build_vm_stopped_state`; a negative caller depth would be an arithmetic overflow in the source. */
  function BuildState(o: Observation, table: MovedTable): VmStoppedState
    requires WellFormed(o)
  {
    VmStoppedState(
      o.functionName,
      seq(|o.callers|, i requires 0 <= i < |o.callers| =>
        FrameInfo(
          o.callers[i].functionName,
          o.callers[i].location,
          match o.callers[i].locals
          case Some(locals) => BuildLocals(locals, MovedAt(table, o.depth - 1 - i))
          case None => [])),
      BuildLocals(o.locals, MovedAt(table, o.depth)),
      o.line)
  }
}
