/** The table of lazily explored values behind variable references (src/server/variables.rs). */
module Variables {
  import opened Prelude
  import opened Numerals
  import opened DebugValues
  import opened DapTypes

  const FRAME_LOCALS_OFFSET: int := 1000
  const EXPANDABLE_VARS_OFFSET: int := 100_000

  /** What the client sees of a variable; reference 0 means there is nothing to open. */
  datatype Variable = Variable(name: string, value: string, reference: int)

  type Table = seq<DebugValue>

  function FrameLocalsRef(frameId: int): int { FRAME_LOCALS_OFFSET + frameId }

  // ---------- What a value offers when opened ----------

  predicate Expandable(v: DebugValue) {
    match v
    case EnumVariant(_, fields) => fields != []
    case Struct(_, _, _) => true
    case Vector(_) => true
    case ContainerRef(_) => true
    case IndexedRef(_) => true
    case _ => false
  }

  function Children(v: DebugValue): (kids: seq<Field>)
    ensures forall i :: 0 <= i < |kids| ==> kids[i].value < v
  {
    match v
    case Struct(_, _, fields) => fields
    case EnumVariant(_, fields) => fields
    case Vector(items) => seq(|items|, i requires 0 <= i < |items| => Field("[" + Decimal(i) + "]", items[i]))
    case ContainerRef(inner) => [Field("*ref", inner)]
    case IndexedRef(inner) => [Field("*ref", inner)]
    case _ => []
  }

  /** The children of an entry of the table, none when it has no such entry. */
  function ChildrenAt(table: Table, i: nat): seq<Field> { if i < |table| then Children(table[i]) else [] }

  // ---------- Answering a request ----------

  function VariableFor(size: nat, kid: Field): Variable {
    Variable(kid.name, Display(kid.value), if Expandable(kid.value) then EXPANDABLE_VARS_OFFSET + size else 0)
  }

  /** The entries a list of values adds to the table. */
  function Stored(kids: seq<Field>): Table {
    if kids == [] then []
    else (if Expandable(kids[0].value) then [kids[0].value] else []) + Stored(kids[1..])
  }

  /** The variables shown for a list of values when the table has `size` entries. */
  function Rendered(size: nat, kids: seq<Field>): (vars: seq<Variable>)
    ensures |vars| == |kids|
    decreases |kids|
  {
    if kids == [] then []
    else [VariableFor(size, kids[0])] +
         Rendered(if Expandable(kids[0].value) then size + 1 else size, kids[1..])
  }

  /** These values are listed in order, and the table grows by those that can be opened. */
  ghost predicate Answers(table: Table, table': Table, vars: seq<Variable>, kids: seq<Field>) {
    vars == Rendered(|table|, kids) && table' == table + Stored(kids)
  }

  /** One element moves from the part still to render to the part already rendered. */
  lemma RenderStep(vars: seq<Variable>, table: Table, kids: seq<Field>, i: nat)
    requires i < |kids|
    ensures var table' := table + (if Expandable(kids[i].value) then [kids[i].value] else []);
            && table + Stored(kids[i..]) == table' + Stored(kids[i + 1..])
            && vars + Rendered(|table|, kids[i..]) ==
              (vars + [VariableFor(|table|, kids[i])]) + Rendered(|table'|, kids[i + 1..])
  {
    assert kids[i..][1..] == kids[i + 1..];
  }

  /** `x` shows `v`: the right display, and a reference that leads to `v` when there is one. */
  ghost predicate Shows(table: Table, x: Variable, v: DebugValue) {
    && x.value == Display(v)
    && (if Expandable(v)
        then 0 <= x.reference - EXPANDABLE_VARS_OFFSET < |table| && table[x.reference - EXPANDABLE_VARS_OFFSET] == v
        else x.reference == 0)
  }

  /** `vars` lists `kids` in order, each under its name. */
  ghost predicate ShowsAll(table: Table, vars: seq<Variable>, kids: seq<Field>) {
    && |vars| == |kids|
    && forall i :: 0 <= i < |kids| ==> vars[i].name == kids[i].name && Shows(table, vars[i], kids[i].value)
  }

  /** One variable of a rendered list. */
  lemma {:induction false} RenderedAt(table: Table, kids: seq<Field>, i: nat)
    requires i < |kids|
    ensures Rendered(|table|, kids)[i].name == kids[i].name
    ensures Shows(table + Stored(kids), Rendered(|table|, kids)[i], kids[i].value)
    decreases |kids|
  {
    var table' := if Expandable(kids[0].value) then table + [kids[0].value] else table;
    assert table + Stored(kids) == table' + Stored(kids[1..]);
    if i == 0 {
      ShowsStable(table', table + Stored(kids), Rendered(|table|, kids)[0], kids[0].value);
    } else {
      RenderedAt(table', kids[1..], i - 1);
    }
  }

  /** Names, order, displays and references of a rendered list are those of the values behind it. */
  lemma RenderedShows(table: Table, kids: seq<Field>)
    ensures ShowsAll(table + Stored(kids), Rendered(|table|, kids), kids)
  {
    forall i | 0 <= i < |kids|
      ensures Rendered(|table|, kids)[i].name == kids[i].name
      ensures Shows(table + Stored(kids), Rendered(|table|, kids)[i], kids[i].value)
    {
      RenderedAt(table, kids, i);
    }
  }

  /** A reference shows the same value for as long as the table only grows. */
  lemma ShowsStable(table: Table, larger: Table, x: Variable, v: DebugValue)
    requires table <= larger && Shows(table, x, v)
    ensures Shows(larger, x, v)
  {
  }

  /** The name of an item: its index in decimal, in brackets. */
  ghost predicate NamesIndex(name: string, i: nat) {
    && |name| > 2 && name[0] == '[' && name[|name| - 1] == ']'
    && PlainNumeral(name[1..|name| - 1]) && DecimalValue(name[1..|name| - 1]) == i
  }

  /** `vars` is what `v` consists of, each part under its own name. */
  ghost predicate Opens(table: Table, vars: seq<Variable>, v: DebugValue) {
    match v
    case Struct(_, _, fields) => ShowsAll(table, vars, fields)
    case EnumVariant(_, fields) => ShowsAll(table, vars, fields)
    case Vector(items) =>
      && |vars| == |items|
      && (forall i :: 0 <= i < |items| ==> NamesIndex(vars[i].name, i) && Shows(table, vars[i], items[i]))
      && forall i, j :: 0 <= i < j < |items| ==> vars[i].name != vars[j].name
    case ContainerRef(target) => |vars| == 1 && vars[0].name == "*ref" && Shows(table, vars[0], target)
    case IndexedRef(target) => |vars| == 1 && vars[0].name == "*ref" && Shows(table, vars[0], target)
    case _ => vars == []
  }

  lemma ItemName(i: nat)
    ensures NamesIndex("[" + Decimal(i) + "]", i)
  {
    var name := "[" + Decimal(i) + "]";
    DecimalIsPlain(i);
    assert name[1..|name| - 1] == Decimal(i);
  }

  /** The children of a value, shown by name in order, are what it consists of. */
  lemma PartsOpen(table: Table, vars: seq<Variable>, v: DebugValue)
    requires ShowsAll(table, vars, Children(v))
    ensures Opens(table, vars, v)
  {
    if v.Vector? { ItemsOpen(table, vars, v); }
  }

  lemma ItemsOpen(table: Table, vars: seq<Variable>, v: DebugValue)
    requires v.Vector? && ShowsAll(table, vars, Children(v))
    ensures Opens(table, vars, v)
  {
    forall i | 0 <= i < |v.items|
      ensures NamesIndex(vars[i].name, i) && Shows(table, vars[i], v.items[i])
    {
      ItemName(i);
      assert vars[i].name == Children(v)[i].name;
    }
  }

  /** Which values open, and that those that do not have nothing to show. */
  lemma OpensExactly(v: DebugValue)
    ensures Expandable(v) <==>
              v.Struct? || v.Vector? || v.ContainerRef? || v.IndexedRef? || (v.EnumVariant? && v.fields != [])
    ensures !Expandable(v) ==> Children(v) == []
  {
  }

  /** The reference of a shown value leads to its children. */
  lemma ShownLeads(table: Table, state: Option<VmStoppedState>, x: Variable, v: DebugValue)
    requires Shows(table, x, v) && x.reference != 0
    ensures x.reference >= 100_000 && Target(table, state, x.reference) == Children(v)
  {
  }

  /** What a number leads to: a frame's locals from 1000 on, a stored value from 100000 on, else nothing. */
  lemma ReferenceRanges(table: Table, state: Option<VmStoppedState>, n: nat)
    ensures FrameLocalsRef(n) == 1000 + n
    ensures n < 1000 ==> Target(table, state, n) == []
    ensures 1000 <= n < 100_000 ==>
              Target(table, state, n) == if state.Some? then LocalFields(FrameLocals(n - 1000, state.value)) else []
    ensures n >= 100_000 ==>
              Target(table, state, n) == if n - 100_000 < |table| then Children(table[n - 100_000]) else []
  {
  }

  function LocalFields(locals: seq<LocalInfo>): seq<Field> {
    if locals == [] then []
    else (if locals[0].value.Invalid? then [] else [Field(locals[0].name, locals[0].value)]) + LocalFields(locals[1..])
  }

  lemma LocalFieldsFrom(before: seq<Field>, locals: seq<LocalInfo>, i: nat)
    requires i < |locals|
    ensures before + LocalFields(locals[i..]) ==
            (if locals[i].value.Invalid? then before else before + [Field(locals[i].name, locals[i].value)])
            + LocalFields(locals[i + 1..])
  {
    assert locals[i..][1..] == locals[i + 1..];
  }

  /** The locals a frame id stands for; ids beyond the stack trace stand for none. */
  function FrameLocals(frameId: nat, state: VmStoppedState): seq<LocalInfo> {
    if frameId == 0 then state.locals
    else if frameId - 1 < |state.stackTrace| then state.stackTrace[frameId - 1].locals
    else []
  }

  /** The values a reference leads to. */
  function Target(table: Table, state: Option<VmStoppedState>, reference: int): seq<Field> {
    if FRAME_LOCALS_OFFSET <= reference < EXPANDABLE_VARS_OFFSET then
      if state.Some? then LocalFields(FrameLocals(reference - FRAME_LOCALS_OFFSET, state.value)) else []
    else if EXPANDABLE_VARS_OFFSET <= reference then ChildrenAt(table, reference - EXPANDABLE_VARS_OFFSET)
    else []
  }

  class StoredVariables {
    var expandableVars: Table

    constructor ()
      ensures expandableVars == []
    {
      expandableVars := [];
    }

    method StoreExpandable(sv: DebugValue) returns (refId: int)
      modifies this
      ensures refId == EXPANDABLE_VARS_OFFSET + |old(expandableVars)|
      ensures expandableVars == old(expandableVars) + [sv]
    {
      refId := EXPANDABLE_VARS_OFFSET + |expandableVars|;
      expandableVars := expandableVars + [sv];
    }

    method Clear()
      modifies this
      ensures expandableVars == []
    {
      expandableVars := [];
    }

    method DebugValueToVariable(name: string, sv: DebugValue) returns (x: Variable)
      modifies this
      ensures x.name == name && Shows(expandableVars, x, sv)
      ensures expandableVars == old(expandableVars) + (if Expandable(sv) then [sv] else [])
      ensures x == VariableFor(|old(expandableVars)|, Field(name, sv))
    {
      var display := Display(sv);
      if Expandable(sv) {
        var refId := StoreExpandable(sv);
        x := Variable(name, display, refId);
      } else {
        x := Variable(name, display, 0);
      }
    }

    method ToVariables(kids: seq<Field>) returns (vars: seq<Variable>)
      modifies this
      ensures vars == Rendered(|old(expandableVars)|, kids)
      ensures expandableVars == old(expandableVars) + Stored(kids)
    {
      vars := [];
      for i := 0 to |kids|
        invariant vars + Rendered(|expandableVars|, kids[i..]) == Rendered(|old(expandableVars)|, kids)
        invariant expandableVars + Stored(kids[i..]) == old(expandableVars) + Stored(kids)
      {
        RenderStep(vars, expandableVars, kids, i);
        var x := DebugValueToVariable(kids[i].name, kids[i].value);
        vars := vars + [x];
      }
      assert kids[|kids|..] == [];
    }

    method ExpandedChildren(containerIdx: nat) returns (vars: seq<Variable>)
      modifies this
      ensures Answers(old(expandableVars), expandableVars, vars, ChildrenAt(old(expandableVars), containerIdx))
      ensures containerIdx < |old(expandableVars)| ==> Opens(expandableVars, vars, old(expandableVars)[containerIdx])
    {
      if containerIdx >= |expandableVars| {
        return [];
      }
      RenderedShows(expandableVars, Children(expandableVars[containerIdx]));
      vars := ToVariables(Children(expandableVars[containerIdx]));
      PartsOpen(expandableVars, vars, old(expandableVars)[containerIdx]);
    }

    method LocalsForFrame(frameId: nat, state: VmStoppedState) returns (vars: seq<Variable>)
      modifies this
      ensures Answers(old(expandableVars), expandableVars, vars, LocalFields(FrameLocals(frameId, state)))
    {
      var visible := VisibleLocals(FrameLocals(frameId, state));
      vars := ToVariables(visible);
    }

    /** The filter in front of the rendering: locals without a value are not shown. */
    static method VisibleLocals(locals: seq<LocalInfo>) returns (visible: seq<Field>)
      ensures visible == LocalFields(locals)
    {
      visible := [];
      for i := 0 to |locals|
        invariant visible + LocalFields(locals[i..]) == LocalFields(locals)
      {
        LocalFieldsFrom(visible, locals, i);
        if !locals[i].value.Invalid? {
          visible := visible + [Field(locals[i].name, locals[i].value)];
        }
      }
      assert locals[|locals|..] == [];
    }

    method GetVariables(state: Option<VmStoppedState>, refId: int) returns (vars: seq<Variable>)
      modifies this
      ensures Answers(old(expandableVars), expandableVars, vars, Target(old(expandableVars), state, refId))
    {
      if FRAME_LOCALS_OFFSET <= refId < EXPANDABLE_VARS_OFFSET {
        if state.Some? {
          vars := LocalsForFrame(refId - FRAME_LOCALS_OFFSET, state.value);
        } else {
          vars := [];
        }
      } else if EXPANDABLE_VARS_OFFSET <= refId {
        vars := ExpandedChildren(refId - EXPANDABLE_VARS_OFFSET);
      } else {
        vars := [];
      }
    }
  }
}
