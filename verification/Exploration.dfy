/** What a client that opens references one by one gets to see: the tree behind a value, references
    that stay good until the next stop, and children that agree with the collapsed display. */
module Exploration {
  import opened Prelude
  import opened Numerals
  import opened DebugValues
  import opened DapTypes
  import opened Variables

  // ---------- Opening everything rebuilds the tree ----------

  /** A value as the client draws it. */
  datatype Tree = Tree(name: string, shown: string, opens: bool, kids: seq<Tree>)

  function TreeOf(name: string, v: DebugValue): Tree
    decreases v, 0
  {
    match v
    case Struct(_, _, fields) => Tree(name, Display(v), true, FieldTrees(v, fields))
    case EnumVariant(_, fields) => Tree(name, Display(v), fields != [], FieldTrees(v, fields))
    case Vector(items) =>
      Tree(name, Display(v), true,
           seq(|items|, i requires 0 <= i < |items| => TreeOf("[" + Decimal(i) + "]", items[i])))
    case ContainerRef(target) => Tree(name, Display(v), true, [TreeOf("*ref", target)])
    case IndexedRef(target) => Tree(name, Display(v), true, [TreeOf("*ref", target)])
    case _ => Tree(name, Display(v), false, [])
  }

  function FieldTrees(ghost v: DebugValue, fields: seq<Field>): seq<Tree>
    requires forall i :: 0 <= i < |fields| ==> fields[i].value < v
    decreases v, 0, |fields|
  {
    seq(|fields|, i requires 0 <= i < |fields| => TreeOf(fields[i].name, fields[i].value))
  }

  /** How many values in these trees can be opened. */
  function Openings(trees: seq<Tree>): nat
    decreases trees
  {
    if trees == [] then 0
    else (if trees[0].opens then 1 else 0) + Openings(trees[0].kids) + Openings(trees[1..])
  }

  /** The trees of the children, one by one. */
  function KidTrees(v: DebugValue): seq<Tree> {
    seq(|Children(v)|, i requires 0 <= i < |Children(v)| => TreeOf(Children(v)[i].name, Children(v)[i].value))
  }

  lemma TreeFromKids(name: string, v: DebugValue)
    ensures TreeOf(name, v) == Tree(name, Display(v), Expandable(v), KidTrees(v))
  {
    assert TreeOf(name, v).kids == KidTrees(v);
  }

  /** The client: request the reference of `x`, then explore every child before the next one.
      The value `v` behind `x` serves the termination argument only. */
  function Explore(session: Option<Session>, state: Option<VmStoppedState>,
                   table: Table, x: Variable, ghost v: DebugValue): (r: (Table, Tree))
    requires Shows(table, x, v)
    ensures table <= r.0
    decreases v, |Children(v)| + 1
  {
    if x.reference == 0 then
      (table, Tree(x.name, x.value, false, []))
    else
      ServeOpens(session, state, table, x, v);
      var (table1, vars) := Serve(session, state, table, x.reference);
      var (table', kids) := ExploreAll(session, state, table1, vars, v, 0);
      (table', Tree(x.name, x.value, true, kids))
  }

  function ExploreAll(session: Option<Session>, state: Option<VmStoppedState>,
                      table: Table, vars: seq<Variable>, ghost v: DebugValue, i: nat): (r: (Table, seq<Tree>))
    requires i <= |Children(v)| && ShowsAll(table, vars, Children(v))
    ensures table <= r.0
    decreases v, |Children(v)| - i
  {
    if i == |vars| then (table, [])
    else
      var (table', tree) := Explore(session, state, table, vars[i], Children(v)[i].value);
      ShowsAllStable(table, table', vars, Children(v));
      var (table'', trees) := ExploreAll(session, state, table', vars, v, i + 1);
      (table'', [tree] + trees)
  }

  /** A request for the reference of a shown value is answered with its children. */
  lemma ServeOpens(session: Option<Session>, state: Option<VmStoppedState>, table: Table, x: Variable, v: DebugValue)
    requires Shows(table, x, v) && x.reference != 0
    ensures var (table', vars) := Serve(session, state, table, x.reference);
            table' == table + Stored(Children(v)) && ShowsAll(table', vars, Children(v))
  {
    ShownLeads(table, state, x, v);
    RenderedShows(table, Children(v));
  }

  /** These are what the value consists of: its fields, its items by number, or what it refers to. */
  lemma ServeShowsParts(session: Option<Session>, state: Option<VmStoppedState>, table: Table,
                        x: Variable, v: DebugValue)
    requires Shows(table, x, v) && x.reference != 0
    ensures Opens(Serve(session, state, table, x.reference).0, Serve(session, state, table, x.reference).1, v)
  {
    ServeOpens(session, state, table, x, v);
    PartsOpen(Serve(session, state, table, x.reference).0, Serve(session, state, table, x.reference).1, v);
  }

  lemma {:induction false} ExploreFaithful(session: Option<Session>, state: Option<VmStoppedState>,
                                           table: Table, x: Variable, v: DebugValue)
    requires Shows(table, x, v)
    ensures Explore(session, state, table, x, v).1 == TreeOf(x.name, v)
    ensures |Explore(session, state, table, x, v).0| == |table| + Openings(TreeOf(x.name, v).kids)
    decreases v, |Children(v)| + 1
  {
    TreeFromKids(x.name, v);
    if x.reference != 0 {
      ServeOpens(session, state, table, x, v);
      var (table1, vars) := Serve(session, state, table, x.reference);
      ExploreAllFaithful(session, state, table1, vars, v, 0);
      StoredCounts(v, 0);
      assert Children(v)[0..] == Children(v);
      assert KidTrees(v)[0..] == KidTrees(v);
    }
  }

  lemma {:induction false} ExploreAllFaithful(session: Option<Session>, state: Option<VmStoppedState>,
                                              table: Table, vars: seq<Variable>, v: DebugValue, i: nat)
    requires i <= |Children(v)| && ShowsAll(table, vars, Children(v))
    ensures ExploreAll(session, state, table, vars, v, i).1 == KidTrees(v)[i..]
    ensures |ExploreAll(session, state, table, vars, v, i).0| ==
            |table| + Openings(KidTrees(v)[i..]) - OpenableChildren(v, i)
    decreases v, |Children(v)| - i
  {
    if i < |vars| {
      var child := Children(v)[i];
      var (table', tree) := Explore(session, state, table, vars[i], child.value);
      ExploreFaithful(session, state, table, vars[i], child.value);
      ShowsAllStable(table, table', vars, Children(v));
      ExploreAllFaithful(session, state, table', vars, v, i + 1);
      KidTreesStep(v, i);
    }
  }

  lemma KidTreesStep(v: DebugValue, i: nat)
    requires i < |Children(v)|
    ensures var kid := Children(v)[i];
            var tree := TreeOf(kid.name, kid.value);
            && KidTrees(v)[i..] == [tree] + KidTrees(v)[i + 1..]
            && Openings(KidTrees(v)[i..]) ==
               (if Expandable(kid.value) then 1 else 0) + Openings(tree.kids) + Openings(KidTrees(v)[i + 1..])
  {
    TreeFromKids(Children(v)[i].name, Children(v)[i].value);
    assert KidTrees(v)[i..][1..] == KidTrees(v)[i + 1..];
  }

  lemma ShowsAllStable(table: Table, larger: Table, vars: seq<Variable>, kids: seq<Field>)
    requires table <= larger && ShowsAll(table, vars, kids)
    ensures ShowsAll(larger, vars, kids)
  {
  }

  ghost function OpenableChildren(v: DebugValue, i: nat): nat
    requires i <= |Children(v)|
    decreases |Children(v)| - i
  {
    if i == |Children(v)| then 0
    else (if Expandable(Children(v)[i].value) then 1 else 0) + OpenableChildren(v, i + 1)
  }

  lemma {:induction false} StoredCounts(v: DebugValue, i: nat)
    requires i <= |Children(v)|
    ensures |Stored(Children(v)[i..])| == OpenableChildren(v, i)
    decreases |Children(v)| - i
  {
    if i < |Children(v)| {
      StoredCounts(v, i + 1);
      assert Children(v)[i..][1..] == Children(v)[i + 1..];
    }
  }

  /** Lazy exploration of a stored value yields exactly its tree, appends one entry per expandable
      proper descendant, and leaves every earlier entry as it was. */
  lemma ExplorationRebuildsTree(session: Option<Session>, state: Option<VmStoppedState>,
                                table: Table, name: string, v: DebugValue)
    requires Expandable(v)
    ensures var size := |table|;
            var x := VariableFor(size, Field(name, v));
            && Shows(table + [v], x, v)
            && var (table', tree) := Explore(session, state, table + [v], x, v);
            tree == TreeOf(name, v) && table + [v] <= table' && |table'| == size + 1 + Openings(tree.kids)
  {
    ExploreFaithful(session, state, table + [v], VariableFor(|table|, Field(name, v)), v);
  }

  // ---------- References within one stop ----------

  const SCOPE_TRANSACTION_INFO: int := 1

  /** A replayed transaction: the name of its entry function, its plain facts, its decoded arguments. */
  datatype Session = Session(entryName: string, facts: seq<(string, string)>, args: seq<Field>)

  function FactVariables(facts: seq<(string, string)>): seq<Variable> {
    seq(|facts|, i requires 0 <= i < |facts| => Variable(facts[i].0, facts[i].1, 0))
  }

  function ArgsText(args: seq<Field>): string { Decimal(|args|) + " args" }

  /** `handle_variables`: the table afterwards, and the answer. */
  function Serve(session: Option<Session>, state: Option<VmStoppedState>, table: Table,
                 reference: int): (Table, seq<Variable>) {
    if reference == SCOPE_TRANSACTION_INFO then
      match session
      case None => (table, [])
      case Some(s) =>
        if s.args == [] then (table, FactVariables(s.facts))
        else
          (table + [Struct(None, [], s.args)],
           FactVariables(s.facts) + [Variable("args", ArgsText(s.args), EXPANDABLE_VARS_OFFSET + |table|)])
    else
      var target := Target(table, state, reference);
      (table + Stored(target), Rendered(|table|, target))
  }

  /** Any number of requests, in any order, between two stops. */
  function ServeAll(session: Option<Session>, state: Option<VmStoppedState>, table: Table,
                    requests: seq<int>): (Table, seq<Variable>)
    decreases |requests|
  {
    if requests == [] then (table, [])
    else
      var (table', vars) := Serve(session, state, table, requests[0]);
      var (table'', more) := ServeAll(session, state, table', requests[1..]);
      (table'', vars + more)
  }

  /** The references handed out by an answer. */
  function Issued(vars: seq<Variable>): seq<int> {
    if vars == [] then []
    else (if vars[0].reference == 0 then [] else [vars[0].reference]) + Issued(vars[1..])
  }

  ghost predicate Consecutive(refs: seq<int>, size: nat) {
    forall i :: 0 <= i < |refs| ==> refs[i] == EXPANDABLE_VARS_OFFSET + size + i
  }

  lemma {:induction false} IssuedAppend(a: seq<Variable>, b: seq<Variable>)
    ensures Issued(a + b) == Issued(a) + Issued(b)
  {
    if a == [] {
      assert a + b == b;
    } else {
      var first := if a[0].reference == 0 then [] else [a[0].reference];
      assert (a + b)[0] == a[0] && (a + b)[1..] == a[1..] + b;
      IssuedAppend(a[1..], b);
      assert first + (Issued(a[1..]) + Issued(b)) == (first + Issued(a[1..])) + Issued(b);
    }
  }

  lemma {:induction false} RenderedIssues(size: nat, kids: seq<Field>)
    ensures |Issued(Rendered(size, kids))| == |Stored(kids)|
    ensures Consecutive(Issued(Rendered(size, kids)), size)
    decreases |kids|
  {
    if kids != [] {
      var size' := if Expandable(kids[0].value) then size + 1 else size;
      RenderedIssues(size', kids[1..]);
      var vars := Rendered(size, kids);
      assert vars[1..] == Rendered(size', kids[1..]);
    }
  }

  lemma {:induction false} FactsIssueNothing(facts: seq<(string, string)>)
    ensures Issued(FactVariables(facts)) == []
  {
    if facts != [] {
      FactsIssueNothing(facts[1..]);
      assert FactVariables(facts)[1..] == FactVariables(facts[1..]);
    }
  }

  lemma ServeIssues(session: Option<Session>, state: Option<VmStoppedState>, table: Table, reference: int)
    ensures var (table', vars) := Serve(session, state, table, reference);
            table <= table' && |Issued(vars)| == |table'| - |table| && Consecutive(Issued(vars), |table|)
  {
    if reference != SCOPE_TRANSACTION_INFO {
      RenderedIssues(|table|, Target(table, state, reference));
    } else if session.Some? {
      var facts := FactVariables(session.value.facts);
      FactsIssueNothing(session.value.facts);
      var last := Variable("args", ArgsText(session.value.args), EXPANDABLE_VARS_OFFSET + |table|);
      IssuedAppend(facts, [last]);
      assert [last][1..] == [];
    }
  }

  /** Over any run of requests the references handed out are consecutive numbers, so they are pairwise
      distinct, and apart from every frame reference and from the transaction scope. */
  lemma {:induction false} ReferencesAreFresh(session: Option<Session>, state: Option<VmStoppedState>, table: Table,
                                              requests: seq<int>)
    ensures var (table', vars) := ServeAll(session, state, table, requests);
            var refs := Issued(vars);
            && table <= table'
            && |refs| == |table'| - |table|
            && Consecutive(refs, |table|)
            && (forall i, j :: 0 <= i < j < |refs| ==> refs[i] != refs[j])
            && (forall i, k: nat :: 0 <= i < |refs| && k < EXPANDABLE_VARS_OFFSET - FRAME_LOCALS_OFFSET ==>
                refs[i] != FrameLocalsRef(k))
            && SCOPE_TRANSACTION_INFO !in refs
    decreases |requests|
  {
    if requests != [] {
      var (table', vars) := Serve(session, state, table, requests[0]);
      ServeIssues(session, state, table, requests[0]);
      ReferencesAreFresh(session, state, table', requests[1..]);
      IssuedAppend(vars, ServeAll(session, state, table', requests[1..]).1);
    }
  }

  /** What an answer says to the user, references aside. */
  function Texts(vars: seq<Variable>): seq<(string, string)> {
    seq(|vars|, i requires 0 <= i < |vars| => (vars[i].name, vars[i].value))
  }

  /** Asking again for a reference that was good, after any other requests, shows the same
      children under the same names with the same values. */
  lemma ReferencesKeepTheirMeaning(session: Option<Session>, state: Option<VmStoppedState>, table: Table,
                                   requests: seq<int>, reference: int)
    requires reference < EXPANDABLE_VARS_OFFSET + |table|
    ensures var table' := ServeAll(session, state, table, requests).0;
            && (reference != SCOPE_TRANSACTION_INFO ==>
                Target(table', state, reference) == Target(table, state, reference))
            && Texts(Serve(session, state, table', reference).1) == Texts(Serve(session, state, table, reference).1)
  {
    var table' := ServeAll(session, state, table, requests).0;
    ReferencesAreFresh(session, state, table, requests);
    RenderedShows(table, Target(table, state, reference));
    RenderedShows(table', Target(table, state, reference));
  }

  /** A frame reference resolves to its frame exactly when the frame id stays below the first
      expandable reference; larger ids run into the table of stored values. */
  lemma FrameReferenceRange(table: Table, state: VmStoppedState, frameId: nat)
    ensures var reference := FrameLocalsRef(frameId);
            (frameId < 99_000 ==> Target(table, Some(state), reference) == LocalFields(FrameLocals(frameId, state)))
    ensures frameId >= 99_000 ==>
              Target(table, Some(state), FrameLocalsRef(frameId)) ==
              (if frameId - 99_000 < |table| then Children(table[frameId - 99_000]) else [])
  {
  }

  // ---------- Collapsed and expanded views agree ----------

  /** What remains of an expandable value when its children are taken out. */
  datatype Shape =
    | StructShape(name: Option<string>, tyArgs: seq<string>)
    | VariantShape(variant: string)
    | VectorShape
    | ContainerRefShape
    | IndexedRefShape

  function ShapeOf(v: DebugValue): Shape
    requires Expandable(v)
  {
    match v
    case Struct(name, tyArgs, _) => StructShape(name, tyArgs)
    case EnumVariant(name, _) => VariantShape(name)
    case Vector(_) => VectorShape
    case ContainerRef(_) => ContainerRefShape
    case IndexedRef(_) => IndexedRefShape
  }

  /** Draws the collapsed line from the shape and the children the client was sent. */
  function Redraw(shape: Shape, kids: seq<(string, string)>): string {
    match shape
    case StructShape(name, tyArgs) =>
      (if name.None? then ""
       else if tyArgs == [] then name.value + " "
       else name.value + "<" + Join(tyArgs, ", ") + "> ")
      + "{ " + Join(Labelled(kids, true), ", ") + " }"
    case VariantShape(name) => name + " { " + Join(Labelled(kids, false), ", ") + " }"
    case VectorShape => "[" + Join(Values(kids), ", ") + "]"
    case ContainerRefShape => "(&) " + Join(Values(kids), "")
    case IndexedRefShape => Join(Values(kids), "")
  }

  /** The children as `name: value`, empty names left out in structs. */
  function Labelled(kids: seq<(string, string)>, optional: bool): seq<string> {
    seq(|kids|, i requires 0 <= i < |kids| =>
      if optional && kids[i].0 == "" then kids[i].1 else kids[i].0 + ": " + kids[i].1)
  }

  function Values(kids: seq<(string, string)>): seq<string> {
    seq(|kids|, i requires 0 <= i < |kids| => kids[i].1)
  }

  function KidTexts(kids: seq<Field>): seq<(string, string)> {
    seq(|kids|, i requires 0 <= i < |kids| => (kids[i].name, Display(kids[i].value)))
  }

  lemma RenderedTexts(table: Table, kids: seq<Field>)
    ensures Texts(Rendered(|table|, kids)) == KidTexts(kids)
  {
    RenderedShows(table, kids);
  }

  lemma RedrawsDisplay(v: DebugValue)
    requires Expandable(v)
    ensures Redraw(ShapeOf(v), KidTexts(Children(v))) == Display(v)
  {
    var kids := KidTexts(Children(v));
    match v
    case Struct(_, _, _) => StructRedraws(v);
    case EnumVariant(_, _) => VariantRedraws(v);
    case Vector(items) => assert Values(kids) == Displays(items);
    case ContainerRef(inner) => assert Values(kids) == [Display(inner)];
    case IndexedRef(inner) => assert Values(kids) == [Display(inner)];
  }

  lemma StructRedraws(v: DebugValue)
    requires v.Struct?
    ensures Redraw(ShapeOf(v), KidTexts(v.fields)) == Display(v)
  {
    assert Labelled(KidTexts(v.fields), true) == StructTexts(v.fields);
  }

  lemma VariantRedraws(v: DebugValue)
    requires v.EnumVariant? && v.fields != []
    ensures Redraw(ShapeOf(v), KidTexts(v.fields)) == Display(v)
  {
    assert Labelled(KidTexts(v.fields), false) == VariantTexts(v.fields);
  }

  /** Drawing the collapsed line from the shape of a value and the names and values of the children
      sent for it gives the display string that stood beside its reference. */
  lemma CollapsedMatchesExpanded(table: Table, v: DebugValue)
    requires Expandable(v)
    ensures Redraw(ShapeOf(v), Texts(Rendered(|table|, Children(v)))) == Display(v)
  {
    RenderedTexts(table, Children(v));
    RedrawsDisplay(v);
  }
}
