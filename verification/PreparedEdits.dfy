/** What reaches the server of the edits of an operation: clauses, limits and parameters. */
module PreparedEdits {
  import opened Wrappers
  import opened PreparedSpec
  import opened PreparedRuns

  function EditedAll(s: Settings, edits: seq<Edit>): Settings
    decreases |edits|
  {
    if edits == [] then s else EditedAll(Edited(s, edits[0]), edits[1..])
  }

  function Changes(edits: seq<Edit>): seq<Event> {
    if edits == [] then [] else [Change(0, edits[0])] + Changes(edits[1..])
  }

  lemma {:induction false} ChangesLead(r: Registry, v: View, edits: seq<Edit>)
    requires v.state.PsExecute?
    ensures Leads(One(r, v), Changes(edits), [], One(r, v.(settings := EditedAll(v.settings, edits))))
    decreases |edits|
  {
    hide Edited, Cached, Reached;
    if edits == [] {
      LeadsNowhere(One(r, v));
    } else {
      var next := v.(settings := Edited(v.settings, edits[0]));
      StaysDirect(v.settings, edits[0]);
      ChangeOne(r, v, edits[0]);
      ChangesLead(r, next, edits[1..]);
      LeadsOn(One(r, v), [Change(0, edits[0])], [], One(r, next), Changes(edits[1..]), [],
        One(r, v.(settings := EditedAll(v.settings, edits))));
    }
  }

  lemma LeadsNowhere(w: World)
    ensures Leads(w, [], [], w)
  {}

  lemma StaysDirect(s: Settings, e: Edit)
    ensures StateAfter(s, e, PsExecute).PsExecute?
  {}

  /** Create an operation, edit it and execute it. */
  function Script(def: Definition, edits: seq<Edit>): seq<Event> {
    [Create(def)] + Changes(edits) + [EXECUTE]
  }

  /** The server gets to run what the edits amount to. */
  lemma ScriptRuns(def: Definition, edits: seq<Edit>)
    ensures Cached(START, Script(def, edits)) == [Direct(Asked(EditedAll(Fresh(def), edits)), ANSWERED)]
  {
    hide Executed, Cached, Reached, EditedAll, Asked, Direct, Changes;
    var r, v := START.registry, View(Fresh(def), PsExecute, None, Clear);
    var edited := v.(settings := EditedAll(Fresh(def), edits));
    var direct := Direct(Asked(edited.settings), ANSWERED);
    var last := edited.(state := PsPrepareExecute, left := LeftBy(direct));
    CreateOne(def);
    ChangesLead(r, v, edits);
    LeadsOn(START, [Create(def)], [], One(r, v), Changes(edits), [], One(r, edited));
    ExecuteOne(r, edited, ANSWERED);
    FirstExecution(edited, ANSWERED);
    LeadsOn(START, [Create(def)] + Changes(edits), [] + [], One(r, edited), [EXECUTE], [direct], One(r, last));
    assert [] + [] + [direct] == [direct];
  }

  /** An operation without any clauses. */
  function Bare(kind: Kind, target: string): Definition {
    Definition(kind, target, "", false, [], "", [], "", [], (0, 0), [], map[])
  }

  // ----- limits -----

  /** The row count comes from the limit and the offset from the offset; without a limit all rows are asked for. */
  lemma LimitsReach(def: Definition, n: nat, k: nat)
    requires Sendable(def)
    ensures Cached(START, Script(def, [SetLimit(n), SetOffset(k)])) == [Ran(Query(def, Some((n, k)), map[]))]
    ensures Cached(START, Script(def, [SetOffset(k), SetLimit(n)])) == [Ran(Query(def, Some((n, k)), map[]))]
    ensures Cached(START, Script(def, [SetLimit(n)])) == [Ran(Query(def, Some((n, 0)), map[]))]
    ensures Cached(START, Script(def, [SetOffset(k)])) == [Ran(Query(def, Some((18446744073709551615, k)), map[]))]
    ensures Cached(START, Script(def, [])) == [Ran(Query(def, None, map[]))]
  {
    hide Cached, Script;
    ScriptRuns(def, [SetLimit(n), SetOffset(k)]);
    ScriptRuns(def, [SetOffset(k), SetLimit(n)]);
    ScriptRuns(def, [SetLimit(n)]);
    ScriptRuns(def, [SetOffset(k)]);
    ScriptRuns(def, []);
    EditTwo(Fresh(def), SetLimit(n), SetOffset(k));
    EditTwo(Fresh(def), SetOffset(k), SetLimit(n));
    EditOne(Fresh(def), SetLimit(n));
    EditOne(Fresh(def), SetOffset(k));
  }

  lemma EditOne(s: Settings, e: Edit)
    ensures EditedAll(s, [e]) == Edited(s, e)
  {
    assert [e][1..] == [];
  }

  lemma EditTwo(s: Settings, e: Edit, f: Edit)
    ensures EditedAll(s, [e, f]) == Edited(Edited(s, e), f)
  {
    assert [e, f][1..] == [f];
    EditOne(Edited(s, e), f);
  }

  lemma {:induction false} EditMore(s: Settings, edits: seq<Edit>, more: seq<Edit>)
    ensures EditedAll(s, edits + more) == EditedAll(EditedAll(s, edits), more)
    decreases |edits|
  {
    hide Edited;
    if edits == [] {
      assert edits + more == more;
    } else {
      assert (edits + more)[1..] == edits[1..] + more;
      EditMore(Edited(s, edits[0]), edits[1..], more);
    }
  }

  // ----- clauses -----

  datatype Named = Named(name: string, value: string)

  /** Two of everything that can be given. */
  datatype Wishes = Wishes(
    document: string, field1: string, field2: string, group1: string, group2: string, having: string,
    key1: SortKey, key2: SortKey, where: string, mode: nat, contention: nat, update1: FieldOp, update2: FieldOp,
    cell1: Named, cell2: Named, rows: nat, skip: nat, param1: Named, param2: Named)

  function Shape(w: Wishes): seq<Edit> {
    [SetProj(w.document), SetWhere(w.where)] + ([AddProj(w.field1), AddProj(w.field2)] +
    ([AddGroupBy(w.group1), AddGroupBy(w.group2)] + [SetHaving(w.having), SetLockMode(w.mode, w.contention)]))
  }

  function Contents(w: Wishes): seq<Edit> {
    [AddSort(w.key1), AddSort(w.key2)] + ([AddOperation(w.update1), AddOperation(w.update2)] +
    [AddSet(w.cell1.name, w.cell1.value), AddSet(w.cell2.name, w.cell2.value)])
  }

  function Amounts(w: Wishes): seq<Edit> {
    [SetOffset(w.skip), SetLimit(w.rows)] +
    [AddParam(w.param1.name, w.param1.value), AddParam(w.param2.name, w.param2.value)]
  }

  /** Everything that was asked for reaches the server: lists in the order given, the last value of each name. */
  lemma WishesReach(kind: Kind, target: string, w: Wishes)
    requires w.where != ""
    ensures Cached(START, Script(Bare(kind, target), Shape(w) + (Contents(w) + Amounts(w)))) == [Ran(Query(
      Definition(kind, target, w.where, true, [w.field1, w.field2], w.document, [w.group1, w.group2], w.having,
        [w.key1, w.key2], (w.mode, w.contention), [w.update1, w.update2],
        map[w.cell1.name := w.cell1.value][w.cell2.name := w.cell2.value]),
      Some((w.rows, w.skip)),
      map[w.param1.name := w.param1.value][w.param2.name := w.param2.value]))]
  {
    hide Cached, Script, EditedAll, Edited, Shape, Contents, Amounts;
    var s := Fresh(Bare(kind, target));
    ScriptRuns(Bare(kind, target), Shape(w) + (Contents(w) + Amounts(w)));
    EditMore(s, Shape(w), Contents(w) + Amounts(w));
    EditShape(s, w);
    var s1 := EditedAll(s, Shape(w));
    EditMore(s1, Contents(w), Amounts(w));
    EditContents(s1, w);
    EditAmounts(EditedAll(s1, Contents(w)), w);
    assert [] + [w.field1, w.field2] == [w.field1, w.field2] && [] + [w.group1, w.group2] == [w.group1, w.group2];
    assert [] + [w.key1, w.key2] == [w.key1, w.key2] && [] + [w.update1, w.update2] == [w.update1, w.update2];
    assert map[][w.cell1.name := w.cell1.value] == map[w.cell1.name := w.cell1.value];
    assert map[][w.param1.name := w.param1.value] == map[w.param1.name := w.param1.value];
  }

  /** Two edits that are known, and then others. */
  lemma EditNext(s: Settings, e: Edit, f: Edit, rest: seq<Edit>, t: Settings)
    requires Edited(Edited(s, e), f) == t
    ensures EditedAll(s, [e, f] + rest) == EditedAll(t, rest) && EditedAll(s, [e, f]) == t
  {
    hide Edited;
    EditMore(s, [e, f], rest);
    EditTwo(s, e, f);
  }

  lemma EditShape(s: Settings, w: Wishes)
    ensures EditedAll(s, Shape(w)) == s.(def := s.def.(
      document := w.document, where := w.where, whereSet := true,
        projections := s.def.projections + [w.field1, w.field2],
      groupBy := s.def.groupBy + [w.group1, w.group2], having := w.having, lock := (w.mode, w.contention)))
  {
    hide EditedAll;
    var s1 := s.(def := s.def.(document := w.document, where := w.where, whereSet := true));
    var s2 := s1.(def := s1.def.(projections := s.def.projections + [w.field1, w.field2]));
    var s3 := s2.(def := s2.def.(groupBy := s.def.groupBy + [w.group1, w.group2]));
    var s4 := s3.(def := s3.def.(having := w.having, lock := (w.mode, w.contention)));
    var last := [SetHaving(w.having), SetLockMode(w.mode, w.contention)];
    EditNext(s3, SetHaving(w.having), SetLockMode(w.mode, w.contention), [], s4);
    assert s2.def.groupBy + [w.group1] + [w.group2] == s3.def.groupBy;
    EditNext(s2, AddGroupBy(w.group1), AddGroupBy(w.group2), last, s3);
    assert s1.def.projections + [w.field1] + [w.field2] == s2.def.projections;
    EditNext(s1, AddProj(w.field1), AddProj(w.field2), [AddGroupBy(w.group1), AddGroupBy(w.group2)] + last, s2);
    EditNext(s, SetProj(w.document), SetWhere(w.where),
      [AddProj(w.field1), AddProj(w.field2)] + ([AddGroupBy(w.group1), AddGroupBy(w.group2)] + last), s1);
  }

  lemma EditContents(s: Settings, w: Wishes)
    ensures EditedAll(s, Contents(w)) == s.(def := s.def.(
      order := s.def.order + [w.key1, w.key2], updates := s.def.updates + [w.update1, w.update2],
      values := s.def.values[w.cell1.name := w.cell1.value][w.cell2.name := w.cell2.value]))
  {
    hide EditedAll;
    var s1 := s.(def := s.def.(order := s.def.order + [w.key1, w.key2]));
    var s2 := s1.(def := s1.def.(updates := s.def.updates + [w.update1, w.update2]));
    var s3 := s2.(def := s2.def.(
      values := s.def.values[w.cell1.name := w.cell1.value][w.cell2.name := w.cell2.value]));
    var last := [AddSet(w.cell1.name, w.cell1.value), AddSet(w.cell2.name, w.cell2.value)];
    EditNext(s2, AddSet(w.cell1.name, w.cell1.value), AddSet(w.cell2.name, w.cell2.value), [], s3);
    assert s1.def.updates + [w.update1] + [w.update2] == s2.def.updates;
    EditNext(s1, AddOperation(w.update1), AddOperation(w.update2), last, s2);
    assert s.def.order + [w.key1] + [w.key2] == s1.def.order;
    EditNext(s, AddSort(w.key1), AddSort(w.key2), [AddOperation(w.update1), AddOperation(w.update2)] + last, s1);
  }

  lemma EditAmounts(s: Settings, w: Wishes)
    ensures EditedAll(s, Amounts(w)) == s.(limit := Some(w.rows), offset := Some(w.skip),
      params := s.params[w.param1.name := w.param1.value][w.param2.name := w.param2.value])
  {
    hide EditedAll;
    var s1 := s.(limit := Some(w.rows), offset := Some(w.skip));
    var s2 := s1.(params := s.params[w.param1.name := w.param1.value][w.param2.name := w.param2.value]);
    var last := [AddParam(w.param1.name, w.param1.value), AddParam(w.param2.name, w.param2.value)];
    EditNext(s1, AddParam(w.param1.name, w.param1.value), AddParam(w.param2.name, w.param2.value), [], s2);
    EditNext(s, SetOffset(w.skip), SetLimit(w.rows), last, s1);
  }

  // ----- clearing -----

  const CLEARS: seq<Edit> := [ClearProj, ClearGroupBy] + ([ClearHaving, ClearSort] +
    ([ClearLockMode, ClearOperations] + ([ClearSets, ClearLimit] + [ClearOffset, ClearParams])))

  /** What is cleared does not reach the server, whatever it was; only criteria and the projection document stay. */
  lemma ClearsReach(s: Settings)
    ensures EditedAll(s, CLEARS) == Settings(
      Bare(s.def.kind, s.def.target).(where := s.def.where, whereSet := s.def.whereSet, document := s.def.document),
      None, None, map[])
  {
    hide EditedAll, Edited;
    var s1 := s.(def := s.def.(projections := [], groupBy := []));
    var s2 := s1.(def := s1.def.(having := "", order := []));
    var s3 := s2.(def := s2.def.(lock := (0, 0), updates := []));
    var s4 := s3.(def := s3.def.(values := map[]), limit := None);
    var last: seq<Edit> := [ClearOffset, ClearParams];
    var fourth := [ClearSets, ClearLimit] + last;
    var third := [ClearLockMode, ClearOperations] + fourth;
    ClearAmounts(s4);
    EditNext(s4, ClearOffset, ClearParams, [], s4.(offset := None, params := map[]));
    ClearSetsAndLimit(s3);
    EditNext(s3, ClearSets, ClearLimit, last, s4);
    ClearLockAndUpdates(s2);
    EditNext(s2, ClearLockMode, ClearOperations, fourth, s3);
    ClearHavingAndOrder(s1);
    EditNext(s1, ClearHaving, ClearSort, third, s2);
    ClearLists(s);
    EditNext(s, ClearProj, ClearGroupBy, [ClearHaving, ClearSort] + third, s1);
  }

  lemma ClearLists(s: Settings)
    ensures Edited(Edited(s, ClearProj), ClearGroupBy) == s.(def := s.def.(projections := [], groupBy := []))
  {}

  lemma ClearHavingAndOrder(s: Settings)
    ensures Edited(Edited(s, ClearHaving), ClearSort) == s.(def := s.def.(having := "", order := []))
  {}

  lemma ClearLockAndUpdates(s: Settings)
    ensures Edited(Edited(s, ClearLockMode), ClearOperations) == s.(def := s.def.(lock := (0, 0), updates := []))
  {}

  lemma ClearSetsAndLimit(s: Settings)
    ensures Edited(Edited(s, ClearSets), ClearLimit) == s.(def := s.def.(values := map[]), limit := None)
  {}

  lemma ClearAmounts(s: Settings)
    ensures Edited(Edited(s, ClearOffset), ClearParams) == s.(offset := None, params := map[])
  {}

  // ----- which edits outdate a statement -----

  predicate TakesBack(e: Edit) {
    e.ClearSort? || e.ClearHaving? || e.ClearGroupBy? || e.ClearProj? || e.ClearOperations?
  }

  /** An edit leads back to direct execution unless it is about limits or parameters, or clears what is clear. */
  lemma EditRestarts(s: Settings, e: Edit, state: PrepareState)
    ensures StateAfter(s, e, state).PsExecute? <==>
      state.PsExecute? ||
      !(TouchesLimit(e) || e.AddParam? || e.ClearParams? || (TakesBack(e) && Edited(s, e) == s))
  {}

  // ----- refusals -----

  predicate Held(w: World, id: Option<nat>) {
    exists i :: 0 <= i < |w.views| && w.views[i].Some? && w.views[i].value.id == id
  }

  /** Once it is known that there are no prepared statements, no operation gets an id any more. */
  lemma UnsupportedStays(w: World, e: Event)
    requires !w.registry.supported
    ensures !After(w, e).registry.supported
    ensures var views := After(w, e).views;
      forall k :: 0 <= k < |views| && views[k].Some? && views[k].value.id.Some? ==> Held(w, views[k].value.id)
  {
    hide Edited, StateAfter, LimitOf, Direct;
    if e.Execute? && Exists(w.views, e.k) {
      UnsupportedHere(w.registry, w.views[e.k].value, Alone(w.views, e.k), e.reaction);
    }
  }

  lemma UnsupportedHere(r: Registry, v: View, alone: bool, reaction: Reaction)
    requires !r.supported
    ensures var (registry, next, _) := Executed(r, v, alone, reaction);
      !registry.supported && (next.id == v.id || next.id == None)
  {
    hide LimitOf, Direct, RunPrepared, NextId, StatementFor, Asked;
  }

  /** A refusal that reveals this is remembered. */
  lemma UnsupportedSeen(r: Registry, v: View, alone: bool, reaction: Reaction)
    requires reaction.Refuses? && reaction.unsupported && Commands(r, v, alone, reaction) == 2
    ensures !Executed(r, v, alone, reaction).0.supported
  {
    hide LimitOf, Direct, RunPrepared, Created;
  }

  // ----- ids -----

  /** The next id is the least one to be cleaned up, or one more than the greatest one in use, or one. */
  lemma NextMeans(val: nat, live: set<nat>, cleanup: set<nat>)
    requires IsNext(val, live, cleanup) && RoomForIds(live)
    ensures cleanup != {} ==> val in cleanup && forall i :: i in cleanup ==> val <= i
    ensures cleanup == {} && live != {} ==> val - 1 in live && forall i :: i in live ==> i < val
    ensures cleanup == {} && live == {} ==> val == 1
  {
    if cleanup == {} && live != {} {
      var top: nat :| IsHighest(top, live) && val == (top + 1) % ID_MODULUS;
      assert val == top + 1;
    }
  }
}
