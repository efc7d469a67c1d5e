/**
  What operations of the MySQL connector are, what becomes of them when they are edited, and what an
  execution does to statement ids and to the server, as functions (op_impl.h, session.h).

  The server is a map from statement ids to what was prepared under them. Clauses are strings that
  the server understands; parsing them is not part of the model.
 */
module PreparedSpec {
  import opened Wrappers

  /** Statement ids are of type uint32_t. */
  const ID_MODULUS: nat := 0x1_0000_0000

  /** The greatest row_count_t, sent as the row count when only an offset was set. */
  const ROW_COUNT_MAX: nat := 0xFFFF_FFFF_FFFF_FFFF

  // ----- what is executed -----

  datatype Kind = Find | Remove | Modify | Select | Update | Delete

  datatype SortKey = SortKey(expr: string, ascending: Option<bool>)

  datatype FieldOp = FieldOp(op: nat, field: string, value: Option<string>)

  /** Everything that defines an operation apart from its limits and the values bound to parameters. */
  datatype Definition = Definition(
    kind: Kind, target: string, where: string, whereSet: bool, projections: seq<string>, document: string,
    groupBy: seq<string>, having: string, order: seq<SortKey>, lock: (nat, nat),
    updates: seq<FieldOp>, values: map<string, string>)

  datatype Settings = Settings(def: Definition, limit: Option<nat>, offset: Option<nat>, params: map<string, string>)

  type Limit = (nat, nat) // row count and offset

  function LimitOf(s: Settings): Option<Limit> {
    if s.limit.Some? || s.offset.Some? then
      Some((if s.limit.Some? then s.limit.value else ROW_COUNT_MAX, if s.offset.Some? then s.offset.value else 0))
    else None
  }

  /** A command as the server gets to run it. */
  datatype Query = Query(def: Definition, limit: Option<Limit>, params: map<string, string>)

  function Asked(s: Settings): Query {
    Query(s.def, LimitOf(s), s.params)
  }

  /** A statement as it was prepared on the server, with or without a limit clause. */
  datatype Statement = Statement(def: Definition, limited: bool)

  function StatementFor(s: Settings): Statement {
    Statement(s.def, LimitOf(s).Some?)
  }

  /**
    What came of one execution: nothing was sent; the client threw; the server ran a query, without or
    with an error; or there was an error and the server ran nothing.
   */
  datatype Effect = Nothing | Threw | Ran(query: Query) | Erred(query: Query) | Failed

  /**
    What a command meets: the session cannot make room for it; or the server accepts the statement id
    that it may carry, or refuses it; and the query itself, once it runs, may end with an error.
   */
  datatype Reaction = Accepts(errs: bool) | Refuses(drops: bool, unsupported: bool, errs: bool) | Blocked

  function Answer(q: Query, reaction: Reaction): Effect {
    if !reaction.Blocked? && reaction.errs then Erred(q) else Ran(q)
  }

  /** What executing directly, without prepared statements, does. */
  function Direct(q: Query, reaction: Reaction): Effect {
    if reaction.Blocked? then Threw
    else if q.def.kind.Modify? && q.def.updates == [] then Nothing
    else if q.def.whereSet && q.def.where == "" then Threw
    else Answer(q, reaction)
  }

  predicate Sendable(def: Definition) {
    !(def.kind.Modify? && def.updates == []) && !(def.whereSet && def.where == "")
  }

  /** What the server does when told to execute the statement prepared under an id. */
  function RunPrepared(server: map<nat, Statement>, id: nat, limit: Option<Limit>,
                       params: map<string, string>, reaction: Reaction): Effect
  {
    if id in server && server[id].limited == limit.Some? then Answer(Query(server[id].def, limit, params), reaction)
    else Failed
  }

  // ----- edits -----

  datatype PrepareState = PsExecute | PsPrepareExecute | PsExecutePrepared

  function Advanced(state: PrepareState): PrepareState {
    if state.PsExecute? then PsPrepareExecute else PsExecutePrepared
  }

  datatype Edit =
    | AddSort(key: SortKey) | ClearSort
    | SetHaving(having: string) | ClearHaving
    | AddGroupBy(expr: string) | ClearGroupBy
    | SetProj(document: string) | AddProj(field: string) | ClearProj
    | SetWhere(where: string)
    | SetLockMode(mode: nat, contention: nat) | ClearLockMode
    | AddOperation(op: FieldOp) | ClearOperations
    | AddSet(column: string, cell: string) | ClearSets
    | SetLimit(rows: nat) | ClearLimit
    | SetOffset(skip: nat) | ClearOffset
    | AddParam(name: string, value: string) | ClearParams

  /** What an edit makes of the definition, the limits and the parameters. */
  function Edited(s: Settings, e: Edit): Settings {
    match e
    case AddSort(key) => s.(def := s.def.(order := s.def.order + [key]))
    case ClearSort => s.(def := s.def.(order := []))
    case SetHaving(having) => s.(def := s.def.(having := having))
    case ClearHaving => s.(def := s.def.(having := ""))
    case AddGroupBy(expr) => s.(def := s.def.(groupBy := s.def.groupBy + [expr]))
    case ClearGroupBy => s.(def := s.def.(groupBy := []))
    case SetProj(document) => s.(def := s.def.(document := document))
    case AddProj(field) => s.(def := s.def.(projections := s.def.projections + [field]))
    case ClearProj => s.(def := s.def.(projections := []))
    case SetWhere(where) => s.(def := s.def.(where := where, whereSet := true))
    case SetLockMode(mode, contention) => s.(def := s.def.(lock := (mode, contention)))
    case ClearLockMode => s.(def := s.def.(lock := (0, 0)))
    case AddOperation(op) => s.(def := s.def.(updates := s.def.updates + [op]))
    case ClearOperations => s.(def := s.def.(updates := []))
    case AddSet(column, cell) => s.(def := s.def.(values := s.def.values[column := cell]))
    case ClearSets => s.(def := s.def.(values := map[]))
    case SetLimit(rows) => s.(limit := Some(rows))
    case ClearLimit => s.(limit := None)
    case SetOffset(skip) => s.(offset := Some(skip))
    case ClearOffset => s.(offset := None)
    case AddParam(name, value) => s.(params := s.params[name := value])
    case ClearParams => s.(params := map[])
  }

  /** How far preparing has got after an edit. */
  function StateAfter(s: Settings, e: Edit, state: PrepareState): PrepareState {
    match e
    case ClearSort => if s.def.order != [] then PsExecute else state
    case ClearHaving => if s.def.having != "" then PsExecute else state
    case ClearGroupBy => if s.def.groupBy != [] then PsExecute else state
    case ClearProj => if s.def.projections != [] then PsExecute else state
    case ClearOperations => if s.def.updates != [] then PsExecute else state
    case SetLimit(_) => if LimitOf(s).None? && state.PsExecutePrepared? then PsPrepareExecute else state
    case SetOffset(_) => if LimitOf(s).None? && state.PsExecutePrepared? then PsPrepareExecute else state
    case ClearLimit => if s.limit.Some? && s.offset.None? && state.PsExecutePrepared? then PsPrepareExecute else state
    case ClearOffset => if s.offset.Some? && s.limit.None? && state.PsExecutePrepared? then PsPrepareExecute else state
    case AddParam(_, _) => state
    case ClearParams => state
    case _ => PsExecute
  }

  /** A statement outlives only edits that leave it what it is. */
  lemma EditKeepsStatement(s: Settings, e: Edit, state: PrepareState)
    requires StateAfter(s, e, state).PsExecutePrepared?
    ensures state.PsExecutePrepared? && Edited(s, e).def == s.def && StatementFor(Edited(s, e)) == StatementFor(s)
  {}

  /** Edits of limits and parameters outdate a statement exactly when it would be prepared differently. */
  lemma EditsOutdate(s: Settings, e: Edit)
    requires TouchesLimit(e) || e.AddParam? || e.ClearParams?
    ensures StateAfter(s, e, PsExecutePrepared).PsExecutePrepared? <==> StatementFor(Edited(s, e)) == StatementFor(s)
  {}

  predicate TouchesLimit(e: Edit) {
    e.SetLimit? || e.ClearLimit? || e.SetOffset? || e.ClearOffset?
  }

  // ----- sets of ids -----

  predicate IsLowest(i: nat, s: set<nat>) {
    i in s && forall j :: j in s ==> i <= j
  }

  predicate IsHighest(i: nat, s: set<nat>) {
    i in s && forall j :: j in s ==> j <= i
  }

  lemma LowestExists(s: set<nat>) returns (lowest: nat)
    requires s != {}
    ensures IsLowest(lowest, s)
  {
    var some :| some in s;
    if s == {some} {
      assert forall j :: j in s ==> j == some;
      return some;
    }
    lowest := LowestExists(s - {some});
    assert forall j :: j in s ==> j == some || j in s - {some};
    if some < lowest {
      lowest := some;
    }
  }

  lemma HighestExists(s: set<nat>) returns (highest: nat)
    requires s != {}
    ensures IsHighest(highest, s)
  {
    var some :| some in s;
    if s == {some} {
      assert forall j :: j in s ==> j == some;
      return some;
    }
    highest := HighestExists(s - {some});
    assert forall j :: j in s ==> j == some || j in s - {some};
    if highest < some {
      highest := some;
    }
  }

  /** The id the session allocates: the lowest of those to be cleaned up, or one more than the highest live one. */
  ghost predicate IsNext(val: nat, live: set<nat>, cleanup: set<nat>) {
    if cleanup != {} then IsLowest(val, cleanup)
    else if live == {} then val == 1
    else exists top: nat :: IsHighest(top, live) && val == (top + 1) % ID_MODULUS
  }

  /** The highest id there is belongs to nobody. */
  predicate RoomForIds(live: set<nat>) {
    forall i :: i in live ==> i + 1 < ID_MODULUS
  }

  /** A new id is never live already and never zero, as long as there is room. */
  lemma NextIsNew(val: nat, live: set<nat>, cleanup: set<nat>)
    requires IsNext(val, live, cleanup) && RoomForIds(live) && live !! cleanup && 0 !in cleanup
    ensures val !in live && val != 0
  {
    if cleanup == {} && live != {} {
      var top: nat :| IsHighest(top, live) && val == (top + 1) % ID_MODULUS;
      assert val == top + 1;
    }
  }

  /** With nothing to recycle, the allocator hands out the id that means "none" exactly when there is no room. */
  lemma NextWraps(val: nat, live: set<nat>)
    requires IsNext(val, live, {}) && live != {} && forall i :: i in live ==> i < ID_MODULUS
    ensures val == 0 <==> !RoomForIds(live)
    ensures val == 0 <==> 0xFFFF_FFFF in live
  {
    var top: nat :| IsHighest(top, live) && val == (top + 1) % ID_MODULUS;
    assert top < ID_MODULUS;
    if RoomForIds(live) {
      assert val == top + 1;
    }
  }

  /** The bookkeeping of the ids. */
  ghost predicate Tally(live: set<nat>, cleanup: set<nat>, maxPstmt: nat, highest: nat) {
    && live !! cleanup && 0 !in live && 0 !in cleanup && |live| <= maxPstmt
    && (forall i :: i in live || i in cleanup ==> i <= highest)
  }

  lemma Released(id: nat, live: set<nat>, cleanup: set<nat>, maxPstmt: nat, highest: nat)
    requires Tally(live, cleanup, maxPstmt, highest) && id in live
    ensures Tally(live - {id}, cleanup + {id}, maxPstmt, highest)
    ensures Tally(live - {id}, cleanup, |live - {id}|, highest) && |live - {id}| < maxPstmt
  {
    assert |live - {id}| == |live| - 1;
  }

  lemma TallyMeans(live: set<nat>, cleanup: set<nat>, maxPstmt: nat, highest: nat)
    requires Tally(live, cleanup, maxPstmt, highest)
    ensures 0 !in live && live !! cleanup
  {}

  function Max(a: nat, b: nat): nat { if a < b then b else a }

  lemma Allocated(val: nat, live: set<nat>, cleanup: set<nat>, maxPstmt: nat, highest: nat)
    requires Tally(live, cleanup, maxPstmt, highest) && |live| < maxPstmt && highest + 1 < ID_MODULUS
    requires IsNext(val, live, cleanup)
    ensures val != 0 && val !in live && val <= highest + 1
    ensures Tally(live + {val}, {}, maxPstmt, Max(highest, val))
  {
    NextIsNew(val, live, cleanup);
    if cleanup == {} && live != {} {
      var top: nat :| IsHighest(top, live) && val == (top + 1) % ID_MODULUS;
      assert val == top + 1;
    }
  }

  // ----- ids and the server -----

  lemma NextExists(live: set<nat>, cleanup: set<nat>) returns (val: nat)
    ensures IsNext(val, live, cleanup)
  {
    if cleanup != {} {
      val := LowestExists(cleanup);
    } else if live == {} {
      val := 1;
    } else {
      var top := HighestExists(live);
      val := (top + 1) % ID_MODULUS;
    }
  }

  ghost function NextId(live: set<nat>, cleanup: set<nat>): (next: nat)
    ensures IsNext(next, live, cleanup)
  {
    assert exists val: nat :: IsNext(val, live, cleanup) by {
      var val := NextExists(live, cleanup);
    }
    var next: nat :| IsNext(next, live, cleanup);
    next
  }

  lemma NextIsLeast(val: nat, live: set<nat>, cleanup: set<nat>)
    requires IsLowest(val, cleanup)
    ensures IsNext(val, live, cleanup)
  {}

  lemma NextIsFirst()
    ensures IsNext(1, {}, {})
  {}

  lemma NextIsAbove(top: nat, live: set<nat>)
    requires IsHighest(top, live)
    ensures IsNext((top + 1) % ID_MODULUS, live, {})
  {}

  lemma NextIsUnique(val: nat, live: set<nat>, cleanup: set<nat>)
    requires IsNext(val, live, cleanup)
    ensures val == NextId(live, cleanup)
  {}

  /** What a session knows of ids, and what the server has prepared under them. */
  datatype Registry = Registry(
    live: set<nat>, cleanup: set<nat>, maxPstmt: nat, supported: bool, server: map<nat, Statement>)

  /** A new id, if the session has one to give; the server forgets the ids that wait to be cleaned up. */
  ghost function Created(r: Registry): (Registry, Option<nat>) {
    if !r.supported || |r.live| >= r.maxPstmt then (r, None)
    else
      var val := NextId(r.live, r.cleanup);
      (Registry(r.live + {val}, {}, r.maxPstmt, true, r.server - (r.cleanup - {val})),
       if val == 0 then None else Some(val))
  }

  lemma CreatedNone(r: Registry)
    requires !r.supported || |r.live| >= r.maxPstmt
    ensures Created(r) == (r, None)
  {}

  lemma CreatedIs(r: Registry, val: nat)
    requires r.supported && |r.live| < r.maxPstmt && IsNext(val, r.live, r.cleanup)
    ensures Created(r) ==
      (Registry(r.live + {val}, {}, r.maxPstmt, true, r.server - (r.cleanup - {val})),
       if val == 0 then None else Some(val))
  {
    hide IsNext;
    NextIsUnique(val, r.live, r.cleanup);
  }

  /** A holder lets go of an id, alone or not. */
  function LetGo(r: Registry, id: Option<nat>, alone: bool): Registry {
    if id.Some? && alone then r.(live := r.live - {id.value}, cleanup := r.cleanup + {id.value}) else r
  }

  /** A holder gives an id up because of an error. */
  function GivenUp(r: Registry, id: Option<nat>, alone: bool): Registry {
    if id.Some? && alone then r.(live := r.live - {id.value}, maxPstmt := |r.live - {id.value}|) else r
  }

  function Refused(r: Registry, reaction: Reaction, id: nat, preparing: bool): Registry
    requires reaction.Refuses?
  {
    r.(server := if preparing && reaction.drops then r.server - {id} else r.server,
       supported := r.supported && !reaction.unsupported)
  }

  // ----- executions -----

  /**
    What is left of the last execution: nothing; that it was initialised, so that the next one sends
    nothing; or also its reply with the error, which the next one throws again.
   */
  datatype Left = Clear | Initialised | ErrorKept

  function LeftBy(effect: Effect): Left {
    match effect
    case Nothing => Clear
    case Threw => Initialised
    case Ran(_) => Clear
    case Erred(_) => ErrorKept
    case Failed => ErrorKept
  }

  /** An operation, with the id of its statement. */
  datatype View = View(settings: Settings, state: PrepareState, id: Option<nat>, left: Left)

  predicate Runs(v: View) {
    v.state.PsExecutePrepared? && v.id.Some?
  }

  /** use_prepared_statement: the next state, and the id for it. */
  ghost function Used(r: Registry, v: View, alone: bool): (Registry, View) {
    match v.state
    case PsExecute => (LetGo(r, v.id, alone), v.(state := PsPrepareExecute, id := None))
    case PsPrepareExecute =>
      if v.id.Some? && alone then (r, v.(state := PsExecutePrepared))
      else
        var (created, id) := Created(r);
        (created, v.(state := PsExecutePrepared, id := id))
    case PsExecutePrepared => (r, v)
  }

  /** What comes of sending a command. */
  datatype Sending = Sending(registry: Registry, view: View, effect: Effect, refused: bool)

  /** The command itself, which prepares a statement if there is an id. */
  function Commanded(r: Registry, v: View, reaction: Reaction): Sending {
    if !Sendable(v.settings.def) then Sending(r, v, Direct(Asked(v.settings), reaction), false)
    else if v.id.None? then Sending(r, v, Answer(Asked(v.settings), reaction), false)
    else if reaction.Refuses? then Sending(Refused(r, reaction, v.id.value, true), v, Failed, true)
    else
      var prepared := r.(server := r.server[v.id.value := StatementFor(v.settings)]);
      Sending(prepared, v, Answer(Asked(v.settings), reaction), false)
  }

  ghost function Sent(r: Registry, v: View, alone: bool, reaction: Reaction): Sending {
    if reaction.Blocked? then Sending(r, v, Threw, false)
    else if Runs(v) then
      if reaction.Refuses? then Sending(Refused(r, reaction, v.id.value, false), v, Failed, true)
      else Sending(r, v, RunPrepared(r.server, v.id.value, LimitOf(v.settings), v.settings.params, reaction), false)
    else
      var (used, next) := Used(r, v, alone);
      Commanded(used, next, reaction)
  }

  /**
    A whole execution: one command, or a second one after a refusal; or none, if there is something left
    of the last one.
   */
  ghost function Executed(r: Registry, v: View, alone: bool, reaction: Reaction): (Registry, View, Effect) {
    match v.left
    case Initialised => (r, v.(left := Clear), Nothing)
    case ErrorKept => (r, v, Failed)
    case Clear =>
      var sent := Sent(r, v.(left := Initialised), alone, reaction);
      if !sent.refused then (sent.registry, sent.view.(left := LeftBy(sent.effect)), sent.effect)
      else
        var effect := Direct(Asked(v.settings), reaction);
        (GivenUp(sent.registry, sent.view.id, alone || !Runs(v)),
          v.(state := PsPrepareExecute, id := None, left := LeftBy(effect)), effect)
  }

  /**
    An execution that is not what it seems: of an operation that has something left of its last one,
    unless it would send nothing anyway; or by a prepared statement of an operation that cannot be sent.
   */
  predicate Odd(v: View, reaction: Reaction) {
    match v.left
    case Clear => Runs(v) && reaction.Accepts? && !Sendable(v.settings.def)
    case Initialised => Direct(Asked(v.settings), reaction) != Nothing
    case ErrorKept => true
  }

  /** Only of an odd execution comes something else than of executing directly. */
  lemma OddIsNotDirect(r: Registry, v: View, alone: bool, reaction: Reaction)
    requires Runs(v) && !reaction.Blocked? ==>
      var prepared := RunPrepared(r.server, v.id.value, LimitOf(v.settings), v.settings.params, reaction);
      prepared == Direct(Asked(v.settings), reaction) <==> Sendable(v.settings.def)
    ensures Executed(r, v, alone, reaction).2 == Direct(Asked(v.settings), reaction) <==> !Odd(v, reaction)
  {
    hide LimitOf, RunPrepared, Created;
  }

  /** So many commands an execution sends. */
  ghost function Commands(r: Registry, v: View, alone: bool, reaction: Reaction): nat {
    if !v.left.Clear? || reaction.Blocked? then 0
    else if Sent(r, v.(left := Initialised), alone, reaction).refused then 2
    else 1
  }

  // ----- executions under way -----

  /** The reply to a command: what came of it, or that its statement id was refused; and whether it is there yet. */
  datatype Reply = Reply(effect: Effect, refused: bool, arrived: bool)

  /** What a look at a reply tells; an error is told again and again. */
  function Told(reply: Reply): Effect {
    if !reply.arrived then reply.effect else if LeftBy(reply.effect).ErrorKept? then Failed else Nothing
  }

  /** An operation whose statement id was refused is as it was before its first execution. */
  function Again(v: View): View {
    v.(state := PsExecute, id := None, left := Clear)
  }

  /** What an execution comes to that is under way. */
  ghost function Completed(r: Registry, v: View, alone: bool, reply: Option<Reply>, reaction: Reaction):
      (Registry, View, Effect)
  {
    if reply.None? then Executed(r, v, alone, reaction)
    else if reply.value.refused then Executed(GivenUp(r, v.id, alone), Again(v), false, reaction)
    else (r, v.(left := LeftBy(reply.value.effect)), Told(reply.value))
  }

  /** So many commands it is still to send. */
  ghost function CommandsLeft(r: Registry, v: View, alone: bool, reply: Option<Reply>, reaction: Reaction): nat {
    if reply.None? then Commands(r, v, alone, reaction)
    else if reply.value.refused then Commands(GivenUp(r, v.id, alone), Again(v), false, reaction)
    else 0
  }

  lemma CompletedWhenBlocked(r: Registry, v: View, alone: bool)
    ensures Completed(r, v.(left := Clear), alone, None, Blocked) == (r, v.(left := Initialised), Threw)
    ensures CommandsLeft(r, v, alone, None, Blocked) == 0 == CommandsLeft(r, v.(left := Clear), alone, None, Blocked)
  {}

  lemma CompletedWhenNothing(r: Registry, v: View, alone: bool, reaction: Reaction)
    requires v.left.Initialised?
    ensures Completed(r, v, alone, None, reaction) == (r, v.(left := Clear), Nothing)
    ensures CommandsLeft(r, v, alone, None, reaction) == 0
  {}

  lemma CompletedWhenTold(r: Registry, v: View, alone: bool, reply: Reply, reaction: Reaction)
    requires !reply.refused && !reply.effect.Threw?
    ensures Completed(r, v, alone, Some(reply), reaction) == (r, v.(left := LeftBy(Told(reply))), Told(reply))
    ensures CommandsLeft(r, v, alone, Some(reply), reaction) == 0
  {}

  lemma CompletedWhenRefused(r: Registry, v: View, alone: bool, reply: Reply, reaction: Reaction)
    requires reply.refused
    ensures Completed(r, v, alone, Some(reply), reaction) ==
      Completed(GivenUp(r, v.id, alone), Again(v), false, None, reaction)
    ensures CommandsLeft(r, v, alone, Some(reply), reaction) ==
      CommandsLeft(GivenUp(r, v.id, alone), Again(v), false, None, reaction)
  {}

  /** Sending a command as part of an execution does not change what it comes to. */
  lemma CompletedWhenSent(r: Registry, v: View, alone: bool, reaction: Reaction, sent: Sending, reply: Option<Reply>,
                          next: View, aloneNext: bool)
    requires v.left.Initialised? && !reaction.Blocked? && sent == Sent(r, v, alone, reaction)
    requires sent.refused ==> aloneNext == (alone || !Runs(v))
    requires reply == if sent.effect.Threw? || sent.effect.Nothing? then None
      else Some(Reply(sent.effect, sent.refused, false))
    requires next == sent.view.(left := next.left) && (reply.None? ==> next.left.Initialised?)
    ensures sent.effect.Threw? ==>
      Completed(r, v.(left := Clear), alone, None, reaction) == (sent.registry, next, Threw)
    ensures !sent.effect.Threw? ==>
      Completed(r, v.(left := Clear), alone, None, reaction) ==
      Completed(sent.registry, next, aloneNext, reply, reaction)
    ensures CommandsLeft(r, v.(left := Clear), alone, None, reaction) ==
      1 + CommandsLeft(sent.registry, next, aloneNext, reply, reaction)
  {
    hide LimitOf, Created, GivenUp, StatementFor, RunPrepared;
  }

  /** No execution sends more than two commands. */
  lemma AtMostTwo(r: Registry, v: View, alone: bool, reply: Option<Reply>, reaction: Reaction)
    ensures CommandsLeft(r, v, alone, reply, reaction) <= 2
  {}
}
