/**
  Operations that turn into prepared statements when they are executed repeatedly, and the session
  that hands out statement ids, as they are in memory (op_impl.h, session.h).
 */
module PreparedStatements {
  import opened Wrappers
  import opened PreparedSpec

  method Lowest(s: set<nat>) returns (lowest: nat)
    requires s != {}
    ensures IsLowest(lowest, s)
  {
    ghost var witnessed := LowestExists(s);
    lowest :| IsLowest(lowest, s);
  }

  method Highest(s: set<nat>) returns (highest: nat)
    requires s != {}
    ensures IsHighest(highest, s)
  {
    ghost var witnessed := HighestExists(s);
    highest :| IsHighest(highest, s);
  }

  // ----- shared_ptr<uint32_t> -----

  class SharedId {
    const id: nat
    var uses: nat

    constructor (id: nat)
      ensures this.id == id && uses == 1
    {
      this.id, uses := id, 1;
    }
  }

  /** Who holds which shared id. */
  type Holding = map<Op, SharedId>

  ghost function Holders(held: Holding, cell: SharedId): set<Op> {
    set o | o in held && held[o] == cell
  }

  ghost function Ids(held: Holding): set<nat> {
    set o | o in held :: held[o].id
  }

  ghost predicate OneCellPerId(held: Holding) {
    forall o, p :: o in held && p in held && held[o].id == held[p].id ==> held[o] == held[p]
  }

  lemma HoldersWithout(held: Holding, o: Op, cell: SharedId)
    requires o in held
    ensures Holders(held - {o}, cell) == Holders(held, cell) - {o}
    ensures held[o] == cell ==> |Holders(held - {o}, cell)| == |Holders(held, cell)| - 1
    ensures held[o] != cell ==> Holders(held - {o}, cell) == Holders(held, cell)
  {
    assert Holders(held - {o}, cell) == Holders(held, cell) - {o};
    if held[o] == cell {
      assert o in Holders(held, cell);
    }
  }

  lemma OneElement<T>(s: set<T>, x: T)
    requires x in s && |s| == 1
    ensures forall y :: y in s ==> y == x
  {
    assert |s - {x}| == 0;
    assert forall y :: y in s ==> y == x || y in s - {x};
  }

  lemma SomeoneHolds(held: Holding, o: Op)
    requires o in held
    ensures |Holders(held, held[o])| >= 1 && held[o].id in Ids(held)
  {
    assert o in Holders(held, held[o]);
  }

  lemma NobodyHolds(held: Holding, cell: SharedId)
    requires cell !in held.Values
    ensures Holders(held, cell) == {}
  {}

  lemma HoldersWith(held: Holding, o: Op, cell: SharedId, other: SharedId)
    requires o !in held
    ensures Holders(held[o := cell], other) == Holders(held, other) + if other == cell then {o} else {}
    ensures |Holders(held[o := cell], other)| == |Holders(held, other)| + if other == cell then 1 else 0
  {
    assert Holders(held[o := cell], other) == Holders(held, other) + if other == cell then {o} else {};
    assert o !in Holders(held, other);
  }

  /** Letting go of an id ends it exactly when nobody else holds it. */
  lemma IdsWithout(held: Holding, o: Op)
    requires o in held && OneCellPerId(held)
    ensures OneCellPerId(held - {o})
    ensures Ids(held - {o}) == Ids(held) - if |Holders(held, held[o])| == 1 then {held[o].id} else {}
  {
    var rest, cell := held - {o}, held[o];
    HoldersWithout(held, o, cell);
    assert |Holders(held, cell)| == 1 <==> Holders(rest, cell) == {};
    if p :| p in Holders(rest, cell) {
      assert rest[p].id == cell.id;
      forall q | q in held
        ensures held[q].id in Ids(rest)
      {
        assert rest[if q == o then p else q].id == held[q].id;
      }
    } else {
      forall q | q in rest
        ensures rest[q].id != cell.id
      {
        assert rest[q] == cell ==> q in Holders(rest, cell);
      }
      forall q | q in held && held[q].id != cell.id
        ensures held[q].id in Ids(rest)
      {
        assert rest[q] == held[q];
      }
    }
  }

  lemma IdsWith(held: Holding, o: Op, cell: SharedId)
    requires o !in held && OneCellPerId(held) && (cell in held.Values || cell.id !in Ids(held))
    ensures OneCellPerId(held[o := cell]) && Ids(held[o := cell]) == Ids(held) + {cell.id}
  {
    var more := held[o := cell];
    forall p | p in held
      ensures held[p].id in Ids(more)
    {
      assert more[p] == held[p];
    }
    assert more[o] == cell;
  }

  // ----- Session_impl -----

  class Session {
    var live: set<nat>         // m_stmt_id
    var cleanup: set<nat>      // m_stmt_id_cleanup
    var maxPstmt: nat          // m_max_pstmt
    var supported: bool        // has_prepared_statements() is not known to be NO
    ghost var ops: set<Op>     // the operations of this session that exist
    ghost var held: Holding
    ghost var highest: nat     // no id above this was handed out
    var server: map<nat, Statement> // what the server has prepared

    constructor ()
      ensures Valid() && ops == {} && live == {} && cleanup == {} && server == map[] && supported && highest == 0
      ensures maxPstmt == 0xFFFF_FFFF_FFFF_FFFF
    {
      live, cleanup, maxPstmt, supported := {}, {}, 0xFFFF_FFFF_FFFF_FFFF, true;
      ops, held, server, highest := {}, map[], map[], 0;
    }

    ghost predicate Owned()
      reads this`ops, this`held, ops`stmt, held.Values`uses
    {
      && held.Keys <= ops && OneCellPerId(held)
      && (forall o :: o in ops ==> o.Holds(this, held))
      && (forall cell :: cell in held.Values ==> cell.uses == |Holders(held, cell)|)
    }

    ghost predicate Counted()
      reads this`live, this`cleanup, this`maxPstmt, this`held, this`highest
    {
      live == Ids(held) && Tally(live, cleanup, maxPstmt, highest)
    }

    /** Every operation but these that is set to run its prepared statement has it on the server as it is now. */
    ghost predicate Agreed(but: set<Op>)
      reads this`ops, this`server, ops`stmt, ops`state, ops`def, ops`hasLimit, ops`limit, ops`hasOffset, ops`offset,
        ops`params
    {
      AgreedOn(but, server)
    }

    ghost predicate AgreedOn(but: set<Op>, server: map<nat, Statement>)
      reads this`ops, ops`stmt, ops`state, ops`def, ops`hasLimit, ops`limit, ops`hasOffset, ops`offset, ops`params
    {
      forall o :: o in ops && o !in but ==> o.Prepared(server)
    }

    /** What the server does to ids that nobody but the exempted holds does not matter. */
    lemma AgreedStill(but: set<Op>, before: map<nat, Statement>, after: map<nat, Statement>)
      requires Owned() && AgreedOn(but, before)
      requires forall o :: o in held && o !in but && held[o].id in before ==>
        held[o].id in after && after[held[o].id] == before[held[o].id]
      ensures AgreedOn(but, after)
    {
      forall o | o in ops && o !in but
        ensures o.Prepared(after)
      {
        assert o.Holds(this, held);
        assert o.Prepared(before);
      }
    }

    /** Deallocating ids that nobody holds does not matter. */
    lemma AgreedWithout(but: set<Op>, before: map<nat, Statement>, gone: set<nat>)
      requires Owned() && AgreedOn(but, before) && Ids(held) !! gone
      ensures AgreedOn(but, before - gone)
    {
      AgreedStill(but, before, before - gone);
    }

    lemma AgreedBut(but: set<Op>)
      requires Agreed({})
      ensures Agreed(but)
    {}

    ghost predicate Valid()
      reads this, ops`stmt, ops`state, ops`def, ops`hasLimit, ops`limit, ops`hasOffset, ops`offset, ops`params,
        held.Values`uses
    {
      Owned() && Counted() && Agreed({})
    }

    ghost function Snapshot(): Registry
      reads this`live, this`cleanup, this`maxPstmt, this`supported, this`server
    {
      Registry(live, cleanup, maxPstmt, supported, server)
    }

    /** There is an id to give. */
    predicate CanPrepare()
      reads this`supported, this`live, this`maxPstmt
    {
      supported && |live| < maxPstmt
    }

    ghost predicate Rest(ops: set<Op>, maxPstmt: nat, supported: bool)
      reads this`ops, this`maxPstmt, this`supported
    {
      this.ops == ops && this.maxPstmt == maxPstmt && (supported ==> this.supported)
    }

    /** The live ids are exactly those held by existing operations. */
    lemma LiveIdsAreHeld(i: nat)
      requires Valid()
      ensures i in live <==> exists o :: o in ops && o.stmt != null && o.stmt.id == i
    {
      if i in live {
        var o :| o in held && held[o].id == i;
        assert o in ops && o.stmt == held[o];
      }
    }

    method CreateStmtId() returns (val: nat)
      modifies this`live, this`cleanup, this`supported, this`server, this`highest
      ensures !old(supported) || |old(live)| >= maxPstmt ==>
        val == 0 && live == old(live) && cleanup == old(cleanup) && server == old(server) &&
        supported == old(supported) && highest == old(highest)
      ensures old(supported) && |old(live)| < maxPstmt ==>
        IsNext(val, old(live), old(cleanup)) && live == old(live) + {val} && cleanup == {} && supported &&
        server == old(server) - (old(cleanup) - {val}) && highest == Max(old(highest), val)
      ensures (Snapshot(), if val == 0 then None else Some(val)) == Created(old(Snapshot()))
    {
      hide IsNext, Created;
      if !supported || |live| >= maxPstmt {
        CreatedNone(Snapshot());
        return 0;
      }
      if cleanup != {} {
        val := Lowest(cleanup);
        NextIsLeast(val, live, cleanup);
        cleanup := cleanup - {val};
        CleanUpStmtId();
      } else if live == {} {
        val := 1;
        NextIsFirst();
      } else {
        var top := Highest(live);
        val := (top + 1) % ID_MODULUS;
        NextIsAbove(top, live);
      }
      assert IsNext(val, old(live), old(cleanup));
      live := live + {val};
      highest := Max(highest, val);
      CreatedIs(old(Snapshot()), val);
    }

    /** Seen from the operations, the new id is new and no statement in use is touched. */
    method CreateFor(ghost but: set<Op>) returns (val: nat)
      requires Owned() && Counted() && Agreed(but) && highest + 1 < ID_MODULUS
      modifies this`live, this`cleanup, this`supported, this`server, this`highest
      ensures Owned() && Agreed(but) && val !in Ids(held) && highest <= old(highest) + 1
      ensures (val != 0 <==> old(CanPrepare())) && (old(supported) ==> supported)
      ensures (val == 0 ==> live == Ids(held)) && (val != 0 ==> live == Ids(held) + {val})
      ensures Tally(live, cleanup, maxPstmt, highest)
      ensures (Snapshot(), if val == 0 then None else Some(val)) == Created(old(Snapshot()))
    {
      hide Created, Ids, IsNext, Tally, AgreedOn, Owned;
      TallyMeans(live, cleanup, maxPstmt, highest);
      val := CreateStmtId();
      if old(supported) && |old(live)| < maxPstmt {
        AgreedWithout(but, old(server), old(cleanup) - {val});
        Allocated(val, old(live), old(cleanup), maxPstmt, old(highest));
      }
    }

    /** A refused command may cost the statement it was to prepare, or reveal that there are no prepared statements. */
    method Refuse(reaction: Reaction, id: nat, preparing: bool)
      requires reaction.Refuses?
      modifies this`server, this`supported
      ensures Snapshot() == Refused(old(Snapshot()), reaction, id, preparing)
    {
      if preparing && reaction.drops {
        server := server - {id};
      }
      if reaction.unsupported {
        supported := false;
      }
    }

    method ReleaseStmtId(id: nat)
      modifies this`live, this`cleanup
      ensures live == old(live) - {id} && cleanup == old(cleanup) + {id}
    {
      live := live - {id};
      cleanup := cleanup + {id};
    }

    method ErrorStmtId(id: nat)
      modifies this`live, this`maxPstmt
      ensures live == old(live) - {id} && maxPstmt == |live|
    {
      live := live - {id};
      maxPstmt := |live|;
    }

    /** Every id to be cleaned up is deallocated on the server. */
    method CleanUpStmtId()
      modifies this`cleanup, this`supported, this`server
      ensures cleanup == {} && server == old(server) - old(cleanup)
      ensures supported == (old(supported) || old(cleanup) != {})
    {
      if cleanup == {} {
        return;
      }
      supported := true;
      var rest := cleanup;
      while rest != {}
        invariant rest <= old(cleanup)
        invariant server == old(server) - (old(cleanup) - rest)
        invariant supported
        decreases rest
      {
        var id :| id in rest;
        server := server - {id};
        rest := rest - {id};
      }
      cleanup := {};
    }
  }

  // ----- Op_base and the clauses -----

  class Op {
    const session: Session
    var stmt: SharedId?
    var state: PrepareState
    var inited: bool
    var reply: Option<Reply>
    var def: Definition
    var hasLimit: bool
    var limit: nat
    var hasOffset: bool
    var offset: nat
    var params: map<string, string>

    function Current(): Settings
      reads this`def, this`hasLimit, this`limit, this`hasOffset, this`offset, this`params
    {
      Settings(def, if hasLimit then Some(limit) else None, if hasOffset then Some(offset) else None, params)
    }

    function GetLimit(): Option<Limit>
      reads this`def, this`hasLimit, this`limit, this`hasOffset, this`offset, this`params
    {
      LimitOf(Current())
    }

    function Id(): Option<nat>
      reads this`stmt
    {
      if stmt == null then None else Some(stmt.id)
    }

    function LeftOver(): Left
      reads this`inited, this`reply
    {
      if !inited then Clear else if reply.None? then Initialised else ErrorKept
    }

    ghost function Seen(): View
      reads this`stmt, this`state, this`inited, this`reply, this`def, this`hasLimit, this`limit, this`hasOffset,
        this`offset, this`params
    {
      View(Current(), state, Id(), LeftOver())
    }

    /** No execution is under way: if there is a reply, it is an error that was thrown. */
    predicate Settled()
      reads this`inited, this`reply
    {
      reply.Some? ==> inited && reply.value.arrived && !reply.value.refused && LeftBy(reply.value.effect).ErrorKept?
    }

    /** The next command may ask the session for an id. */
    predicate Allocates()
      reads this`inited, this`state
    {
      !inited && state.PsPrepareExecute?
    }

    /** The reply on its way says that the statement id was refused. */
    predicate Refused()
      reads this`reply
    {
      reply.Some? && reply.value.refused
    }

    /** Between the steps of an execution. */
    ghost predicate UnderWay()
      reads this, session, session.ops, session.held.Values
    {
      && session.Owned() && session.Counted() && session.Agreed(if Refused() then {this} else {})
      && this in session.ops && (Refused() ==> !reply.value.arrived)
      && (reply.Some? ==> inited && !reply.value.effect.Threw?)
    }

    /** What the execution will come to. */
    ghost function Outcome(reaction: Reaction): (Registry, View, Effect)
      reads this, stmt, session`live, session`cleanup, session`maxPstmt, session`supported, session`server
    {
      Completed(session.Snapshot(), Seen(), Unique(), reply, reaction)
    }

    /** So many commands it is still to send. */
    ghost function Owed(reaction: Reaction): nat
      reads this, stmt, session`live, session`cleanup, session`maxPstmt, session`supported, session`server
    {
      CommandsLeft(session.Snapshot(), Seen(), Unique(), reply, reaction)
    }

    ghost predicate Holds(session: Session, held: Holding)
      reads this`stmt
    {
      this.session == session && if this in held then stmt == held[this] else stmt == null
    }

    ghost predicate Prepared(server: map<nat, Statement>)
      reads this`stmt, this`state, this`def, this`hasLimit, this`limit, this`hasOffset, this`offset, this`params
    {
      state.PsExecutePrepared? && stmt != null && Sendable(def) ==>
        stmt.id in server && server[stmt.id] == StatementFor(Current())
    }

    /** Running an up-to-date prepared statement is executing directly, unless nothing can be executed directly. */
    lemma PreparedIsDirect(server: map<nat, Statement>, reaction: Reaction)
      requires Prepared(server) && RunsPrepared() && !reaction.Blocked?
      ensures Direct(Asked(Current()), reaction) == RunPrepared(server, stmt.id, GetLimit(), params, reaction) <==>
        Sendable(def)
    {}

    lemma DirectUnlessOdd(reaction: Reaction)
      requires session.Valid() && this in session.ops
      ensures Executed(session.Snapshot(), Seen(), Unique(), reaction).2 == Direct(Asked(Current()), reaction) <==>
        !Odd(Seen(), reaction)
    {
      hide Executed, Odd, LimitOf, RunPrepared, Direct, Sendable;
      assert Prepared(session.server);
      if RunsPrepared() && !reaction.Blocked? {
        PreparedIsDirect(session.server, reaction);
      }
      OddIsNotDirect(session.Snapshot(), Seen(), Unique(), reaction);
    }

    lemma PreparedAlike(other: Op, server: map<nat, Statement>)
      requires other.Prepared(server) && stmt == other.stmt && state == other.state && Current() == other.Current()
      ensures Prepared(server)
    {}

    lemma NotPrepared()
      requires stmt == null || !state.PsExecutePrepared?
      ensures forall server :: Prepared(server)
    {}

    constructor (session: Session, def: Definition)
      requires session.Valid()
      modifies session`ops
      ensures session.Valid() && session.ops == old(session.ops) + {this}
      ensures this.session == session && stmt == null && state == PsExecute && !inited && Settled()
      ensures Current() == Settings(def, None, None, map[])
    {
      hide LimitOf, Sendable, StatementFor, Session.Counted;
      this.session, this.def := session, def;
      stmt, state, inited, reply := null, PsExecute, false, None;
      hasLimit, limit, hasOffset, offset, params := false, 0, false, 0, map[];
      new;
      session.ops := session.ops + {this};
      assert session.Agreed({}) by {
        assert Prepared(session.server);
      }
    }

    /** The next execution uses the prepared statement. */
    predicate RunsPrepared()
      reads this`state, this`stmt
    {
      state.PsExecutePrepared? && stmt != null
    }

    /** The copy shares the statement id and how far preparing has got, but not the state of an execution. */
    constructor Clone(other: Op)
      requires other.session.Valid() && other in other.session.ops
      modifies other.session`ops, other.session`held, if other.stmt == null then {} else {other.stmt}
      ensures session == other.session && session.Valid() && session.ops == old(other.session.ops) + {this}
      ensures stmt == other.stmt && state == other.state && !inited && Settled() && Current() == other.Current()
      ensures Seen() == old(other.Seen()).(left := Clear)
      ensures stmt != null ==> !Unique()
    {
      hide Ids, Holders, OneCellPerId, Op.Prepared, Session.Counted;
      session, stmt, state, inited, reply := other.session, null, other.state, false, None;
      def, hasLimit, limit, hasOffset, offset, params :=
        other.def, other.hasLimit, other.limit, other.hasOffset, other.offset, other.params;
      new;
      session.ops := session.ops + {this};
      NotPrepared();
      if other.stmt != null {
        Join(other);
      }
    }

    /** The next execution leaves the operation with an id. */
    predicate WillHold()
      reads this`state, this`stmt, stmt, session`supported, session`live, session`maxPstmt
    {
      RunsPrepared() || (state.PsPrepareExecute? && (Unique() || session.CanPrepare()))
    }

    /** The next command carries a statement id. */
    predicate CarriesId()
      reads this`state, this`stmt, this`def, stmt, session`supported, session`live, session`maxPstmt
    {
      RunsPrepared() || (WillHold() && Sendable(def))
    }

    // --- the share in a statement id ---

    predicate Unique()
      reads this`stmt, stmt
    {
      stmt != null && stmt.uses == 1
    }

    /** Let go of the shared id; it ceases to exist with its last holder. */
    method Reset()
      requires session.Owned() && this in session.ops
      modifies this`stmt, session`held, if stmt == null then {} else {stmt}
      ensures session.Owned() && stmt == null
      ensures Ids(session.held) == Ids(old(session.held)) - if old(Unique()) then {old(stmt.id)} else {}
      ensures old(session.Agreed({this})) ==> session.Agreed({}) && session.Agreed({this})
    {
      hide Holders, Ids, OneCellPerId, LimitOf, Sendable, StatementFor;
      if stmt == null {
        return;
      }
      ghost var held, cell := session.held, stmt;
      IdsWithout(held, this);
      forall other | other in held.Values
        ensures |Holders(held - {this}, other)| == |Holders(held, other)| - if other == cell then 1 else 0
      {
        HoldersWithout(held, this, other);
      }
      stmt.uses := stmt.uses - 1;
      stmt := null;
      session.held := held - {this};
    }

    /** Hold a new id alone. */
    method Take(id: nat)
      requires session.Owned() && this in session.ops && stmt == null && id !in Ids(session.held)
      modifies this`stmt, session`held
      ensures session.Owned() && stmt != null && fresh(stmt) && stmt.id == id && Unique()
      ensures session.held == old(session.held)[this := stmt] && Ids(session.held) == Ids(old(session.held)) + {id}
      ensures old(session.Agreed({this})) ==> session.Agreed({this})
    {
      hide Holders, Ids, OneCellPerId;
      ghost var held := session.held;
      stmt := new SharedId(id);
      IdsWith(held, this, stmt);
      forall other
        ensures |Holders(held[this := stmt], other)| == |Holders(held, other)| + if other == stmt then 1 else 0
      {
        HoldersWith(held, this, stmt, other);
      }
      NobodyHolds(held, stmt);
      session.held := session.held[this := stmt];
    }

    lemma HeldIsLive()
      requires session.Owned() && session.Counted() && this in session.ops && stmt != null
      ensures stmt.id in session.live
    {
      assert Holds(session, session.held);
    }

    /** Hold the id that another operation holds. */
    method Join(other: Op)
      requires session.Valid() && this in session.ops && other in session.ops && stmt == null && other.stmt != null
      requires state == other.state && Current() == other.Current()
      modifies this`stmt, session`held, other.stmt
      ensures session.Valid() && stmt == other.stmt && !Unique()
    {
      hide Ids, Holders, OneCellPerId, Op.Prepared, Tally;
      ghost var held, cell := session.held, other.stmt;
      assert other.Holds(session, held) && held[other] == cell;
      IdsWith(held, this, cell);
      SomeoneHolds(held, other);
      forall c
        ensures |Holders(held[this := cell], c)| == |Holders(held, c)| + if c == cell then 1 else 0
      {
        HoldersWith(held, this, cell, c);
      }
      stmt := other.stmt;
      stmt.uses := stmt.uses + 1;
      session.held := held[this := stmt];
      PreparedAlike(other, session.server);
    }

    /** An id goes to the ids to be cleaned up when its last holder lets go, and not before. */
    method ReleaseStmtId()
      requires session.Valid() && this in session.ops
      modifies this`stmt, session`live, session`cleanup, session`held, if stmt == null then {} else {stmt}
      ensures session.Valid() && stmt == null
      ensures session.cleanup == old(session.cleanup) + if old(Unique()) then {old(stmt.id)} else {}
      ensures session.live == old(session.live) - if old(Unique()) then {old(stmt.id)} else {}
      ensures session.Snapshot() == LetGo(old(session.Snapshot()), old(Id()), old(Unique()))
    {
      hide Ids, Tally, Session.Agreed, Session.Owned;
      assert session.Agreed({this}) by { session.AgreedBut({this}); }
      if Unique() {
        HeldIsLive();
        Released(stmt.id, session.live, session.cleanup, session.maxPstmt, session.highest);
        session.ReleaseStmtId(stmt.id);
      }
      Reset();
    }

    /** An id not shared with others: the one held already, or a new one if the session has one to give. */
    method CreateStmtId()
      requires session.Owned() && session.Counted() && session.Agreed({this}) && this in session.ops
      requires session.highest + 1 < ID_MODULUS
      modifies this`stmt, session, if stmt == null then {} else {stmt}
      ensures session.Owned() && session.Counted() && session.Agreed({this})
      ensures session.Rest(old(session.ops), old(session.maxPstmt), old(session.supported))
      ensures stmt != null ==> Unique() && (stmt == old(stmt) || fresh(stmt))
      ensures stmt != null <==> old(Unique() || session.CanPrepare())
      ensures old(Unique()) ==> stmt == old(stmt) && session.Snapshot() == old(session.Snapshot())
      ensures !old(Unique()) ==> (session.Snapshot(), Id()) == Created(old(session.Snapshot()))
      ensures session.highest <= old(session.highest) + 1
    {
      hide Created, Ids, Tally, Session.Owned, Session.AgreedOn, Session.CanPrepare;
      if !Unique() {
        var id := session.CreateFor({this});
        Reset();
        if id != 0 {
          Take(id);
        }
      }
    }

    /** After a refusal nothing of the execution is left, and no id will be asked for in vain again. */
    method ResetState()
      requires session.Owned() && session.Counted() && session.Agreed({this}) && this in session.ops
      modifies this`stmt, this`state, this`inited, this`reply, session`live, session`maxPstmt, session`held
      modifies if stmt == null then {} else {stmt}
      ensures session.Valid() && stmt == null && state == PsExecute && !inited && Settled()
      ensures session.maxPstmt == if old(Unique()) then |session.live| else old(session.maxPstmt)
      ensures session.maxPstmt <= old(session.maxPstmt) && (old(Unique()) ==> session.maxPstmt < old(session.maxPstmt))
      ensures session.Snapshot() == GivenUp(old(session.Snapshot()), old(Id()), old(Unique()))
    {
      hide Ids, Tally, Session.AgreedOn, Session.Owned;
      if Unique() {
        HeldIsLive();
        Released(stmt.id, session.live, session.cleanup, session.maxPstmt, session.highest);
        session.ErrorStmtId(stmt.id);
      }
      Reset();
      StartOver();
    }

    method StartOver()
      requires session.Owned() && session.Counted() && session.Agreed({this}) && stmt == null
      modifies this`state, this`inited, this`reply
      ensures session.Valid() && state == PsExecute && !inited && reply == None
    {
      hide Op.Prepared, Session.Owned, Session.Counted;
      state := PsExecute;
      reply := None;
      inited := false;
      NotPrepared();
    }

    // --- execution ---

    method UsePreparedStatement() returns (prepared: bool)
      requires session.Valid() && this in session.ops
      requires state.PsPrepareExecute? ==> session.highest + 1 < ID_MODULUS
      modifies this`stmt, this`state, session, if stmt == null then {} else {stmt}
      ensures session.Owned() && session.Counted() && session.Agreed({this})
      ensures session.Rest(old(session.ops), old(session.maxPstmt), old(session.supported))
      ensures stmt != null ==> stmt == old(stmt) || fresh(stmt)
      ensures prepared == (old(state).PsExecutePrepared? && old(stmt) != null)
      ensures prepared ==> stmt == old(stmt) && Unique() == old(Unique())
      ensures prepared ==> session.Snapshot() == old(session.Snapshot())
      ensures !prepared && stmt != null ==> Unique()
      ensures old(state).PsExecute? ==> stmt == null
      ensures state == Advanced(old(state))
      ensures old(state).PsPrepareExecute? ==> (stmt != null <==> old(Unique() || session.CanPrepare()))
      ensures old(state).PsExecutePrepared? ==> stmt == old(stmt)
      ensures session.highest <= old(session.highest) + if old(state).PsPrepareExecute? then 1 else 0
      ensures (session.Snapshot(), Seen()) == Used(old(session.Snapshot()), old(Seen()), old(Unique()))
    {
      hide Created, LetGo, Ids, Tally, Op.Prepared, Session.Owned;
      var prepare := state;
      match prepare {
        case PsExecute =>
          ReleaseStmtId();
          state := PsPrepareExecute;
        case PsPrepareExecute =>
          CreateStmtId();
          state := PsExecutePrepared;
        case PsExecutePrepared =>
      }
      prepared := prepare.PsExecutePrepared? && stmt != null;
    }

    lemma OnlyHolder()
      requires session.Owned() && this in session.ops && Unique()
      ensures forall o :: o in session.held && o != this ==> session.held[o].id != stmt.id
    {
      var held := session.held;
      assert Holds(session, held);
      assert this in Holders(held, stmt);
      OneElement(Holders(held, stmt), this);
      forall o | o in held && held[o].id == stmt.id
        ensures o == this
      {
        assert o in Holders(held, held[this]);
      }
    }

    /** The command itself, which also prepares a statement if there is an id for it. */
    method DoSendCommand(reaction: Reaction) returns (effect: Effect, refused: bool)
      requires session.Owned() && session.Counted() && session.Agreed({this}) && this in session.ops
      requires (stmt != null ==> Unique()) && !reaction.Blocked?
      modifies session`server, session`supported
      ensures session.Owned() && session.Counted() && session.Agreed({this})
      ensures refused == (Sendable(def) && stmt != null && reaction.Refuses?) && (refused ==> effect.Failed?)
      ensures !refused ==> session.supported == old(session.supported)
      ensures !refused ==> effect == Direct(Asked(Current()), reaction)
      ensures !refused && stmt != null && Sendable(def) ==>
        stmt.id in session.server && session.server[stmt.id] == StatementFor(Current())
      ensures Sending(session.Snapshot(), Seen(), effect, refused) ==
        Commanded(old(session.Snapshot()), Seen(), reaction)
    {
      hide Ids, Holders, Tally, Op.Prepared, LimitOf, StatementFor, Session.Owned;
      if def.kind.Modify? && def.updates == [] {
        return Nothing, false;
      }
      if def.whereSet && def.where == "" {
        return Threw, false;
      }
      refused := stmt != null && reaction.Refuses?;
      ghost var before := session.server;
      if stmt != null {
        OnlyHolder();
        if refused {
          session.Refuse(reaction, stmt.id, true);
        } else {
          session.server := session.server[stmt.id := StatementFor(Current())];
        }
        session.AgreedStill({this}, before, session.server);
      }
      effect := if refused then Failed else Answer(Asked(Current()), reaction);
    }

    /** Execute the prepared statement if it is up to date, else execute directly. */
    method SendPreparedCommand(reaction: Reaction) returns (effect: Effect, refused: bool)
      requires session.Valid() && this in session.ops && !reaction.Blocked?
      requires state.PsPrepareExecute? ==> session.highest + 1 < ID_MODULUS
      modifies this`stmt, this`state, session, if stmt == null then {} else {stmt}
      ensures session.Owned() && session.Counted() && session.Agreed(if refused then {this} else {})
      ensures session.Rest(old(session.ops), old(session.maxPstmt), !refused && old(session.supported))
      ensures session.highest <= old(session.highest) + if old(state).PsPrepareExecute? then 1 else 0
      ensures stmt != null ==> stmt == old(stmt) || fresh(stmt)
      ensures refused == (old(CarriesId()) && reaction.Refuses?) && (refused ==> effect.Failed?)
      ensures state == Advanced(old(state)) && (stmt != null <==> old(WillHold()))
      ensures !refused && !old(RunsPrepared()) ==> effect == Direct(Asked(Current()), reaction)
      ensures !refused && old(RunsPrepared()) ==>
        effect == RunPrepared(old(session.server), old(stmt).id, GetLimit(), params, reaction)
      ensures Sending(session.Snapshot(), Seen(), effect, refused) ==
        Sent(old(session.Snapshot()), old(Seen()), old(Unique()), reaction)
      ensures refused ==> Unique() == (old(Unique()) || !old(RunsPrepared()))
    {
      hide Ids, Tally, LimitOf, StatementFor, Direct, RunPrepared, Session.Owned, Commanded, Used;
      var prepared := UsePreparedStatement();
      if prepared {
        assert Seen() == old(Seen());
        refused := reaction.Refuses?;
        effect := if refused then Failed else RunPrepared(session.server, stmt.id, GetLimit(), params, reaction);
        if refused {
          session.Refuse(reaction, stmt.id, false);
        }
      } else {
        effect, refused := DoSendCommand(reaction);
      }
    }

    /** Send the command, and keep its reply. */
    method Dispatch(reaction: Reaction) returns (threw: bool)
      requires session.Valid() && this in session.ops && inited && reply.None? && !reaction.Blocked?
      requires state.PsPrepareExecute? ==> session.highest + 1 < ID_MODULUS
      modifies this`stmt, this`state, this`reply, session, if stmt == null then {} else {stmt}
      ensures session.Owned() && session.Counted() && session.Agreed(if Refused() then {this} else {})
      ensures session.ops == old(session.ops) && session.maxPstmt <= old(session.maxPstmt)
      ensures session.highest <= old(session.highest) + if old(state).PsPrepareExecute? then 1 else 0
      ensures stmt != null ==> stmt == old(stmt) || fresh(stmt)
      ensures (Refused() ==> !reply.value.arrived) && (reply.Some? ==> !threw && !reply.value.effect.Threw?)
      ensures var before := Completed(old(session.Snapshot()), old(Seen()).(left := Clear), old(Unique()), None,
        reaction);
        before == if threw then (session.Snapshot(), Seen(), Threw) else Outcome(reaction)
      ensures CommandsLeft(old(session.Snapshot()), old(Seen()).(left := Clear), old(Unique()), None, reaction) ==
        1 + Owed(reaction)
    {
      hide Completed, CommandsLeft, PreparedSpec.Sent, LimitOf, Direct, RunPrepared, Asked, Sendable;
      hide Op.CarriesId, Op.WillHold, Op.Unique, Op.Current, Session.Snapshot, Session.Owned, Session.Counted,
        Session.AgreedOn;
      var effect, refused := SendPreparedCommand(reaction);
      ghost var sending := Sending(session.Snapshot(), Seen(), effect, refused);
      threw := effect.Threw?;
      reply := if threw || effect.Nothing? then None else Some(Reply(effect, refused, false));
      CompletedWhenSent(old(session.Snapshot()), old(Seen()), old(Unique()), reaction, sending, reply, Seen(),
        Unique());
    }

    /** Send the command, unless that was done already or the session cannot make room for it. */
    method Init(reaction: Reaction) returns (threw: bool, ghost sent: nat)
      requires UnderWay() && (Allocates() ==> session.highest + 1 < ID_MODULUS)
      modifies this`stmt, this`state, this`inited, this`reply, session, if stmt == null then {} else {stmt}
      ensures UnderWay() && inited && session.ops == old(session.ops) && session.maxPstmt <= old(session.maxPstmt)
      ensures session.highest <= old(session.highest) + if old(Allocates()) then 1 else 0
      ensures stmt != null ==> stmt == old(stmt) || fresh(stmt)
      ensures old(inited) ==> !threw && reply == old(reply) && session.Snapshot() == old(session.Snapshot())
      ensures !old(inited) && reply.Some? ==> sent == 1
      ensures threw ==> reply.None? && Owed(reaction) == 0
      ensures threw ==> (session.Snapshot(), Seen(), Threw) == old(Outcome(reaction))
      ensures !threw ==> Outcome(reaction) == old(Outcome(reaction))
      ensures sent + Owed(reaction) == old(Owed(reaction))
    {
      hide Completed, CommandsLeft, Op.Unique, Op.Current, Session.Snapshot;
      hide Session.Owned, Session.Counted, Session.AgreedOn;
      if inited {
        return false, 0;
      }
      inited := true;
      if reaction.Blocked? {
        CompletedWhenBlocked(session.Snapshot(), Seen(), Unique());
        return true, 0;
      }
      threw := Dispatch(reaction);
      sent := 1;
      if threw {
        NothingOwed(reaction);
      }
    }

    /** Without a reply, an execution under way comes to nothing. */
    lemma NothingOwed(reaction: Reaction)
      requires inited && reply.None?
      ensures Owed(reaction) == 0
      ensures Outcome(reaction) == (session.Snapshot(), Seen().(left := Clear), Nothing)
    {
      CompletedWhenNothing(session.Snapshot(), Seen(), Unique(), reaction);
    }

    /** An execution that is not under way yet comes to what it comes to as a whole. */
    lemma Begun(reaction: Reaction)
      requires session.Valid() && this in session.ops && Settled()
      ensures UnderWay()
      ensures Outcome(reaction) == Executed(session.Snapshot(), Seen(), Unique(), reaction)
      ensures Owed(reaction) == Commands(session.Snapshot(), Seen(), Unique(), reaction) <= 2
    {
      hide GivenUp, PreparedSpec.Sent, Session.Owned, Session.Counted, Session.AgreedOn;
      AtMostTwo(session.Snapshot(), Seen(), Unique(), reply, reaction);
    }

    /** See what the reply says. */
    method Receive(ghost reaction: Reaction) returns (effect: Effect)
      requires UnderWay() && reply.Some? && !Refused()
      modifies this`reply
      ensures UnderWay() && !Refused() && reply.Some? && reply.value.arrived
      ensures Owed(reaction) == old(Owed(reaction)) == 0
      ensures LeftBy(effect) == LeftBy(reply.value.effect)
      ensures (session.Snapshot(), Seen().(left := LeftBy(effect)), effect) == old(Outcome(reaction))
    {
      hide Completed, CommandsLeft, Op.Current, Session.Owned, Session.Counted, Session.AgreedOn;
      CompletedWhenTold(session.Snapshot(), Seen(), Unique(), reply.value, reaction);
      effect := Told(reply.value);
      reply := Some(reply.value.(arrived := true));
      CompletedWhenTold(session.Snapshot(), Seen(), Unique(), reply.value, reaction);
    }

    /** Begin again when the statement id was refused. */
    method Restart(ghost reaction: Reaction)
      requires UnderWay() && Refused()
      modifies this`stmt, this`state, this`inited, this`reply, session`live, session`maxPstmt, session`held
      modifies if stmt == null then {} else {stmt}
      ensures UnderWay() && session.maxPstmt <= old(session.maxPstmt) && state.PsExecute? && stmt == null && !Refused()
      ensures Outcome(reaction) == old(Outcome(reaction)) && Owed(reaction) == old(Owed(reaction))
    {
      hide Completed, CommandsLeft, GivenUp, Op.Current, Session.Owned, Session.Counted, Session.AgreedOn;
      CompletedWhenRefused(session.Snapshot(), Seen(), Unique(), reply.value, reaction);
      ResetState();
    }

    /**
      One step of the execution: the command is sent unless that was done already, and sent again if its
      reply arrives and is a refusal; the second reply may arrive in the same step.
     */
    method Cont(reaction: Reaction, arrives: bool, again: bool) returns (effect: Option<Effect>, ghost sent: nat)
      requires UnderWay() && (Allocates() ==> session.highest + 1 < ID_MODULUS)
      modifies this`stmt, this`state, this`inited, this`reply, session, if stmt == null then {} else {stmt}
      decreases Owed(reaction), if Refused() then 1 else 0
      ensures UnderWay() && inited && session.ops == old(session.ops) && session.maxPstmt <= old(session.maxPstmt)
      ensures session.highest <= old(session.highest) + if old(Allocates()) then 1 else 0
      ensures stmt != null ==> stmt == old(stmt) || fresh(stmt)
      ensures effect.None? ==> reply.Some? && !reply.value.arrived && Outcome(reaction) == old(Outcome(reaction))
      ensures effect.Some? ==> session.Valid() && Owed(reaction) == 0
      ensures effect.Some? ==>
        (session.Snapshot(), Seen().(left := LeftBy(effect.value)), effect.value) == old(Outcome(reaction))
      ensures sent + Owed(reaction) == old(Owed(reaction))
    {
      hide Op.Outcome, Op.Owed, Op.Unique, Session.Snapshot, Session.Owned, Session.Counted, Session.AgreedOn;
      var threw;
      threw, sent := Init(reaction);
      if threw {
        return Some(Threw), sent;
      }
      if reply.None? {
        NothingOwed(reaction);
        return Some(Nothing), sent;
      }
      if !reply.value.arrived && !arrives {
        return None, sent;
      }
      if Refused() {
        Restart(reaction);
        ghost var more;
        effect, more := Cont(reaction, again, false);
        sent := sent + more;
      } else {
        var told := Receive(reaction);
        effect := Some(told);
      }
    }

    /** However often the execution is continued, it sends at most two commands and comes to the same in the end. */
    method Drive(reaction: Reaction, steps: seq<(bool, bool)>) returns (effect: Option<Effect>, ghost sent: nat)
      requires session.Valid() && this in session.ops && Settled() && session.highest + 1 < ID_MODULUS
      modifies this`stmt, this`state, this`inited, this`reply, session, if stmt == null then {} else {stmt}
      ensures UnderWay() && sent <= 2
      ensures effect.Some? ==> session.Valid()
      ensures effect.Some? ==>
        (session.Snapshot(), Seen().(left := LeftBy(effect.value)), effect.value) ==
        Executed(old(session.Snapshot()), old(Seen()), old(Unique()), reaction)
    {
      hide Op.Outcome, Op.Owed, Op.Unique, Session.Snapshot, Session.Owned, Session.Counted, Session.AgreedOn;
      ghost var owed, outcome := Owed(reaction), Outcome(reaction);
      Begun(reaction);
      effect, sent := None, 0;
      var i := 0;
      while i < |steps| && effect.None?
        invariant UnderWay() && (i > 0 ==> inited) && session.highest <= old(session.highest) + if i == 0 then 0 else 1
        invariant effect.None? ==> Outcome(reaction) == outcome
        invariant effect.Some? ==> session.Valid()
        invariant effect.Some? ==>
          (session.Snapshot(), Seen().(left := LeftBy(effect.value)), effect.value) == outcome
        invariant sent + Owed(reaction) == owed
        invariant stmt == null || stmt == old(stmt) || fresh(stmt)
      {
        ghost var more;
        effect, more := Cont(reaction, steps[i].0, steps[i].1);
        i, sent := i + 1, sent + more;
      }
    }

    /** Send the command unless that was done already, and wait for its reply; and again, if that is a refusal. */
    method Wait(reaction: Reaction) returns (effect: Effect, ghost sent: nat)
      requires UnderWay() && (Allocates() ==> session.highest + 1 < ID_MODULUS)
      modifies this`stmt, this`state, this`inited, this`reply, session, if stmt == null then {} else {stmt}
      decreases Owed(reaction), if Refused() then 1 else 0
      ensures session.Valid() && UnderWay() && inited && session.ops == old(session.ops)
      ensures session.maxPstmt <= old(session.maxPstmt)
      ensures session.highest <= old(session.highest) + if old(Allocates()) then 1 else 0
      ensures stmt != null ==> stmt == old(stmt) || fresh(stmt)
      ensures reply.Some? ==> reply.value.arrived
      ensures !LeftBy(effect).Clear? ==> Settled() && LeftOver() == LeftBy(effect)
      ensures (session.Snapshot(), Seen().(left := LeftBy(effect)), effect) == old(Outcome(reaction))
      ensures sent == old(Owed(reaction))
    {
      hide Op.Outcome, Op.Owed, Op.Unique, Session.Snapshot, Session.Owned, Session.Counted, Session.AgreedOn;
      var threw;
      threw, sent := Init(reaction);
      if threw {
        return Threw, sent;
      }
      if reply.None? {
        NothingOwed(reaction);
        return Nothing, sent;
      }
      if Refused() {
        Restart(reaction);
        ghost var more;
        effect, more := Wait(reaction);
        sent := sent + more;
      } else {
        effect := Receive(reaction);
      }
    }

    /** Hand the reply over, so that the next execution sends the command again. */
    method GetReply() returns (handed: Option<Reply>)
      requires UnderWay() && inited && (reply.Some? ==> reply.value.arrived)
      modifies this`inited, this`reply
      ensures handed == old(reply) && !inited && Settled()
    {
      handed := reply;
      inited, reply := false, None;
    }

    /** Wait, and hand the reply over, unless an exception is thrown on the way. */
    method Execute(reaction: Reaction) returns (effect: Effect, ghost sent: nat)
      requires session.Valid() && this in session.ops && Settled()
      requires Allocates() ==> session.highest + 1 < ID_MODULUS
      modifies this`stmt, this`state, this`inited, this`reply, session, if stmt == null then {} else {stmt}
      ensures session.Valid() && session.ops == old(session.ops) && session.maxPstmt <= old(session.maxPstmt)
      ensures session.highest <= old(session.highest) + if old(Allocates()) then 1 else 0
      ensures stmt != null ==> stmt == old(stmt) || fresh(stmt)
      ensures Settled() && LeftOver() == LeftBy(effect)
      ensures effect == Direct(Asked(Current()), reaction) <==> !old(Odd(Seen(), reaction))
      ensures (session.Snapshot(), Seen(), effect) ==
        Executed(old(session.Snapshot()), old(Seen()), old(Unique()), reaction)
      ensures sent == Commands(old(session.Snapshot()), old(Seen()), old(Unique()), reaction) <= 2
    {
      hide Executed, Commands, Odd, Op.Outcome, Op.Owed, Op.Unique, Session.Snapshot, Op.UnderWay, Direct, LimitOf;
      hide Session.Owned, Session.Counted, Session.AgreedOn;
      Begun(reaction);
      DirectUnlessOdd(reaction);
      effect, sent := Wait(reaction);
      if LeftBy(effect).Clear? {
        var _ := GetReply();
      }
    }

    // --- edits ---

    twostate predicate Does(e: Edit)
      reads this
    {
      && Current() == Edited(old(Current()), e) && state == StateAfter(old(Current()), e, old(state))
      && stmt == old(stmt) && inited == old(inited)
    }

    twostate lemma Kept(e: Edit)
      requires Does(e) && old(session.Valid() && this in session.ops)
      requires unchanged(session) && unchanged(session.held.Values)
      requires forall o :: o in session.ops && o != this ==> unchanged(o)
      ensures session.Valid()
    {
      hide LimitOf, StatementFor, Sendable, Edited, StateAfter, Tally, Ids, Holders, OneCellPerId;
      if state.PsExecutePrepared? {
        EditKeepsStatement(old(Current()), e, old(state));
      }
    }

    method AddSort(key: SortKey)
      requires session.Valid() && this in session.ops
      modifies this`state, this`def
      ensures session.Valid() && Does(Edit.AddSort(key))
    {
      state := PsExecute;
      def := def.(order := def.order + [key]);
      Kept(Edit.AddSort(key));
    }

    method ClearSort()
      requires session.Valid() && this in session.ops
      modifies this`state, this`def
      ensures session.Valid() && Does(Edit.ClearSort)
    {
      if def.order != [] {
        state := PsExecute;
      }
      def := def.(order := []);
      Kept(Edit.ClearSort);
    }

    method SetHaving(having: string)
      requires session.Valid() && this in session.ops
      modifies this`state, this`def
      ensures session.Valid() && Does(Edit.SetHaving(having))
    {
      state := PsExecute;
      def := def.(having := having);
      Kept(Edit.SetHaving(having));
    }

    method ClearHaving()
      requires session.Valid() && this in session.ops
      modifies this`state, this`def
      ensures session.Valid() && Does(Edit.ClearHaving)
    {
      if def.having != "" {
        state := PsExecute;
      }
      def := def.(having := "");
      Kept(Edit.ClearHaving);
    }

    method AddGroupBy(expr: string)
      requires session.Valid() && this in session.ops
      modifies this`state, this`def
      ensures session.Valid() && Does(Edit.AddGroupBy(expr))
    {
      state := PsExecute;
      def := def.(groupBy := def.groupBy + [expr]);
      Kept(Edit.AddGroupBy(expr));
    }

    method ClearGroupBy()
      requires session.Valid() && this in session.ops
      modifies this`state, this`def
      ensures session.Valid() && Does(Edit.ClearGroupBy)
    {
      if def.groupBy != [] {
        state := PsExecute;
      }
      def := def.(groupBy := []);
      Kept(Edit.ClearGroupBy);
    }

    method SetProj(document: string)
      requires session.Valid() && this in session.ops
      modifies this`state, this`def
      ensures session.Valid() && Does(Edit.SetProj(document))
    {
      def := def.(document := document);
      state := PsExecute;
      Kept(Edit.SetProj(document));
    }

    method AddProj(field: string)
      requires session.Valid() && this in session.ops
      modifies this`state, this`def
      ensures session.Valid() && Does(Edit.AddProj(field))
    {
      def := def.(projections := def.projections + [field]);
      state := PsExecute;
      Kept(Edit.AddProj(field));
    }

    method ClearProj()
      requires session.Valid() && this in session.ops
      modifies this`state, this`def
      ensures session.Valid() && Does(Edit.ClearProj)
    {
      if def.projections != [] {
        state := PsExecute;
      }
      def := def.(projections := []);
      Kept(Edit.ClearProj);
    }

    method SetWhere(where: string)
      requires session.Valid() && this in session.ops
      modifies this`state, this`def
      ensures session.Valid() && Does(Edit.SetWhere(where))
    {
      def := def.(where := where, whereSet := true);
      state := PsExecute;
      Kept(Edit.SetWhere(where));
    }

    method SetLockMode(mode: nat, contention: nat)
      requires session.Valid() && this in session.ops
      modifies this`state, this`def
      ensures session.Valid() && Does(Edit.SetLockMode(mode, contention))
    {
      def := def.(lock := (mode, contention));
      state := PsExecute;
      Kept(Edit.SetLockMode(mode, contention));
    }

    method ClearLockMode()
      requires session.Valid() && this in session.ops
      modifies this`state, this`def
      ensures session.Valid() && Does(Edit.ClearLockMode)
    {
      def := def.(lock := (0, 0));
      state := PsExecute;
      Kept(Edit.ClearLockMode);
    }

    method AddOperation(op: FieldOp)
      requires session.Valid() && this in session.ops
      modifies this`state, this`def
      ensures session.Valid() && Does(Edit.AddOperation(op))
    {
      state := PsExecute;
      def := def.(updates := def.updates + [op]);
      Kept(Edit.AddOperation(op));
    }

    method ClearOperations()
      requires session.Valid() && this in session.ops
      modifies this`state, this`def
      ensures session.Valid() && Does(Edit.ClearOperations)
    {
      if def.updates != [] {
        state := PsExecute;
      }
      def := def.(updates := []);
      Kept(Edit.ClearOperations);
    }

    method AddSet(column: string, cell: string)
      requires session.Valid() && this in session.ops
      modifies this`state, this`def
      ensures session.Valid() && Does(Edit.AddSet(column, cell))
    {
      def := def.(values := def.values[column := cell]);
      state := PsExecute;
      Kept(Edit.AddSet(column, cell));
    }

    method ClearSets()
      requires session.Valid() && this in session.ops
      modifies this`state, this`def
      ensures session.Valid() && Does(Edit.ClearSets)
    {
      def := def.(values := map[]);
      state := PsExecute;
      Kept(Edit.ClearSets);
    }

    method SetLimit(rows: nat)
      requires session.Valid() && this in session.ops
      modifies this`state, this`hasLimit, this`limit
      ensures session.Valid() && Does(Edit.SetLimit(rows))
    {
      if GetLimit().None? && state.PsExecutePrepared? {
        state := PsPrepareExecute;
      }
      hasLimit := true;
      limit := rows;
      Kept(Edit.SetLimit(rows));
    }

    method ClearLimit()
      requires session.Valid() && this in session.ops
      modifies this`state, this`hasLimit
      ensures session.Valid() && Does(Edit.ClearLimit)
    {
      if GetLimit().Some? && !hasOffset && state.PsExecutePrepared? {
        state := PsPrepareExecute;
      }
      hasLimit := false;
      Kept(Edit.ClearLimit);
    }

    method SetOffset(skip: nat)
      requires session.Valid() && this in session.ops
      modifies this`state, this`hasOffset, this`offset
      ensures session.Valid() && Does(Edit.SetOffset(skip))
    {
      if GetLimit().None? && state.PsExecutePrepared? {
        state := PsPrepareExecute;
      }
      hasOffset := true;
      offset := skip;
      Kept(Edit.SetOffset(skip));
    }

    method ClearOffset()
      requires session.Valid() && this in session.ops
      modifies this`state, this`hasOffset
      ensures session.Valid() && Does(Edit.ClearOffset)
    {
      if GetLimit().Some? && !hasLimit && state.PsExecutePrepared? {
        state := PsPrepareExecute;
      }
      hasOffset := false;
      Kept(Edit.ClearOffset);
    }

    method AddParam(name: string, value: string)
      requires session.Valid() && this in session.ops
      modifies this`params
      ensures session.Valid() && Does(Edit.AddParam(name, value))
    {
      params := params[name := value];
      Kept(Edit.AddParam(name, value));
    }

    method ClearParams()
      requires session.Valid() && this in session.ops
      modifies this`params
      ensures session.Valid() && Does(Edit.ClearParams)
    {
      params := map[];
      Kept(Edit.ClearParams);
    }

    /** The operation is no more. */
    method Destroy()
      requires session.Valid() && this in session.ops
      modifies this`stmt, session, if stmt == null then {} else {stmt}
      ensures session.Valid() && session.Rest(old(session.ops) - {this}, old(session.maxPstmt), old(session.supported))
      ensures session.cleanup == old(session.cleanup) + if old(Unique()) then {old(stmt.id)} else {}
      ensures session.server == old(session.server) && session.highest == old(session.highest)
      ensures session.Snapshot() == LetGo(old(session.Snapshot()), old(Id()), old(Unique()))
    {
      hide Ids, Holders, OneCellPerId, LimitOf, Sendable, StatementFor, Tally;
      ReleaseStmtId();
      session.ops := session.ops - {this};
    }

    method Change(e: Edit)
      requires session.Valid() && this in session.ops
      modifies this`state, this`def, this`hasLimit, this`limit, this`hasOffset, this`offset, this`params
      ensures session.Valid() && Does(e)
    {
      hide LimitOf, StatementFor, Sendable, Session.Valid, Edited, StateAfter;
      match e {
        case AddSort(key) => AddSort(key);
        case ClearSort => ClearSort();
        case SetHaving(having) => SetHaving(having);
        case ClearHaving => ClearHaving();
        case AddGroupBy(expr) => AddGroupBy(expr);
        case ClearGroupBy => ClearGroupBy();
        case SetProj(document) => SetProj(document);
        case AddProj(field) => AddProj(field);
        case ClearProj => ClearProj();
        case SetWhere(where) => SetWhere(where);
        case SetLockMode(mode, contention) => SetLockMode(mode, contention);
        case ClearLockMode => ClearLockMode();
        case AddOperation(op) => AddOperation(op);
        case ClearOperations => ClearOperations();
        case AddSet(column, cell) => AddSet(column, cell);
        case ClearSets => ClearSets();
        case SetLimit(rows) => SetLimit(rows);
        case ClearLimit => ClearLimit();
        case SetOffset(skip) => SetOffset(skip);
        case ClearOffset => ClearOffset();
        case AddParam(name, value) => AddParam(name, value);
        case ClearParams => ClearParams();
      }
    }
  }
}
