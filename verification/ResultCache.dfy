/**
  Results of a session: rows are read from the wire in batches into one cache per result set, and the
  session sees to it that at most one result still has data on the wire (result.cc, result.h).

  The cursor is an abstract source of rows: it delivers at least one row when there are any, never
  more than it is asked for, and may notice only later that the last row was delivered.
 */
module ResultCache {
  import opened Wrappers

  /** The values of a row by column position. */
  type Row = map<nat, string>

  type Filter = Row -> bool

  function Filtered(rows: seq<Row>, filter: Filter): (passed: seq<Row>)
    ensures (forall row :: row in rows ==> filter(row)) ==> passed == rows
  {
    if rows == [] then []
    else (if filter(rows[0]) then [rows[0]] else []) + Filtered(rows[1..], filter)
  }

  lemma Assoc<T>(a: seq<T>, b: seq<T>, c: seq<T>)
    ensures a + (b + c) == (a + b) + c
  {}

  lemma {:induction false} FilteredConcat(a: seq<Row>, b: seq<Row>, filter: Filter)
    ensures Filtered(a + b, filter) == Filtered(a, filter) + Filtered(b, filter)
  {
    if a == [] {
      assert a + b == b;
    } else {
      var first := if filter(a[0]) then [a[0]] else [];
      assert (a + b)[0] == a[0] && (a + b)[1..] == a[1..] + b;
      assert Filtered(a + b, filter) == first + Filtered(a[1..] + b, filter);
      FilteredConcat(a[1..], b, filter);
      Assoc(first, Filtered(a[1..], filter), Filtered(b, filter));
    }
  }

  function FilteredSets(sets: seq<seq<Row>>, filter: Filter): (passed: seq<seq<Row>>)
    ensures |passed| == |sets|
  {
    seq(|sets|, i requires 0 <= i < |sets| => Filtered(sets[i], filter))
  }

  lemma FilteredSetsSplit(sets: seq<seq<Row>>, filter: Filter)
    requires sets != []
    ensures FilteredSets(sets, filter)[0] == Filtered(sets[0], filter)
    ensures FilteredSets(sets, filter)[1..] == FilteredSets(sets[1..], filter)
  {}

  /** What is known of the i-th result set in the cache: rows handed out, rows cached, rows on the wire. */
  function Part(delivered: seq<Row>, cache: seq<seq<Row>>, rest: seq<Row>, filter: Filter, i: nat): seq<Row>
    requires i < |cache|
  {
    (if i == 0 then delivered else []) + cache[i] + (if i + 1 == |cache| then Filtered(rest, filter) else [])
  }

  /** The result sets in the cache are the last ones of those entered, complete and in order. */
  ghost predicate Conserved(delivered: seq<Row>, cache: seq<seq<Row>>, rest: seq<Row>, filter: Filter,
      entered: seq<seq<Row>>) {
    && |cache| <= |entered|
    && (forall i :: 0 <= i < |cache| ==>
          Part(delivered, cache, rest, filter, i) == Filtered(entered[|entered| - |cache| + i], filter))
  }

  lemma Regroup<T>(a: seq<T>, b: seq<T>, c: seq<T>, d: seq<T>)
    ensures a + (b + c) + d == a + b + (c + d)
  {}

  lemma PartLoad(delivered: seq<Row>, cache: seq<seq<Row>>, batch: seq<Row>, rest: seq<Row>, filter: Filter, i: nat)
    requires i < |cache|
    ensures Part(delivered, WithBack(cache, Back(cache) + Filtered(batch, filter)), rest, filter, i)
         == Part(delivered, cache, batch + rest, filter, i)
  {
    hide Filtered;
    var passed, left := Filtered(batch, filter), Filtered(rest, filter);
    var more, before := WithBack(cache, Back(cache) + passed), if i == 0 then delivered else [];
    if i + 1 < |cache| {
      assert more[i] == cache[i];
    } else {
      assert more[i] == cache[i] + passed;
      Regroup(before, cache[i], passed, left);
      FilteredConcat(batch, rest, filter);
      assert Part(delivered, more, rest, filter, i) == before + (cache[i] + passed) + left;
    }
  }

  lemma ConservedLoad(delivered: seq<Row>, cache: seq<seq<Row>>, batch: seq<Row>, rest: seq<Row>, filter: Filter,
      entered: seq<seq<Row>>)
    requires cache != [] && Conserved(delivered, cache, batch + rest, filter, entered)
    ensures Conserved(delivered, WithBack(cache, Back(cache) + Filtered(batch, filter)), rest, filter, entered)
  {
    hide Filtered, Part;
    forall i | 0 <= i < |cache|
      ensures Part(delivered, WithBack(cache, Back(cache) + Filtered(batch, filter)), rest, filter, i)
           == Part(delivered, cache, batch + rest, filter, i)
    {
      PartLoad(delivered, cache, batch, rest, filter, i);
    }
  }

  lemma ConservedPop(delivered: seq<Row>, cache: seq<seq<Row>>, rest: seq<Row>, filter: Filter, entered: seq<seq<Row>>)
    requires cache != [] && Conserved(delivered, cache, rest, filter, entered)
    ensures Conserved([], cache[1..], rest, filter, entered)
  {
    forall i | 0 <= i < |cache| - 1
      ensures Part([], cache[1..], rest, filter, i) == Part(delivered, cache, rest, filter, i + 1)
    {}
  }

  lemma ConservedPush(delivered: seq<Row>, cache: seq<seq<Row>>, rest: seq<Row>, filter: Filter, entered: seq<seq<Row>>)
    requires Conserved(delivered, cache, [], filter, entered) && (cache == [] ==> delivered == [])
    ensures Conserved(delivered, cache + [[]], rest, filter, entered + [rest])
  {
    assert Filtered([], filter) == [];
    hide Filtered;
    var more, later := cache + [[]], entered + [rest];
    forall i | 0 <= i < |more|
      ensures Part(delivered, more, rest, filter, i) == Filtered(later[|later| - |more| + i], filter)
    {
      if i < |cache| {
        assert Part(delivered, more, rest, filter, i) == Part(delivered, cache, [], filter, i);
        assert later[|later| - |more| + i] == entered[|entered| - |cache| + i];
      }
    }
  }

  lemma ConservedRow(delivered: seq<Row>, cache: seq<seq<Row>>, rest: seq<Row>, filter: Filter, entered: seq<seq<Row>>)
    requires cache != [] && Front(cache) != [] && Conserved(delivered, cache, rest, filter, entered)
    ensures Conserved(delivered + [Front(cache)[0]], WithFront(cache, Front(cache)[1..]), rest, filter, entered)
  {
    var row, fewer := Front(cache)[0], WithFront(cache, Front(cache)[1..]);
    assert Front(cache) == [row] + Front(cache)[1..];
    forall i | 0 <= i < |cache|
      ensures Part(delivered + [row], fewer, rest, filter, i) == Part(delivered, cache, rest, filter, i)
    {}
  }

  /** The rows of the first result set in the cache that were not handed out. */
  function Waiting(cache: seq<seq<Row>>, rest: seq<Row>, filter: Filter): seq<Row> {
    if cache == [] then [] else Front(cache) + if |cache| == 1 then Filtered(rest, filter) else []
  }

  lemma WaitingLoad(cache: seq<seq<Row>>, batch: seq<Row>, rest: seq<Row>, filter: Filter)
    requires cache != []
    ensures Waiting(WithBack(cache, Back(cache) + Filtered(batch, filter)), rest, filter) ==
      Waiting(cache, batch + rest, filter)
  {
    hide Filtered;
    var passed, left := Filtered(batch, filter), Filtered(rest, filter);
    if |cache| == 1 {
      FilteredConcat(batch, rest, filter);
      assert WithBack(cache, Back(cache) + passed) == [cache[0] + passed];
      Assoc(cache[0], passed, left);
    }
  }

  predicate SizesMatch(cache: seq<seq<Row>>, sizes: seq<nat>) {
    |sizes| == |cache| && forall i :: 0 <= i < |cache| ==> sizes[i] == |cache[i]|
  }

  /** The three queues go together, and no row is lost. */
  ghost predicate Queues(mdata: seq<nat>, cache: seq<seq<Row>>, cacheSize: seq<nat>, delivered: seq<Row>,
                         rest: seq<Row>, filter: Filter, entered: seq<seq<Row>>) {
    && |mdata| == |cache| && (cache == [] ==> delivered == []) && SizesMatch(cache, cacheSize)
    && Conserved(delivered, cache, rest, filter, entered)
    && (forall i :: 0 <= i < |mdata| ==> mdata[i] == |entered| - |cache| + i)
  }

  lemma QueuesLoad(mdata: seq<nat>, cache: seq<seq<Row>>, before: seq<nat>, after: seq<nat>, delivered: seq<Row>,
                   batch: seq<Row>, rest: seq<Row>, filter: Filter, entered: seq<seq<Row>>)
    requires cache != [] && Queues(mdata, cache, before, delivered, batch + rest, filter, entered)
    requires SizesMatch(WithBack(cache, Back(cache) + Filtered(batch, filter)), after)
    ensures Queues(mdata, WithBack(cache, Back(cache) + Filtered(batch, filter)), after, delivered, rest, filter,
      entered)
  {
    hide Conserved, Filtered, SizesMatch;
    ConservedLoad(delivered, cache, batch, rest, filter, entered);
  }

  lemma QueuesRow(mdata: seq<nat>, cache: seq<seq<Row>>, cacheSize: seq<nat>, delivered: seq<Row>,
                  rest: seq<Row>, filter: Filter, entered: seq<seq<Row>>)
    requires cache != [] && Front(cache) != [] && Queues(mdata, cache, cacheSize, delivered, rest, filter, entered)
    ensures cacheSize != [] && cacheSize[0] > 0
    ensures Queues(mdata, WithFront(cache, Front(cache)[1..]), WithFront(cacheSize, Front(cacheSize) - 1),
                   delivered + [Front(cache)[0]], rest, filter, entered)
  {
    hide Conserved;
    ConservedRow(delivered, cache, rest, filter, entered);
  }

  lemma WaitingRow(cache: seq<seq<Row>>, rest: seq<Row>, filter: Filter)
    requires cache != [] && Front(cache) != []
    ensures Waiting(cache, rest, filter) ==
      [Front(cache)[0]] + Waiting(WithFront(cache, Front(cache)[1..]), rest, filter)
  {
    hide Filtered;
    var fewer := WithFront(cache, Front(cache)[1..]);
    assert Front(fewer) == Front(cache)[1..] && |fewer| == |cache|;
    Assoc([Front(cache)[0]], Front(cache)[1..], if |cache| == 1 then Filtered(rest, filter) else []);
  }

  lemma WaitingPush(cache: seq<seq<Row>>, rest: seq<Row>, filter: Filter)
    requires cache != []
    ensures Waiting(cache + [[]], rest, filter) == Waiting(cache, [], filter)
  {}

  function Front<T>(s: seq<T>): T requires s != [] { s[0] }

  function Back<T>(s: seq<T>): T requires s != [] { s[|s| - 1] }

  function WithBack<T>(s: seq<T>, x: T): seq<T> requires s != [] { s[..|s| - 1] + [x] }

  function WithFront<T>(s: seq<T>, x: T): seq<T> requires s != [] { [x] + s[1..] }

  datatype Fetched = Fetched(row: Row) | End | Threw

  datatype Answer = Yes | No | Failed

  class Session {
    var current: ResultImpl?           // m_current_result
    ghost var results: set<ResultImpl> // the results of this session that exist

    constructor ()
      ensures Valid() && results == {} && current == null
    {
      current, results := null, {};
    }

    /** At most one result has unread data on the wire, and that is the current one. */
    ghost predicate Valid()
      reads this, results
    {
      && (forall r :: r in results ==> r.session == this && r.Valid() && (r.Unread() ==> current == r))
      && (current != null ==> current in results)
    }

    /** Before a new command, the current result takes everything to itself. */
    method PrepareForCmd() returns (failed: bool)
      requires Valid()
      modifies this`current, current
      ensures Valid() && (!failed ==> current == null)
      ensures forall r :: r in results ==> !r.Unread()
      ensures forall r :: r in results && r != old(current) ==>
        (r.Undelivered(), r.Later()) == old((r.Undelivered(), r.Later()))
      ensures old(current) != null ==> (old(current).Undelivered(), old(current).Later()) == old(current.Opened())
      ensures failed <==> old(current) != null && old(current).failing
      ensures failed && old(current).late ==> current == old(current)
    {
      failed := false;
      if current != null {
        failed := current.StoreAllResults();
        if failed {
          return;
        }
      }
      current := null;
    }

    lemma OneReader(r: ResultImpl, q: ResultImpl)
      requires Valid() && r in results && q in results && r.Unread() && q.Unread()
      ensures r == q == current
    {}

    /** Send a command and make a result of the reply, unless making room for it failed. */
    method Execute(ghost sent: seq<seq<Row>>, sets: seq<seq<Row>>, failing: bool, late: bool, hasReply: bool,
        filter: Filter) returns (result: ResultImpl?)
      requires Valid() && sets == sent && (!hasReply ==> sent == [] && !failing)
      modifies this, current
      ensures Valid() && results == old(results) + if result == null then {} else {result}
      ensures result != null ==> fresh(result) && current == result && result.failing == failing && result.late == late
      ensures result != null ==> result.Undelivered() == [] && result.Later() == FilteredSets(sent, filter)
      ensures result == null <==> old(current) != null && old(current).failing
      ensures forall r :: r in old(results) ==> !r.Unread()
      ensures forall r :: r in old(results) && r != old(current) ==>
        (r.Undelivered(), r.Later()) == old((r.Undelivered(), r.Later()))
      ensures old(current) != null ==> (old(current).Undelivered(), old(current).Later()) == old(current.Opened())
    {
      var failed := PrepareForCmd();
      if failed {
        return null;
      }
      result := new ResultImpl(this, sent, sets, failing, late, hasReply, filter);
      results := results + {result};
    }

    method RegisterResult(result: ResultImpl)
      requires current == null
      modifies this`current
      ensures current == result
    {
      current := result;
    }

    method DeregisterResult(result: ResultImpl)
      modifies this`current
      ensures current == if old(current) == result then null else old(current)
    {
      if result == current {
        current := null;
      }
    }
  }

  class ResultImpl {
    const session: Session
    const hasReply: bool         // m_reply != nullptr
    const filter: Filter         // m_row_filter
    const failing: bool          // the reply ends with an error
    const late: bool             // it stands in place of a further result set, not behind the last row
    var inited: bool             // m_inited
    var pending: bool            // m_pending_rows
    var hasCursor: bool          // m_cursor != nullptr
    var rest: seq<Row>           // rows of the current result set that are on the wire
    var sets: seq<seq<Row>>      // result sets that are on the wire
    var reached: nat              // result sets read from the wire so far
    var errors: nat              // entry_count()
    var mdata: seq<nat>          // m_result_mdata: which result set is described
    var cache: seq<seq<Row>>     // m_result_cache
    var cacheSize: seq<nat>      // m_result_cache_size
    var cacheIt: int             // m_cache_it: position in the last list, -1 before its beginning
    ghost const sent: seq<seq<Row>>
    ghost var delivered: seq<Row>
    ghost var asked: nat         // how many rows the cursor was asked for last, or zero for all

    ghost function Entered(): seq<seq<Row>>
      reads this`sets
      requires |sets| <= |sent|
    {
      sent[..|sent| - |sets|]
    }

    /** Only the last result set in the cache can be incomplete; it is alone, except while everything is stored. */
    ghost predicate Valid()
      reads this
    {
      Sound() && (pending ==> |cache| == 1)
    }

    ghost predicate Sound()
      reads this
    {
      && Wire() && Cached()
      && (!inited ==> cache == [] && |sets| == |sent| && !pending)
      && (cache == [] ==> !pending && (inited ==> sets == []))
      && (failing && !late && inited && sets == [] && !pending ==> errors > 0)
    }

    ghost predicate Wire()
      reads this
    {
      && reached + |sets| == |sent| && sets == sent[reached..]
      && (pending ==> hasCursor)
      && (!pending ==> rest == [])
      && (!hasReply ==> sent == [] && !failing)
      && (errors > 0 ==> failing && sets == [] && !pending)
      && (pending && cache != [] && Back(cache) != [] ==> cacheIt == |Back(cache)| - 1)
    }

    ghost predicate Cached()
      reads this
    {
      |sets| <= |sent| && Queues(mdata, cache, cacheSize, delivered, rest, filter, Entered())
    }

    /** Something of the reply is still to be read. */
    predicate Unread()
      reads this`pending, this`sets, this`errors
    {
      pending || sets != [] || ErrorToCome()
    }

    /** After the last result set there seems to be another one. */
    predicate ErrorToCome()
      reads this`errors
    {
      failing && late && errors == 0
    }

    /** The rows of the current result set that were not handed out yet. */
    ghost function Undelivered(): seq<Row>
      reads this`cache, this`rest
    {
      Waiting(cache, rest, filter)
    }

    /** The result sets that are to become the current one after this one. */
    ghost function Later(): seq<seq<Row>>
      reads this
      requires Cached()
    {
      FilteredSets(sent[NextIndex()..], filter)
    }

    ghost function NextIndex(): (next: nat)
      reads this
      requires Cached()
      ensures next <= |sent|
    {
      if cache == [] then |Entered()| else |Entered()| - |cache| + 1
    }

    /** A result set of which nothing was handed out yet can be delivered as it was sent. */
    lemma Untouched()
      requires Cached() && cache != [] && delivered == []
      ensures Undelivered() == Filtered(sent[NextIndex() - 1], filter)
    {
      hide Filtered;
      assert Part(delivered, cache, rest, filter, 0) == Undelivered();
    }

    /** Rows handed out, then rows cached, then rows on the wire that pass the filter, are what the server sent. */
    lemma RowsConserved()
      requires Valid()
      ensures |mdata| == |cache| == |cacheSize| && forall i :: 0 <= i < |cache| ==> cacheSize[i] == |cache[i]|
      ensures cache != [] ==> delivered + Undelivered() == Filtered(sent[NextIndex() - 1], filter)
      ensures forall i :: 1 <= i < |cache| ==> !pending && cache[i] == Later()[i - 1]
    {
      hide Filtered;
      if cache != [] {
        Assoc(delivered, Front(cache), if |cache| == 1 then Filtered(rest, filter) else []);
        assert Part(delivered, cache, rest, filter, 0) == delivered + Undelivered();
      }
      forall i | 1 <= i < |cache|
        ensures cache[i] == Later()[i - 1]
      {
        NoRows();
        assert rest == [];
        assert Part(delivered, cache, rest, filter, i) == cache[i];
      }
    }

    /** As if the first result set had been asked for already. */
    ghost function Opened(): (seq<Row>, seq<seq<Row>>)
      reads this
      requires Cached()
    {
      if inited || Later() == [] then (Undelivered(), Later()) else (Later()[0], Later()[1..])
    }

    constructor (session: Session, ghost sent: seq<seq<Row>>, sets: seq<seq<Row>>, failing: bool, late: bool,
        hasReply: bool, filter: Filter)
      requires session.current == null && sets == sent && (!hasReply ==> sent == [] && !failing)
      modifies session`current
      ensures Valid() && this.session == session && session.current == this && !inited
      ensures this.sent == sent && this.filter == filter && this.hasReply == hasReply
      ensures this.failing == failing && this.late == late
    {
      this.session, this.hasReply, this.filter, this.sent := session, hasReply, filter, sent;
      this.failing, this.late := failing, late;
      this.sets := sets;
      inited, pending, hasCursor, rest, reached, errors := false, false, false, [], 0, 0;
      mdata, cache, cacheSize, cacheIt, delivered := [], [], [], -1, [];
      new;
      session.RegisterResult(this);
    }

    method PopRowCache()
      requires Wire() && Cached()
      modifies this`mdata, this`cache, this`cacheSize, this`cacheIt, this`delivered
      ensures Cached() && delivered == []
      ensures cache == if old(cache) == [] then [] else old(cache)[1..]
    {
      hide Conserved;
      if cache == [] {
        return;
      }
      ConservedPop(delivered, cache, rest, filter, Entered());
      delivered := [];
      mdata := mdata[1..];
      cacheIt := |Back(cache)|;
      cache := cache[1..];
      cacheSize := cacheSize[1..];
    }

    /** The session has let this result go, or nothing has changed for it. */
    twostate predicate Deregistered()
      reads this, session
    {
      && (Unread() ==> old(Unread()))
      && (session.current == old(session.current)
          || (old(session.current) == this && session.current == null && !Unread()))
      && (failing && late ==> session.current == old(session.current))
    }

    /** What is done to one result does not make another one a reader of the wire. */
    twostate lemma KeepsSession()
      requires Valid() && Deregistered() && session.results == old(session.results)
      requires forall o :: o in session.results && o != this ==> unchanged(o)
      ensures old(session.Valid() && this in session.results) ==> session.Valid()
    {}

    /** The next result set is on the wire and gets a cache of its own. */
    method PushRowCache()
      requires |sets| <= |sent| && sets != [] && hasCursor &&
        Queues(mdata, cache, cacheSize, delivered, [], filter, Entered())
      requires reached + |sets| == |sent| && sets == sent[reached..]
      modifies this`rest, this`sets, this`reached, this`pending, this`mdata, this`cache, this`cacheSize
      ensures Cached() && delivered == old(delivered) && pending
      ensures cache == old(cache) + [[]] && rest == old(sets)[0] && sets == old(sets)[1..] &&
        reached == old(reached) + 1
    {
      hide Conserved;
      ghost var entered := Entered();
      ConservedPush(delivered, cache, sets[0], filter, entered);
      rest, sets, reached, pending := sets[0], sets[1..], reached + 1, true;
      assert Entered() == entered + [rest];
      mdata := mdata + [reached - 1];
      cache := cache + [[]];
      cacheSize := cacheSize + [0];
    }

    lemma OpenedAlready()
      requires Cached() && inited
      ensures Opened() == (Undelivered(), Later())
    {}

    /** Storing early makes a difference exactly to a result whose first result set was not asked for yet. */
    lemma OpenedIsNothingNew()
      requires Valid()
      ensures Opened() == (Undelivered(), Later()) <==> inited || Later() == []
    {
      if !inited && Later() != [] {
        assert |Later()[1..]| < |Later()|;
      }
    }

    /** Give up what is left of the current result set on the wire and go to the next one, if any. */
    method ReadNextResult() returns (more: Answer)
      requires Wire() && Cached() && (cache == [] || !pending)
      modifies this`inited, this`pending, this`hasCursor, this`rest, this`sets, this`reached, this`errors
      modifies this`mdata, this`cache, this`cacheSize, session`current
      ensures Sound() && (old(cache) == [] ==> Valid()) && inited && delivered == old(delivered) && Deregistered()
      ensures more.Yes? == (old(sets) != [])
      ensures more.Failed? == (old(sets) == [] && failing)
      ensures more.Yes? ==> cache == old(cache) + [[]] && rest == old(sets)[0] && sets == old(sets)[1..]
      ensures !more.Yes? ==> cache == old(cache) && rest == [] && !Unread()
    {
      hide Queues;
      ForgetRest();
      if pending {
        rest := [];
      }
      hasCursor := false;
      pending := false;
      inited := true;
      if !hasReply {
        return No;
      }
      if sets == [] {
        if failing {
          errors := 1;
        }
        if errors > 0 {
          return Failed;
        }
        session.DeregisterResult(this);
        return No;
      }
      hasCursor := true;
      PushRowCache();
      more := Yes;
    }

    lemma QueuesMean()
      requires Cached()
      ensures SizesMatch(cache, cacheSize) && |cache| <= |Entered()|
    {}

    lemma ForgetRest()
      requires Cached() && (cache == [] || rest == [])
      ensures Queues(mdata, cache, cacheSize, delivered, [], filter, Entered())
    {}

    method NextResult() returns (more: Answer)
      requires Valid()
      modifies this, session`current
      ensures Valid() && inited && Deregistered()
      ensures more.Yes? == (old(Later()) != [])
      ensures more.Failed? <==> old(Later()) == [] && failing
      ensures delivered == []
      ensures more.Yes? ==> Undelivered() == old(Later())[0] && Later() == old(Later())[1..]
      ensures !more.Yes? ==> Undelivered() == [] && Later() == [] && !Unread() && cache == [] && rest == []
      ensures more.Yes? && |old(cache)| <= 1 ==> cache == [[]] && old(sets) != [] && rest == old(sets)[0]
      ensures old(session.Valid() && this in session.results) ==> session.Valid()
    {
      hide Queues, Filtered, FilteredSets, Session.Valid;
      if NextIndex() < |sent| {
        FilteredSetsSplit(sent[NextIndex()..], filter);
        assert sent[NextIndex()..][1..] == sent[NextIndex() + 1..];
      }
      PopRowCache();
      if cache != [] {
        Untouched();
        KeepsSession();
        return Yes;
      }
      more := ReadNextResult();
      if more.Yes? {
        Untouched();
      }
      KeepsSession();
    }

    // --- reading rows ---

    /** Called for every row that arrives. */
    method RowEnd(row: Row)
      requires cache != [] && SizesMatch(cache, cacheSize) && cacheIt == |Back(cache)| - 1
      modifies this`cache, this`cacheSize, this`cacheIt
      ensures cache == WithBack(old(cache), Back(old(cache)) + if filter(row) then [row] else [])
      ensures SizesMatch(cache, cacheSize) && cacheIt == |Back(cache)| - 1
    {
      var last := Back(cache);
      if !filter(row) {
        assert last + [] == last && WithBack(cache, last) == cache;
        return;
      }
      assert last[..cacheIt + 1] + [row] + last[cacheIt + 1..] == last + [row];
      cache := WithBack(cache, last[..cacheIt + 1] + [row] + last[cacheIt + 1..]);
      cacheIt := cacheIt + 1;
      cacheSize := WithBack(cacheSize, Back(cacheSize) + 1);
    }

    method RowsArrive(batch: seq<Row>)
      requires cache != [] && SizesMatch(cache, cacheSize) && cacheIt == |Back(cache)| - 1
      modifies this`cache, this`cacheSize, this`cacheIt
      ensures cache == WithBack(old(cache), Back(old(cache)) + Filtered(batch, filter))
      ensures SizesMatch(cache, cacheSize) && cacheIt == |Back(cache)| - 1
    {
      ghost var last := Back(cache);
      assert batch[..0] == [] && last + [] == last && WithBack(cache, last) == cache;
      for i := 0 to |batch|
        invariant cache != [] && SizesMatch(cache, cacheSize) && cacheIt == |Back(cache)| - 1
        invariant cache == WithBack(old(cache), last + Filtered(batch[..i], filter))
      {
        RowEnd(batch[i]);
        FilteredConcat(batch[..i], [batch[i]], filter);
        assert Filtered([batch[i]], filter) == if filter(batch[i]) then [batch[i]] else [];
        assert batch[..i + 1] == batch[..i] + [batch[i]];
        Assoc(last, Filtered(batch[..i], filter), Filtered([batch[i]], filter));
      }
      assert batch[..|batch|] == batch;
    }

    /** A batch of at most so many rows goes to the last cache, or all rows there are if no number is given. */
    method GetRows(prefetchSize: nat) returns (ghost batch: seq<Row>)
      requires pending && errors == 0 && cache != [] && SizesMatch(cache, cacheSize) && cacheIt == |Back(cache)| - 1
      modifies this`pending, this`rest, this`errors, this`cache, this`cacheSize, this`cacheIt, this`asked
      ensures asked == prefetchSize
      ensures old(rest) == batch + rest && (batch == [] ==> old(rest) == [])
      ensures prefetchSize == 0 || |batch| <= prefetchSize
      ensures cache == WithBack(old(cache), Back(old(cache)) + Filtered(batch, filter))
      ensures SizesMatch(cache, cacheSize) && cacheIt == |Back(cache)| - 1
      ensures prefetchSize == 0 || batch == [] ==> rest == [] && (!pending || errors > 0)
      ensures !pending || errors > 0 ==> rest == []
      ensures (errors > 0 ==> failing && !late && sets == []) && (!pending ==> !failing || late || sets != [])
    {
      var k: nat;
      if prefetchSize == 0 || rest == [] {
        k := |rest|;
      } else {
        k :| 1 <= k <= prefetchSize && k <= |rest|;
      }
      asked := prefetchSize;
      batch := rest[..k];
      RowsArrive(rest[..k]);
      var noticed := prefetchSize == 0 || k == 0;
      if * {
        noticed := k == |rest|;
      }
      rest := rest[k..];
      if noticed {
        if sets == [] && failing && !late {
          errors := 1;
        } else {
          pending := false;
        }
      }
    }

    /** Read a batch, and let the session go once nothing is left to be read. */
    method LoadBatch(prefetchSize: nat) returns (ghost batch: seq<Row>)
      requires Sound() && inited && pending && (prefetchSize != 0 ==> |cache| == 1)
      modifies this`pending, this`rest, this`errors, this`cache, this`cacheSize, this`cacheIt, this`asked,
        session`current
      ensures Valid() && Deregistered() && old(rest) == batch + rest && asked == prefetchSize
      ensures cache == WithBack(old(cache), Back(old(cache)) + Filtered(batch, filter))
      ensures prefetchSize == 0 || batch == [] ==> rest == [] && !pending
      ensures prefetchSize == 0 || |batch| <= prefetchSize
    {
      hide Queues, Filtered, SizesMatch;
      QueuesMean();
      if Back(cache) == [] {
        cacheIt := -1;
      }
      batch := GetRows(prefetchSize);
      QueuesLoad(mdata, old(cache), old(cacheSize), cacheSize, delivered, batch, rest, filter, Entered());
      if !pending || errors > 0 {
        pending := false;
        if sets == [] && !ErrorToCome() {
          session.DeregisterResult(this);
        }
      }
    }

    /** What load_cache does once there is a result set. */
    method FillCache(prefetchSize: nat) returns (answer: Answer, ghost batch: seq<Row>)
      requires Sound() && inited && (prefetchSize != 0 ==> Valid())
      modifies this`pending, this`rest, this`errors, this`cache, this`cacheSize, this`cacheIt, this`asked,
        session`current
      ensures Valid() && Deregistered() && !answer.Failed? && (batch != [] ==> asked == prefetchSize)
      ensures Undelivered() == old(Undelivered()) && Later() == old(Later()) && |cache| == |old(cache)|
      ensures old(rest) == batch + rest && (prefetchSize == 0 || |batch| <= prefetchSize)
      ensures prefetchSize == 0 ==> !pending
      ensures prefetchSize != 0 && cache != [] ==>
        (answer.Yes? <==> Back(cache) != []) && (Back(old(cache)) != [] ==> cache == old(cache) && batch == []) &&
        (Back(old(cache)) == [] ==> Back(cache) == Filtered(batch, filter) && (batch == [] ==> rest == []))
      ensures cache == [] ==> answer.No? && batch == []
      ensures pending ==> old(pending)
      ensures !old(pending) ==> cache == old(cache) && batch == []
    {
      hide Queues, Filtered, Waiting, FilteredSets;
      if cache == [] {
        return No, [];
      }
      if Back(cache) != [] && prefetchSize != 0 {
        return Yes, [];
      }
      if !pending {
        batch := [];
        NoRows();
        return No, [];
      }
      batch := LoadBatch(prefetchSize);
      WaitingLoad(old(cache), batch, rest, filter);
      answer := if Back(cache) != [] then Yes else No;
    }

    lemma NoRows()
      ensures Filtered([], filter) == []
    {}

    /** The rows that the next batch comes from. */
    ghost function OnWire(): seq<Row>
      reads this
    {
      if inited || sets == [] then rest else sets[0]
    }

    /** The first result set is asked for when it is needed. */
    method Open() returns (failed: bool)
      requires Sound()
      modifies this, session`current
      ensures Sound() && inited && Deregistered()
      ensures (Undelivered(), Later()) == old(Opened()) && rest == old(OnWire())
      ensures old(inited) ==> !failed && cache == old(cache) && pending == old(pending) && sets == old(sets)
      ensures !old(inited) ==> Valid() && (if cache == [] then rest == [] else cache == [[]])
      ensures failed ==> failing && cache == [] && errors > 0
      ensures delivered == if old(inited) then old(delivered) else []
    {
      hide Queues, Filtered, FilteredSets;
      failed := false;
      if !inited {
        var more := NextResult();
        failed := more.Failed?;
      }
    }

    /** Make sure that there are some rows in the cache, if there are rows; all of them if no number is given. */
    method LoadCache(prefetchSize: nat) returns (answer: Answer, ghost batch: seq<Row>)
      requires Sound() && (prefetchSize != 0 ==> Valid())
      modifies this, session`current
      ensures Valid() && inited && Deregistered()
      ensures (Undelivered(), Later()) == old(Opened()) && old(OnWire()) == batch + rest
      ensures prefetchSize == 0 ==> !pending
      ensures prefetchSize == 0 || |batch| <= prefetchSize
      ensures batch != [] ==> asked == prefetchSize
      ensures delivered == if old(inited) then old(delivered) else []
      ensures answer.Failed? ==> failing && cache == [] && errors > 0
      ensures cache == [] ==> batch == []
      ensures old(inited && !pending) ==> cache == old(cache) && batch == []
      ensures prefetchSize != 0 && cache != [] ==> if old(inited && cache != [] && Back(cache) != [])
        then cache == old(cache) && batch == []
        else Back(cache) == Filtered(batch, filter) && (batch == [] ==> rest == [])
      ensures if old(inited) then |cache| == |old(cache)| && sets == old(sets) && !answer.Failed? else |cache| <= 1
    {
      hide Filtered, Wire, Cached, Undelivered, Later, Opened, OnWire;
      var failed := Open();
      if failed {
        assert [] + rest == rest;
        return Failed, [];
      }
      answer, batch := FillCache(prefetchSize);
    }

    predicate HasRow()
      reads this
    {
      cache != [] && Front(cache) != []
    }

    /** The cache is loaded before a row is taken from it. */
    method Prefetch() returns (failed: bool, ghost batch: seq<Row>)
      requires Valid()
      modifies this, session`current
      ensures Valid() && inited && Deregistered()
      ensures (Undelivered(), Later()) == old(Opened()) && old(OnWire()) == batch + rest
      ensures |batch| <= 16 && (batch != [] ==> asked == 16)
      ensures delivered == if old(inited) then old(delivered) else []
      ensures HasRow() <==> old(HasRow()) || Filtered(batch, filter) != []
      ensures HasRow() || Undelivered() == [] || batch != []
      ensures !HasRow() && errors > 0 ==> failing && Undelivered() == []
      ensures failed ==> failing && !HasRow() && Undelivered() == [] && errors > 0
    {
      hide Queues, Filtered, FilteredSets, NextIndex;
      NoRows();
      var answer;
      answer, batch := LoadCache(16);
      failed := answer.Failed?;
    }

    method PopRow() returns (row: Row)
      requires Valid() && inited && cache != [] && Front(cache) != []
      modifies this`delivered, this`cacheIt, this`cache, this`cacheSize
      ensures Valid() && Later() == old(Later()) && delivered == old(delivered) + [row]
      ensures old(Undelivered()) == [row] + Undelivered()
    {
      hide Queues, Filtered, FilteredSets, Waiting;
      QueuesRow(mdata, cache, cacheSize, delivered, rest, filter, Entered());
      WaitingRow(cache, rest, filter);
      row := Front(cache)[0];
      delivered := delivered + [row];
      if |cache| == 1 {
        cacheIt := cacheIt - 1;
      }
      cache := WithFront(cache, Front(cache)[1..]);
      cacheSize := WithFront(cacheSize, Front(cacheSize) - 1);
    }

    /** Hand out the next row. Only a filter can make it answer that there is none while there are some. */
    method GetRow() returns (fetched: Fetched, ghost batch: seq<Row>)
      requires Valid() && hasReply
      modifies this, session`current
      ensures Valid() && inited && Deregistered() && Later() == old(Opened()).1
      ensures old(OnWire()) == batch + rest && |batch| <= 16 && (batch != [] ==> asked == 16)
      ensures old(Opened()).0 == (if fetched.Fetched? then [fetched.row] else []) + Undelivered()
      ensures delivered == (if old(inited) then old(delivered) else []) + if fetched.Fetched? then [fetched.row] else []
      ensures fetched.Fetched? <==> old(HasRow()) || Filtered(batch, filter) != []
      ensures fetched.Threw? <==> !fetched.Fetched? && errors > 0
      ensures fetched.Threw? ==> failing && Undelivered() == []
      ensures fetched.End? && Undelivered() != [] ==> batch != [] && Filtered(batch, filter) == []
      ensures (forall row :: filter(row)) && !fetched.Fetched? ==> Undelivered() == []
      ensures old(session.Valid() && this in session.results) ==> session.Valid()
    {
      hide Queues, Filtered, FilteredSets, NextIndex, Session.Valid, Waiting, Wire;
      var failed;
      failed, batch := Prefetch();
      if failed {
        fetched := Threw;
      } else if cache == [] || Front(cache) == [] {
        fetched := if errors > 0 then Threw else End;
      } else {
        var row := PopRow();
        fetched := Fetched(row);
      }
      KeepsSession();
    }

    // --- storing ---

    method Store() returns (failed: bool)
      requires Sound()
      modifies this, session`current
      ensures Valid() && inited && Deregistered() && !pending
      ensures (Undelivered(), Later()) == old(Opened())
      ensures failed ==> failing && cache == [] && errors > 0
      ensures old(inited) ==> sets == old(sets) && !failed
    {
      hide Queues, Filtered, FilteredSets;
      var answer;
      ghost var batch;
      answer, batch := LoadCache(0);
      failed := answer.Failed?;
    }

    /** Store one result set and go to the next one. */
    method StoreAndAdvance() returns (more: Answer)
      requires Sound()
      modifies this, session`current
      ensures Sound() && inited && Deregistered()
      ensures (Undelivered(), Later()) == old(Opened())
      ensures !more.Yes? ==> Valid() && !Unread()
      ensures (more.Failed? ==> failing) && (more.No? ==> !failing)
      ensures more.Yes? && old(inited) ==> |sets| < |old(sets)|
    {
      hide Queues, Filtered, FilteredSets, Waiting;
      var failed := Store();
      if failed {
        return Failed;
      }
      if cache != [] && sets != [] {
        WaitingPush(cache, sets[0], filter);
      }
      more := ReadNextResult();
    }

    /** Everything the server sent goes to the cache; nothing is lost even if the reply ends with an error. */
    method StoreAllResults() returns (failed: bool)
      requires Valid()
      modifies this, session`current
      ensures Valid() && inited && Deregistered() && !Unread()
      ensures (Undelivered(), Later()) == old(Opened())
      ensures failed <==> failing
      ensures old(session.Valid() && this in session.results) ==> session.Valid()
    {
      hide Queues, Filtered, FilteredSets, Waiting;
      var more := StoreAndAdvance();
      while more.Yes?
        invariant Sound() && inited && Deregistered() && (!more.Yes? ==> Valid() && !Unread())
        invariant (Undelivered(), Later()) == old(Opened()) && (more.Failed? ==> failing) && (more.No? ==> !failing)
        decreases |sets|, more.Yes?
      {
        more := StoreAndAdvance();
      }
      KeepsSession();
      failed := more.Failed?;
    }

    /** The number of rows that were not handed out yet; all of them are in the cache afterwards. */
    method Count() returns (n: Option<nat>)
      requires Valid()
      modifies this, session`current
      ensures Valid() && inited && Deregistered() && !pending
      ensures (Undelivered(), Later()) == old(Opened())
      ensures n.Some? ==> n.value == |Undelivered()|
      ensures n.None? <==> !hasReply || (failing && sets == [] && (!late || errors > 0))
      ensures old(session.Valid() && this in session.results) ==> session.Valid()
    {
      hide Conserved, Filtered, FilteredSets;
      var failed := Store();
      KeepsSession();
      NoRows();
      if failed || !hasReply || errors > 0 {
        return None;
      }
      n := Some(if cacheSize != [] then Front(cacheSize) else 0);
    }

    function HasData(): bool
      reads this
    {
      HasRow() || pending
    }

    /** There is data whenever a row is left; while rows are pending there may turn out to be none that passes. */
    lemma DataIsRows()
      requires Valid()
      ensures HasData() <==> Undelivered() != [] || pending
    {}

    method Destroy()
      requires session.Valid() && this in session.results
      modifies session
      ensures session.Valid() && session.results == old(session.results) - {this}
      ensures session.current == if old(session.current) == this then null else old(session.current)
    {
      session.DeregisterResult(this);
      session.results := session.results - {this};
    }
  }

  // ----- clients -----

  /** Asking for one result set after the other, and for its rows until there are none, gives all that is left. */
  method ReadAll(result: ResultImpl) returns (sets: seq<seq<Row>>)
    requires result.Valid() && result.hasReply && (forall row :: result.filter(row))
    modifies result, result.session`current
    ensures sets == old(result.Later()) && !result.Unread()
  {
    hide Session.Valid, ResultImpl.Wire, Queues, Filtered, FilteredSets, Waiting, ResultImpl.NextIndex;
    sets := [];
    var more := result.NextResult();
    while more.Yes?
      invariant result.Valid() && result.inited
      invariant old(result.Later()) == if more.Yes? then sets + [result.Undelivered()] + result.Later() else sets
      invariant !more.Yes? ==> !result.Unread()
      decreases |result.Later()|, more.Yes?
    {
      var rows := ReadRows(result);
      sets := sets + [rows];
      more := result.NextResult();
    }
  }

  method ReadRows(result: ResultImpl) returns (rows: seq<Row>)
    requires result.Valid() && result.hasReply && result.inited && (forall row :: result.filter(row))
    modifies result, result.session`current
    ensures result.Valid() && result.inited
    ensures rows == old(result.Undelivered()) && result.Undelivered() == [] && result.Later() == old(result.Later())
  {
    hide Session.Valid, ResultImpl.Wire, Queues, Filtered, FilteredSets, Waiting, ResultImpl.NextIndex;
    hide ResultImpl.Undelivered, ResultImpl.Later, ResultImpl.Opened, ResultImpl.OnWire, ResultImpl.Cached;
    rows := [];
    ghost var batch;
    var fetched;
    result.OpenedAlready();
    fetched, batch := result.GetRow();
    while fetched.Fetched?
      invariant result.Valid() && result.inited && result.Later() == old(result.Later())
      invariant old(result.Undelivered()) ==
        rows + (if fetched.Fetched? then [fetched.row] else []) + result.Undelivered()
      invariant !fetched.Fetched? ==> result.Undelivered() == []
      decreases |result.Undelivered()|, fetched.Fetched?
    {
      rows := rows + [fetched.row];
      result.OpenedAlready();
      fetched, batch := result.GetRow();
    }
  }

  /** A command sent before the first result set is asked for makes next_result() skip that result set. */
  method FirstSetSkipped(rows: seq<Row>) returns (more: Answer, ghost sent: seq<seq<Row>>)
    ensures sent == [rows] && more.No?
  {
    hide Session.Valid, Filtered;
    var session := new Session();
    sent := [rows];
    var result := new ResultImpl(session, sent, [rows], false, false, true, row => true);
    var failed := result.StoreAllResults();
    more := result.NextResult();
  }

  /** The error at the end of a reply makes the next command fail. */
  method ErrorPassedOn(sets: seq<seq<Row>>, late: bool) returns (first: ResultImpl?, second: ResultImpl?)
    ensures first != null && second == null
  {
    hide Session.Valid, Filtered;
    var session := new Session();
    first := session.Execute(sets, sets, true, late, true, row => true);
    second := session.Execute([], [], false, false, true, row => true);
  }

  /**
    If the error stands in place of a further result set, then every later command fails as well, until
    the result is destroyed.
   */
  method LateErrorStays(sets: seq<seq<Row>>, commands: nat) returns (failures: seq<bool>, last: bool)
    ensures failures == seq(commands, i => true) && !last
  {
    hide Session.Valid, Filtered;
    var session := new Session();
    var result := session.Execute(sets, sets, true, true, true, row => true);
    failures := [];
    for i := 0 to commands
      invariant session.Valid() && fresh(session) && fresh(result) && session.current == result
      invariant session.results == {result} && result.failing && result.late && failures == seq(i, j => true)
    {
      var failed := session.PrepareForCmd();
      failures := failures + [failed];
    }
    result.Destroy();
    last := session.PrepareForCmd();
  }

  lemma {:induction false} NonePass(rows: seq<Row>, filter: Filter)
    requires forall row :: row in rows ==> !filter(row)
    ensures Filtered(rows, filter) == []
  {
    if rows != [] {
      NonePass(rows[1..], filter);
    }
  }

  /** A row that passes the filter is overlooked when a whole batch before it does not pass. */
  method RowOverlooked(noise: Row, wanted: Row) returns (fetched: Fetched, ghost left: seq<Row>)
    requires noise != wanted
    ensures fetched.End? && left == [wanted]
  {
    hide Session.Valid;
    var session := new Session();
    var rows := seq(16, i => noise) + [wanted];
    var filter := row => row == wanted;
    var result := new ResultImpl(session, [rows], [rows], false, false, true, filter);
    ghost var batch;
    NonePass(rows[..16], filter);
    FilteredConcat(rows[..16], [wanted], filter);
    assert rows == rows[..16] + [wanted];
    FilteredSetsSplit([rows], filter);
    ghost var all := result.Opened().0;
    assert all == [wanted];
    fetched, batch := result.GetRow();
    assert batch == rows[..|batch|];
    NonePass(batch, filter);
    left := result.Undelivered();
  }
}
