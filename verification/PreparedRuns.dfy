/**
  Whole runs: any number of operations on one session, created, edited, executed, cloned and
  destroyed in any order. What they do is a function of the script, and it is what they would do if
  prepared statements did not exist, except where a condition on the script says otherwise.
 */
module PreparedRuns {
  import opened Wrappers
  import opened PreparedSpec
  import opened PreparedStatements

  datatype Event =
    | Create(def: Definition)
    | Change(k: nat, edit: Edit)
    | Execute(k: nat, reaction: Reaction)
    | Clone(k: nat)
    | Destroy(k: nat)

  function Fresh(def: Definition): Settings {
    Settings(def, None, None, map[])
  }

  predicate Exists<T>(s: seq<Option<T>>, k: nat) {
    k < |s| && s[k].Some?
  }

  // ----- without prepared statements -----

  /** What an operation is set to, and what is left of its last execution. */
  datatype Known = Known(settings: Settings, left: Left)

  /** Every operation created so far; the destroyed ones are missing. */
  type Plain = seq<Option<Known>>

  /** An execution if nothing is ever prepared. */
  function ExecutedDirectly(known: Known, reaction: Reaction): (Known, Effect) {
    match known.left
    case Clear =>
      var effect := Direct(Asked(known.settings), reaction);
      (known.(left := LeftBy(effect)), effect)
    case Initialised => (known.(left := Clear), Nothing)
    case ErrorKept => (known, Failed)
  }

  function PlainAfter(plain: Plain, e: Event): Plain {
    match e
    case Create(def) => plain + [Some(Known(Fresh(def), Clear))]
    case Change(k, edit) =>
      if Exists(plain, k) then
        plain[k := Some(plain[k].value.(settings := Edited(plain[k].value.settings, edit)))]
      else plain
    case Execute(k, reaction) =>
      if Exists(plain, k) then plain[k := Some(ExecutedDirectly(plain[k].value, reaction).0)] else plain
    case Clone(k) => if Exists(plain, k) then plain + [Some(plain[k].value.(left := Clear))] else plain
    case Destroy(k) => if Exists(plain, k) then plain[k := None] else plain
  }

  function PlainEffects(plain: Plain, e: Event): seq<Effect> {
    if e.Execute? && Exists(plain, e.k) then [Direct(Asked(plain[e.k].value.settings), e.reaction)] else []
  }

  /** Every execution sends its command directly, whatever was before. */
  function Plainly(plain: Plain, script: seq<Event>): seq<Effect>
    decreases |script|
  {
    if script == [] then [] else PlainEffects(plain, script[0]) + Plainly(PlainAfter(plain, script[0]), script[1..])
  }

  function UncachedEffects(plain: Plain, e: Event): seq<Effect> {
    if e.Execute? && Exists(plain, e.k) then [ExecutedDirectly(plain[e.k].value, e.reaction).1] else []
  }

  /** Nothing is ever prepared. */
  function Uncached(plain: Plain, script: seq<Event>): seq<Effect>
    decreases |script|
  {
    if script == [] then []
    else UncachedEffects(plain, script[0]) + Uncached(PlainAfter(plain, script[0]), script[1..])
  }

  /** Only operations that can be sent are executed. */
  predicate AllSendable(plain: Plain, script: seq<Event>)
    decreases |script|
  {
    script == [] || (Fine(plain, script[0]) && AllSendable(PlainAfter(plain, script[0]), script[1..]))
  }

  predicate Fine(plain: Plain, e: Event) {
    e.Execute? && Exists(plain, e.k) ==> Sendable(plain[e.k].value.settings.def)
  }

  /** The session always makes room, and no query ends with an error. */
  predicate AllAnswered(script: seq<Event>) {
    forall e :: e in script && e.Execute? ==> !e.reaction.Blocked? && !e.reaction.errs
  }

  predicate AllClear(plain: Plain) {
    forall k :: 0 <= k < |plain| && plain[k].Some? ==> plain[k].value.left.Clear?
  }

  /** Without errors, nothing is ever left of an execution. */
  lemma {:induction false} UncachedIsPlain(plain: Plain, script: seq<Event>)
    requires AllSendable(plain, script) && AllAnswered(script) && AllClear(plain)
    ensures Uncached(plain, script) == Plainly(plain, script)
    decreases |script|
  {
    hide Edited, LimitOf;
    if script != [] {
      assert script[0] in script;
      UncachedIsPlain(PlainAfter(plain, script[0]), script[1..]);
    }
  }

  // ----- with prepared statements -----

  /** The session and the server, and every operation created so far. */
  datatype World = World(registry: Registry, views: seq<Option<View>>)

  const START: World := World(Registry({}, {}, 0xFFFF_FFFF_FFFF_FFFF, true, map[]), [])

  /** No other operation shares the id. */
  predicate Alone(views: seq<Option<View>>, k: nat) {
    && Exists(views, k) && views[k].value.id.Some?
    && forall j :: 0 <= j < |views| && j != k && views[j].Some? ==> views[j].value.id != views[k].value.id
  }

  ghost function ExecutedIn(w: World, k: nat, reaction: Reaction): (Registry, View, Effect)
    requires Exists(w.views, k)
  {
    Executed(w.registry, w.views[k].value, Alone(w.views, k), reaction)
  }

  ghost function After(w: World, e: Event): World {
    match e
    case Create(def) => w.(views := w.views + [Some(View(Fresh(def), PsExecute, None, Clear))])
    case Change(k, edit) =>
      if Exists(w.views, k) then
        var v := w.views[k].value;
        var edited := v.(settings := Edited(v.settings, edit), state := StateAfter(v.settings, edit, v.state));
        w.(views := w.views[k := Some(edited)])
      else w
    case Execute(k, reaction) =>
      if Exists(w.views, k) then
        var (r, v, _) := ExecutedIn(w, k, reaction);
        World(r, w.views[k := Some(v)])
      else w
    case Clone(k) => if Exists(w.views, k) then w.(views := w.views + [Some(w.views[k].value.(left := Clear))]) else w
    case Destroy(k) =>
      if Exists(w.views, k) then
        World(LetGo(w.registry, w.views[k].value.id, Alone(w.views, k)), w.views[k := None])
      else w
  }

  ghost function Effects(w: World, e: Event): seq<Effect> {
    if e.Execute? && Exists(w.views, e.k) then [ExecutedIn(w, e.k, e.reaction).2] else []
  }

  ghost function Cached(w: World, script: seq<Event>): seq<Effect>
    decreases |script|
  {
    if script == [] then [] else Effects(w, script[0]) + Cached(After(w, script[0]), script[1..])
  }

  function OddHere(w: World, e: Event): seq<bool> {
    if e.Execute? && Exists(w.views, e.k) then [Odd(w.views[e.k].value, e.reaction)] else []
  }

  ghost function Odds(w: World, script: seq<Event>): seq<bool>
    decreases |script|
  {
    if script == [] then [] else OddHere(w, script[0]) + Odds(After(w, script[0]), script[1..])
  }

  /** Where the effects so far are those of direct execution, and where not. */
  predicate Differ(effects: seq<Effect>, plain: seq<Effect>, odds: seq<bool>) {
    |effects| == |plain| == |odds| && forall n :: 0 <= n < |odds| ==> (effects[n] == plain[n] <==> !odds[n])
  }

  // ----- runs of operations that can be sent -----

  /** The same operations with and without prepared statements. */
  predicate Alike(w: World, plain: Plain) {
    |w.views| == |plain| && forall k :: 0 <= k < |plain| ==>
      if plain[k].None? then w.views[k].None?
      else w.views[k].Some? && Known(w.views[k].value.settings, w.views[k].value.left) == plain[k].value
  }

  lemma ExecutedLeaves(r: Registry, v: View, alone: bool, reaction: Reaction)
    ensures var (_, next, effect) := Executed(r, v, alone, reaction);
      next.settings == v.settings && next.left == if v.left.Initialised? then Clear else LeftBy(effect)
    ensures v.left.Initialised? ==> Executed(r, v, alone, reaction).2 == Nothing
    ensures v.left.ErrorKept? ==> Executed(r, v, alone, reaction).2 == Failed
  {
    hide Created, LimitOf, Direct, RunPrepared;
  }

  lemma AlikeAfter(w: World, plain: Plain, e: Event)
    requires Alike(w, plain) && Fine(plain, e)
    requires e.Execute? && Exists(w.views, e.k) ==>
      var v := w.views[e.k].value;
      ExecutedIn(w, e.k, e.reaction).2 == Direct(Asked(v.settings), e.reaction) <==> !Odd(v, e.reaction)
    ensures Alike(After(w, e), PlainAfter(plain, e)) && Effects(w, e) == UncachedEffects(plain, e)
  {
    hide Edited, StateAfter, LetGo, Alone, Executed, Direct, LimitOf;
    if e.Execute? && Exists(w.views, e.k) {
      ExecutedLeaves(w.registry, w.views[e.k].value, Alone(w.views, e.k), e.reaction);
    }
  }

  lemma DifferParts(effects: seq<Effect>, effects': seq<Effect>, plain: seq<Effect>, plain': seq<Effect>,
                    odds: seq<bool>, odds': seq<bool>)
    requires |effects| == |plain| == |odds| && Differ(effects + effects', plain + plain', odds + odds')
    ensures Differ(effects, plain, odds) && Differ(effects', plain', odds')
  {
    forall n | 0 <= n < |odds|
      ensures effects[n] == plain[n] <==> !odds[n]
    {
      assert (effects + effects')[n] == (plain + plain')[n] <==> !(odds + odds')[n];
    }
    forall n | 0 <= n < |odds'|
      ensures effects'[n] == plain'[n] <==> !odds'[n]
    {
      var m := |odds| + n;
      assert (effects + effects')[m] == (plain + plain')[m] <==> !(odds + odds')[m];
    }
  }

  lemma DifferHere(w: World, plain: Plain, e: Event)
    requires Alike(w, plain) && Differ(Effects(w, e), PlainEffects(plain, e), OddHere(w, e))
    ensures e.Execute? && Exists(w.views, e.k) ==>
      var v := w.views[e.k].value;
      ExecutedIn(w, e.k, e.reaction).2 == Direct(Asked(v.settings), e.reaction) <==> !Odd(v, e.reaction)
  {
    hide Executed, Direct, Odd, LimitOf;
    assert OddHere(w, e) != [] ==> (Effects(w, e)[0] == PlainEffects(plain, e)[0] <==> !OddHere(w, e)[0]);
  }

  /**
    If effects are those of direct execution exactly where they are not odd, then operations that can be
    sent do what they would do if nothing were ever prepared.
   */
  lemma {:induction false} CachedIsUncached(w: World, plain: Plain, script: seq<Event>)
    requires Alike(w, plain) && AllSendable(plain, script)
    requires Differ(Cached(w, script), Plainly(plain, script), Odds(w, script))
    ensures Cached(w, script) == Uncached(plain, script)
    decreases |script|
  {
    hide After, PlainAfter, Differ, Executed, Odd, Direct, LimitOf, Edited;
    if script != [] {
      var e := script[0];
      assert |Effects(w, e)| == |PlainEffects(plain, e)| == |OddHere(w, e)|;
      DifferParts(Effects(w, e), Cached(After(w, e), script[1..]), PlainEffects(plain, e),
        Plainly(PlainAfter(plain, e), script[1..]), OddHere(w, e), Odds(After(w, e), script[1..]));
      DifferHere(w, plain, e);
      AlikeAfter(w, plain, e);
      CachedIsUncached(After(w, e), PlainAfter(plain, e), script[1..]);
    }
  }

  /** Without errors, no execution of an operation that can be sent is odd. */
  lemma NoneOdd(w: World, plain: Plain, script: seq<Event>)
    requires Alike(w, plain) && AllSendable(plain, script) && AllAnswered(script) && AllClear(plain)
    requires Differ(Cached(w, script), Plainly(plain, script), Odds(w, script))
    ensures forall n :: 0 <= n < |Odds(w, script)| ==> !Odds(w, script)[n]
  {
    hide Alike, AllClear, Cached, Plainly, Uncached, Odds, AllSendable;
    CachedIsUncached(w, plain, script);
    UncachedIsPlain(plain, script);
  }

  // ----- operations in memory -----

  /** These are the operations that exist, each once. */
  ghost predicate Listed(ops: seq<Op?>, existing: set<Op>) {
    && (forall k :: 0 <= k < |ops| && ops[k] != null ==> ops[k] in existing)
    && (forall j, k :: 0 <= j < k < |ops| && ops[j] != null ==> ops[j] != ops[k])
    && (forall o :: o in existing ==> o in ops)
  }

  lemma ListedMore(ops: seq<Op?>, existing: set<Op>, o: Op)
    requires Listed(ops, existing) && o !in existing
    ensures Listed(ops + [o], existing + {o})
  {}

  lemma ListedLess(ops: seq<Op?>, existing: set<Op>, k: nat)
    requires Listed(ops, existing) && k < |ops| && ops[k] != null
    ensures Listed(ops[k := null], existing - {ops[k]})
  {
    forall o | o in existing - {ops[k]}
      ensures o in ops[k := null]
    {
      var j :| 0 <= j < |ops| && ops[j] == o;
      assert ops[k := null][j] == o;
    }
  }

  lemma ListedExists(ops: seq<Op?>, existing: set<Op>)
    requires Listed(ops, existing)
    ensures forall k :: 0 <= k < |ops| && ops[k] != null ==> ops[k] in existing
    ensures forall j, k :: 0 <= j < |ops| && 0 <= k < |ops| && j != k && ops[j] != null ==> ops[j] != ops[k]
  {}

  ghost predicate Client(session: Session, ops: seq<Op?>, w: World)
    reads session, session.ops, session.held.Values
  {
    && session.Valid() && session.Snapshot() == w.registry && Listed(ops, session.ops) && |ops| == |w.views|
    && (forall k :: 0 <= k < |ops| ==>
      if ops[k] == null then w.views[k].None? else w.views[k] == Some(ops[k].Seen()) && ops[k].Settled())
  }

  ghost function Cells(session: Session): set<SharedId>
    reads session, session.ops
  {
    set o: Op | o in session.ops && o.stmt != null :: o.stmt
  }

  lemma Belongs(session: Session, o: Op)
    requires session.Valid() && o in session.ops
    ensures o.session == session && (o.stmt != null <==> o in session.held) &&
      (o.stmt != null ==> session.held[o] == o.stmt)
    ensures o.stmt != null ==> o.stmt.uses == |Holders(session.held, o.stmt)|
  {
    assert o.Holds(session, session.held);
  }

  /** The count of holders tells whether another operation has the same id. */
  lemma AloneIsUnique(session: Session, ops: seq<Op?>, w: World, k: nat)
    requires Client(session, ops, w) && k < |ops| && ops[k] != null
    ensures ops[k].Unique() <==> Alone(w.views, k)
  {
    var o := ops[k];
    var held := session.held;
    Belongs(session, o);
    if o.Unique() {
      o.OnlyHolder();
      forall j | 0 <= j < |ops| && j != k && ops[j] != null
        ensures ops[j].Id() != o.Id()
      {
        Belongs(session, ops[j]);
      }
    }
    if Alone(w.views, k) {
      forall p | p in Holders(held, o.stmt)
        ensures p == o
      {
        assert p in session.ops && p in ops;
        var j :| 0 <= j < |ops| && ops[j] == p;
        Belongs(session, p);
        assert w.views[j].value.id == w.views[k].value.id;
      }
      assert o in Holders(held, o.stmt);
      assert Holders(held, o.stmt) == {o};
    }
  }

  method PerformChange(session: Session, ops: seq<Op?>, k: nat, edit: Edit, ghost w: World)
    requires Client(session, ops, w) && k < |ops| && ops[k] != null
    modifies session.ops
    ensures Client(session, ops, After(w, Change(k, edit))) && session.highest == old(session.highest)
    ensures session.ops == old(session.ops) && Cells(session) == old(Cells(session))
  {
    hide Session.Valid, Edited, StateAfter, Listed;
    ListedExists(ops, session.ops);
    Belongs(session, ops[k]);
    ops[k].Change(edit);
  }

  method PerformExecute(session: Session, ops: seq<Op?>, k: nat, reaction: Reaction, ghost w: World)
      returns (effect: Effect)
    requires Client(session, ops, w) && k < |ops| && ops[k] != null && session.highest + 1 < ID_MODULUS
    modifies session, session.ops, Cells(session)
    ensures Client(session, ops, After(w, Execute(k, reaction))) && session.highest <= old(session.highest) + 1
    ensures [effect] == Effects(w, Execute(k, reaction))
    ensures effect == Direct(Asked(w.views[k].value.settings), reaction) <==> !Odd(w.views[k].value, reaction)
    ensures session.ops == old(session.ops) && fresh(Cells(session) - old(Cells(session)))
  {
    hide Session.Valid, Listed, Executed, Alone, Direct, Odd, Commands, LimitOf;
    ListedExists(ops, session.ops);
    Belongs(session, ops[k]);
    AloneIsUnique(session, ops, w, k);
    ghost var sent;
    effect, sent := ops[k].Execute(reaction);
  }

  method PerformClone(session: Session, ops: seq<Op?>, k: nat, ghost w: World) returns (copy: Op)
    requires Client(session, ops, w) && k < |ops| && ops[k] != null
    modifies session, Cells(session)
    ensures Client(session, ops + [copy], After(w, Clone(k))) && session.highest == old(session.highest)
    ensures fresh(session.ops - old(session.ops)) && Cells(session) == old(Cells(session))
  {
    hide Session.Valid, Session.Snapshot, Listed, Op.Unique, Op.Seen, Op.Settled, Op.Current;
    ListedExists(ops, session.ops);
    Belongs(session, ops[k]);
    copy := new Op.Clone(ops[k]);
    ListedMore(ops, old(session.ops), copy);
  }

  method PerformDestroy(session: Session, ops: seq<Op?>, k: nat, ghost w: World)
    requires Client(session, ops, w) && k < |ops| && ops[k] != null
    modifies session, session.ops, Cells(session)
    ensures Client(session, ops[k := null], After(w, Destroy(k))) && session.highest == old(session.highest)
    ensures session.ops <= old(session.ops) && Cells(session) <= old(Cells(session))
  {
    hide Session.Valid, LetGo, Alone, Listed;
    ListedExists(ops, session.ops);
    Belongs(session, ops[k]);
    AloneIsUnique(session, ops, w, k);
    ListedLess(ops, session.ops, k);
    ops[k].Destroy();
  }

  method PerformCreate(session: Session, ops: seq<Op?>, def: Definition, ghost w: World) returns (o: Op)
    requires Client(session, ops, w)
    modifies session`ops
    ensures Client(session, ops + [o], After(w, Create(def))) && session.highest == old(session.highest)
    ensures fresh(session.ops - old(session.ops)) && Cells(session) == old(Cells(session))
  {
    hide Session.Valid, Listed;
    ListedExists(ops, session.ops);
    o := new Op(session, def);
    ListedMore(ops, old(session.ops), o);
  }

  method Perform(session: Session, ops: seq<Op?>, e: Event, ghost w: World)
      returns (after: seq<Op?>, effects: seq<Effect>)
    requires Client(session, ops, w) && session.highest + 1 < ID_MODULUS
    modifies session, session.ops, Cells(session)
    ensures Client(session, after, After(w, e)) && effects == Effects(w, e)
    ensures e.Execute? && Exists(w.views, e.k) ==>
      (effects == [Direct(Asked(w.views[e.k].value.settings), e.reaction)] <==> !Odd(w.views[e.k].value, e.reaction))
    ensures session.highest <= old(session.highest) + 1
    ensures fresh(session.ops - old(session.ops)) && fresh(Cells(session) - old(Cells(session)))
  {
    hide Session.Valid, Listed, Executed, Odd, Direct, Asked, Edited, StateAfter, LetGo, Alone;
    after, effects := ops, [];
    if e.Create? {
      var o := PerformCreate(session, ops, e.def, w);
      after := ops + [o];
    } else if e.k < |ops| && ops[e.k] != null {
      if e.Change? {
        PerformChange(session, ops, e.k, e.edit, w);
      } else if e.Execute? {
        var effect := PerformExecute(session, ops, e.k, e.reaction, w);
        effects := [effect];
      } else if e.Clone? {
        var copy := PerformClone(session, ops, e.k, w);
        after := ops + [copy];
      } else {
        PerformDestroy(session, ops, e.k, w);
        after := ops[e.k := null];
      }
    }
  }

  /** The settings are the same with and without prepared statements. */
  predicate SameSettings(w: World, plain: Plain) {
    |w.views| == |plain| && forall k :: 0 <= k < |plain| ==>
      if plain[k].None? then w.views[k].None?
      else w.views[k].Some? && w.views[k].value.settings == plain[k].value.settings
  }

  lemma SameSettingsAfter(w: World, plain: Plain, e: Event)
    requires SameSettings(w, plain)
    ensures SameSettings(After(w, e), PlainAfter(plain, e))
  {
    hide Edited, StateAfter, LetGo, Alone, Executed;
    if e.Execute? && Exists(w.views, e.k) {
      ExecutedLeaves(w.registry, w.views[e.k].value, Alone(w.views, e.k), e.reaction);
    }
  }

  /**
    Any run of fewer than 2^32 - 1 events has the effects the functions above compute from the script,
    and an effect is that of direct execution exactly where it is not odd. Operations that can be sent do
    what they would do if nothing were ever prepared.
   */
  method Run(script: seq<Event>) returns (effects: seq<Effect>)
    requires |script| + 1 < ID_MODULUS
    ensures effects == Cached(START, script)
    ensures Differ(effects, Plainly([], script), Odds(START, script))
    ensures AllSendable([], script) ==> effects == Uncached([], script)
    ensures AllSendable([], script) && AllAnswered(script) ==> effects == Plainly([], script)
  {
    hide Session.Valid, Listed, Client, After, Tracks, PlainAfter, PlainEffects, OddHere, Odd;
    var session := new Session();
    var ops: seq<Op?> := [];
    ghost var w, plain: Plain := START, [];
    effects := [];
    ghost var direct: seq<Effect>, odds: seq<bool> := [], [];
    Begin(session, script);
    for i := 0 to |script|
      invariant Client(session, ops, w) && session.highest <= i
      invariant fresh(session) && fresh(session.ops) && fresh(Cells(session))
      invariant Tracks(script, i, w, plain, effects, direct, odds)
    {
      var more;
      ghost var e := script[i];
      ops, more := Perform(session, ops, script[i], w);
      TracksNext(script, i, w, plain, effects, direct, odds, more);
      effects, direct, odds := effects + more, direct + PlainEffects(plain, e), odds + OddHere(w, e);
      w, plain := After(w, e), PlainAfter(plain, e);
    }
    TracksAll(script, w, plain, effects, direct, odds);
  }

  /** At this point of the script, that is what has come out, and what comes follows from where things are. */
  ghost predicate Tracks(script: seq<Event>, i: nat, w: World, plain: Plain, effects: seq<Effect>, direct: seq<Effect>,
      odds: seq<bool>) {
    && i <= |script| && SameSettings(w, plain) && Differ(effects, direct, odds)
    && effects + Cached(w, script[i..]) == Cached(START, script)
    && direct + Plainly(plain, script[i..]) == Plainly([], script)
    && odds + Odds(w, script[i..]) == Odds(START, script)
  }

  lemma TracksNext(script: seq<Event>, i: nat, w: World, plain: Plain, effects: seq<Effect>, direct: seq<Effect>,
                   odds: seq<bool>, more: seq<Effect>)
    requires i < |script| && Tracks(script, i, w, plain, effects, direct, odds) && more == Effects(w, script[i])
    requires var e := script[i];
      e.Execute? && Exists(w.views, e.k) ==>
        (more == [Direct(Asked(w.views[e.k].value.settings), e.reaction)] <==> !Odd(w.views[e.k].value, e.reaction))
    ensures var e := script[i];
      Tracks(script, i + 1, After(w, e), PlainAfter(plain, e), effects + more, direct + PlainEffects(plain, e),
        odds + OddHere(w, e))
  {
    hide After, PlainAfter, Effects, PlainEffects, OddHere, Odd, SameSettings, Differ;
    var e := script[i];
    assert script[i..][0] == e && script[i..][1..] == script[i + 1..];
    DifferMore(effects, direct, odds, w, plain, e);
    SameSettingsAfter(w, plain, e);
  }

  lemma TracksAll(script: seq<Event>, w: World, plain: Plain, effects: seq<Effect>, direct: seq<Effect>,
      odds: seq<bool>)
    requires Tracks(script, |script|, w, plain, effects, direct, odds)
    ensures effects == Cached(START, script)
    ensures Differ(effects, Plainly([], script), Odds(START, script))
    ensures AllSendable([], script) ==> effects == Uncached([], script)
    ensures AllSendable([], script) && AllAnswered(script) ==> effects == Plainly([], script)
  {
    hide Differ;
    NothingLeft(w, plain, script[|script|..]);
    assert effects + [] == effects && direct + [] == direct && odds + [] == odds;
    if AllSendable([], script) {
      CachedIsUncached(START, [], script);
      if AllAnswered(script) {
        UncachedIsPlain([], script);
      }
    }
  }

  lemma Begin(session: Session, script: seq<Event>)
    requires session.Valid() && session.ops == {} && session.Snapshot() == START.registry
    ensures Client(session, [], START) && Tracks(script, 0, START, [], [], [], [])
  {
    assert script[0..] == script;
    assert [] + Cached(START, script) == Cached(START, script);
    assert [] + Plainly([], script) == Plainly([], script);
    assert [] + Odds(START, script) == Odds(START, script);
  }

  lemma NothingLeft(w: World, plain: Plain, script: seq<Event>)
    requires script == []
    ensures Cached(w, script) == [] && Plainly(plain, script) == [] && Odds(w, script) == []
  {}

  lemma DifferMore(effects: seq<Effect>, plain: seq<Effect>, odds: seq<bool>, w: World, settings: Plain, e: Event)
    requires Differ(effects, plain, odds) && SameSettings(w, settings)
    requires e.Execute? && Exists(w.views, e.k) ==>
      (Effects(w, e) == [Direct(Asked(w.views[e.k].value.settings), e.reaction)] <==>
        !Odd(w.views[e.k].value, e.reaction))
    ensures Differ(effects + Effects(w, e), plain + PlainEffects(settings, e), odds + OddHere(w, e))
  {
    hide Direct, Asked, Odd, Executed;
  }

  // ----- scripts -----

  /** Where a script leads. */
  ghost function Reached(w: World, script: seq<Event>): World
    decreases |script|
  {
    if script == [] then w else Reached(After(w, script[0]), script[1..])
  }

  ghost predicate Leads(w: World, script: seq<Event>, effects: seq<Effect>, reached: World) {
    Cached(w, script) == effects && Reached(w, script) == reached
  }

  lemma LeadsOne(w: World, e: Event)
    ensures Leads(w, [e], Effects(w, e), After(w, e))
  {
    hide Effects, After;
    assert [e][1..] == [] && Cached(After(w, e), []) == [] && Reached(After(w, e), []) == After(w, e);
    assert Effects(w, e) + [] == Effects(w, e);
  }

  /** One script after the other. */
  lemma {:induction false} LeadsOn(w: World, script: seq<Event>, effects: seq<Effect>, reached: World,
                                   script': seq<Event>, effects': seq<Effect>, reached': World)
    requires Leads(w, script, effects, reached) && Leads(reached, script', effects', reached')
    ensures Leads(w, script + script', effects + effects', reached')
    decreases |script|
  {
    hide Effects, After;
    if script == [] {
      assert script + script' == script' && effects + effects' == effects';
    } else {
      var e, rest := script[0], script[1..];
      LeadsOn(After(w, e), rest, Cached(After(w, e), rest), reached, script', effects', reached');
      assert (script + script')[1..] == rest + script';
    }
  }

  /** A session with one operation. */
  function One(r: Registry, v: View): World {
    World(r, [Some(v)])
  }

  const ANSWERED: Reaction := Accepts(false)

  const EXECUTE: Event := Execute(0, ANSWERED)

  lemma CreateOne(def: Definition)
    ensures Leads(START, [Create(def)], [], One(START.registry, View(Fresh(def), PsExecute, None, Clear)))
  {
    LeadsOne(START, Create(def));
  }

  lemma ExecuteOne(r: Registry, v: View, reaction: Reaction)
    ensures var (registry, view, effect) := Executed(r, v, v.id.Some?, reaction);
      Leads(One(r, v), [Execute(0, reaction)], [effect], One(registry, view))
  {
    hide Executed, Leads;
    LeadsOne(One(r, v), Execute(0, reaction));
    assert One(r, v).views[0 := Some(Executed(r, v, v.id.Some?, reaction).1)] ==
      [Some(Executed(r, v, v.id.Some?, reaction).1)];
  }

  lemma ChangeOne(r: Registry, v: View, edit: Edit)
    ensures var changed := v.(settings := Edited(v.settings, edit), state := StateAfter(v.settings, edit, v.state));
      Leads(One(r, v), [Change(0, edit)], [], One(r, changed))
  {
    hide Edited, StateAfter, Leads;
    LeadsOne(One(r, v), Change(0, edit));
    var changed := v.(settings := Edited(v.settings, edit), state := StateAfter(v.settings, edit, v.state));
    assert One(r, v).views[0 := Some(changed)] == [Some(changed)];
  }

  /** The first execution goes directly. */
  lemma FirstExecution(v: View, reaction: Reaction)
    requires v.left.Clear? && v.id.None? && v.state.PsExecute? && reaction.Accepts?
    ensures var direct := Direct(Asked(v.settings), reaction);
      var next := v.(state := PsPrepareExecute, left := LeftBy(direct));
      Executed(START.registry, v, false, reaction) == (START.registry, next, direct)
  {
    hide LimitOf, Created;
  }

  /** The second one makes the first id; it prepares a statement if there is anything to prepare. */
  lemma SecondExecution(v: View)
    requires v.left.Clear? && v.id.None? && v.state.PsPrepareExecute?
    ensures var direct := Direct(Asked(v.settings), ANSWERED);
      var next := v.(state := PsExecutePrepared, id := Some(1), left := LeftBy(direct));
      Executed(START.registry, v, false, ANSWERED) == (Prepared(v.settings), next, direct)
  {
    hide LimitOf, Created, IsNext;
    NextIsFirst();
    CreatedIs(START.registry, 1);
    assert START.registry.live + {1} == {1};
    assert START.registry.server - (START.registry.cleanup - {1}) == map[];
  }

  function Prepared(s: Settings): Registry {
    START.registry.(live := {1}, server := if Sendable(s.def) then map[1 := StatementFor(s)] else map[])
  }

  function PreparedOnce(def: Definition): View {
    View(Fresh(def), PsExecutePrepared, Some(1), Clear)
  }

  /** Two executions go directly, and leave the operation with an id. */
  lemma ExecuteTwice(def: Definition)
    requires !Direct(Asked(Fresh(def)), ANSWERED).Threw?
    ensures var direct := Direct(Asked(Fresh(def)), ANSWERED);
      Leads(START, [Create(def), EXECUTE, EXECUTE], [direct, direct], One(Prepared(Fresh(def)), PreparedOnce(def)))
  {
    hide Executed, LimitOf, Leads, Asked, Prepared;
    var direct := Direct(Asked(Fresh(def)), ANSWERED);
    var r, v := START.registry, View(Fresh(def), PsExecute, None, Clear);
    var second := v.(state := PsPrepareExecute);
    CreateOne(def);
    ExecuteOne(r, v, ANSWERED);
    FirstExecution(v, ANSWERED);
    LeadsOn(START, [Create(def)], [], One(r, v), [EXECUTE], [direct], One(r, second));
    ExecuteOne(r, second, ANSWERED);
    SecondExecution(second);
    LeadsOn(START, [Create(def)] + [EXECUTE], [] + [direct], One(r, second), [EXECUTE], [direct],
      One(Prepared(Fresh(def)), PreparedOnce(def)));
    assert [Create(def)] + [EXECUTE] + [EXECUTE] == [Create(def), EXECUTE, EXECUTE];
    assert [] + [direct] + [direct] == [direct, direct];
  }

  /** The third execution of an operation that is not edited runs what the second one prepared. */
  lemma Thrice(def: Definition)
    requires Sendable(def)
    ensures var ran := Ran(Asked(Fresh(def)));
      Cached(START, [Create(def), EXECUTE, EXECUTE, EXECUTE]) == [ran, ran, ran]
    ensures var w := Reached(START, [Create(def), EXECUTE, EXECUTE]);
      Exists(w.views, 0) && Runs(w.views[0].value) && w.registry.server == map[1 := StatementFor(Fresh(def))]
  {
    hide Executed, LimitOf, Cached, Reached, StatementFor;
    var r, v, ran := Prepared(Fresh(def)), PreparedOnce(def), Ran(Asked(Fresh(def)));
    ExecuteTwice(def);
    ExecuteOne(r, v, ANSWERED);
    RunsKnown(r, v);
    LeadsOn(START, [Create(def), EXECUTE, EXECUTE], [ran, ran], One(r, v), [EXECUTE], [ran], One(r, v));
    assert [Create(def), EXECUTE, EXECUTE] + [EXECUTE] == [Create(def), EXECUTE, EXECUTE, EXECUTE];
    assert [ran, ran] + [ran] == [ran, ran, ran];
  }

  lemma RunsKnown(r: Registry, v: View)
    requires Runs(v) && v.left.Clear? && v.id.value in r.server && r.server[v.id.value] == StatementFor(v.settings)
    ensures Executed(r, v, true, ANSWERED) == (r, v, Ran(Asked(v.settings)))
  {
    hide LimitOf;
  }

  /** A statement that is not on the server cannot be run. */
  lemma RunsUnknown(r: Registry, v: View)
    requires Runs(v) && v.left.Clear? && v.id.value !in r.server
    ensures Executed(r, v, true, ANSWERED) == (r, v.(left := ErrorKept), Failed)
  {
    hide LimitOf;
  }

  lemma ExecuteAgain(r: Registry, v: View)
    requires !v.left.Clear?
    ensures Leads(One(r, v), [EXECUTE], [if v.left.ErrorKept? then Failed else Nothing],
      One(r, if v.left.ErrorKept? then v else v.(left := Clear)))
  {
    hide Leads;
    ExecuteOne(r, v, ANSWERED);
  }

  /**
    A modify operation without updates does nothing twice, and then tries to run a statement that it
    never prepared. From then on it only repeats the error, even with updates.
   */
  lemma EmptyModify(def: Definition, op: FieldOp)
    requires def.kind.Modify? && def.updates == []
    ensures var script := [Create(def), EXECUTE, EXECUTE, EXECUTE, Change(0, AddOperation(op)), EXECUTE];
      Cached(START, script) == [Nothing, Nothing, Failed, Failed] &&
      (Sendable(def.(updates := [op])) <==> !(def.whereSet && def.where == ""))
  {
    hide Executed, LimitOf, Cached, Reached;
    var start := [Create(def), EXECUTE, EXECUTE];
    var r, v := Prepared(Fresh(def)), PreparedOnce(def);
    var failed := v.(left := ErrorKept);
    var edited := failed.(settings := Edited(Fresh(def), AddOperation(op)), state := PsExecute);
    ExecuteTwice(def);
    ExecuteOne(r, v, ANSWERED);
    RunsUnknown(r, v);
    LeadsOn(START, start, [Nothing, Nothing], One(r, v), [EXECUTE], [Failed], One(r, failed));
    ChangeOne(r, failed, AddOperation(op));
    LeadsOn(START, start + [EXECUTE], [Nothing, Nothing] + [Failed], One(r, failed), [Change(0, AddOperation(op))], [],
      One(r, edited));
    ExecuteAgain(r, edited);
    LeadsOn(START, start + [EXECUTE] + [Change(0, AddOperation(op))], [Nothing, Nothing] + [Failed] + [],
      One(r, edited), [EXECUTE], [Failed], One(r, edited));
    assert start + [EXECUTE] + [Change(0, AddOperation(op))] + [EXECUTE] ==
      [Create(def), EXECUTE, EXECUTE, EXECUTE, Change(0, AddOperation(op)), EXECUTE];
    assert [Nothing, Nothing] + [Failed] + [] + [Failed] == [Nothing, Nothing, Failed, Failed];
  }

  /**
    An operation with empty criteria throws, does nothing, throws again, does nothing again, and then
    tries to run a statement that it never prepared.
   */
  lemma EmptyCriteria(def: Definition)
    requires def.kind.Find? && def.whereSet && def.where == ""
    ensures Cached(START, [Create(def), EXECUTE, EXECUTE, EXECUTE, EXECUTE, EXECUTE]) ==
      [Threw, Nothing, Threw, Nothing, Failed]
  {
    hide Executed, LimitOf, Cached, Reached;
    var r, r' := START.registry, Prepared(Fresh(def));
    var first, third := View(Fresh(def), PsExecute, None, Clear), View(Fresh(def), PsPrepareExecute, None, Clear);
    var fifth := PreparedOnce(def);
    CreateOne(def);
    FirstExecution(first, ANSWERED);
    ThrowOnce(r, first, ANSWERED, r, third);
    LeadsOn(START, [Create(def)], [], One(r, first), [EXECUTE, EXECUTE], [Threw, Nothing], One(r, third));
    SecondExecution(third);
    ThrowOnce(r, third, ANSWERED, r', fifth);
    LeadsOn(START, [Create(def)] + [EXECUTE, EXECUTE], [] + [Threw, Nothing], One(r, third),
      [EXECUTE, EXECUTE], [Threw, Nothing], One(r', fifth));
    ExecuteOne(r', fifth, ANSWERED);
    RunsUnknown(r', fifth);
    LeadsOn(START, [Create(def)] + [EXECUTE, EXECUTE] + [EXECUTE, EXECUTE], [] + [Threw, Nothing] + [Threw, Nothing],
      One(r', fifth), [EXECUTE], [Failed], One(r', fifth.(left := ErrorKept)));
    assert [Create(def)] + [EXECUTE, EXECUTE] + [EXECUTE, EXECUTE] + [EXECUTE] ==
      [Create(def), EXECUTE, EXECUTE, EXECUTE, EXECUTE, EXECUTE];
    assert [] + [Threw, Nothing] + [Threw, Nothing] + [Failed] == [Threw, Nothing, Threw, Nothing, Failed];
  }

  /** After an execution that throws comes one that does nothing. */
  lemma ThrowOnce(r: Registry, v: View, reaction: Reaction, r': Registry, next: View)
    requires Executed(r, v, v.id.Some?, reaction) == (r', next.(left := Initialised), Threw) && next.left.Clear?
    ensures Leads(One(r, v), [Execute(0, reaction), EXECUTE], [Threw, Nothing], One(r', next))
  {
    hide Executed, Leads;
    var threw := next.(left := Initialised);
    ExecuteOne(r, v, reaction);
    ExecuteAgain(r', threw);
    LeadsOn(One(r, v), [Execute(0, reaction)], [Threw], One(r', threw), [EXECUTE], [Nothing], One(r', next));
    assert [Execute(0, reaction)] + [EXECUTE] == [Execute(0, reaction), EXECUTE];
    assert [Threw] + [Nothing] == [Threw, Nothing];
  }

  /** If the session cannot make room for a command, then the next execution sends nothing although it could. */
  lemma BlockedOnce(def: Definition)
    requires Sendable(def)
    ensures Cached(START, [Create(def), Execute(0, Blocked), EXECUTE, EXECUTE]) ==
      [Threw, Nothing, Ran(Asked(Fresh(def)))]
  {
    hide Executed, LimitOf, Cached, Reached;
    var r, v, ran := START.registry, View(Fresh(def), PsExecute, None, Clear), Ran(Asked(Fresh(def)));
    CreateOne(def);
    ThrownWhenBlocked(r, v);
    ThrowOnce(r, v, Blocked, r, v);
    LeadsOn(START, [Create(def)], [], One(r, v), [Execute(0, Blocked), EXECUTE], [Threw, Nothing], One(r, v));
    FirstExecution(v, ANSWERED);
    ExecuteOne(r, v, ANSWERED);
    LeadsOn(START, [Create(def)] + [Execute(0, Blocked), EXECUTE], [] + [Threw, Nothing], One(r, v),
      [EXECUTE], [ran], One(r, v.(state := PsPrepareExecute)));
    assert [Create(def)] + [Execute(0, Blocked), EXECUTE] + [EXECUTE] ==
      [Create(def), Execute(0, Blocked), EXECUTE, EXECUTE];
    assert [] + [Threw, Nothing] + [ran] == [Threw, Nothing, ran];
  }

  lemma ThrownWhenBlocked(r: Registry, v: View)
    requires v.left.Clear?
    ensures Executed(r, v, v.id.Some?, Blocked) == (r, v.(left := Initialised), Threw)
  {}

  /** An operation one of whose queries ended with an error never runs another one; a copy of it does. */
  lemma ErrorStays(def: Definition, edit: Edit)
    requires Sendable(def) && Sendable(Edited(Fresh(def), edit).def)
    ensures
      var script := [Create(def), Execute(0, Accepts(true)), Change(0, edit), EXECUTE, Clone(0), Execute(1, ANSWERED)];
      Cached(START, script) == [Erred(Asked(Fresh(def))), Failed, Ran(Asked(Edited(Fresh(def), edit)))]
  {
    hide Executed, LimitOf, Cached, Reached, Edited, StateAfter, After;
    var r, v := START.registry, View(Fresh(def), PsExecute, None, Clear);
    var erred := v.(state := PsPrepareExecute, left := ErrorKept);
    var edited := erred.(settings := Edited(Fresh(def), edit), state := StateAfter(Fresh(def), edit, PsPrepareExecute));
    var query, query' := Asked(Fresh(def)), Asked(Edited(Fresh(def), edit));
    CreateOne(def);
    ExecuteOne(r, v, Accepts(true));
    FirstExecution(v, Accepts(true));
    LeadsOn(START, [Create(def)], [], One(r, v), [Execute(0, Accepts(true))], [Erred(query)], One(r, erred));
    ChangeOne(r, erred, edit);
    LeadsOn(START, [Create(def)] + [Execute(0, Accepts(true))], [] + [Erred(query)], One(r, erred),
      [Change(0, edit)], [], One(r, edited));
    ExecuteAgain(r, edited);
    LeadsOn(START, [Create(def)] + [Execute(0, Accepts(true))] + [Change(0, edit)], [] + [Erred(query)] + [],
      One(r, edited), [EXECUTE], [Failed], One(r, edited));
    var last := CopyRuns(r, edited);
    LeadsOn(START, [Create(def)] + [Execute(0, Accepts(true))] + [Change(0, edit)] + [EXECUTE],
      [] + [Erred(query)] + [] + [Failed], One(r, edited), [Clone(0), Execute(1, ANSWERED)], [Ran(query')], last);
    assert [Create(def)] + [Execute(0, Accepts(true))] + [Change(0, edit)] + [EXECUTE] +
      [Clone(0), Execute(1, ANSWERED)] ==
      [Create(def), Execute(0, Accepts(true)), Change(0, edit), EXECUTE, Clone(0), Execute(1, ANSWERED)];
    assert [] + [Erred(query)] + [] + [Failed] + [Ran(query')] == [Erred(query), Failed, Ran(query')];
  }

  lemma CopyRuns(r: Registry, v: View) returns (last: World)
    requires v.id.None? && Sendable(v.settings.def)
    ensures Leads(One(r, v), [Clone(0), Execute(1, ANSWERED)], [Ran(Asked(v.settings))], last)
  {
    hide Executed, Leads;
    var copied := World(r, [Some(v), Some(v.(left := Clear))]);
    LeadsOne(One(r, v), Clone(0));
    assert After(One(r, v), Clone(0)).views == copied.views;
    LeadsOne(copied, Execute(1, ANSWERED));
    RunsDirectly(r, v.(left := Clear), Alone(copied.views, 1));
    last := After(copied, Execute(1, ANSWERED));
    LeadsOn(One(r, v), [Clone(0)], [], copied, [Execute(1, ANSWERED)], [Ran(Asked(v.settings))], last);
    assert [Clone(0)] + [Execute(1, ANSWERED)] == [Clone(0), Execute(1, ANSWERED)];
    assert [] + [Ran(Asked(v.settings))] == [Ran(Asked(v.settings))];
  }

  lemma RunsDirectly(r: Registry, v: View, alone: bool)
    requires v.left.Clear? && v.id.None? && Sendable(v.settings.def)
    ensures Executed(r, v, alone, ANSWERED).2 == Ran(Asked(v.settings))
  {
    hide LimitOf, Created;
  }
}
