/**
  The pool of sessions shared by clients, and its list of end-points to avoid (session.cc, session.h).

  Sessions are numbers, and what the pool reads from a shared pointer is the number of pointers to the
  session outside of the pool. Time stands still during a call. Whether a session can be reset, and
  what comes of connecting to the server, is not known in advance.
 */
module SessionPool {
  import opened Wrappers
  import opened Sequences

  type Handle = nat
  type Endpoint = nat

  const BLOCK_SECONDS: nat := 60

  /** When the time of an idle session is up, if it is, and who is told when the session must close. */
  datatype SessData = SessData(deadline: Option<nat>, cleanup: Option<nat>)

  datatype Got = Got(session: Handle) | Busy | Threw

  class Pool {
    const enabled: bool
    const max: nat
    const timeToLive: nat
    var closed: bool
    var now: nat
    var pool: map<Handle, SessData>
    var blockList: map<Endpoint, nat>
    var endpoint: map<Handle, Endpoint>   // of every session there ever was
    var uses: map<Handle, nat>            // pointers to it outside of the pool
    ghost var clients: set<PooledSession>
    ghost var owner: map<Handle, PooledSession>

    constructor (enabled: bool, max: nat, timeToLive: nat)
      requires max > 0
      ensures Valid() && clients == {} && pool == map[] && !closed && this.enabled == enabled && this.max == max
    {
      this.enabled, this.max, this.timeToLive := enabled, max, timeToLive;
      closed, now, pool, blockList, endpoint, uses := false, 0, map[], map[], map[], map[];
      clients, owner := {}, map[];
    }

    ghost predicate Core()
      reads this
    {
      && |pool| <= max && max > 0 && pool.Keys <= endpoint.Keys == uses.Keys
      && (forall h :: h in uses ==> uses[h] <= 1)
    }

    /** Every pointer outside of the pool is that of one client. */
    ghost predicate Held()
      reads this`owner, this`uses, this`pool, this`closed, this`clients, clients
    {
      Counted(uses, owner) && Linked() && (enabled && !closed ==> Covers(pool, owner))
    }

    ghost predicate Linked()
      reads this`owner, this`clients, clients
    {
      && (forall h :: h in owner ==> owner[h] in clients && owner[h].held == Some(h))
      && (forall c :: c in clients ==>
        c.pool == this && (c.held.Some? ==> c.held.value in owner && owner[c.held.value] == c))
    }

    ghost predicate Valid()
      reads this, clients
    {
      Core() && Held()
    }

    /** No session is held by two clients at once. */
    lemma Exclusive(c: PooledSession, d: PooledSession)
      requires Valid() && c in clients && d in clients && c.held.Some? && c.held == d.held
      ensures c == d
    {}

    predicate Idle(h: Handle)
      reads this
    {
      h in pool && h in uses && uses[h] == 0
    }

    predicate Listed(e: Endpoint)
      reads this
    {
      OnList(blockList, e, now)
    }

    method Add(e: Endpoint)
      modifies this`blockList
      ensures blockList == old(blockList)[e := now + BLOCK_SECONDS]
    {
      blockList := blockList[e := now + BLOCK_SECONDS];
    }

    /** An end-point whose time is up leaves the list when it is asked for. */
    method IsBlockListed(e: Endpoint) returns (listed: bool)
      modifies this`blockList
      ensures listed == old(Listed(e))
      ensures blockList == if old(e in blockList) && !listed then old(blockList) - {e} else old(blockList)
    {
      if e !in blockList {
        return false;
      }
      if now < blockList[e] {
        return true;
      }
      blockList := blockList - {e};
      listed := false;
    }

    ghost function Expired(): set<Handle>
      reads this
    {
      set h | h in pool && Idle(h) && pool[h].deadline.Some? && pool[h].deadline.value < now
    }

    /** Sessions that were idle for too long are dropped. */
    method TimeToLiveCleanup()
      requires Core()
      modifies this`pool
      ensures Core() && pool == old(pool) - old(Expired())
    {
      ghost var all, gone := pool, Expired();
      var left := pool.Keys;
      while left != {}
        invariant left <= pool.Keys <= all.Keys && |pool| <= max
        invariant forall h :: h in all ==> (h in pool <==> h in left || h !in gone)
        invariant forall h :: h in pool ==> pool[h] == all[h]
        decreases left
      {
        var h :| h in left;
        if uses[h] == 0 && pool[h].deadline.Some? && pool[h].deadline.value < now {
          SmallerWithout(pool, h);
          pool := pool - {h};
        }
        left := left - {h};
      }
      assert pool.Keys == all.Keys - gone;
    }

    /** Sessions that may be handed out, on good end-points only or on any. */
    ghost function Candidates(filterListed: bool): (found: set<Handle>)
      reads this
      requires Core()
      ensures forall h :: h in found <==> Idle(h) && (filterListed ==> !Listed(endpoint[h]))
    {
      Available(pool, uses, endpoint, if filterListed then Some(blockList) else None, now)
    }

    /** The end-points of these sessions and no others were put on the list, for the full time. */
    ghost predicate ListedAlso(before: map<Endpoint, nat>, failed: set<Handle>)
      reads this`blockList, this`endpoint, this`now
      requires failed <= endpoint.Keys
    {
      Added(before, blockList, EndpointsOf(failed, endpoint), now)
    }

    method FindAvailable(filterListed: bool) returns (avail: seq<Handle>)
      requires Core()
      modifies this`blockList
      ensures Core() && ListedAlso(old(blockList), {})
      ensures Distinct(avail) && Elements(avail) == old(Candidates(filterListed))
    {
      hide Added, OnList;
      NoneAdded(blockList, now);
      assert EndpointsOf({}, endpoint) == {};
      avail := [];
      var left := pool.Keys;
      while left != {}
        invariant left <= pool.Keys && Distinct(avail)
        invariant forall h :: h in avail <==> h in pool && h !in left && h in old(Candidates(filterListed))
        invariant ListedAlso(old(blockList), {})
        decreases left
      {
        var h :| h in left;
        left := left - {h};
        if uses[h] == 0 {
          var listed := false;
          if filterListed {
            AddedLess(old(blockList), blockList, endpoint[h], now);
            listed := IsBlockListed(endpoint[h]);
          }
          if !listed {
            avail := avail + [h];
          }
        }
      }
    }

    /** A session that turns out to be bad leaves the pool, and its end-point is avoided for a while. */
    method TrySession(h: Handle, cleanup: Option<nat>) returns (good: bool)
      requires Core() && Idle(h)
      modifies this`pool, this`blockList, this`uses
      ensures Core()
      ensures good ==> pool == old(pool)[h := old(pool)[h].(cleanup := cleanup)] && uses == old(uses)[h := 1]
      ensures good ==> blockList == old(blockList)
      ensures !good ==> pool == old(pool) - {h} && uses == old(uses)
      ensures !good ==> blockList == old(blockList)[endpoint[h] := now + BLOCK_SECONDS]
    {
      var valid := *;
      if valid {
        pool := pool[h := pool[h].(cleanup := cleanup)];
        uses := uses[h := 1];
        return true;
      }
      Add(endpoint[h]);
      SmallerWithout(pool, h);
      pool := pool - {h};
      good := false;
    }

    lemma ListedOne(before: map<Endpoint, nat>, list: map<Endpoint, nat>, failed: set<Handle>, h: Handle)
      requires failed <= endpoint.Keys && h in endpoint
      requires Added(before, list, EndpointsOf(failed, endpoint), now) &&
        blockList == list[endpoint[h] := now + BLOCK_SECONDS]
      ensures ListedAlso(before, failed + {h})
    {
      hide Added, EndpointsOf;
      AddedOne(before, list, EndpointsOf(failed, endpoint), endpoint[h], now);
      EndpointsOfOne(failed, endpoint, h);
    }

    lemma CandidatesAre(filterListed: bool)
      requires Core()
      ensures Candidates(filterListed) <= pool.Keys && Candidates(filterListed) <= endpoint.Keys == uses.Keys
      ensures forall h :: h in Candidates(filterListed) ==> Idle(h)
    {}

    /** These of the candidates have failed, and the others are still to be tried. */
    ghost predicate Trying(all: map<Handle, SessData>, before: map<Endpoint, nat>, candidates: set<Handle>,
                           avail: seq<Handle>, failed: set<Handle>)
      reads this
    {
      && Core() && Distinct(avail) && failed <= candidates <= endpoint.Keys && candidates <= all.Keys
      && Elements(avail) == candidates - failed && pool == all - failed && ListedAlso(before, failed)
      && (forall h :: h in candidates ==> h in uses && uses[h] == 0)
    }

    method TryNext(avail: seq<Handle>, pick: nat, cleanup: Option<nat>, ghost all: map<Handle, SessData>,
                   ghost before: map<Endpoint, nat>, ghost candidates: set<Handle>, ghost failed: set<Handle>)
        returns (good: bool, rest: seq<Handle>)
      requires Trying(all, before, candidates, avail, failed) && pick < |avail|
      modifies this`pool, this`blockList, this`uses
      ensures Core() && avail[pick] in candidates - failed && avail[pick] in all
      ensures good ==> ListedAlso(before, failed) && uses == old(uses)[avail[pick] := 1]
      ensures good ==> pool == (all - failed)[avail[pick] := all[avail[pick]].(cleanup := cleanup)]
      ensures !good ==> Trying(all, before, candidates, rest, failed + {avail[pick]}) && uses == old(uses)
      ensures |rest| < |avail|
    {
      hide Elements, Distinct, EndpointsOf, Added;
      var h := avail[pick];
      ElementsHave(avail, pick);
      ghost var list := blockList;
      good := TrySession(h, cleanup);
      rest := Erased(avail, pick);
      if !good {
        ListedOne(before, list, failed, h);
        MinusOne(all, failed, h);
      }
    }

    lemma AllTried(all: map<Handle, SessData>, before: map<Endpoint, nat>, candidates: set<Handle>, failed: set<Handle>)
      requires Trying(all, before, candidates, [], failed)
      ensures Core() && failed == candidates && pool == all - failed && ListedAlso(before, failed)
    {
      ElementsNone<Handle>();
    }

    /** Try idle sessions in random order until one is good. */
    method GetPooledSession(filterListed: bool, cleanup: Option<nat>)
        returns (got: Option<Handle>, ghost failed: set<Handle>)
      requires Core()
      modifies this`pool, this`blockList, this`uses
      ensures Core() && failed <= old(Candidates(filterListed)) && ListedAlso(old(blockList), failed)
      ensures got.None? ==> failed == old(Candidates(filterListed)) && pool == old(pool) - failed && uses == old(uses)
      ensures got.Some? ==> var h := got.value;
        h in old(Candidates(filterListed)) - failed && uses == old(uses)[h := 1] &&
        pool == (old(pool) - failed)[h := old(pool)[h].(cleanup := cleanup)] &&
          Handed(pool, h, cleanup, old(pool), failed)
    {
      hide Core, Candidates, Trying, ListedAlso, Handed;
      ghost var candidates := Candidates(filterListed);
      CandidatesAre(filterListed);
      var avail := FindAvailable(filterListed);
      failed := {};
      StartTrying(old(pool), old(blockList), candidates, avail);
      while avail != []
        invariant Trying(old(pool), old(blockList), candidates, avail, failed) && uses == old(uses) &&
          failed <= candidates
        decreases |avail|
      {
        var pick: nat :| pick < |avail|;
        var h := avail[pick];
        var good, rest := TryNext(avail, pick, cleanup, old(pool), old(blockList), candidates, failed);
        if good {
          HandedOver(old(pool), failed, h, old(pool)[h].(cleanup := cleanup));
          return Some(h), failed;
        }
        avail, failed := rest, failed + {h};
      }
      AllTried(old(pool), old(blockList), candidates, failed);
      got := None;
    }

    /** A new session on an end-point that is not on the list, or on any. */
    method Connect(filterListed: bool) returns (got: Option<Handle>)
      requires Core()
      modifies this`endpoint, this`uses
      ensures Core()
      ensures got.None? ==> endpoint == old(endpoint) && uses == old(uses)
      ensures got.Some? ==> Opened(got.value, old(endpoint), old(uses))
      ensures got.Some? && filterListed ==> !Listed(endpoint[got.value])
    {
      var connected, e := *, *;
      if !connected || (filterListed && Listed(e)) {
        return None;
      }
      var h := Unused(endpoint.Keys);
      endpoint, uses := endpoint[h := e], uses[h := 1];
      got := Some(h);
    }

    predicate Opened(h: Handle, endpoints: map<Handle, Endpoint>, pointers: map<Handle, nat>)
      reads this`endpoint, this`uses
    {
      h !in endpoints && h in endpoint && endpoint == endpoints[h := endpoint[h]] && uses == pointers[h := 1]
    }

    /** A new session becomes part of the pool. */
    method NewSession(filterListed: bool, cleanup: Option<nat>, ghost all: map<Handle, SessData>,
                      ghost before: map<Endpoint, nat>, ghost failed: set<Handle>)
        returns (got: Option<Handle>)
      requires Core() && |pool| < max && failed <= endpoint.Keys && ListedAlso(before, failed) && pool == all - failed
      modifies this`pool, this`endpoint, this`uses
      ensures Core() && failed <= endpoint.Keys && ListedAlso(before, failed)
      ensures got.None? ==> endpoint == old(endpoint) && uses == old(uses) && pool == old(pool)
      ensures got.Some? ==>
        Opened(got.value, old(endpoint), old(uses)) && pool == old(pool)[got.value := SessData(None, cleanup)]
      ensures got.Some? ==> Handed(pool, got.value, cleanup, all, failed)
      ensures got.Some? && filterListed ==> !Listed(endpoint[got.value])
    {
      hide Added, EndpointsOf, Handed;
      got := Connect(filterListed);
      EndpointsKnown(failed, old(endpoint), endpoint);
      if got.Some? {
        HandedOver(all, failed, got.value, SessData(None, cleanup));
        assert pool[got.value := SessData(None, cleanup)].Keys == pool.Keys + {got.value};
        pool := pool[got.value := SessData(None, cleanup)];
      }
    }

    /** One round: an idle session, or else a new one if there is room. */
    method Attempt(filterListed: bool, cleanup: Option<nat>) returns (got: Option<Handle>, ghost failed: set<Handle>)
      requires Core()
      modifies this`pool, this`blockList, this`endpoint, this`uses
      ensures Core() && failed <= old(Candidates(filterListed)) && failed <= endpoint.Keys
      ensures ListedAlso(old(blockList), failed)
      ensures got.None? ==> failed == old(Candidates(filterListed)) && pool == old(pool) - failed
      ensures got.None? ==> uses == old(uses) && endpoint == old(endpoint)
      ensures got.Some? ==> uses == old(uses)[got.value := 1] && Handed(pool, got.value, cleanup, old(pool), failed)
      ensures got.Some? ==>
        (got.value in old(Candidates(filterListed)) - failed && endpoint == old(endpoint)) ||
        (failed == old(Candidates(filterListed)) && |old(pool) - failed| < max &&
          Opened(got.value, old(endpoint), old(uses)) &&
         (filterListed ==> !Listed(endpoint[got.value])))
    {
      hide Core, Candidates, ListedAlso, OnList, Handed;
      CandidatesAre(filterListed);
      got, failed := GetPooledSession(filterListed, cleanup);
      if got.None? && |pool| < max {
        got := NewSession(filterListed, cleanup, old(pool), old(blockList), failed);
      }
    }

    /** A round on good end-points, and one on any. */
    method TwoRounds(cleanup: Option<nat>) returns (got: Option<Handle>, ghost failed: set<Handle>)
      requires Core()
      modifies this`pool, this`blockList, this`endpoint, this`uses
      ensures Core() && failed <= old(Candidates(false)) && failed <= endpoint.Keys &&
        ListedAlso(old(blockList), failed)
      ensures got.None? ==> failed == old(Candidates(false)) && pool == old(pool) - failed
      ensures got.None? ==> uses == old(uses) && endpoint == old(endpoint)
      ensures got.Some? ==> uses == old(uses)[got.value := 1] && Handed(pool, got.value, cleanup, old(pool), failed)
      ensures got.Some? ==>
        got.value in old(Candidates(false)) - failed || (got.value !in old(uses) && |old(pool) - failed| < max)
      ensures got.Some? ==> got.value in old(Candidates(true)) || old(Candidates(true)) <= failed
    {
      hide Core, Available, Added, Handed;
      GoodOnesFirst();
      CandidatesAre(true);
      got, failed := Attempt(true, cleanup);
      if got.None? {
        ghost var first, middle, left, known := failed, blockList, pool, endpoint;
        AvailableWithout(old(pool), uses, endpoint, None, now, first);
        ghost var second;
        got, second := Attempt(false, cleanup);
        failed := first + second;
        ListedTwice(old(blockList), middle, blockList, first, second, known, endpoint, now);
        MinusBoth(old(pool), first, second);
        HandedTwice(old(pool), first, left, second, cleanup, got);
      }
    }

    /**
      A session from the pool: an idle one, preferably on a good end-point, or a new one if there is
      room. There is none exactly when the pool is full and all of its sessions are in use.
     */
    method Serve(cleanup: Option<nat>) returns (got: Got, ghost failed: set<Handle>)
      requires Core()
      modifies this`pool, this`blockList, this`endpoint, this`uses
      ensures Core() && failed <= old(Candidates(false)) && failed <= endpoint.Keys && failed !! pool.Keys
      ensures ListedAlso(old(blockList), failed)
      ensures got.Busy? <==> |old(pool)| == max && old(Candidates(false)) == {}
      ensures got.Busy? ==> pool == old(pool)
      ensures !got.Got? ==> uses == old(uses) && endpoint == old(endpoint)
      ensures got.Got? ==> uses == old(uses)[got.session := 1]
      ensures got.Got? ==> got.session in old(Candidates(false)) || got.session !in old(uses)
      ensures got.Got? ==> got.session in pool && pool[got.session].cleanup == cleanup
      ensures got.Got? ==> got.session in old(Candidates(true)) || old(Candidates(true)) - old(Expired()) <= failed
      ensures got.Threw? ==> |pool| < max && old(Candidates(false)) - old(Expired()) == failed
      ensures old(pool).Keys - old(Candidates(false)) <= pool.Keys
    {
      hide Core, Available, Added, EndpointsOf, Expired, Handed;
      CandidatesAre(false);
      GoodOnesFirst();
      ExpiredAreIdle();
      ghost var gone := Expired();
      AvailableWithout(pool, uses, endpoint, None, now, gone);
      AvailableWithout(pool, uses, endpoint, Some(blockList), now, gone);
      NothingGone(pool, gone);
      TimeToLiveCleanup();
      ghost var kept := pool;
      var h;
      h, failed := TwoRounds(cleanup);
      if h.Some? {
        HandedMeans(pool, h.value, cleanup, kept, failed);
        got := Got(h.value);
      } else {
        NothingGone(kept, failed);
        got := if |pool| < max then Threw else Busy;
      }
    }

    method GetSession(cleanup: Option<nat>) returns (got: Got, ghost failed: set<Handle>)
      requires Core()
      modifies this`pool, this`blockList, this`endpoint, this`uses
      ensures Core() && failed <= old(Candidates(false)) && failed !! pool.Keys
      ensures got.Busy? <==> enabled && !closed && |old(pool)| == max && old(Candidates(false)) == {}
      ensures got.Busy? ==> pool == old(pool)
      ensures got.Got? ==> uses == old(uses)[got.session := 1]
      ensures got.Got? ==> got.session in old(Candidates(false)) || got.session !in old(uses)
      ensures got.Got? && enabled ==> !closed && got.session in pool && pool[got.session].cleanup == cleanup
      ensures !got.Got? ==> uses == old(uses)
      ensures old(pool).Keys - old(Candidates(false)) <= pool.Keys
    {
      hide Available, Added, EndpointsOf;
      if !enabled {
        var h := Connect(false);
        got, failed := if h.Some? then Got(h.value) else Threw, {};
      } else if closed {
        got, failed := Threw, {};
      } else {
        got, failed := Serve(cleanup);
      }
    }

    /** A client gives its session back. */
    method ReleaseSession(client: PooledSession)
      requires Valid() && client in clients && client.held.Some?
      modifies this`pool, this`uses, this`owner, client
      ensures Valid() && clients == old(clients)
      ensures closed ==> client.held == old(client.held) && pool == old(pool)
      ensures !closed ==> client.held == None && uses == old(uses)[old(client.held).value := 0]
      ensures !closed && old(client.held).value in old(pool) ==>
        old(client.held).value in pool && pool[old(client.held).value] == SessData(Some(now + timeToLive), None)
    {
      hide Core, Counted, Linked, Expired;
      if closed {
        return;
      }
      var h := client.held.value;
      Touch(h);
      GiveUp(client, h);
      DropExpired(h);
    }

    lemma FreshStays(h: Handle)
      ensures var left := pool - Expired();
        h in pool && pool[h].deadline == Some(now + timeToLive) ==> h in left && left[h] == pool[h]
    {}

    /** A session that was just given back stays. */
    method DropExpired(h: Handle)
      requires Core() && Held()
      modifies this`pool
      ensures Core() && Held()
      ensures h in old(pool) && old(pool[h]).deadline == Some(now + timeToLive) ==> h in pool && pool[h] == old(pool[h])
    {
      hide Core, Counted, Linked, Expired, Covers;
      FreshStays(h);
      ExpiredAreFree();
      TimeToLiveCleanup();
    }

    /** The client holds a session that nobody else holds. */
    method Lend(client: PooledSession, h: Handle, ghost before: map<Handle, nat>)
      requires Core() && Linked() && Counted(before, owner) && client in clients && client.held == None
      requires uses == before[h := 1] && (h in before ==> before[h] == 0)
      requires enabled && !closed ==> Covers(pool, owner) && h in pool
      modifies this`owner, client`held
      ensures Core() && Held() && client.held == Some(h)
    {
      client.held := Some(h);
      owner := owner[h := client];
    }

    /** From now on the session counts as idle, and nobody needs to be told when it is closed. */
    method Touch(h: Handle)
      requires Core() && Held()
      modifies this`pool
      ensures Core() && Held() &&
        pool == if h in old(pool) then old(pool)[h := SessData(Some(now + timeToLive), None)] else old(pool)
    {
      hide Counted, Linked;
      if h in pool {
        SameSize(pool, h, SessData(Some(now + timeToLive), None));
        pool := pool[h := SessData(Some(now + timeToLive), None)];
      }
    }

    lemma ExpiredAreFree()
      requires Counted(uses, owner)
      ensures Covers(pool, owner) ==> Covers(pool - Expired(), owner)
    {}

    method GiveUp(client: PooledSession, h: Handle)
      requires Core() && Held() && client in clients && client.held == Some(h)
      modifies this`uses, this`owner, client
      ensures Core() && Held() && client.held == None && uses == old(uses)[h := 0] && owner == old(owner) - {h}
    {
      hide Counted, Covers;
      assert owner[h] == client;
      OneLess(uses, owner, h);
      ghost var rest := owner - {h};
      assert forall g :: g in rest ==> g in owner && rest[g] == owner[g] && rest[g] != client;
      client.held := None;
      uses := uses[h := uses[h] - 1];
      owner := rest;
      forall c | c in clients && c.held.Some?
        ensures c.held.value in rest && rest[c.held.value] == c
      {
        assert c != client && c.held.value != h;
      }
    }

    method Close()
      requires Valid()
      modifies this`pool, this`closed
      ensures Valid() && closed && pool == map[] && clients == old(clients)
    {
      pool, closed := map[], true;
    }

    /** Time passes between calls. */
    method Wait(seconds: nat)
      requires Valid()
      modifies this`now
      ensures Valid() && now == old(now) + seconds && clients == old(clients)
    {
      now := now + seconds;
    }

    lemma NothingLent(before: map<Handle, nat>)
      requires Linked() && Counted(before, owner) && uses == before && (enabled && !closed ==> Covers(pool, owner))
      ensures Held()
    {}

    lemma AllHeld()
      requires Valid()
      ensures enabled && !closed ==> (Candidates(false) == {} <==> owner.Keys == pool.Keys)
      ensures owner.Keys !! Candidates(false) && forall h :: h in Candidates(false) ==> h in uses && uses[h] == 0
    {
      if enabled && !closed && Candidates(false) == {} {
        forall h | h in pool
          ensures h in owner
        {
          assert h !in Candidates(false);
        }
      }
    }

    lemma ExpiredAreIdle()
      requires Core()
      ensures Expired() <= Candidates(false) && Expired() <= pool.Keys && |pool| <= max
    {}

    lemma GoodOnesFirst()
      requires Core()
      ensures Candidates(true) <= Candidates(false)
    {}

    lemma HandedTwice(all: map<Handle, SessData>, first: set<Handle>, left: map<Handle, SessData>, second: set<Handle>,
                      cleanup: Option<nat>, got: Option<Handle>)
      requires left == all - first
      requires got.Some? ==> Handed(pool, got.value, cleanup, left, second)
      ensures got.Some? ==> Handed(pool, got.value, cleanup, all, first + second)
    {}

    lemma StartTrying(all: map<Handle, SessData>, before: map<Endpoint, nat>, candidates: set<Handle>,
        avail: seq<Handle>)
      requires Core() && Distinct(avail) && Elements(avail) == candidates && pool == all && ListedAlso(before, {})
      requires candidates <= all.Keys && forall h :: h in candidates ==> Idle(h)
      ensures Trying(all, before, candidates, avail, {})
    {
      assert all - {} == all;
    }
  }

  /** The pool after a session was given out: without the failed ones, and with the cleanup handler installed. */
  ghost predicate Handed(pool: map<Handle, SessData>, h: Handle, cleanup: Option<nat>, before: map<Handle, SessData>,
                         failed: set<Handle>) {
    h in pool && pool[h].cleanup == cleanup && pool.Keys == before.Keys - failed + {h}
  }

  lemma SameSize<K, V>(m: map<K, V>, k: K, v: V)
    requires k in m
    ensures |m[k := v]| == |m|
  {
    assert m[k := v].Keys == m.Keys;
  }

  lemma NothingGone<K, V>(m: map<K, V>, gone: set<K>)
    requires gone <= m.Keys
    ensures |m - gone| == |m| - |gone|
    ensures |m - gone| >= |m| ==> gone == {} && m - gone == m
  {
    assert (m - gone).Keys == m.Keys - gone;
    assert m.Keys == (m.Keys - gone) + gone;
  }

  lemma MinusBoth<K, V>(m: map<K, V>, first: set<K>, second: set<K>)
    ensures m - first - second == m - (first + second)
  {}

  lemma HandedMeans(pool: map<Handle, SessData>, h: Handle, cleanup: Option<nat>, before: map<Handle, SessData>,
      failed: set<Handle>)
    requires Handed(pool, h, cleanup, before, failed)
    ensures h in pool && pool[h].cleanup == cleanup && before.Keys - failed <= pool.Keys
    ensures h !in failed ==> failed !! pool.Keys
  {}

  lemma HandedOver(before: map<Handle, SessData>, failed: set<Handle>, h: Handle, data: SessData)
    ensures Handed((before - failed)[h := data], h, data.cleanup, before, failed)
  {}

  /** The sessions in the pool that nobody uses and whose end-points are not on the list, if one is given. */
  ghost function Available(pool: map<Handle, SessData>, uses: map<Handle, nat>, endpoint: map<Handle, Endpoint>,
                           list: Option<map<Endpoint, nat>>, now: nat): set<Handle>
  {
    set h | h in pool && h in uses && uses[h] == 0 &&
      (list.Some? && h in endpoint ==> !OnList(list.value, endpoint[h], now))
  }

  lemma AvailableWithout(pool: map<Handle, SessData>, uses: map<Handle, nat>, endpoint: map<Handle, Endpoint>,
                         list: Option<map<Endpoint, nat>>, now: nat, gone: set<Handle>)
    ensures Available(pool - gone, uses, endpoint, list, now) == Available(pool, uses, endpoint, list, now) - gone
  {}

  lemma ListedTwice(before: map<Endpoint, nat>, middle: map<Endpoint, nat>, after: map<Endpoint, nat>,
                    first: set<Handle>, second: set<Handle>, known: map<Handle, Endpoint>,
                    endpoint: map<Handle, Endpoint>, now: nat)
    requires first <= known.Keys && first + second <= endpoint.Keys
    requires forall h :: h in known ==> h in endpoint && endpoint[h] == known[h]
    requires Added(before, middle, EndpointsOf(first, known), now) &&
      Added(middle, after, EndpointsOf(second, endpoint), now)
    ensures Added(before, after, EndpointsOf(first + second, endpoint), now)
  {
    hide Added, EndpointsOf;
    EndpointsKnown(first, known, endpoint);
    EndpointsOfBoth(first, second, endpoint);
    AddedBoth(before, middle, after, EndpointsOf(first, endpoint), EndpointsOf(second, endpoint), now);
  }

  ghost predicate Counted(uses: map<Handle, nat>, owner: map<Handle, PooledSession>) {
    owner.Keys <= uses.Keys && forall h :: h in uses ==> uses[h] <= 1 && (uses[h] == 1 <==> h in owner)
  }

  /** Every session that is held is in the pool. */
  ghost predicate Covers(pool: map<Handle, SessData>, owner: map<Handle, PooledSession>) {
    forall h :: h in owner ==> h in pool
  }

  lemma OneLess(uses: map<Handle, nat>, owner: map<Handle, PooledSession>, h: Handle)
    requires Counted(uses, owner) && h in owner
    ensures h in uses && uses[h] == 1 && Counted(uses[h := 0], owner - {h})
    ensures forall pool :: Covers(pool, owner) ==> Covers(pool, owner - {h})
  {}

  predicate OnList(list: map<Endpoint, nat>, e: Endpoint, now: nat) {
    e in list && now < list[e]
  }

  ghost function EndpointsOf(sessions: set<Handle>, endpoint: map<Handle, Endpoint>): set<Endpoint>
    requires sessions <= endpoint.Keys
  {
    set h | h in sessions :: endpoint[h]
  }

  ghost predicate Added(before: map<Endpoint, nat>, after: map<Endpoint, nat>, more: set<Endpoint>, now: nat) {
    && (forall e :: OnList(after, e, now) <==> OnList(before, e, now) || e in more)
    && (forall e :: e in more ==> e in after && after[e] == now + BLOCK_SECONDS)
    && (forall e :: OnList(before, e, now) && e !in more ==> e in after && after[e] == before[e])
  }

  lemma AddedOne(before: map<Endpoint, nat>, after: map<Endpoint, nat>, more: set<Endpoint>, e: Endpoint, now: nat)
    requires Added(before, after, more, now)
    ensures Added(before, after[e := now + BLOCK_SECONDS], more + {e}, now)
  {
    var last := after[e := now + BLOCK_SECONDS];
    forall f
      ensures OnList(last, f, now) <==> OnList(before, f, now) || f in more + {e}
    {
      assert f != e ==> (OnList(last, f, now) <==> OnList(after, f, now));
    }
  }

  lemma NoneAdded(list: map<Endpoint, nat>, now: nat)
    ensures Added(list, list, {}, now)
  {}

  lemma AddedLess(before: map<Endpoint, nat>, list: map<Endpoint, nat>, e: Endpoint, now: nat)
    requires Added(before, list, {}, now)
    ensures OnList(list, e, now) <==> OnList(before, e, now)
    ensures !OnList(list, e, now) ==> Added(before, list - {e}, {}, now)
  {
    if !OnList(list, e, now) {
      forall f
        ensures OnList(list - {e}, f, now) <==> OnList(list, f, now)
      {}
    }
  }

  lemma AddedBoth(before: map<Endpoint, nat>, middle: map<Endpoint, nat>, after: map<Endpoint, nat>,
                  first: set<Endpoint>, second: set<Endpoint>, now: nat)
    requires Added(before, middle, first, now) && Added(middle, after, second, now)
    ensures Added(before, after, first + second, now)
  {
    forall e | e in first
      ensures e in after && after[e] == now + BLOCK_SECONDS
    {
      assert OnList(middle, e, now);
    }
  }

  lemma EndpointsOfBoth(first: set<Handle>, second: set<Handle>, endpoint: map<Handle, Endpoint>)
    requires first + second <= endpoint.Keys
    ensures EndpointsOf(first + second, endpoint) == EndpointsOf(first, endpoint) + EndpointsOf(second, endpoint)
  {}

  lemma EndpointsKnown(sessions: set<Handle>, endpoint: map<Handle, Endpoint>, more: map<Handle, Endpoint>)
    requires sessions <= endpoint.Keys && sessions <= more.Keys
    requires forall h :: h in endpoint ==> h in more && more[h] == endpoint[h]
    ensures EndpointsOf(sessions, more) == EndpointsOf(sessions, endpoint)
  {}

  lemma EndpointsOfOne(sessions: set<Handle>, endpoint: map<Handle, Endpoint>, h: Handle)
    requires sessions <= endpoint.Keys && h in endpoint
    ensures EndpointsOf(sessions + {h}, endpoint) == EndpointsOf(sessions, endpoint) + {endpoint[h]}
  {}

  /** A number that is not taken. */
  method Unused(taken: set<nat>) returns (n: nat)
    ensures n !in taken
  {
    n := 0;
    var rest := taken;
    while rest != {}
      invariant forall k :: k in taken && k !in rest ==> k < n
      decreases rest
    {
      var k :| k in rest;
      n := if n <= k then k + 1 else n;
      rest := rest - {k};
    }
  }

  lemma ElementsNone<T>()
    ensures Elements<T>([]) == {}
  {}

  lemma MinusOne<K, V>(m: map<K, V>, gone: set<K>, k: K)
    ensures (m - gone) - {k} == m - (gone + {k})
  {}

  lemma ElementsHave<T>(s: seq<T>, k: nat)
    requires k < |s|
    ensures s[k] in Elements(s)
  {}

  function Erased<T(==)>(s: seq<T>, k: nat): (rest: seq<T>)
    requires k < |s|
    ensures |rest| == |s| - 1
    ensures Distinct(s) ==> Distinct(rest) && Elements(rest) == Elements(s) - {s[k]}
  {
    assert s == s[..k] + [s[k]] + s[k + 1..];
    s[..k] + s[k + 1..]
  }

  lemma SmallerWithout<K, V>(m: map<K, V>, k: K)
    requires k in m
    ensures |m - {k}| == |m| - 1
  {
    assert (m - {k}).Keys == m.Keys - {k};
  }

  /** A session that was given back is dropped exactly if it was idle for longer than the time to live. */
  method IdleFor(pool: Pool, client: PooledSession, seconds: nat) returns (kept: bool)
    requires pool.Valid() && client in pool.clients && client.held.Some? && !pool.closed
    requires client.held.value in pool.pool
    modifies pool`pool, pool`uses, pool`owner, pool`now, client
    ensures kept == (old(client.held).value in pool.pool)
    ensures kept <==> seconds <= pool.timeToLive
  {
    hide Pool.Held, Counted, Covers;
    var h := client.held.value;
    pool.ReleaseSession(client);
    pool.Wait(seconds);
    pool.TimeToLiveCleanup();
    kept := h in pool.pool;
  }

  /** An end-point is avoided for less than sixty seconds after a session on it has failed. */
  method AvoidedFor(pool: Pool, e: Endpoint, seconds: nat) returns (listed: bool)
    requires pool.Valid()
    modifies pool`blockList, pool`now
    ensures listed <==> seconds < 60
  {
    pool.Add(e);
    pool.Wait(seconds);
    listed := pool.IsBlockListed(e);
  }

  class PooledSession {
    const pool: Pool
    var held: Option<Handle>

    constructor (pool: Pool)
      requires pool.Valid()
      modifies pool`clients
      ensures pool.Valid() && this.pool == pool && held == None && pool.clients == old(pool.clients) + {this}
    {
      this.pool, held := pool, None;
      new;
      pool.clients := pool.clients + {this};
    }

    /** One try to get a session; the answer is that there is none exactly if the pool is full and all is in use. */
    method DoCont(cleanup: Option<nat>) returns (got: Got)
      requires pool.Valid() && this in pool.clients
      modifies this`held, pool`pool, pool`blockList, pool`endpoint, pool`uses, pool`owner
      ensures pool.Valid() && pool.clients == old(pool.clients)
      ensures got.Got? <==> held.Some?
      ensures got.Got? ==> held == Some(got.session)
      ensures got.Busy? <==>
        old(held) == None && pool.enabled && !pool.closed && |old(pool.pool)| == pool.max &&
          old(pool.owner).Keys == old(pool.pool).Keys
      ensures old(held).Some? ==> held == old(held)
    {
      if held.Some? {
        return Got(held.value);
      }
      hide Pool.Core, Pool.Candidates, Counted, Pool.Linked;
      pool.AllHeld();
      ghost var failed;
      got, failed := pool.GetSession(cleanup);
      if got.Got? {
        pool.Lend(this, got.session, old(pool.uses));
      } else {
        pool.NothingLent(old(pool.uses));
      }
    }

    method Release()
      requires pool.Valid() && this in pool.clients
      modifies this, pool`pool, pool`uses, pool`owner
      ensures pool.Valid() && pool.clients == old(pool.clients)
      ensures !pool.closed ==> held == None
    {
      if held.Some? {
        pool.ReleaseSession(this);
      }
    }
  }
}
