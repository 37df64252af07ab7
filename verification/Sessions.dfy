/**
 * Sessions and the slots they hold: `handleUpgrade`, `openSession`, `promote`, `closeSession`
 * and the teardown in `stop` of packages/core/src/server.ts, with the states of
 * packages/core/src/session.ts.
 *
 * The hub's methods keep the guard's books: the guard's `holders` are exactly the hub's
 * sessions and its `waiting` exactly those not yet promoted, so every release the guard is
 * asked for is one it has counted.
 */
module Sessions {
  import opened Basics
  import opened Guard

  datatype SessionState = Handshake | Ready | Closed

  class Session {
    const id: nat
    const ip: string
    var state: SessionState
    var promoted: bool

    constructor (id: nat, ip: string)
      ensures this.id == id && this.ip == ip && state == Handshake && !promoted
    {
      this.id := id;
      this.ip := ip;
      state := Handshake;
      promoted := false;
    }

    /** `close` and `destroy`: the socket's own close event comes later. */
    method Close()
      modifies this
      ensures state == Closed && promoted == old(promoted)
    {
      state := Closed;
    }
  }

  class Hub {
    const guard: Guard
    var sessions: map<nat, Session>
    var nextId: nat

    ghost predicate Valid()
      reads this, guard, guard.store, sessions.Values
    {
      guard.Valid() && Books(guard.holders, guard.waiting)
    }

    /** The guard's books agree with the sessions. */
    ghost predicate Books(holders: map<nat, string>, waiting: set<nat>)
      reads this, sessions.Values
    {
      waiting <= holders.Keys == sessions.Keys && forall id :: id in sessions ==> Booked(id, holders, waiting)
    }

    ghost predicate Booked(id: nat, holders: map<nat, string>, waiting: set<nat>)
      requires id in sessions
      reads this, sessions.Values
    {
      && id < nextId && sessions[id].id == id
      && id in holders && holders[id] == sessions[id].ip
      && (id in waiting <==> !sessions[id].promoted)
      && (sessions[id].state == Handshake ==> !sessions[id].promoted)
      && (sessions[id].state == Ready ==> sessions[id].promoted)
    }

    constructor (guard: Guard)
      requires guard.Valid() && guard.holders == map[]
      ensures Valid() && this.guard == guard && sessions == map[]
    {
      this.guard := guard;
      sessions := map[];
      nextId := 0;
    }

    /**
     * `completes` says whether the WebSocket library finishes the upgrade; a slot already
     * charged for one it abandons is given back at once.
     */
    method HandleUpgrade(ip: string, now: int, completes: bool) returns (verdict: Verdict, session: Option<Session>)
      requires Valid() && now >= guard.clock
      modifies this, guard`ips, guard`unauthenticated, guard`clock, guard`log, guard`holders, guard`waiting
      ensures Valid()
      ensures session.Some? <==> verdict == Allowed && completes
      ensures session.Some? ==> fresh(session.value) && session.value.state == Handshake && session.value.ip == ip
      ensures session.Some? ==>
        sessions == old(sessions)[session.value.id := session.value] && session.value.id !in old(sessions)
      ensures session.None? ==> sessions == old(sessions)
    {
      session := None;
      var id := nextId;
      ghost var holders, waiting := guard.holders, guard.waiting;
      assert id !in sessions;
      verdict := guard.Admit(ip, now, id);
      if verdict != Allowed { return; }
      session := Upgrade(id, ip, completes, holders, waiting);
    }

    method Upgrade(id: nat, ip: string, completes: bool, ghost holders: map<nat, string>, ghost waiting: set<nat>)
      returns (session: Option<Session>)
      requires guard.Valid() && Books(holders, waiting) && id == nextId
      requires guard.holders == holders[id := ip] && guard.waiting == waiting + {id}
      modifies this, guard`ips, guard`unauthenticated, guard`holders, guard`waiting
      ensures Valid()
      ensures if completes then
          && session.Some? && fresh(session.value) && session.value.state == Handshake && session.value.ip == ip
          && id !in old(sessions) && session.value.id == id && sessions == old(sessions)[id := session.value]
        else session == None && sessions == old(sessions)
    {
      if completes {
        var s := OpenSession(id, ip, holders, waiting);
        session := Some(s);
      } else {
        assert id !in holders && id !in waiting;
        guard.Release(ip, false, id);
        assert guard.holders == holders && guard.waiting == waiting;
        session := None;
      }
    }

    method OpenSession(id: nat, ip: string, ghost holders: map<nat, string>, ghost waiting: set<nat>)
      returns (session: Session)
      requires id == nextId && Books(holders, waiting)
      modifies this
      ensures Books(holders[id := ip], waiting + {id})
      ensures fresh(session) && session.id == id && session.ip == ip && session.state == Handshake
      ensures id !in old(sessions) && sessions == old(sessions)[id := session]
    {
      nextId := nextId + 1;
      session := new Session(id, ip);
      ghost var before := sessions;
      sessions := sessions[id := session];
      forall other | other in sessions
        ensures Booked(other, holders[id := ip], waiting + {id})
      {
        assert other == id || other in before;
      }
    }

    ghost predicate Live(session: Session)
      reads this
    {
      session.id in sessions && sessions[session.id] == session
    }

    /** In every reachable state both counters are the numbers of sessions they stand for. */
    lemma CountersAreExact(ip: string)
      requires Valid()
      ensures guard.unauthenticated == |set id | id in sessions && !sessions[id].promoted|
      ensures Concurrent(guard.ips, ip) == |set id | id in sessions && sessions[id].ip == ip|
    {
      assert forall id :: id in sessions ==> Booked(id, guard.holders, guard.waiting);
      assert guard.waiting == set id | id in sessions && !sessions[id].promoted;
      assert HeldBy(guard.holders, ip) == set id | id in sessions && sessions[id].ip == ip;
    }

    /** The end of a successful handshake, taken as one step: the session is still open. */
    method Promote(session: Session)
      requires Valid() && Live(session) && session.state == Handshake
      modifies session, guard`unauthenticated, guard`waiting
      ensures Valid() && session.state == Ready && session.promoted
      ensures guard.unauthenticated == old(guard.unauthenticated) - 1
    {
      ghost var id := session.id;
      ghost var holders, waiting := guard.holders, guard.waiting;
      assert Booked(id, holders, waiting);
      session.state := Ready;
      if !session.promoted {
        session.promoted := true;
        guard.Promote(id);
      }
      forall other | other in sessions
        ensures Booked(other, guard.holders, guard.waiting)
      {
        assert sessions[other].id == other;
      }
    }

    /** The hub closes a socket itself; its slot stays taken until the close event. */
    method HangUp(session: Session)
      requires Valid() && Live(session)
      modifies session
      ensures Valid() && session.state == Closed
      ensures guard.holders == old(guard.holders) && guard.waiting == old(guard.waiting)
    {
      assert Booked(session.id, guard.holders, guard.waiting);
      session.Close();
      forall other | other in sessions
        ensures Booked(other, guard.holders, guard.waiting)
      {
        assert sessions[other].id == other;
      }
    }

    /** A socket's `close` or `error` event: either, both, or after the teardown. */
    method CloseSession(session: Session)
      requires Valid() && (session.id in sessions ==> Live(session))
      modifies this`sessions, session, guard`ips, guard`unauthenticated, guard`holders, guard`waiting
      ensures Valid() && sessions == old(sessions) - {session.id}
      ensures session.id in old(sessions) ==> session.state == Closed
    {
      if session.id !in sessions { return; }
      var id := session.id;
      ghost var holders, waiting := guard.holders, guard.waiting;
      assert Booked(id, holders, waiting);
      sessions := sessions - {id};
      session.state := Closed;
      guard.Release(session.ip, session.promoted, id);
      forall other | other in sessions
        ensures Booked(other, guard.holders, guard.waiting)
      {
        assert sessions[other].id == other;
      }
    }

    /** `stop`: torn down here, so that no slot outlives the sessions it was taken for. */
    method Stop()
      requires Valid()
      modifies this`sessions, sessions.Values, guard`ips, guard`unauthenticated, guard`holders, guard`waiting
      ensures Valid() && sessions == map[]
      ensures guard.unauthenticated == 0 && forall ip :: Concurrent(guard.ips, ip) == 0
    {
      ghost var all := sessions.Values;
      var left := sessions.Keys;
      while left != {}
        invariant Valid() && sessions.Keys == left && sessions.Values <= all
        decreases left
      {
        var id :| id in left;
        TearDown(id);
        left := left - {id};
      }
      NobodyHolds();
    }

    method TearDown(id: nat)
      requires Valid() && id in sessions
      modifies this`sessions, sessions[id], guard`ips, guard`unauthenticated, guard`holders, guard`waiting
      ensures Valid() && sessions == old(sessions) - {id} && old(sessions[id]).state == Closed
    {
      var session := sessions[id];
      assert Booked(id, guard.holders, guard.waiting);
      HangUp(session);
      CloseSession(session);
    }

    lemma NobodyHolds()
      requires Valid() && sessions == map[]
      ensures guard.unauthenticated == 0 && forall ip :: Concurrent(guard.ips, ip) == 0
    {
      forall ip: string
        ensures Concurrent(guard.ips, ip) == 0
      {
        assert HeldBy(guard.holders, ip) == {};
      }
    }
  }
}
