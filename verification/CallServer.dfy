/** Joins, leaves and ends as one request runs them when no other is in between. */
module CallServer {
  import opened Prelude
  import opened CallOccupancy
  import opened CallLifecycle
  import opened CallRules

  class CallServer {
    var sessions: map<Call, Session>
    const store: CallOccupancyStore
    ghost var admitted: set<Entry>

    ghost function State(): State
      reads this, store
    {
      CallLifecycle.State(sessions, store.present, map[], admitted)
    }

    ghost predicate Valid()
      reads this, store
    {
      store.Valid() && admitted <= store.present
    }

    constructor ()
      ensures Valid() && fresh(store) && State() == EMPTY
    {
      sessions, admitted := map[], {};
      store := new CallOccupancyStore();
    }

    /** The transaction of a join. */
    method OpenSessionRow(room: Room, call: Call, user: User, now: int) returns (r: Result<bool, Error>)
      modifies this`sessions
      ensures r.Ok? == OpenSession(old(sessions), room, call, user, now).Ok?
      ensures if r.Ok? then sessions == OpenSession(old(sessions), room, call, user, now).value
              && r.value == (call !in old(sessions))
              else r.error == OpenSession(old(sessions), room, call, user, now).error && sessions == old(sessions)
    {
      if call in sessions {
        if sessions[call].room != room {
          return Err(CallIdConflict);
        }
        if sessions[call].endedAt.Some? {
          return Err(CallEnded);
        }
        return Ok(false);
      }
      sessions := sessions[call := Session(room, user, now, None)];
      return Ok(true);
    }

    /** Adds, then counts, then takes back what was added if that was too many. */
    method Join(limit: nat, checks: Checks, room: Room, call: Call, user: User, client: Client, now: int)
      returns (r: Result<bool, Error>)
      requires Valid()
      modifies this, store
      ensures Valid()
      ensures var e := (call, user, client);
              && State() == Script(old(State()), limit, StartJoin(0, checks, room, e, now), Continue(0, now),
                  Continue(0, now), Continue(0, now))
              && (r.Ok? ==> store.present == old(store.present) + {e} && |Users(store.present, call)| <= limit)
              && (r == Err(CallFull) ==>
                    store.present == old(store.present) - {e} && |Users(old(store.present) + {e}, call)| > limit)
              && (r.Err? && r.error != CallFull ==> store.present == old(store.present) && sessions == old(sessions))
      ensures r.Ok? || r == Err(CallFull) <==> PassesChecks(checks, true) && IsOpen(old(sessions), room, call)
      ensures PassesChecks(checks, true) ==>
                && (r == Err(CallIdConflict) <==> call in old(sessions) && old(sessions)[call].room != room)
                && (r == Err(CallEnded) <==>
                      call in old(sessions) && old(sessions)[call].room == room && old(sessions)[call].endedAt.Some?)
      ensures !PassesChecks(checks, true) ==> r == Err(Refusal(checks, true).value)
      ensures r.Ok? ==> (r.value <==> call !in old(sessions))
    {
      var refusal := Refusal(checks, true);
      if refusal.Some? {
        return Err(refusal.value);
      }
      ghost var s := State();
      var session := OpenSessionRow(room, call, user, now);
      if session.Err? {
        return Err(session.error);
      }
      ScriptOfJoin(s, limit, checks, room, (call, user, client), now);
      store.AddClient(call, user, client, now);
      var count := store.ParticipantCount(call);
      if count > limit {
        store.RemoveClient(call, user, client);
        admitted := admitted - {(call, user, client)};
        assert store.present == s.present - {(call, user, client)};
        return Err(CallFull);
      }
      admitted := admitted + {(call, user, client)};
      return Ok(session.value);
    }

    method Leave(checks: Checks, call: Call, user: User, client: Client) returns (r: Result<(), Error>)
      requires Valid()
      modifies this, store
      ensures Valid()
      ensures State() == Script(old(State()), 0, StartLeave(0, checks, (call, user, client)), Continue(0, 0),
              Continue(0, 0), Continue(0, 0))
      ensures store.present == if r.Ok? then old(store.present) - {(call, user, client)} else old(store.present)
      ensures r.Ok? <==> PassesChecks(checks, true)
      ensures r.Err? ==> r == Err(Refusal(checks, true).value)
      ensures sessions == old(sessions)
    {
      var refusal := Refusal(checks, true);
      if refusal.Some? {
        return Err(refusal.value);
      }
      store.RemoveClient(call, user, client);
      admitted := admitted - {(call, user, client)};
      var count := store.ParticipantCount(call);
      if count == 0 {
        NobodyIsNobody(store.present, call);
        store.ClearCall(call);
        assert store.present == old(store.present) - {(call, user, client)};
      }
      return Ok(());
    }

    method End(checks: Checks, room: Room, call: Call, caller: User, owner: User, now: int)
      returns (r: Result<Session, Error>)
      requires Valid()
      modifies this, store
      ensures Valid()
      ensures State() == Script(old(State()), 0, StartEnd(0, checks, room, call, caller, owner), Continue(0, now),
              Continue(0, now), Continue(0, now))
      ensures r.Ok? ==> call in sessions && r.value == sessions[call] && r.value.endedAt.Some?
      ensures r.Ok? && old(sessions[call]).endedAt.None? ==> Users(store.present, call) == {}
      ensures r.Ok? <==>
                && PassesChecks(checks, false) && call in old(sessions) && old(sessions)[call].room == room
                && (caller == old(sessions)[call].initiator || caller == owner)
      ensures r.Ok? ==>
                && sessions.Keys == old(sessions).Keys
                && (forall c :: c in sessions && c != call ==> sessions[c] == old(sessions)[c])
                && sessions[call] == (if old(sessions)[call].endedAt.Some? then old(sessions)[call]
                                      else old(sessions)[call].(endedAt := Some(now)))
      ensures PassesChecks(checks, false) && r.Err? ==>
                r.error == if call in old(sessions) && old(sessions)[call].room == room then Forbidden else CallNotFound
      ensures !PassesChecks(checks, false) ==> r == Err(Refusal(checks, false).value)
    {
      var refusal := Refusal(checks, false);
      if refusal.Some? {
        return Err(refusal.value);
      }
      if call !in sessions || sessions[call].room != room {
        return Err(CallNotFound);
      }
      if caller != sessions[call].initiator && caller != owner {
        return Err(Forbidden);
      }
      if sessions[call].endedAt.Some? {
        return Ok(sessions[call]);
      }
      sessions := sessions[call := sessions[call].(endedAt := Some(now))];
      ghost var gone := OfCall(store.present, call);
      store.ClearCall(call);
      admitted := admitted - gone;
      assert store.present == old(store.present) - gone;
      return Ok(sessions[call]);
    }
  }

  lemma ScriptOfJoin(s: State, limit: nat, checks: Checks, room: Room, e: Entry, now: int)
    requires s.tasks == map[] && Refusal(checks, true).None? && OpenSession(s.sessions, room, e.0, e.1, now).Ok?
    ensures var sessions := OpenSession(s.sessions, room, e.0, e.1, now).value;
            Script(s, limit, StartJoin(0, checks, room, e, now), Continue(0, now), Continue(0, now), Continue(0, now))
            == if |Users(s.present + {e}, e.0)| > limit
                then CallLifecycle.State(sessions, s.present - {e}, map[], s.admitted - {e})
               else CallLifecycle.State(sessions, s.present + {e}, map[], s.admitted + {e})
  {
    var s1 := Step(s, limit, StartJoin(0, checks, room, e, now));
    var s2 := Step(s1, limit, Continue(0, now));
    assert s2.tasks == map[0 := Added(e)];
    assert s.present + {e} - {e} == s.present - {e};
  }

  lemma NobodyIsNobody(present: set<Entry>, call: Call)
    requires |Users(present, call)| == 0
    ensures WithoutCall(present, call) == present && OfCall(present, call) == {}
  {
    forall e | e in present
      ensures e.0 != call
    {
      assert e.0 == call ==> e.1 in Users(present, call);
    }
  }
}
