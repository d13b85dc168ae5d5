/** What the locks of the calls do not rule out, and exactly when it happens. */
module CallRaces {
  import opened Prelude
  import opened CallOccupancy
  import opened CallLifecycle

  // ---- Who comes in ----

  predicate Ended(s: State, call: Call) {
    call in s.sessions && s.sessions[call].endedAt.Some?
  }

  predicate IsStartOf(op: Op, call: Call) {
    op.StartJoin? && op.entry.0 == call
  }

  /** None of the operations goes on with the task. */
  predicate Waits(ops: seq<Op>, id: nat) {
    forall op :: op in ops ==> !(op.Continue? && op.id == id)
  }

  /** No further join of the call can begin. */
  predicate Barred(s: State, ops: seq<Op>, call: Call) {
    Ended(s, call) || forall op :: op in ops ==> !IsStartOf(op, call)
  }

  ghost predicate IsChecked(s: State, e: Entry) {
    exists id :: id in s.tasks && s.tasks[id] == Checked(e)
  }

  /** The step puts the entry into the store: a join goes on that has passed the session check. */
  predicate Adds(s: State, op: Op, e: Entry) {
    op.Continue? && op.id in s.tasks && s.tasks[op.id] == Checked(e)
  }

  /** Some operation of the run puts the entry into the store. */
  ghost predicate CameIn(s: State, limit: nat, ops: seq<Op>, e: Entry) {
    ops != [] && (CameIn(s, limit, Init(ops), e) || Adds(Run(s, limit, Init(ops)), Last(ops), e))
  }

  lemma InitWaits(ops: seq<Op>, id: nat, call: Call, s: State)
    requires ops != []
    ensures Waits(ops, id) ==> Waits(Init(ops), id) && !(Last(ops).Continue? && Last(ops).id == id)
    ensures Barred(s, ops, call) ==> Barred(s, Init(ops), call) && (Ended(s, call) || !IsStartOf(Last(ops), call))
  {
    assert Last(ops) in ops;
  }

  lemma {:induction false} TaskWaits(s: State, limit: nat, ops: seq<Op>, id: nat)
    requires Waits(ops, id) && id in s.tasks
    ensures var t := Run(s, limit, ops); id in t.tasks && t.tasks[id] == s.tasks[id]
  {
    if ops != [] {
      InitWaits(ops, id, "", s);
      TaskWaits(s, limit, Init(ops), id);
    }
  }

  /** Whoever is in a call now was in it before or has been put in since. */
  lemma {:induction false} PresentCameIn(s: State, limit: nat, ops: seq<Op>, e: Entry)
    requires e in Run(s, limit, ops).present
    ensures e in s.present || CameIn(s, limit, ops, e)
  {
    if ops != [] {
      var t := Run(s, limit, Init(ops));
      if e in t.present {
        PresentCameIn(s, limit, Init(ops), e);
      } else {
        assert Adds(t, Last(ops), e);
      }
    }
  }

  lemma StepMakesNoChecked(t: State, limit: nat, op: Op, e: Entry)
    requires IsChecked(Step(t, limit, op), e) && (Ended(t, e.0) || !IsStartOf(op, e.0))
    ensures IsChecked(t, e)
  {
    var id :| id in Step(t, limit, op).tasks && Step(t, limit, op).tasks[id] == Checked(e);
    assert id in t.tasks && t.tasks[id] == Checked(e);
  }

  lemma {:induction false} EndedStays(s: State, limit: nat, ops: seq<Op>, call: Call)
    requires Ended(s, call)
    ensures Ended(Run(s, limit, ops), call)
  {
    SessionsContinue(s, limit, ops);
  }

  lemma {:induction false} CheckedWasChecked(s: State, limit: nat, ops: seq<Op>, e: Entry)
    requires Barred(s, ops, e.0) && IsChecked(Run(s, limit, ops), e)
    ensures IsChecked(s, e)
  {
    if ops != [] {
      InitWaits(ops, 0, e.0, s);
      if Ended(s, e.0) {
        EndedStays(s, limit, Init(ops), e.0);
      }
      StepMakesNoChecked(Run(s, limit, Init(ops)), limit, Last(ops), e);
      CheckedWasChecked(s, limit, Init(ops), e);
    }
  }

  lemma {:induction false} CameInWasChecked(s: State, limit: nat, ops: seq<Op>, e: Entry)
    requires Barred(s, ops, e.0) && CameIn(s, limit, ops, e)
    ensures IsChecked(s, e)
  {
    InitWaits(ops, 0, e.0, s);
    if CameIn(s, limit, Init(ops), e) {
      CameInWasChecked(s, limit, Init(ops), e);
    } else {
      assert IsChecked(Run(s, limit, Init(ops)), e);
      CheckedWasChecked(s, limit, Init(ops), e);
    }
  }

  lemma RunSnoc(s: State, limit: nat, ops: seq<Op>, op: Op)
    ensures Run(s, limit, ops + [op]) == Step(Run(s, limit, ops), limit, op)
  {
    assert Init(ops + [op]) == ops;
  }

  // ---- Ended calls ----

  ghost predicate StaysEmpty(s: State, limit: nat, call: Call) {
    forall ops :: OfCall(Run(s, limit, ops).present, call) == {}
  }

  /** Whoever is in an ended call that was empty has come in by a join that had passed its check. */
  lemma LateOccupantWasChecked(s: State, limit: nat, ops: seq<Op>, e: Entry)
    requires Ended(s, e.0) && OfCall(s.present, e.0) == {} && e in Run(s, limit, ops).present
    ensures IsChecked(s, e)
  {
    assert e in s.present ==> e in OfCall(s.present, e.0);
    PresentCameIn(s, limit, ops, e);
    CameInWasChecked(s, limit, ops, e);
  }

  /** A join that has passed its check puts its entry into the store when it goes on. */
  lemma CheckedComesIn(s: State, limit: nat, e: Entry) returns (id: nat)
    requires IsChecked(s, e)
    ensures id in s.tasks && s.tasks[id] == Checked(e) && Run(s, limit, [Continue(id, 0)]) == Advance(s, id, limit, 0)
    ensures e in OfCall(Run(s, limit, [Continue(id, 0)]).present, e.0)
  {
    id :| id in s.tasks && s.tasks[id] == Checked(e);
    RunSnoc(s, limit, [], Continue(id, 0));
    assert [] + [Continue(id, 0)] == [Continue(id, 0)];
  }

  ghost predicate NoneChecked(s: State, call: Call) {
    forall e: Entry :: e.0 == call ==> !IsChecked(s, e)
  }

  lemma EmptyStaysEmptyIff(s: State, limit: nat, call: Call)
    requires Ended(s, call) && OfCall(s.present, call) == {}
    ensures StaysEmpty(s, limit, call) <==> NoneChecked(s, call)
  {
    if e: Entry :| e.0 == call && IsChecked(s, e) {
      var id := CheckedComesIn(s, limit, e);
    } else if !StaysEmpty(s, limit, call) {
      var ops :| OfCall(Run(s, limit, ops).present, call) != {};
      var e :| e in OfCall(Run(s, limit, ops).present, call);
      LateOccupantWasChecked(s, limit, ops, e);
    }
  }

  ghost predicate MarkedIsEnded(s: State) {
    forall id :: id in s.tasks && s.tasks[id].Marked? ==> Ended(s, s.tasks[id].call)
  }

  lemma {:induction false} RunMarksEnded(limit: nat, ops: seq<Op>)
    ensures MarkedIsEnded(Run(EMPTY, limit, ops))
  {
    if ops != [] {
      RunMarksEnded(limit, Init(ops));
      var t := Run(EMPTY, limit, Init(ops));
      var next := Step(t, limit, Last(ops));
      forall id | id in next.tasks && next.tasks[id].Marked?
        ensures Ended(next, next.tasks[id].call)
      {
        if id in t.tasks && t.tasks[id].Marked? {
          RunSnoc(t, limit, [], Last(ops));
          EndedStays(t, limit, [] + [Last(ops)], t.tasks[id].call);
        }
      }
    }
  }

  /**
   An end that has marked its session and then clears the call, in any run: the call stays empty whatever
   happens from there on if and only if no join of it has passed the session check and is yet to be added,
   and whoever is in it later has come in by such a join. (A join that had already been added is answered,
   but its entry has been cleared.)
   */
  lemma EndedCallStaysEmptyIff(limit: nat, ops: seq<Op>, id: nat, now: int)
    requires id in Run(EMPTY, limit, ops).tasks && Run(EMPTY, limit, ops).tasks[id].Marked?
    ensures var s := Run(EMPTY, limit, ops);
            var call, cleared := s.tasks[id].call, Advance(s, id, limit, now);
            && (StaysEmpty(cleared, limit, call) <==> NoneChecked(s, call))
            && forall more, e :: e in Run(cleared, limit, more).present && e.0 == call ==> IsChecked(s, e)
  {
    var s := Run(EMPTY, limit, ops);
    var call, cleared := s.tasks[id].call, Advance(s, id, limit, now);
    RunMarksEnded(limit, ops);
    EmptyStaysEmptyIff(cleared, limit, call);
    forall e: Entry
      ensures IsChecked(cleared, e) <==> IsChecked(s, e)
    {
      SameChecked(s, cleared, id, e);
    }
    forall more, e | e in Run(cleared, limit, more).present && e.0 == call
      ensures IsChecked(s, e)
    {
      LateOccupantWasChecked(cleared, limit, more, e);
    }
  }

  lemma SameChecked(s: State, next: State, id: nat, e: Entry)
    requires id in s.tasks && !s.tasks[id].Checked? && (next.tasks - {id}) == s.tasks - {id}
    requires id in next.tasks ==> !next.tasks[id].Checked?
    ensures IsChecked(next, e) <==> IsChecked(s, e)
  {
    if IsChecked(s, e) {
      var j :| j in s.tasks && s.tasks[j] == Checked(e);
      assert j in s.tasks - {id};
      assert j in next.tasks && next.tasks[j] == Checked(e);
    }
    if IsChecked(next, e) {
      var j :| j in next.tasks && next.tasks[j] == Checked(e);
      assert j in next.tasks - {id};
      assert j in s.tasks && s.tasks[j] == Checked(e);
    }
  }

  ghost predicate NeverAdmits(s: State, limit: nat, call: Call) {
    forall ops :: OfCall(Run(s, limit, ops).admitted, call) == {}
  }

  /** The joins that come late are even admitted, unless the limit admits nobody at all. */
  lemma EndedCallAdmitsNobodyIff(s: State, limit: nat, call: Call)
    requires Sane(s, limit) && Ended(s, call) && OfCall(s.present, call) == {}
    ensures NeverAdmits(s, limit, call) <==> limit == 0 || NoneChecked(s, call)
  {
    if !NoneChecked(s, call) && limit > 0 {
      var e: Entry :| e.0 == call && IsChecked(s, e);
      var id := CheckedComesIn(s, limit, e);
      var t := Run(s, limit, [Continue(id, 0)]);
      RunSnoc(s, limit, [Continue(id, 0)], Continue(id, 0));
      AloneIsAdmitted(s, t, limit, id, e);
      assert e in OfCall(Run(s, limit, [Continue(id, 0)] + [Continue(id, 0)]).admitted, call);
    } else if !NeverAdmits(s, limit, call) {
      var ops :| OfCall(Run(s, limit, ops).admitted, call) != {};
      var e :| e in OfCall(Run(s, limit, ops).admitted, call);
      AdmittedWasChecked(s, limit, ops, e);
    }
  }

  lemma AdmittedWasChecked(s: State, limit: nat, ops: seq<Op>, e: Entry)
    requires Sane(s, limit) && Ended(s, e.0) && OfCall(s.present, e.0) == {}
    requires e in Run(s, limit, ops).admitted
    ensures limit > 0 && IsChecked(s, e)
  {
    RunKeepsSane(s, limit, ops);
    assert e.1 in Users(Run(s, limit, ops).admitted, e.0);
    LateOccupantWasChecked(s, limit, ops, e);
  }

  lemma {:induction false} RunKeepsSane(s: State, limit: nat, ops: seq<Op>)
    requires Sane(s, limit)
    ensures Sane(Run(s, limit, ops), limit)
  {
    if ops != [] {
      RunKeepsSane(s, limit, Init(ops));
      StepKeepsSane(Run(s, limit, Init(ops)), limit, Last(ops));
    }
  }

  lemma AloneIsAdmitted(s: State, t: State, limit: nat, id: nat, e: Entry)
    requires OfCall(s.present, e.0) == {} && limit > 0 && id in s.tasks && s.tasks[id] == Checked(e)
    requires t == Advance(s, id, limit, 0)
    ensures e in Step(t, limit, Continue(id, 0)).admitted
  {
    forall user
      ensures user in Users(t.present, e.0) <==> user == e.1
    {
      if user in Users(t.present, e.0) {
        var f :| f in t.present && f.0 == e.0 && f.1 == user;
        assert f in s.present ==> f in OfCall(s.present, e.0);
      } else {
        assert user == e.1 ==> e in t.present;
      }
    }
    assert Users(t.present, e.0) == {e.1};
  }

  // ---- Leaves that clear ----

  /** A leave that has counted nobody goes on, after some operations of others, to clear the call. */
  predicate Harmless(s: State, limit: nat, ops: seq<Op>, id: nat, now: int) {
    var t := Run(s, limit, ops);
    Step(t, limit, Continue(id, now)).present == t.present
  }

  /** The state after a leave has counted the users of its call and found none. */
  predicate HasCounted(s: State, id: nat, call: Call) {
    id in s.tasks && s.tasks[id] == Clearing(call) && Users(s.present, call) == {}
  }

  /** It takes away exactly the entries that have been added to the call since the count and are still there. */
  lemma ClearingTakesNewcomers(s: State, limit: nat, id: nat, call: Call, ops: seq<Op>, now: int, e: Entry)
    requires HasCounted(s, id, call) && Waits(ops, id)
    ensures var t := Run(s, limit, ops);
            e in t.present && e !in Step(t, limit, Continue(id, now)).present <==>
              e.0 == call && e in t.present && CameIn(s, limit, ops, e)
  {
    TaskWaits(s, limit, ops, id);
    if e.0 == call && e in Run(s, limit, ops).present {
      PresentCameIn(s, limit, ops, e);
      assert e in s.present ==> e.1 in Users(s.present, call);
    }
  }

  /**
   It takes nobody away, whatever others do before it, if and only if the call has ended and no join of it
   has passed the session check and is yet to be added; and provided that no join of the call begins before
   it, if and only if no such join is under way.
   */
  lemma ClearingIsHarmlessIff(s: State, limit: nat, id: nat, call: Call, now: int)
    requires HasCounted(s, id, call)
    ensures (forall ops :: Waits(ops, id) ==> Harmless(s, limit, ops, id, now)) <==>
              Ended(s, call) && NoneChecked(s, call)
    ensures (forall ops :: Waits(ops, id) && (forall op :: op in ops ==> !IsStartOf(op, call)) ==>
               Harmless(s, limit, ops, id, now)) <==> NoneChecked(s, call)
  {
    forall ops | Waits(ops, id) && Barred(s, ops, call) && NoneChecked(s, call)
      ensures Harmless(s, limit, ops, id, now)
    {
      BarredIsHarmless(s, limit, id, call, ops, now);
    }
    if !NoneChecked(s, call) {
      var e: Entry :| e.0 == call && IsChecked(s, e);
      var j := CheckedComesIn(s, limit, e);
      LateEntryIsTaken(s, limit, id, call, [Continue(j, 0)], now, e);
    } else if !Ended(s, call) {
      NewJoinIsTaken(s, limit, id, call, now);
    }
  }

  lemma BarredIsHarmless(s: State, limit: nat, id: nat, call: Call, ops: seq<Op>, now: int)
    requires HasCounted(s, id, call) && Waits(ops, id) && Barred(s, ops, call) && NoneChecked(s, call)
    ensures Harmless(s, limit, ops, id, now)
  {
    var t := Run(s, limit, ops);
    forall e | e in t.present
      ensures e in Step(t, limit, Continue(id, now)).present
    {
      ClearingTakesNewcomers(s, limit, id, call, ops, now, e);
      if e.0 == call && CameIn(s, limit, ops, e) {
        CameInWasChecked(s, limit, ops, e);
      }
    }
    TaskWaits(s, limit, ops, id);
  }

  lemma LateEntryIsTaken(s: State, limit: nat, id: nat, call: Call, ops: seq<Op>, now: int, e: Entry)
    requires HasCounted(s, id, call) && Waits(ops, id) && e.0 == call && e in Run(s, limit, ops).present
    ensures !Harmless(s, limit, ops, id, now)
  {
    TaskWaits(s, limit, ops, id);
    assert e in OfCall(Run(s, limit, ops).present, call);
  }

  lemma {:induction false} AboveAll(ids: set<nat>) returns (bound: nat)
    ensures forall id :: id in ids ==> id < bound
  {
    if ids == {} {
      bound := 0;
    } else {
      var id :| id in ids;
      var below := AboveAll(ids - {id});
      bound := if below <= id then id + 1 else below;
      assert forall i :: i in ids ==> i == id || i in ids - {id};
    }
  }

  /** While the call has not ended, somebody can always join it. */
  lemma NewJoinIsTaken(s: State, limit: nat, id: nat, call: Call, now: int)
    requires HasCounted(s, id, call) && !Ended(s, call)
    ensures exists ops :: Waits(ops, id) && !Harmless(s, limit, ops, id, now)
  {
    var j := AboveAll(s.tasks.Keys);
    var e := (call, "user", "client");
    var room := if call in s.sessions then s.sessions[call].room else "room";
    var start, go := StartJoin(j, ALL, room, e, 0), Continue(j, 0);
    RunSnoc(s, limit, [], start);
    RunSnoc(s, limit, [] + [start], go);
    assert Waits([] + [start] + [go], id);
    LateEntryIsTaken(s, limit, id, call, [] + [start] + [go], now, e);
  }

  // ---- Concrete runs ----

  lemma JoinedThenLeaving(room: Room, call: Call, a: User, client: Client)
    ensures var e := (call, a, client);
            Script(EMPTY, 1, StartJoin(0, ALL, room, e, 0), Continue(0, 0), Continue(0, 0), StartLeave(1, ALL, e))
            == State(map[call := Session(room, a, 0, None)], {e}, map[1 := Leaving(e)], {e})
  {
    var e := (call, a, client);
    var s1 := Step(EMPTY, 1, StartJoin(0, ALL, room, e, 0));
    var s2 := Step(s1, 1, Continue(0, 0));
    assert s2.present == {e} && Users(s2.present, call) == {a};
    var s3 := Step(s2, 1, Continue(0, 0));
    assert s3.tasks == map[] && s3.admitted == {e};
  }

  lemma CountedThenJoined(session: Session, call: Call, a: User, b: User, client: Client)
    requires session.endedAt.None?
    ensures var ea, eb, sessions := (call, a, client), (call, b, client), map[call := session];
            Script(State(sessions, {ea}, map[1 := Leaving(ea)], {ea}), 1,
                   Continue(1, 0), Continue(1, 0), StartJoin(2, ALL, session.room, eb, 0), Continue(2, 0))
            == State(sessions, {eb}, map[1 := Clearing(call), 2 := Added(eb)], {})
  {
    var ea, eb := (call, a, client), (call, b, client);
    var s1 := Step(State(map[call := session], {ea}, map[1 := Leaving(ea)], {ea}), 1, Continue(1, 0));
    assert s1.present == {} && s1.admitted == {} && Users(s1.present, call) == {};
    var s2 := Step(s1, 1, Continue(1, 0));
    assert s2.tasks == map[1 := Clearing(call)];
  }

  /** A leave that has counted nobody clears the call, and with it whoever joined in between. */
  lemma LeaveMayDropANewcomer(room: Room, call: Call, a: User, b: User, client: Client)
    ensures var ea, eb := (call, a, client), (call, b, client);
            var s1 := Script(EMPTY, 1, StartJoin(0, ALL, room, ea, 0), Continue(0, 0), Continue(0, 0),
                StartLeave(1, ALL, ea));
            var s2 := Script(s1, 1, Continue(1, 0), Continue(1, 0), StartJoin(2, ALL, room, eb, 0), Continue(2, 0));
            var joined := Step(s2, 1, Continue(2, 0));
            var after := Step(joined, 1, Continue(1, 0));
            eb in joined.admitted && joined.tasks == map[1 := Clearing(call)] && after.present == {}
  {
    JoinedThenLeaving(room, call, a, client);
    var session := Session(room, a, 0, None);
    CountedThenJoined(session, call, a, b, client);
    DroppedByClearing(map[call := session], (call, b, client));
  }

  lemma DroppedByClearing(sessions: map<Call, Session>, e: Entry)
    ensures var s := State(sessions, {e}, map[1 := Clearing(e.0), 2 := Added(e)], {});
            var joined := Step(s, 1, Continue(2, 0));
            e in joined.admitted && joined.tasks == map[1 := Clearing(e.0)]
                && Step(joined, 1, Continue(1, 0)).present == {}
  {
    assert Users({e}, e.0) == {e.1};
  }

  lemma EndedDuringJoin(room: Room, call: Call, a: User, client: Client)
    ensures var e := (call, a, client);
            Script(EMPTY, 1, StartJoin(0, ALL, room, e, 0), StartEnd(1, ALL, room, call, a, a), Continue(1, 0),
                Continue(1, 0))
            == State(map[call := Session(room, a, 0, Some(0))], {}, map[0 := Checked(e)], {})
  {
    var e := (call, a, client);
    var s1 := Step(EMPTY, 1, StartJoin(0, ALL, room, e, 0));
    var s2 := Step(s1, 1, StartEnd(1, ALL, room, call, a, a));
    var s3 := Step(s2, 1, Continue(1, 0));
    assert s3.tasks == map[0 := Checked(e), 1 := Marked(call)];
    var s4 := Step(s3, 1, Continue(1, 0));
    assert s4.tasks == map[0 := Checked(e)];
  }

  /** A join that had passed the session check when the call ended still gets in. */
  lemma EndedCallMayBeOccupied(room: Room, call: Call, a: User, client: Client)
    ensures var e := (call, a, client);
            var s1 := Script(EMPTY, 1, StartJoin(0, ALL, room, e, 0), StartEnd(1, ALL, room, call, a, a),
                Continue(1, 0), Continue(1, 0));
            var s2 := Step(Step(s1, 1, Continue(0, 0)), 1, Continue(0, 0));
            call in s2.sessions && s2.sessions[call].endedAt == Some(0) && s2.tasks == map[] && e in s2.admitted
  {
    var e := (call, a, client);
    EndedDuringJoin(room, call, a, client);
    assert Users({} + {e}, call) == {a};
  }
}
