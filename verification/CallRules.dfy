/** Who may join, leave and end a call, in terms of the session table and the request alone. */
module CallRules {
  import opened Prelude
  import opened CallOccupancy
  import opened CallLifecycle

  /** Calling is on and the caller is in the room with, where one is named, a client of his own. */
  predicate PassesChecks(checks: Checks, needsClient: bool) {
    checks.enabled && checks.member && (needsClient ==> checks.owned)
  }

  /** What comes first is reported first. */
  lemma RefusalIs(checks: Checks, needsClient: bool)
    ensures var refusal := Refusal(checks, needsClient);
            && (refusal.None? <==> PassesChecks(checks, needsClient))
            && (refusal == Some(CallingDisabled) <==> !checks.enabled)
            && (refusal == Some(RoomNotFound) <==> checks.enabled && !checks.member)
            && (refusal == Some(ClientNotOwned) <==> checks.enabled && checks.member && needsClient && !checks.owned)
  {
  }

  /** There is no such call yet, or it is one of the room that has not ended. */
  predicate IsOpen(sessions: map<Call, Session>, room: Room, call: Call) {
    call in sessions ==> sessions[call].room == room && sessions[call].endedAt.None?
  }

  /** A session is opened by its first join and found by the later ones; no other session changes. */
  lemma OpenSessionIs(sessions: map<Call, Session>, room: Room, call: Call, user: User, now: int)
    ensures var r := OpenSession(sessions, room, call, user, now);
            && (r.Ok? <==> IsOpen(sessions, room, call))
            && (r == Err(CallIdConflict) <==> call in sessions && sessions[call].room != room)
            && (r == Err(CallEnded) <==>
                  call in sessions && sessions[call].room == room && sessions[call].endedAt.Some?)
            && (r.Ok? ==>
                  && r.value.Keys == sessions.Keys + {call}
                  && (forall c :: c in sessions ==> r.value[c] == sessions[c])
                  && (call !in sessions ==> r.value[call] == Session(room, user, now, None)))
  {
  }

  /** A call is ended by whoever began it and by the owner of the room; ending it again is allowed and does nothing. */
  lemma MayEndIs(sessions: map<Call, Session>, room: Room, call: Call, caller: User, owner: User)
    ensures var r := MayEnd(sessions, room, call, caller, owner);
            var known := call in sessions && sessions[call].room == room;
            && (r.Ok? <==> known && (caller == sessions[call].initiator || caller == owner))
            && (r == Err(CallNotFound) <==> !known)
            && (r == Err(Forbidden) <==> known && caller != sessions[call].initiator && caller != owner)
            && (r.Ok? ==> (r.value <==> sessions[call].endedAt.None?))
  {
  }

  /** A user who is dropped from a call loses his entries in it, and nobody else does. */
  lemma DropUserIs(s: State, limit: nat, call: Call, user: User, e: Entry)
    ensures var next := Step(s, limit, DropUser(call, user));
            && (e in next.present <==> e in s.present && !(e.0 == call && e.1 == user))
            && (s.admitted <= s.present ==> next.admitted == s.admitted * next.present)
            && next.sessions == s.sessions && next.tasks == s.tasks
  {
  }

  /** A task of its own begins for each request that is not refused at once. */
  lemma BeginsIff(s: State, limit: nat, op: Op)
    requires (op.StartJoin? || op.StartLeave? || op.StartEnd?) && op.id !in s.tasks
    ensures var next := Step(s, limit, op);
            && next.present == s.present && next.admitted == s.admitted && next.tasks - {op.id} == s.tasks
            && (op.id in next.tasks <==>
                  match op
                  case StartJoin(_, checks, room, e, _) => PassesChecks(checks, true) && IsOpen(s.sessions, room, e.0)
                  case StartLeave(_, checks, _) => PassesChecks(checks, true)
                  case StartEnd(_, _, _, call, _, _) => BeginsEnd(s, op, call)
                  case _ => false)
            && (op.StartJoin? && op.id in next.tasks ==> next.tasks[op.id] == Checked(op.entry))
            && (op.StartLeave? && op.id in next.tasks ==> next.tasks[op.id] == Leaving(op.entry))
            && (op.StartEnd? && op.id in next.tasks ==> next.tasks[op.id] == Found(op.call))
  {
    assert s.tasks - {op.id} == s.tasks;
  }

  /** A leave goes on to clear the call exactly when nobody is left in it. */
  lemma CountIs(s: State, id: nat, limit: nat, now: int)
    requires id in s.tasks && s.tasks[id].Left?
    ensures var next, call := Advance(s, id, limit, now), s.tasks[id].call;
            && next == s.(tasks := next.tasks) && next.tasks - {id} == s.tasks - {id}
            && (id in next.tasks <==> forall e :: e in s.present ==> e.0 != call)
            && (id in next.tasks ==> next.tasks[id] == Clearing(call))
  {
    var call := s.tasks[id].call;
    if e :| e in s.present && e.0 == call {
      assert e.1 in Users(s.present, call);
    } else {
      assert Users(s.present, call) == {};
    }
  }

  /** An end writes the time into its session, and into no other. */
  lemma MarkIs(s: State, id: nat, limit: nat, now: int)
    requires id in s.tasks && s.tasks[id].Found? && s.tasks[id].call in s.sessions
    ensures var next, call := Advance(s, id, limit, now), s.tasks[id].call;
            && next.present == s.present && next.admitted == s.admitted && next.sessions.Keys == s.sessions.Keys
            && (forall c :: c in s.sessions && c != call ==> next.sessions[c] == s.sessions[c])
            && next.sessions[call] == s.sessions[call].(endedAt := Some(now))
            && next.tasks == s.tasks[id := Marked(call)]
  {
  }

  // ---- Over every run ----

  /** A join of the entry that its checks and its session let begin. */
  predicate BeginsJoin(s: State, op: Op, e: Entry) {
    op.StartJoin? && op.entry == e && PassesChecks(op.checks, true) && IsOpen(s.sessions, op.room, e.0)
  }

  /** An end of the call by somebody entitled to it. */
  predicate BeginsEnd(s: State, op: Op, call: Call) {
    && op.StartEnd? && op.call == call && PassesChecks(op.checks, false)
    && call in s.sessions && s.sessions[call].room == op.room && s.sessions[call].endedAt.None?
    && (op.caller == s.sessions[call].initiator || op.caller == op.owner)
  }

  predicate IsJoining(t: Task, e: Entry) {
    (t.Checked? || t.Added? || t.Overfull?) && t.entry == e
  }

  /** The entry is in the store or about to be. */
  ghost predicate IsAbout(s: State, e: Entry) {
    e in s.present || exists id :: id in s.tasks && IsJoining(s.tasks[id], e)
  }

  /** The call has ended or is about to. */
  ghost predicate IsEnding(s: State, call: Call) {
    || (call in s.sessions && s.sessions[call].endedAt.Some?)
    || exists id :: id in s.tasks && (s.tasks[id] == Found(call) || s.tasks[id] == Marked(call))
  }

  lemma ComesAboutBy(s: State, limit: nat, op: Op, e: Entry)
    requires IsAbout(Step(s, limit, op), e) && !IsAbout(s, e)
    ensures BeginsJoin(s, op, e)
  {
  }

  lemma EndsBy(s: State, limit: nat, op: Op, call: Call)
    requires IsEnding(Step(s, limit, op), call) && !IsEnding(s, call)
    ensures BeginsEnd(s, op, call)
  {
  }

  /** Over every run, whoever is in a call came by a join that was allowed to begin while the call was open. */
  lemma {:induction false} OccupantsWereAllowed(limit: nat, ops: seq<Op>, e: Entry)
    requires IsAbout(Run(EMPTY, limit, ops), e)
    ensures exists i :: 0 <= i < |ops| && BeginsJoin(Run(EMPTY, limit, ops[..i]), ops[i], e)
  {
    assert ops != [];
    var before := Run(EMPTY, limit, Init(ops));
    assert ops[..|ops| - 1] == Init(ops);
    if IsAbout(before, e) {
      OccupantsWereAllowed(limit, Init(ops), e);
      var i :| 0 <= i < |ops| - 1 && BeginsJoin(Run(EMPTY, limit, Init(ops)[..i]), Init(ops)[i], e);
      assert Init(ops)[..i] == ops[..i];
      assert BeginsJoin(Run(EMPTY, limit, ops[..i]), ops[i], e);
    } else {
      ComesAboutBy(before, limit, Last(ops), e);
      assert BeginsJoin(Run(EMPTY, limit, ops[..|ops| - 1]), ops[|ops| - 1], e);
    }
  }

  /** Over every run, a call that has ended was ended by its initiator or by the owner of its room. */
  lemma {:induction false} EndsWereAllowed(limit: nat, ops: seq<Op>, call: Call)
    requires IsEnding(Run(EMPTY, limit, ops), call)
    ensures exists i :: 0 <= i < |ops| && BeginsEnd(Run(EMPTY, limit, ops[..i]), ops[i], call)
  {
    assert ops != [];
    var before := Run(EMPTY, limit, Init(ops));
    assert ops[..|ops| - 1] == Init(ops);
    if IsEnding(before, call) {
      EndsWereAllowed(limit, Init(ops), call);
      var i :| 0 <= i < |ops| - 1 && BeginsEnd(Run(EMPTY, limit, Init(ops)[..i]), Init(ops)[i], call);
      assert Init(ops)[..i] == ops[..i];
      assert BeginsEnd(Run(EMPTY, limit, ops[..i]), ops[i], call);
    } else {
      EndsBy(before, limit, Last(ops), call);
      assert BeginsEnd(Run(EMPTY, limit, ops[..|ops| - 1]), ops[|ops| - 1], call);
    }
  }
}
