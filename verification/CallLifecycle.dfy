/**
 Joining, leaving and ending calls while others do the same. The session table is one transaction at a
 time and the occupancy store one lock at a time, so each request is a task of several steps, and the
 steps of different tasks interleave freely.
 */
module CallLifecycle {
  import opened Prelude
  import opened CallOccupancy

  type Room = string

  datatype Session = Session(room: Room, initiator: User, startedAt: int, endedAt: Option<int>)

  datatype Error =
    | CallingDisabled | RoomNotFound | ClientNotOwned | CallIdConflict | CallEnded | CallFull | CallNotFound
    | Forbidden

  /** What the checks that come first find: calling is on, the caller is in the room, the client is the caller's. */
  datatype Checks = Checks(enabled: bool, member: bool, owned: bool)

  /** Where a request stands. */
  datatype Task =
    | Checked(entry: Entry)   // join: the session is open
    | Added(entry: Entry)     // join: in the store, not counted yet
    | Overfull(entry: Entry)  // join: counted and refused, not undone yet
    | Leaving(entry: Entry)   // leave: checked
    | Left(call: Call)        // leave: removed, not counted yet
    | Clearing(call: Call)    // leave: nobody was counted
    | Found(call: Call)       // end: allowed, not marked yet
    | Marked(call: Call)      // end: the session is ended

  /** admitted holds the entries whose join succeeded and that have been in the store ever since. */
  datatype State = State(
    sessions: map<Call, Session>, present: set<Entry>, tasks: map<nat, Task>, admitted: set<Entry>)

  // ---- Steps ----

  function Refusal(checks: Checks, needsClient: bool): Option<Error> {
    if !checks.enabled then Some(CallingDisabled)
    else if !checks.member then Some(RoomNotFound)
    else if needsClient && !checks.owned then Some(ClientNotOwned)
    else None
  }

  /** The transaction of a join: it finds the session or creates it. */
  function OpenSession(sessions: map<Call, Session>, room: Room, call: Call, user: User, now: int)
    : Result<map<Call, Session>, Error>
  {
    if call !in sessions then Ok(sessions[call := Session(room, user, now, None)])
    else if sessions[call].room != room then Err(CallIdConflict)
    else if sessions[call].endedAt.Some? then Err(CallEnded)
    else Ok(sessions)
  }

  /** Whether an end may go on; an ended call is reported again without a change. */
  function MayEnd(sessions: map<Call, Session>, room: Room, call: Call, caller: User, owner: User)
    : Result<bool, Error>
  {
    if call !in sessions || sessions[call].room != room then Err(CallNotFound)
    else if caller != sessions[call].initiator && caller != owner then Err(Forbidden)
    else Ok(sessions[call].endedAt.None?)
  }

  datatype Op =
    | StartJoin(id: nat, checks: Checks, room: Room, entry: Entry, now: int)
    | StartLeave(id: nat, checks: Checks, entry: Entry)
    | StartEnd(id: nat, checks: Checks, room: Room, call: Call, caller: User, owner: User)
    | Continue(id: nat, now: int)
    | DropUser(call: Call, user: User)

  function Remove(s: State, gone: set<Entry>): State {
    s.(present := s.present - gone, admitted := s.admitted - gone)
  }

  function OfCall(present: set<Entry>, call: Call): set<Entry> {
    set e | e in present && e.0 == call
  }

  function OfUser(present: set<Entry>, call: Call, user: User): set<Entry> {
    set e | e in present && e.0 == call && e.1 == user
  }

  /** The next step of a task. */
  function Advance(s: State, id: nat, limit: nat, now: int): State
    requires id in s.tasks
  {
    match s.tasks[id]
    case Checked(e) => s.(present := s.present + {e}, tasks := s.tasks[id := Added(e)])
    case Added(e) =>
      if |Users(s.present, e.0)| > limit then s.(tasks := s.tasks[id := Overfull(e)])
      else s.(admitted := s.admitted + ({e} * s.present), tasks := s.tasks - {id})
    case Overfull(e) => Remove(s, {e}).(tasks := s.tasks - {id})
    case Leaving(e) => Remove(s, {e}).(tasks := s.tasks[id := Left(e.0)])
    case Left(call) =>
      if |Users(s.present, call)| == 0 then s.(tasks := s.tasks[id := Clearing(call)]) else s.(tasks := s.tasks - {id})
    case Clearing(call) => Remove(s, OfCall(s.present, call)).(tasks := s.tasks - {id})
    case Found(call) =>
      if call !in s.sessions then s
      else
        var ended := s.sessions[call].(endedAt := Some(now));
        s.(sessions := s.sessions[call := ended], tasks := s.tasks[id := Marked(call)])
    case Marked(call) => Remove(s, OfCall(s.present, call)).(tasks := s.tasks - {id})
  }

  function Step(s: State, limit: nat, op: Op): State {
    match op
    case StartJoin(id, checks, room, e, now) =>
      var session := OpenSession(s.sessions, room, e.0, e.1, now);
      if id in s.tasks || Refusal(checks, true).Some? || session.Err? then s
      else s.(sessions := session.value, tasks := s.tasks[id := Checked(e)])
    case StartLeave(id, checks, e) =>
      if id in s.tasks || Refusal(checks, true).Some? then s else s.(tasks := s.tasks[id := Leaving(e)])
    case StartEnd(id, checks, room, call, caller, owner) =>
      var allowed := MayEnd(s.sessions, room, call, caller, owner);
      if id in s.tasks || Refusal(checks, false).Some? || allowed != Ok(true) then s
      else s.(tasks := s.tasks[id := Found(call)])
    case Continue(id, now) => if id in s.tasks then Advance(s, id, limit, now) else s
    case DropUser(call, user) => Remove(s, OfUser(s.present, call, user))
  }

  function Run(s: State, limit: nat, ops: seq<Op>): State {
    if ops == [] then s else Step(Run(s, limit, Init(ops)), limit, Last(ops))
  }

  const ALL := Checks(true, true, true)

  function Script(s: State, limit: nat, o1: Op, o2: Op, o3: Op, o4: Op): State {
    Step(Step(Step(Step(s, limit, o1), limit, o2), limit, o3), limit, o4)
  }

  const EMPTY := State(map[], {}, map[], {})

  // ---- The limit ----

  predicate Undecided(task: Task) {
    task.Added? || task.Overfull?
  }

  /** The joins of a call that are in the store and have not been answered. */
  function UndecidedJoins(tasks: map<nat, Task>, call: Call): set<nat> {
    set id | id in tasks && Undecided(tasks[id]) && tasks[id].entry.0 == call
  }

  ghost predicate Answerable(tasks: map<nat, Task>, e: Entry) {
    exists id :: id in tasks && Undecided(tasks[id]) && tasks[id].entry == e
  }

  ghost predicate Sane(s: State, limit: nat) {
    && s.admitted <= s.present
    && (forall call :: |Users(s.admitted, call)| <= limit)
    && forall e :: e in s.present ==> e in s.admitted || Answerable(s.tasks, e)
  }

  lemma FewerUsers(a: set<Entry>, b: set<Entry>, call: Call)
    requires a <= b
    ensures |Users(a, call)| <= |Users(b, call)|
  {
    SubsetIsNoLarger(Users(a, call), Users(b, call));
  }

  lemma RemoveKeepsSane(s: State, limit: nat, gone: set<Entry>, tasks: map<nat, Task>)
    requires Sane(s, limit)
    requires forall e :: Answerable(s.tasks, e) && e !in gone ==> Answerable(tasks, e)
    ensures Sane(Remove(s, gone).(tasks := tasks), limit)
  {
    forall call
      ensures |Users(s.admitted - gone, call)| <= limit
    {
      FewerUsers(s.admitted - gone, s.admitted, call);
    }
  }

  /** Changing a task leaves the others as they are. */
  lemma OtherTasksStay(tasks: map<nat, Task>, next: map<nat, Task>, id: nat, e: Entry)
    requires Answerable(tasks, e)
    requires forall i :: i in tasks && i != id ==> i in next && next[i] == tasks[i]
    requires id in tasks && Undecided(tasks[id]) && tasks[id].entry == e ==>
               id in next && Undecided(next[id]) && next[id].entry == e
    ensures Answerable(next, e)
  {
    var i :| i in tasks && Undecided(tasks[i]) && tasks[i].entry == e;
    assert i in next && Undecided(next[i]) && next[i].entry == e;
  }

  /** A step that is neither a removal nor the admission of a join. */
  lemma QuietStepKeepsSane(s: State, limit: nat, next: State)
    requires Sane(s, limit) && next.admitted == s.admitted && s.present <= next.present
    requires forall e :: e in next.present && e !in s.present ==> Answerable(next.tasks, e)
    requires forall e :: Answerable(s.tasks, e) ==> Answerable(next.tasks, e)
    ensures Sane(next, limit)
  {
  }

  lemma AdmissionKeepsSane(s: State, limit: nat, id: nat, now: int)
    requires Sane(s, limit) && id in s.tasks && s.tasks[id].Added? && |Users(s.present, s.tasks[id].entry.0)| <= limit
    ensures Sane(Advance(s, id, limit, now), limit)
  {
    var e, next := s.tasks[id].entry, Advance(s, id, limit, now);
    forall call
      ensures |Users(next.admitted, call)| <= limit
    {
      if call == e.0 {
        FewerUsers(next.admitted, s.present, call);
      } else {
        assert Users(next.admitted, call) == Users(s.admitted, call);
      }
    }
    forall f | f in next.present
      ensures f in next.admitted || Answerable(next.tasks, f)
    {
      if f != e && f !in s.admitted {
        OtherTasksStay(s.tasks, next.tasks, id, f);
      }
    }
  }

  lemma AdvanceKeepsSane(s: State, limit: nat, id: nat, now: int)
    requires Sane(s, limit) && id in s.tasks
    ensures Sane(Advance(s, id, limit, now), limit)
  {
    var task, next := s.tasks[id], Advance(s, id, limit, now);
    if task.Added? && |Users(s.present, task.entry.0)| <= limit {
      AdmissionKeepsSane(s, limit, id, now);
    } else {
      var gone := if task.Overfull? || task.Leaving? then {task.entry}
                  else if task.Clearing? || task.Marked? then OfCall(s.present, task.call)
                  else {};
      forall e | Answerable(s.tasks, e) && e !in gone
        ensures Answerable(next.tasks, e)
      {
        OtherTasksStay(s.tasks, next.tasks, id, e);
      }
      if task.Overfull? || task.Leaving? || task.Clearing? || task.Marked? {
        RemoveKeepsSane(s, limit, gone, next.tasks);
      } else {
        assert task.Checked? ==> Undecided(next.tasks[id]) && next.tasks[id].entry == task.entry;
        QuietStepKeepsSane(s, limit, next);
      }
    }
  }

  lemma StepKeepsSane(s: State, limit: nat, op: Op)
    requires Sane(s, limit)
    ensures Sane(Step(s, limit, op), limit)
  {
    var next := Step(s, limit, op);
    match op
    case Continue(id, now) =>
      if id in s.tasks {
        AdvanceKeepsSane(s, limit, id, now);
      }
    case DropUser(call, user) => RemoveKeepsSane(s, limit, OfUser(s.present, call, user), s.tasks);
    case _ =>
      forall e | Answerable(s.tasks, e)
        ensures Answerable(next.tasks, e)
      {
        OtherTasksStay(s.tasks, next.tasks, op.id, e);
      }
      QuietStepKeepsSane(s, limit, next);
  }

  lemma {:induction false} RunIsSane(limit: nat, ops: seq<Op>)
    ensures Sane(Run(EMPTY, limit, ops), limit)
  {
    if ops != [] {
      RunIsSane(limit, Init(ops));
      StepKeepsSane(Run(EMPTY, limit, Init(ops)), limit, Last(ops));
    }
  }

  function UsersOf(tasks: map<nat, Task>, ids: set<nat>): set<User> {
    set id | id in ids && id in tasks && Undecided(tasks[id]) :: tasks[id].entry.1
  }

  lemma {:induction false} NoMoreUsersThanJoins(tasks: map<nat, Task>, ids: set<nat>)
    requires forall id :: id in ids ==> id in tasks && Undecided(tasks[id])
    ensures |UsersOf(tasks, ids)| <= |ids|
    decreases ids
  {
    if ids == {} {
      assert UsersOf(tasks, ids) == {};
    } else {
      var id :| id in ids;
      NoMoreUsersThanJoins(tasks, ids - {id});
      SubsetIsNoLarger(UsersOf(tasks, ids), UsersOf(tasks, ids - {id}) + {tasks[id].entry.1});
    }
  }

  /** The store is over the limit by no more users than there are joins still to be answered. */
  lemma OvershootIsBounded(s: State, limit: nat, call: Call)
    requires Sane(s, limit)
    ensures |Users(s.present, call)| <= limit + |UndecidedJoins(s.tasks, call)|
  {
    var ids := UndecidedJoins(s.tasks, call);
    forall user | user in Users(s.present, call)
      ensures user in Users(s.admitted, call) + UsersOf(s.tasks, ids)
    {
      var e :| e in s.present && e.0 == call && e.1 == user;
      if e !in s.admitted {
        var id :| id in s.tasks && Undecided(s.tasks[id]) && s.tasks[id].entry == e;
        assert id in ids;
      }
    }
    NoMoreUsersThanJoins(s.tasks, ids);
    SubsetIsNoLarger(Users(s.present, call), Users(s.admitted, call) + UsersOf(s.tasks, ids));
  }

  /**
   However the steps interleave, the users whose join succeeded and who are still in the call fit the
   limit, all of them are in the store, and the store holds at most as many more as joins are unanswered.
   */
  lemma AdmittedUsersFit(limit: nat, ops: seq<Op>, call: Call)
    ensures var s := Run(EMPTY, limit, ops);
            && |Users(s.admitted, call)| <= limit
            && Users(s.admitted, call) <= Users(s.present, call)
            && |Users(s.present, call)| <= limit + |UndecidedJoins(s.tasks, call)|
  {
    RunIsSane(limit, ops);
    OvershootIsBounded(Run(EMPTY, limit, ops), limit, call);
  }

  // ---- Sessions ----

  /** A session keeps its room, initiator and start, and an ended one stays ended. */
  ghost predicate Continues(before: map<Call, Session>, after: map<Call, Session>) {
    forall call :: call in before ==>
      && call in after && after[call].room == before[call].room
      && after[call].initiator == before[call].initiator && after[call].startedAt == before[call].startedAt
      && (before[call].endedAt.Some? ==> after[call].endedAt.Some?)
  }

  lemma {:induction false} SessionsContinue(s: State, limit: nat, ops: seq<Op>)
    ensures Continues(s.sessions, Run(s, limit, ops).sessions)
  {
    if ops != [] {
      SessionsContinue(s, limit, Init(ops));
      var t := Run(s, limit, Init(ops));
      assert Continues(t.sessions, Step(t, limit, Last(ops)).sessions);
    }
  }

  predicate JoinOf(task: Task, call: Call) {
    (task.Checked? || task.Added? || task.Overfull?) && task.entry.0 == call
  }

  /** The call has ended, nobody is in it, and no join of it is under way. */
  ghost predicate Over(s: State, call: Call) {
    && call in s.sessions && s.sessions[call].endedAt.Some?
    && (forall e :: e in s.present ==> e.0 != call)
    && forall id :: id in s.tasks ==> !JoinOf(s.tasks[id], call)
  }

  /** Once a call has ended and the joins under way have been answered, nobody is ever in it again. */
  lemma {:induction false} OverIsForGood(s: State, limit: nat, ops: seq<Op>, call: Call)
    requires Over(s, call)
    ensures Over(Run(s, limit, ops), call)
  {
    if ops != [] {
      OverIsForGood(s, limit, Init(ops), call);
      var t := Run(s, limit, Init(ops));
      var next := Step(t, limit, Last(ops));
      forall id | id in next.tasks
        ensures !JoinOf(next.tasks[id], call)
      {
        assert id in t.tasks ==> !JoinOf(t.tasks[id], call);
      }
    }
  }
}
