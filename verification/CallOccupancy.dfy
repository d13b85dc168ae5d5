/** Who is in which call with which client: nested maps that stand for a relation. */
module CallOccupancy {
  import opened Prelude

  type Call = string
  type User = string
  type Client = string

  type Entry = (Call, User, Client)

  datatype Occupancy = Occupancy(participants: map<User, set<Client>>, startedAt: int)

  // ---- The relation ----

  function Users(present: set<Entry>, call: Call): set<User> {
    set e | e in present && e.0 == call :: e.1
  }

  function Clients(present: set<Entry>, call: Call, user: User): set<Client> {
    set e | e in present && e.0 == call && e.1 == user :: e.2
  }

  function WithoutCall(present: set<Entry>, call: Call): set<Entry> {
    set e | e in present && e.0 != call
  }

  function WithoutUser(present: set<Entry>, call: Call, user: User): set<Entry> {
    set e | e in present && !(e.0 == call && e.1 == user)
  }

  // ---- What nested maps stand for ----

  predicate Holds(inner: map<Call, Occupancy>, e: Entry) {
    e.0 in inner && e.1 in inner[e.0].participants && e.2 in inner[e.0].participants[e.1]
  }

  /** No call is without participants and no participant without clients. */
  ghost predicate NoEmptyEntry(inner: map<Call, Occupancy>) {
    && (forall call :: call in inner ==> inner[call].participants != map[])
    && forall call, user :: call in inner && user in inner[call].participants ==> inner[call].participants[user] != {}
  }

  ghost predicate Represents(inner: map<Call, Occupancy>, present: set<Entry>) {
    NoEmptyEntry(inner) && forall e :: e in present <==> Holds(inner, e)
  }

  /** The keys of the maps are the users and the calls of the relation. */
  lemma KeysAreUsers(inner: map<Call, Occupancy>, present: set<Entry>, call: Call)
    requires Represents(inner, present)
    ensures if call in inner then inner[call].participants.Keys == Users(present, call) != {}
            else Users(present, call) == {}
  {
    if call in inner {
      var participants := inner[call].participants;
      forall user | user in participants
        ensures user in Users(present, call)
      {
        assert participants[user] != {};
        var client :| client in participants[user];
        assert Holds(inner, (call, user, client));
        assert (call, user, client) in present;
      }
      forall user | user in Users(present, call)
        ensures user in participants
      {
        var e :| e in present && e.0 == call && e.1 == user;
        assert Holds(inner, e);
      }
      assert participants.Keys == {} ==> participants == map[];
    } else {
      forall e | e in present
        ensures e.0 != call
      {
        assert Holds(inner, e);
      }
    }
  }

  /** The nested maps are determined by the relation, but for the times at which calls began. */
  lemma RepresentationIsUnique(a: map<Call, Occupancy>, b: map<Call, Occupancy>, present: set<Entry>)
    requires Represents(a, present) && Represents(b, present)
    ensures a.Keys == b.Keys && forall call :: call in a ==> a[call].participants == b[call].participants
  {
    forall call
      ensures call in a <==> call in b
    {
      KeysAreUsers(a, present, call);
      KeysAreUsers(b, present, call);
    }
    forall call | call in a
      ensures a[call].participants == b[call].participants
    {
      KeysAreUsers(a, present, call);
      KeysAreUsers(b, present, call);
      forall user | user in a[call].participants
        ensures a[call].participants[user] == b[call].participants[user]
      {
        forall client
          ensures client in a[call].participants[user] <==> client in b[call].participants[user]
        {
          assert (call, user, client) in present <==> Holds(a, (call, user, client));
          assert (call, user, client) in present <==> Holds(b, (call, user, client));
        }
      }
    }
  }

  /** One method for each acquisition of the lock. */
  class CallOccupancyStore {
    var inner: map<Call, Occupancy>
    /** The relation that the maps stand for. */
    ghost var present: set<Entry>

    ghost predicate Valid()
      reads this
    {
      Represents(inner, present)
    }

    constructor ()
      ensures Valid() && present == {}
    {
      inner, present := map[], {};
    }

    method AddClient(call: Call, user: User, client: Client, now: int)
      requires Valid()
      modifies this
      ensures Valid() && present == old(present) + {(call, user, client)}
      ensures forall c :: c in old(inner) ==> c in inner && inner[c].startedAt == old(inner)[c].startedAt
      ensures call in inner && (call !in old(inner) ==> inner[call].startedAt == now)
    {
      var entry := if call in inner then inner[call] else Occupancy(map[], now);
      var clients := if user in entry.participants then entry.participants[user] else {};
      inner := inner[call := entry.(participants := entry.participants[user := clients + {client}])];
      present := present + {(call, user, client)};
      AddedRepresents(old(inner), inner, old(present), (call, user, client));
    }

    method RemoveClient(call: Call, user: User, client: Client)
      requires Valid()
      modifies this
      ensures Valid() && present == old(present) - {(call, user, client)}
    {
      var removeCall := false;
      ghost var kept := map[];
      if call in inner {
        var participants := inner[call].participants;
        var removeUserEntry := false;
        if user in participants {
          participants := participants[user := participants[user] - {client}];
          assert forall c :: c in inner[call].participants[user] && c != client ==> c in participants[user];
          if participants[user] == {} {
            removeUserEntry := true;
          }
        }
        if removeUserEntry {
          participants := participants - {user};
        }
        kept := participants;
        inner := inner[call := inner[call].(participants := participants)];
        if participants == map[] {
          removeCall := true;
        }
      }
      if removeCall {
        inner := inner - {call};
      }
      present := present - {(call, user, client)};
      forall e
        ensures e in present <==> Holds(inner, e)
      {
        assert e in old(present) <==> Holds(old(inner), e);
        assert e.0 == call && call in old(inner) ==>
                 (Holds(old(inner), e) && e != (call, user, client) <==> e.1 in kept && e.2 in kept[e.1]);
      }
    }

    method RemoveUser(call: Call, user: User)
      requires Valid()
      modifies this
      ensures Valid() && present == WithoutUser(old(present), call, user)
    {
      var removeCall := false;
      ghost var kept := map[];
      if call in inner {
        var participants := inner[call].participants - {user};
        kept := participants;
        inner := inner[call := inner[call].(participants := participants)];
        if participants == map[] {
          removeCall := true;
        }
      }
      if removeCall {
        inner := inner - {call};
      }
      present := WithoutUser(present, call, user);
      forall e
        ensures e in present <==> Holds(inner, e)
      {
        assert e in old(present) <==> Holds(old(inner), e);
        assert e.0 == call && call in old(inner) ==>
                 (Holds(old(inner), e) && e.1 != user <==> e.1 in kept && e.2 in kept[e.1]);
      }
    }

    method ClearCall(call: Call)
      requires Valid()
      modifies this
      ensures Valid() && present == WithoutCall(old(present), call)
    {
      inner := inner - {call};
      present := WithoutCall(present, call);
      forall e
        ensures e in present <==> Holds(inner, e)
      {
        assert e in old(present) <==> Holds(old(inner), e);
      }
    }

    method IsParticipant(call: Call, user: User) returns (r: bool)
      requires Valid()
      ensures r <==> user in Users(present, call)
    {
      KeysAreUsers(inner, present, call);
      if call in inner {
        if user in inner[call].participants {
          return inner[call].participants[user] != {};
        }
      }
      return false;
    }

    method IsClientOwner(call: Call, user: User, client: Client) returns (r: bool)
      requires Valid()
      ensures r <==> (call, user, client) in present
    {
      assert (call, user, client) in present <==> Holds(inner, (call, user, client));
      if call in inner {
        if user in inner[call].participants {
          return client in inner[call].participants[user];
        }
      }
      return false;
    }

    /** order is the order in which the participants are gone through. */
    method FindUserForClient(call: Call, client: Client, order: seq<User>) returns (r: Option<User>)
      requires Valid() && (call in inner ==> forall u :: u in order <==> u in inner[call].participants)
      ensures r.Some? ==> (call, r.value, client) in present
      ensures r.None? ==> forall u :: (call, u, client) !in present
    {
      if call in inner {
        for i := 0 to |order|
          invariant forall k :: 0 <= k < i ==> !Holds(inner, (call, order[k], client))
        {
          assert order[i] in inner[call].participants;
          if client in inner[call].participants[order[i]] {
            assert Holds(inner, (call, order[i], client));
            return Some(order[i]);
          }
        }
      }
      forall u
        ensures (call, u, client) !in present
      {
        assert call in inner ==> (u in order <==> u in inner[call].participants);
        assert (call, u, client) in present <==> Holds(inner, (call, u, client));
      }
      return None;
    }

    method ParticipantUserIds(call: Call, excluding: User, order: seq<User>) returns (r: seq<User>)
      requires Valid() && (call in inner ==> forall u :: u in order <==> u in inner[call].participants)
      ensures forall u :: u in r <==> u in Users(present, call) && u != excluding
    {
      r := [];
      KeysAreUsers(inner, present, call);
      if call in inner {
        for i := 0 to |order|
          invariant forall u :: u in r <==> u in order[..i] && u != excluding
        {
          assert order[i] in inner[call].participants && inner[call].participants[order[i]] != {};
          if order[i] != excluding && inner[call].participants[order[i]] != {} {
            r := r + [order[i]];
          }
        }
        assert order[..|order|] == order;
      }
    }

    /** The number of distinct users in the call. */
    method ParticipantCount(call: Call) returns (n: nat)
      requires Valid()
      ensures n == |Users(present, call)|
    {
      KeysAreUsers(inner, present, call);
      if call in inner {
        assert inner[call].participants.Keys == Users(present, call);
        return |inner[call].participants|;
      } else {
        return 0;
      }
    }
  }

  lemma AddedRepresents(before: map<Call, Occupancy>, after: map<Call, Occupancy>, present: set<Entry>, e: Entry)
    requires Represents(before, present)
    requires e.0 in after
    requires var entry := if e.0 in before then before[e.0] else after[e.0].(participants := map[]);
             var clients := if e.1 in entry.participants then entry.participants[e.1] else {};
             after == before[e.0 := entry.(participants := entry.participants[e.1 := clients + {e.2}])]
    ensures Represents(after, present + {e})
  {
    assert e.1 in after[e.0].participants;
    forall f
      ensures f in present + {e} <==> Holds(after, f)
    {
      assert f in present <==> Holds(before, f);
    }
  }
}
