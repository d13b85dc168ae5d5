/** The one-pass validator: it fills maps and sets in loops over the extensions and then looks through them. */
module LinkValidator {
  import opened Prelude
  import opened TextSplit
  import opened LinkRules
  import opened LinkMounts
  import opened LinkEvents

  // ---- Sessions ----

  function SessionKey(id: Id, kind: string): string {
    id + ":" + kind
  }

  function SessionKeys(id: Id, kinds: seq<string>): (r: seq<string>)
    ensures |r| == |kinds|
  {
    seq(|kinds|, k requires 0 <= k < |kinds| => SessionKey(id, kinds[k]))
  }

  function AllSessionKeys(exts: seq<Extension>): seq<string> {
    if exts == [] then [] else AllSessionKeys(Init(exts)) + SessionKeys(Last(exts).id, Last(exts).sessions)
  }

  predicate NoneTwice(keys: seq<string>) {
    keys != [] ==> NoneTwice(Init(keys)) && Last(keys) !in Init(keys)
  }

  lemma NoneTwiceSnoc(keys: seq<string>, key: string)
    ensures NoneTwice(keys + [key]) <==> NoneTwice(keys) && key !in keys
  {
    assert Init(keys + [key]) == keys;
  }

  method CheckSessions(exts: seq<Extension>) returns (errors: seq<LinkError>)
    ensures errors == [] <==> NoneTwice(AllSessionKeys(exts))
  {
    errors := [];
    var seen: set<string> := {};
    ghost var all: seq<string> := [];
    for i := 0 to |exts|
      invariant all == AllSessionKeys(exts[..i]) && (forall k :: k in seen <==> k in all)
      invariant errors == [] <==> NoneTwice(all)
    {
      var id, kinds := exts[i].id, exts[i].sessions;
      ghost var before := all;
      for j := 0 to |kinds|
        invariant all == before + SessionKeys(id, kinds)[..j] && (forall k :: k in seen <==> k in all)
        invariant errors == [] <==> NoneTwice(all)
      {
        var key := SessionKey(id, kinds[j]);
        assert SessionKeys(id, kinds)[..j + 1] == SessionKeys(id, kinds)[..j] + [key];
        NoneTwiceSnoc(all, key);
        all := all + [key];
        if key in seen {
          errors := errors + [DuplicateSession(kinds[j], id)];
        } else {
          seen := seen + {key};
        }
      }
      assert SessionKeys(id, kinds)[..|kinds|] == SessionKeys(id, kinds);
      assert Init(exts[..i + 1]) == exts[..i];
    }
    assert exts[..|exts|] == exts;
  }

  lemma {:induction false} NoneTwiceAppend(a: seq<string>, b: seq<string>)
    ensures NoneTwice(a + b) <==> NoneTwice(a) && NoneTwice(b) && forall k :: k in b ==> k !in a
  {
    if b == [] {
      assert a + b == a;
    } else {
      NoneTwiceAppend(a, Init(b));
      NoneTwiceSnoc(a + Init(b), Last(b));
      assert a + b == a + Init(b) + [Last(b)];
      assert b == Init(b) + [Last(b)];
    }
  }

  lemma {:induction false} OwnKeysAreNoneTwice(id: Id, kinds: seq<string>)
    ensures NoneTwice(SessionKeys(id, kinds)) <==> forall j, k :: 0 <= j < k < |kinds| ==> kinds[j] != kinds[k]
  {
    if kinds != [] {
      var rest, kind := Init(kinds), Last(kinds);
      OwnKeysAreNoneTwice(id, rest);
      assert SessionKeys(id, kinds) == SessionKeys(id, rest) + [SessionKey(id, kind)];
      NoneTwiceSnoc(SessionKeys(id, rest), SessionKey(id, kind));
      forall j | 0 <= j < |rest|
        ensures SessionKeys(id, rest)[j] == SessionKey(id, kind) <==> rest[j] == kind
      {
        assert SessionKey(id, rest[j])[|id| + 1..] == rest[j] && SessionKey(id, kind)[|id| + 1..] == kind;
      }
      assert SessionKey(id, kind) in SessionKeys(id, rest) <==> exists j :: 0 <= j < |rest| && rest[j] == kind;
      assert kinds == rest + [kind];
    }
  }

  lemma {:induction false} SessionKeysAreOwn(exts: seq<Extension>, key: string)
    requires key in AllSessionKeys(exts)
    ensures exists e, kind :: e in exts && key == SessionKey(e.id, kind)
  {
    var e := Last(exts);
    if key in SessionKeys(e.id, e.sessions) {
      var k :| 0 <= k < |e.sessions| && SessionKeys(e.id, e.sessions)[k] == key;
      assert key == SessionKey(e.id, e.sessions[k]) && e in exts;
    } else {
      SessionKeysAreOwn(Init(exts), key);
      var f, kind :| f in Init(exts) && key == SessionKey(f.id, kind);
      assert f in exts;
    }
  }

  /** Keys of different extensions never clash, so the check is extension by extension. */
  lemma {:induction false} SessionsAreUniqueIff(exts: seq<Extension>)
    requires IsRegistry(exts)
    ensures NoneTwice(AllSessionKeys(exts)) <==> SessionsAreUnique(exts)
  {
    if exts != [] {
      var rest, e := Init(exts), Last(exts);
      SessionsAreUniqueIff(rest);
      assert exts == rest + [e];
      OwnKeysAreNoneTwice(e.id, e.sessions);
      NoneTwiceAppend(AllSessionKeys(rest), SessionKeys(e.id, e.sessions));
      forall k | 0 <= k < |e.sessions|
        ensures SessionKeys(e.id, e.sessions)[k] !in AllSessionKeys(rest)
      {
        var key := SessionKey(e.id, e.sessions[k]);
        if key in AllSessionKeys(rest) {
          SessionKeysAreOwn(rest, key);
          var f, kind :| f in rest && key == SessionKey(f.id, kind);
          SplitAtFirst(':', e.id, e.sessions[k], f.id, kind);
        }
      }
      assert SessionsAreUnique(exts) <==>
             SessionsAreUnique(rest) && forall j, k :: 0 <= j < k < |e.sessions| ==> e.sessions[j] != e.sessions[k];
    }
  }

  // ---- Preferences ----

  method CheckPreferences(exts: seq<Extension>) returns (errors: seq<LinkError>)
    ensures errors == [] <==> PreferencesAreFree(exts)
  {
    errors := [];
    for i := 0 to |exts|
      invariant errors == [] <==> PreferencesAreFree(exts[..i])
    {
      var keys := exts[i].preferences;
      ghost var before := errors;
      for j := 0 to |keys|
        invariant errors == [] <==> before == [] && forall p :: p in keys[..j] ==> !IsReserved(p)
      {
        assert keys[..j + 1] == keys[..j] + [keys[j]];
        assert IsReserved(keys[j]) <==> keys[j] == RESERVED_KEY || RESERVED_PREFIX <= keys[j];
        assert (forall p :: p in keys[..j + 1] ==> !IsReserved(p)) <==>
               (forall p :: p in keys[..j] ==> !IsReserved(p)) && !IsReserved(keys[j]);
        if keys[j] == RESERVED_KEY {
          errors := errors + [ReservedPreference(keys[j], exts[i].id)];
        }
        if RESERVED_PREFIX <= keys[j] {
          errors := errors + [ReservedPreference(keys[j], exts[i].id)];
        }
      }
      assert keys[..|keys|] == keys;
      assert forall e :: e in exts[..i + 1] <==> e in exts[..i] || e == exts[i];
    }
    assert exts[..|exts|] == exts;
  }

  // ---- The validator ----

  /**
   For extensions with different short ids, the errors that the validator collects are none exactly when
   the extensions link.
   */
  method ValidateLink(exts: seq<Extension>) returns (errors: seq<LinkError>)
    requires IsRegistry(exts) && ShortIdsDiffer(exts)
    ensures errors == [] <==> Links(exts)
  {
    var detailRoutes, duplicateDetails := CollectRoutes(exts, true);
    var listRoutes, duplicateLists := CollectRoutes(exts, false);
    var declared := CollectSlots(exts);
    var events := CollectEvents(exts);
    var sessions := CheckSessions(exts);
    var preferences := CheckPreferences(exts);
    var collisions := CrossRoutes(detailRoutes, listRoutes);
    var bySlot, graph, undeclared := CollectMounts(exts, declared);
    var overfilled := CheckFillers(bySlot, declared);
    var cycles := CheckCycles(graph);
    AllOrdered(exts, events);
    var unmatched := CheckEvents(events);
    RoutesDecide(exts);
    MountsDecide(exts, declared, bySlot, graph);
    EventsDecide(exts, events);
    SessionsAreUniqueIff(exts);
    errors := duplicateDetails + duplicateLists + sessions + preferences + collisions + undeclared + overfilled
        + cycles + unmatched;
  }

  lemma AllOrdered(exts: seq<Extension>, events: map<string, EventEntry>)
    requires Noted(events, AllDecls(exts), AllListens(exts))
    ensures forall event :: event in events ==> Ordered(events[event].table)
  {
    forall event | event in events
      ensures Ordered(events[event].table)
    {
      assert EntryOf(events, event) == Entry(AllDecls(exts), AllListens(exts), event);
      SchemasAreOrdered(AllDecls(exts), event);
    }
  }

  lemma RoutesDecide(exts: seq<Extension>)
    ensures NoneRepeats(exts, true) && NoneRepeats(exts, false) && Routes(exts, true) !! Routes(exts, false) <==>
              RoutesAreUnique(exts)
  {
    NoneRepeatsIff(exts, true);
    NoneRepeatsIff(exts, false);
    NoRouteIsBothIff(exts);
  }

  lemma MountsDecide(exts: seq<Extension>, declared: map<string, SlotMeta>, bySlot: map<string, seq<(Id, Mount)>>,
        graph: map<Id, set<Id>>)
    requires IsRegistry(exts) && ShortIdsDiffer(exts) && forall key :: Get(declared, key) == Declared(exts, key)
    requires Sorted(AllMounts(exts), declared, bySlot) && Graphed(AllMounts(exts), declared, graph)
    ensures (forall m :: m in AllMounts(exts) ==> m.1.slot in declared) <==> MountsAreDeclared(exts)
    ensures (forall key :: key in bySlot && key in declared ==> declared[key].multiple || |bySlot[key]| <= 1) <==>
              SingleSlotsAreSingle(exts)
    ensures (forall a, b :: InGraph(graph, a, b) && a != b ==> !InGraph(graph, b, a)) <==> NoMutualMounts(exts)
  {
    var all := AllMounts(exts);
    DeclaredMountsIff(exts, declared);
    FillersAreSingle(exts, declared);
    CyclesAreMutualMounts(exts, declared);
    forall key | key in declared
      ensures |Fillers(all, key)| <= 1 <==> (key in bySlot ==> |bySlot[key]| <= 1)
    {
      assert Get(bySlot, key) == Filling(all, declared, key);
    }
    forall a, b
      ensures InGraph(graph, a, b) <==> Edge(all, declared, a, b)
    {
    }
  }
}
