/** The part of the link validator that looks at routes, slots and mounts. */
module LinkMounts {
  import opened Prelude
  import opened TextSplit
  import opened LinkRules

  // ---- Routes ----

  function Routes(exts: seq<Extension>, detail: bool): set<string> {
    if exts == [] then {}
    else
      var route := Route(View(Last(exts), detail));
      Routes(Init(exts), detail) + if route.Some? then {route.value} else {}
  }

  lemma {:induction false} RoutesAre(exts: seq<Extension>, detail: bool)
    ensures forall r :: r in Routes(exts, detail) <==> exists e :: e in exts && Route(View(e, detail)) == Some(r)
  {
    if exts != [] {
      RoutesAre(Init(exts), detail);
      assert exts == Init(exts) + [Last(exts)];
      assert Last(exts) in exts;
    }
  }

  lemma RoutesDifferSnoc(exts: seq<Extension>, e: Extension, detail: bool)
    ensures RoutesDiffer(exts + [e], detail) <==>
            RoutesDiffer(exts, detail)
                && (Route(View(e, detail)).None? || Route(View(e, detail)).value !in Routes(exts, detail))
  {
    var all, route := exts + [e], Route(View(e, detail));
    RoutesAre(exts, detail);
    if RoutesDiffer(all, detail) {
      forall i, j | 0 <= i < j < |exts| && Route(View(exts[i], detail)).Some?
        ensures Route(View(exts[i], detail)) != Route(View(exts[j], detail))
      {
        assert all[i] == exts[i] && all[j] == exts[j];
      }
      forall x | x in exts && route.Some?
        ensures Route(View(x, detail)) != route
      {
        var i :| 0 <= i < |exts| && exts[i] == x;
        assert all[i] == x && all[|exts|] == e;
      }
    }
    if RoutesDiffer(exts, detail) && (route.None? || route.value !in Routes(exts, detail)) {
      forall i, j | 0 <= i < j < |all| && Route(View(all[i], detail)).Some?
        ensures Route(View(all[i], detail)) != Route(View(all[j], detail))
      {
        assert all[i] == exts[i] && exts[i] in exts;
        assert j < |exts| ==> all[j] == exts[j];
      }
    }
  }

  /** Whether no extension repeats a route of an earlier one. */
  predicate NoneRepeats(exts: seq<Extension>, detail: bool) {
    exts != [] ==>
      var route := Route(View(Last(exts), detail));
      NoneRepeats(Init(exts), detail) && (route.None? || route.value !in Routes(Init(exts), detail))
  }

  lemma {:induction false} NoneRepeatsIff(exts: seq<Extension>, detail: bool)
    ensures NoneRepeats(exts, detail) <==> RoutesDiffer(exts, detail)
  {
    if exts != [] {
      NoneRepeatsIff(Init(exts), detail);
      RoutesDifferSnoc(Init(exts), Last(exts), detail);
      assert exts == Init(exts) + [Last(exts)];
    }
  }

  method CollectRoutes(exts: seq<Extension>, detail: bool) returns (routes: map<string, Id>, errors: seq<LinkError>)
    ensures routes.Keys == Routes(exts, detail)
    ensures errors == [] <==> NoneRepeats(exts, detail)
  {
    routes, errors := map[], [];
    for i := 0 to |exts|
      invariant routes.Keys == Routes(exts[..i], detail)
      invariant errors == [] <==> NoneRepeats(exts[..i], detail)
    {
      assert Init(exts[..i + 1]) == exts[..i];
      var route := Route(View(exts[i], detail));
      if route.Some? {
        if route.value in routes {
          errors := errors + [DuplicateRoute(route.value, exts[i].id)];
        } else {
          routes := routes[route.value := exts[i].id];
        }
      }
    }
    assert exts[..|exts|] == exts;
  }

  method CrossRoutes(detailRoutes: map<string, Id>, listRoutes: map<string, Id>) returns (errors: seq<LinkError>)
    ensures errors == [] <==> detailRoutes.Keys !! listRoutes.Keys
  {
    errors := [];
    var rest := detailRoutes.Keys;
    while rest != {}
      invariant rest <= detailRoutes.Keys
      invariant errors == [] <==> forall r :: r in detailRoutes && r !in rest ==> r !in listRoutes
      decreases |rest|
    {
      var route :| route in rest;
      rest := rest - {route};
      if route in listRoutes {
        errors := errors + [RouteCollision(route)];
      }
    }
  }

  lemma NoRouteIsBothIff(exts: seq<Extension>)
    ensures NoRouteIsBoth(exts) <==> Routes(exts, true) !! Routes(exts, false)
  {
    RoutesAre(exts, true);
    RoutesAre(exts, false);
    if r :| r in Routes(exts, true) && r in Routes(exts, false) {
      var e :| e in exts && Route(View(e, true)) == Some(r);
      var f :| f in exts && Route(View(f, false)) == Some(r);
      assert !NoRouteIsBoth(exts);
    } else {
      forall e, f | e in exts && f in exts && Route(View(e, true)).Some?
        ensures Route(View(e, true)) != Route(View(f, false))
      {
        assert Route(View(e, true)).value in Routes(exts, true);
      }
    }
  }

  // ---- Declared slots ----

  datatype SlotMeta = SlotMeta(host: Id, multiple: bool)

  /** The last extension to declare the key has it. */
  function Declared(exts: seq<Extension>, key: string): Option<SlotMeta> {
    if exts == [] then None
    else if Declares(Last(exts), key) then Some(SlotMeta(Last(exts).id, SlotAt(Last(exts), key).value))
    else Declared(Init(exts), key)
  }

  function Get<V>(m: map<string, V>, key: string): Option<V> {
    if key in m then Some(m[key]) else None
  }

  /** What a key means once some entries of an extension have been recorded on top of what there was. */
  function Recorded(before: Option<SlotMeta>, host: Id, slots: seq<(string, bool)>, key: string): Option<SlotMeta> {
    var name := NameIn(host, key);
    if name.Some? && Lookup(slots, name.value).Some? then Some(SlotMeta(host, Lookup(slots, name.value).value))
        else before
  }

  method RecordSlots(declared: map<string, SlotMeta>, host: Id, slots: seq<(string, bool)>)
    returns (next: map<string, SlotMeta>)
    ensures forall key :: Get(next, key) == Recorded(Get(declared, key), host, slots, key)
  {
    next := declared;
    for i := 0 to |slots|
      invariant forall key :: Get(next, key) == Recorded(Get(declared, key), host, slots[..i], key)
    {
      ghost var before := next;
      var full := ShortId(host) + "." + slots[i].0;
      next := next[full := SlotMeta(host, slots[i].1)];
      assert Init(slots[..i + 1]) == slots[..i];
      NameOfKey(host, slots[i].0);
      forall key
        ensures Get(next, key) == Recorded(Get(declared, key), host, slots[..i + 1], key)
      {
        assert Get(before, key) == Recorded(Get(declared, key), host, slots[..i], key);
        if NameIn(host, key).Some? {
          KeyOfName(host, key);
        }
      }
    }
    assert slots[..|slots|] == slots;
  }

  method CollectSlots(exts: seq<Extension>) returns (declared: map<string, SlotMeta>)
    ensures forall key :: Get(declared, key) == Declared(exts, key)
  {
    declared := map[];
    for i := 0 to |exts|
      invariant forall key :: Get(declared, key) == Declared(exts[..i], key)
    {
      ghost var before := declared;
      var afterDetail := RecordSlots(declared, exts[i].id, Slots(exts[i].detail));
      declared := RecordSlots(afterDetail, exts[i].id, Slots(exts[i].list));
      assert Init(exts[..i + 1]) == exts[..i];
      forall key
        ensures Get(declared, key) == Declared(exts[..i + 1], key)
      {
        assert Get(before, key) == Declared(exts[..i], key);
        assert Get(afterDetail, key) == Recorded(Get(before, key), exts[i].id, Slots(exts[i].detail), key);
        assert Get(declared, key) == Recorded(Get(afterDetail, key), exts[i].id, Slots(exts[i].list), key);
      }
    }
    assert exts[..|exts|] == exts;
  }

  lemma {:induction false} DeclaredIsHost(exts: seq<Extension>, key: string)
    ensures Declared(exts, key).None? ==> forall h :: h in exts ==> !Declares(h, key)
    ensures Declared(exts, key).Some? ==>
              exists h :: h in exts && h.id == Declared(exts, key).value.host
                  && SlotAt(h, key) == Some(Declared(exts, key).value.multiple)
  {
    if exts != [] {
      DeclaredIsHost(Init(exts), key);
      assert exts == Init(exts) + [Last(exts)];
      if Declares(Last(exts), key) {
        assert Last(exts) in exts;
      }
    }
  }

  /** With different short ids it does not matter which extension comes last. */
  lemma OnlyHost(exts: seq<Extension>, key: string, h: Extension)
    requires ShortIdsDiffer(exts) && h in exts && Declares(h, key)
    ensures Declared(exts, key) == Some(SlotMeta(h.id, SlotAt(h, key).value))
  {
    DeclaredIsHost(exts, key);
    var g :| g in exts && g.id == Declared(exts, key).value.host
        && SlotAt(g, key) == Some(Declared(exts, key).value.multiple);
    HostIsUnique(g.id, h.id, key);
    var i :| 0 <= i < |exts| && exts[i] == g;
    var j :| 0 <= j < |exts| && exts[j] == h;
    assert i == j;
  }

  // ---- Mounts ----

  /** The mounts of one slot, in order. */
  function Fillers(mounts: seq<(Id, Mount)>, key: string): seq<(Id, Mount)> {
    if mounts == [] then []
    else if Last(mounts).1.slot == key then Fillers(Init(mounts), key) + [Last(mounts)]
    else Fillers(Init(mounts), key)
  }

  /** Some mount of extension a is of a slot of h. */
  ghost predicate Edge(mounts: seq<(Id, Mount)>, declared: map<string, SlotMeta>, a: Id, h: Id) {
    exists m :: m in mounts && m.0 == a && m.1.slot in declared && declared[m.1.slot].host == h
  }

  predicate InGraph(graph: map<Id, set<Id>>, a: Id, h: Id) {
    a in graph && h in graph[a]
  }

  /** The fillers that are collected for a key, if any are. */
  function Filling(mounts: seq<(Id, Mount)>, declared: map<string, SlotMeta>, key: string): Option<seq<(Id, Mount)>> {
    if key in declared && Fillers(mounts, key) != [] then Some(Fillers(mounts, key)) else None
  }

  ghost predicate Sorted(mounts: seq<(Id, Mount)>, declared: map<string, SlotMeta>,
        bySlot: map<string, seq<(Id, Mount)>>) {
    forall key :: Get(bySlot, key) == Filling(mounts, declared, key)
  }

  ghost predicate Graphed(mounts: seq<(Id, Mount)>, declared: map<string, SlotMeta>, graph: map<Id, set<Id>>) {
    forall a, h :: InGraph(graph, a, h) <==> Edge(mounts, declared, a, h)
  }

  lemma FillersSnoc(mounts: seq<(Id, Mount)>, m: (Id, Mount), key: string)
    ensures Fillers(mounts + [m], key) == if m.1.slot == key then Fillers(mounts, key) + [m] else Fillers(mounts, key)
  {
    assert Init(mounts + [m]) == mounts;
  }

  lemma EdgeSnoc(mounts: seq<(Id, Mount)>, m: (Id, Mount), declared: map<string, SlotMeta>, a: Id, h: Id)
    ensures Edge(mounts + [m], declared, a, h)
            <==> Edge(mounts, declared, a, h) || (m.0 == a && m.1.slot in declared && declared[m.1.slot].host == h)
  {
    assert forall x :: x in mounts + [m] <==> x in mounts || x == m;
  }

  lemma SortedSnoc(mounts: seq<(Id, Mount)>, m: (Id, Mount), declared: map<string, SlotMeta>,
        bySlot: map<string, seq<(Id, Mount)>>)
    requires Sorted(mounts, declared, bySlot)
    ensures var key := m.1.slot;
            if key in declared then
              Sorted(mounts + [m], declared, bySlot[key := (if key in bySlot then bySlot[key] else []) + [m]])
            else Sorted(mounts + [m], declared, bySlot)
  {
    var slot := m.1.slot;
    var fillers := (if slot in bySlot then bySlot[slot] else []) + [m];
    var next := if slot in declared then bySlot[slot := fillers] else bySlot;
    forall key
      ensures Get(next, key) == Filling(mounts + [m], declared, key)
    {
      FillersSnoc(mounts, m, key);
      assert Get(bySlot, key) == Filling(mounts, declared, key);
    }
  }

  lemma GraphedSnoc(mounts: seq<(Id, Mount)>, m: (Id, Mount), declared: map<string, SlotMeta>, graph: map<Id, set<Id>>)
    requires Graphed(mounts, declared, graph)
    ensures if m.1.slot in declared then
              var hosts := (if m.0 in graph then graph[m.0] else {}) + {declared[m.1.slot].host};
              Graphed(mounts + [m], declared, graph[m.0 := hosts])
            else Graphed(mounts + [m], declared, graph)
  {
    forall a, h
      ensures Edge(mounts + [m], declared, a, h)
              <==> InGraph(graph, a, h) || (m.0 == a && m.1.slot in declared && declared[m.1.slot].host == h)
    {
      EdgeSnoc(mounts, m, declared, a, h);
    }
  }

  method CollectMounts(exts: seq<Extension>, declared: map<string, SlotMeta>)
    returns (bySlot: map<string, seq<(Id, Mount)>>, graph: map<Id, set<Id>>, errors: seq<LinkError>)
    ensures Sorted(AllMounts(exts), declared, bySlot) && Graphed(AllMounts(exts), declared, graph)
    ensures errors == [] <==> forall m :: m in AllMounts(exts) ==> m.1.slot in declared
  {
    bySlot, graph, errors := map[], map[], [];
    ghost var all: seq<(Id, Mount)> := [];
    for i := 0 to |exts|
      invariant all == AllMounts(exts[..i]) && Sorted(all, declared, bySlot) && Graphed(all, declared, graph)
      invariant errors == [] <==> forall m :: m in all ==> m.1.slot in declared
    {
      var mounts := exts[i].mounts;
      ghost var before := all;
      for j := 0 to |mounts|
        invariant all == before + MountsOf(exts[i])[..j] && Sorted(all, declared, bySlot)
                  && Graphed(all, declared, graph)
        invariant errors == [] <==> forall m :: m in all ==> m.1.slot in declared
      {
        var mount, id := mounts[j], exts[i].id;
        assert MountsOf(exts[i])[..j + 1] == MountsOf(exts[i])[..j] + [(id, mount)];
        assert forall m :: m in all + [(id, mount)] <==> m in all || m == (id, mount);
        SortedSnoc(all, (id, mount), declared, bySlot);
        GraphedSnoc(all, (id, mount), declared, graph);
        all := all + [(id, mount)];
        var key := mount.slot;
        if key !in declared {
          errors := errors + [UndeclaredSlot(key, id)];
        } else {
          bySlot := bySlot[key := (if key in bySlot then bySlot[key] else []) + [(id, mount)]];
          graph := graph[id := (if id in graph then graph[id] else {}) + {declared[key].host}];
        }
      }
      assert MountsOf(exts[i])[..|mounts|] == MountsOf(exts[i]);
      assert Init(exts[..i + 1]) == exts[..i];
    }
    assert exts[..|exts|] == exts;
  }

  method CheckFillers(bySlot: map<string, seq<(Id, Mount)>>, declared: map<string, SlotMeta>)
    returns (errors: seq<LinkError>)
    ensures errors == [] <==> forall key :: key in bySlot && key in declared ==>
              declared[key].multiple || |bySlot[key]| <= 1
  {
    errors := [];
    var rest := bySlot.Keys;
    while rest != {}
      invariant rest <= bySlot.Keys
      invariant errors == [] <==>
                forall key :: key in bySlot && key !in rest && key in declared ==>
                      declared[key].multiple || |bySlot[key]| <= 1
      decreases |rest|
    {
      var key :| key in rest;
      rest := rest - {key};
      if key in declared && !declared[key].multiple && |bySlot[key]| > 1 {
        errors := errors + [OverfilledSlot(key)];
      }
    }
  }

  method CheckCycles(graph: map<Id, set<Id>>) returns (errors: seq<LinkError>)
    ensures errors == [] <==> forall a, b :: InGraph(graph, a, b) && a != b ==> !InGraph(graph, b, a)
  {
    errors := [];
    var rest := graph.Keys;
    while rest != {}
      invariant rest <= graph.Keys
      invariant errors == [] <==> forall a, b :: InGraph(graph, a, b) && a !in rest && a != b ==> !InGraph(graph, b, a)
      decreases |rest|
    {
      var a :| a in rest;
      rest := rest - {a};
      ghost var before := errors;
      var hosts := graph[a];
      while hosts != {}
        invariant hosts <= graph[a]
        invariant errors == [] <==>
                  before == [] && forall b :: b in graph[a] && b !in hosts && a != b ==> !InGraph(graph, b, a)
        decreases |hosts|
      {
        var b :| b in hosts;
        assert b in graph[a];
        hosts := hosts - {b};
        if a != b && b in graph && a in graph[b] {
          errors := errors + [CircularMount(a, b)];
        }
      }
    }
  }

  lemma {:induction false} FillersAre(mounts: seq<(Id, Mount)>, key: string)
    ensures forall m :: m in Fillers(mounts, key) <==> m in mounts && m.1.slot == key
  {
    if mounts != [] {
      FillersAre(Init(mounts), key);
      assert mounts == Init(mounts) + [Last(mounts)];
    }
  }

  lemma {:induction false} TwoMountsFill(mounts: seq<(Id, Mount)>, key: string, a: nat, b: nat)
    requires a < b < |mounts| && mounts[a].1.slot == mounts[b].1.slot == key
    ensures |Fillers(mounts, key)| >= 2
  {
    var rest := Init(mounts);
    assert rest[a] in rest;
    if b == |rest| {
      FillersAre(rest, key);
      assert rest[a] in Fillers(rest, key);
    } else {
      TwoMountsFill(rest, key, a, b);
    }
  }

  lemma {:induction false} TwoFillersAreMounts(mounts: seq<(Id, Mount)>, key: string) returns (a: nat, b: nat)
    requires |Fillers(mounts, key)| >= 2
    ensures a < b < |mounts| && mounts[a].1.slot == mounts[b].1.slot == key
  {
    var rest := Init(mounts);
    if Last(mounts).1.slot == key {
      FillersAre(rest, key);
      assert Fillers(rest, key)[0] in Fillers(rest, key);
      var m := Fillers(rest, key)[0];
      a :| 0 <= a < |rest| && rest[a] == m;
      b := |rest|;
    } else {
      a, b := TwoFillersAreMounts(rest, key);
    }
  }

  lemma {:induction false} MountsComeFrom(exts: seq<Extension>, m: (Id, Mount))
    ensures m in AllMounts(exts) <==> exists e :: e in exts && e.id == m.0 && m.1 in e.mounts
  {
    if exts != [] {
      MountsComeFrom(Init(exts), m);
      var e := Last(exts);
      assert exts == Init(exts) + [e];
      assert m in MountsOf(e) <==> e.id == m.0 && m.1 in e.mounts by {
        if e.id == m.0 && m.1 in e.mounts {
          var k :| 0 <= k < |e.mounts| && e.mounts[k] == m.1;
          assert MountsOf(e)[k] == m;
        }
      }
    }
  }

  lemma EdgeIsMountsOn(exts: seq<Extension>, declared: map<string, SlotMeta>, a: Extension, b: Extension)
    requires IsRegistry(exts) && ShortIdsDiffer(exts) && a in exts && b in exts
    requires forall key :: Get(declared, key) == Declared(exts, key)
    ensures Edge(AllMounts(exts), declared, a.id, b.id) <==> MountsOn(a, b)
  {
    if Edge(AllMounts(exts), declared, a.id, b.id) {
      var m :| m in AllMounts(exts) && m.0 == a.id && m.1.slot in declared && declared[m.1.slot].host == b.id;
      MountsComeFrom(exts, m);
      assert Get(declared, m.1.slot) == Declared(exts, m.1.slot);
      DeclaredIsHost(exts, m.1.slot);
      var e :| e in exts && e.id == m.0 && m.1 in e.mounts;
      SameIdSame(exts, a, e);
      var h :| h in exts && h.id == b.id && SlotAt(h, m.1.slot).Some?;
      SameIdSame(exts, b, h);
    }
    if MountsOn(a, b) {
      var m :| m in a.mounts && Declares(b, m.slot);
      OnlyHost(exts, m.slot, b);
      assert Get(declared, m.slot) == Declared(exts, m.slot);
      MountsComeFrom(exts, (a.id, m));
      assert (a.id, m) in AllMounts(exts);
    }
  }

  lemma SameIdSame(exts: seq<Extension>, a: Extension, b: Extension)
    requires IsRegistry(exts) && a in exts && b in exts && a.id == b.id
    ensures a == b
  {
    var i :| 0 <= i < |exts| && exts[i] == a;
    var j :| 0 <= j < |exts| && exts[j] == b;
  }

  lemma EdgeEndsAreExtensions(exts: seq<Extension>, declared: map<string, SlotMeta>, a: Id, h: Id)
    requires Edge(AllMounts(exts), declared, a, h) && forall key :: Get(declared, key) == Declared(exts, key)
    ensures (exists e :: e in exts && e.id == a) && exists e :: e in exts && e.id == h
  {
    var m :| m in AllMounts(exts) && m.0 == a && m.1.slot in declared && declared[m.1.slot].host == h;
    MountsComeFrom(exts, m);
    assert Get(declared, m.1.slot) == Declared(exts, m.1.slot);
    DeclaredIsHost(exts, m.1.slot);
  }

  ghost predicate NoTwoWayEdge(all: seq<(Id, Mount)>, declared: map<string, SlotMeta>) {
    forall a, b :: Edge(all, declared, a, b) && a != b ==> !Edge(all, declared, b, a)
  }

  /** The graph has no two-way edge exactly when no two extensions mount on each other. */
  lemma CyclesAreMutualMounts(exts: seq<Extension>, declared: map<string, SlotMeta>)
    requires IsRegistry(exts) && ShortIdsDiffer(exts) && forall key :: Get(declared, key) == Declared(exts, key)
    ensures NoTwoWayEdge(AllMounts(exts), declared) <==> NoMutualMounts(exts)
  {
    if NoMutualMounts(exts) {
      forall a, b | Edge(AllMounts(exts), declared, a, b) && a != b
        ensures !Edge(AllMounts(exts), declared, b, a)
      {
        NoEdgeBack(exts, declared, a, b);
      }
    }
    if NoTwoWayEdge(AllMounts(exts), declared) {
      forall a, b | a in exts && b in exts && a.id != b.id && MountsOn(a, b)
        ensures !MountsOn(b, a)
      {
        NoMountBack(exts, declared, a, b);
      }
    }
  }

  lemma NoMountBack(exts: seq<Extension>, declared: map<string, SlotMeta>, a: Extension, b: Extension)
    requires IsRegistry(exts) && ShortIdsDiffer(exts) && forall key :: Get(declared, key) == Declared(exts, key)
    requires NoTwoWayEdge(AllMounts(exts), declared) && a in exts && b in exts && a.id != b.id && MountsOn(a, b)
    ensures !MountsOn(b, a)
  {
    EdgeIsMountsOn(exts, declared, a, b);
    EdgeIsMountsOn(exts, declared, b, a);
  }

  lemma NoEdgeBack(exts: seq<Extension>, declared: map<string, SlotMeta>, a: Id, b: Id)
    requires IsRegistry(exts) && ShortIdsDiffer(exts) && forall key :: Get(declared, key) == Declared(exts, key)
    requires NoMutualMounts(exts) && Edge(AllMounts(exts), declared, a, b) && a != b
    ensures !Edge(AllMounts(exts), declared, b, a)
  {
    EdgeEndsAreExtensions(exts, declared, a, b);
    var e :| e in exts && e.id == a;
    var f :| f in exts && f.id == b;
    EdgeIsMountsOn(exts, declared, e, f);
    EdgeIsMountsOn(exts, declared, f, e);
  }

  lemma FillersAreSingle(exts: seq<Extension>, declared: map<string, SlotMeta>)
    requires ShortIdsDiffer(exts) && forall key :: Get(declared, key) == Declared(exts, key)
    ensures (forall key :: key in declared ==> declared[key].multiple || |Fillers(AllMounts(exts), key)| <= 1)
            <==> SingleSlotsAreSingle(exts)
  {
    var all := AllMounts(exts);
    if forall key :: key in declared ==> declared[key].multiple || |Fillers(all, key)| <= 1 {
      forall a, b, h | 0 <= a < b < |all| && all[a].1.slot == all[b].1.slot && h in exts
        ensures SlotAt(h, all[a].1.slot) != Some(false)
      {
        var key := all[a].1.slot;
        TwoMountsFill(all, key, a, b);
        if Declares(h, key) {
          OnlyHost(exts, key, h);
          assert Get(declared, key) == Declared(exts, key);
        }
      }
    }
    if SingleSlotsAreSingle(exts) {
      forall key | key in declared
        ensures declared[key].multiple || |Fillers(all, key)| <= 1
      {
        assert Get(declared, key) == Declared(exts, key);
        DeclaredIsHost(exts, key);
        if |Fillers(all, key)| > 1 {
          var a, b := TwoFillersAreMounts(all, key);
        }
      }
    }
  }

  lemma DeclaredMountsIff(exts: seq<Extension>, declared: map<string, SlotMeta>)
    requires forall key :: Get(declared, key) == Declared(exts, key)
    ensures (forall m :: m in AllMounts(exts) ==> m.1.slot in declared) <==> MountsAreDeclared(exts)
  {
    forall m | m in AllMounts(exts)
      ensures m.1.slot in declared <==> exists h :: h in exts && Declares(h, m.1.slot)
    {
      assert Get(declared, m.1.slot) == Declared(exts, m.1.slot);
      DeclaredIsHost(exts, m.1.slot);
    }
  }
}
