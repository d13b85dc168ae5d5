/** What ids, slots, schemas and orders mean, said without the recursion that finds them. */
module LinkForms {
  import opened Prelude
  import opened TextSplit
  import opened LinkRules
  import opened LinkEvents
  import opened StableSort
  import opened Vocabulary
  import opened VocabularyEvents
  import opened ExtensionRegistry

  // ---- Ids, routes, slots, schemas ----

  /** The short id is what follows the last dot, or everything if there is none. */
  lemma {:induction false} ShortIdIs(id: Id)
    ensures var n := |id| - |ShortId(id)|;
            && 0 <= n && id[n..] == ShortId(id) && Lacks(ShortId(id), '.') && (n > 0 ==> id[n - 1] == '.')
  {
    if id != "" && Last(id) != '.' {
      ShortIdIs(Init(id));
      assert id == Init(id) + [Last(id)];
    }
  }

  lemma RouteIs(s: Option<Surface>, route: string)
    ensures Route(s) == Some(route) <==> s.Some? && s.value.route == route && route != ""
  {
  }

  /** Entry k gives the name its flag, and no later one does. */
  predicate IsLastNamed(slots: seq<(string, bool)>, name: string, k: nat) {
    k < |slots| && slots[k].0 == name && forall j :: k < j < |slots| ==> slots[j].0 != name
  }

  /** The last declaration of a name counts. */
  lemma {:induction false} LookupIs(slots: seq<(string, bool)>, name: string)
    ensures Lookup(slots, name).None? <==> forall k :: 0 <= k < |slots| ==> slots[k].0 != name
    ensures forall k: nat :: IsLastNamed(slots, name, k) ==> Lookup(slots, name) == Some(slots[k].1)
  {
    if slots != [] && Last(slots).0 != name {
      LookupIs(Init(slots), name);
      forall k: nat | IsLastNamed(slots, name, k)
        ensures Lookup(slots, name) == Some(slots[k].1)
      {
        assert IsLastNamed(Init(slots), name, k);
      }
    }
  }

  /** A slot of the list view hides one of the detail view with the same name. */
  lemma SlotNamedIs(e: Extension, name: string)
    ensures var inList, inDetail := Lookup(Slots(e.list), name), Lookup(Slots(e.detail), name);
            && (inList.Some? ==> SlotNamed(e, name) == inList)
            && (inList.None? ==> SlotNamed(e, name) == inDetail)
  {
  }

  predicate Gives(d: Emit, event: string) {
    d.event == event && d.schema.Some?
  }

  /** Declaration k gives the event a schema, and no later one does. */
  predicate IsLastGiven(decls: seq<Emit>, event: string, k: nat) {
    k < |decls| && Gives(decls[k], event) && forall j :: k < j < |decls| ==> !Gives(decls[j], event)
  }

  lemma {:induction false} NoSchemaIff(decls: seq<Emit>, event: string)
    ensures LastSchema(decls, event).None? <==> forall k :: 0 <= k < |decls| ==> !Gives(decls[k], event)
  {
    if decls != [] {
      NoSchemaIff(Init(decls), event);
    }
  }

  lemma {:induction false} LastSchemaIs(decls: seq<Emit>, event: string, k: nat)
    requires IsLastGiven(decls, event, k)
    ensures LastSchema(decls, event) == decls[k].schema
  {
    if k < |decls| - 1 {
      assert !Gives(decls[|decls| - 1], event);
      LastSchemaIs(Init(decls), event, k);
    }
  }

  /** The preference keys that the host keeps for itself. */
  lemma ReservedIs(key: string)
    ensures IsReserved(key) <==> key == "room_order" || (|key| >= 8 && key[..8] == "_system:")
  {
    assert RESERVED_PREFIX <= key <==> |key| >= 8 && key[..8] == RESERVED_PREFIX;
  }

  // ---- The vocabulary ----

  /** The filler that a mount makes. */
  predicate IsMadeOf(f: Filler, m: (Id, Mount)) {
    f.extension == m.0 && f.component == m.1.component && f.order == m.1.order
  }

  lemma {:induction false} FillersAtAre(exts: seq<Extension>, mounts: seq<(Id, Mount)>, slot: (Id, string), f: Filler)
    ensures f in FillersAt(exts, mounts, slot) <==>
              exists m :: m in mounts && Target(exts, m.1.slot) == Some(slot) && IsMadeOf(f, m)
  {
    if mounts != [] {
      FillersAtAre(exts, Init(mounts), slot, f);
      assert mounts == Init(mounts) + [Last(mounts)];
    }
  }

  /** The fillers of a slot are those of the mounts that go to it, by rising order and, where that ties, by id. */
  lemma FillersAreInOrder(exts: seq<Extension>, collate: (Id, Id) -> bool, slot: (Id, string), fillers: seq<Filler>)
    requires IsTotalPreorder(collate)
    requires fillers == SortBy(FillersAt(exts, AllMounts(exts), slot), FillerBefore(collate))
    ensures forall f :: f in fillers <==>
              exists m :: m in AllMounts(exts) && Target(exts, m.1.slot) == Some(slot) && IsMadeOf(f, m)
    ensures forall i, j :: 0 <= i < j < |fillers| ==>
              || fillers[i].order < fillers[j].order
              || (fillers[i].order == fillers[j].order && collate(fillers[i].extension, fillers[j].extension))
  {
    var unsorted := FillersAt(exts, AllMounts(exts), slot);
    SortPermutes(unsorted, FillerBefore(collate));
    FillerOrderIsTotal(collate);
    SortSorts(unsorted, FillerBefore(collate));
    forall f
      ensures f in fillers <==>
                exists m :: m in AllMounts(exts) && Target(exts, m.1.slot) == Some(slot) && IsMadeOf(f, m)
    {
      FillersAtAre(exts, AllMounts(exts), slot, f);
    }
  }

  predicate IsFirstWith(exts: seq<Extension>, short: string, k: nat) {
    k < |exts| && ShortId(exts[k].id) == short && forall j :: 0 <= j < k ==> ShortId(exts[j].id) != short
  }

  /** The host of a short id is the first extension that has it. */
  lemma {:induction false} HostIsFirst(exts: seq<Extension>, short: string, k: nat)
    requires IsFirstWith(exts, short, k)
    ensures FirstWithShortId(exts, short) == Some(exts[k])
  {
    if k < |exts| - 1 {
      HostIsFirst(Init(exts), short, k);
    } else {
      FoundIsThere(Init(exts), short);
      assert forall e :: e in Init(exts) ==> ShortId(e.id) != short;
    }
  }

  lemma {:induction false} PublicsAre(exts: seq<Extension>, event: string, id: Id)
    ensures id in Emitters(AllPublics(exts), event) <==>
              exists e, d :: e in exts && e.id == id && d in e.publicEvents && d.event == event
  {
    if exts != [] {
      PublicsAre(Init(exts), event, id);
      EmittersAppend(AllPublics(Init(exts)), Last(exts).id, Last(exts).publicEvents, event);
      assert exts == Init(exts) + [Last(exts)];
    }
  }

  // ---- The registry ----

  /** The order of a rail; one that does not say stands at 0. */
  predicate HasOrder(e: Extension, order: real) {
    e.rail == Some(Some(order)) || (order == 0.0 && e.rail == Some(None))
  }

  lemma RailBeforeIs(a: Extension, b: Extension, x: real, y: real)
    requires HasOrder(a, x) && HasOrder(b, y)
    ensures RailBefore(a, b) <==> x <= y
  {
  }

  /** A view has a route if its extension declares it as the route of its detail view. */
  lemma HasDetailRouteIs(e: Extension, route: string)
    requires route != ""
    ensures HasDetailRoute(e, route) <==> Route(e.detail) == Some(route)
  {
  }
}
