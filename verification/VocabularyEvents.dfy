/** The vocabulary that is aggregated over a registry: who emits, receives and listens to what. */
module VocabularyEvents {
  import opened Prelude
  import opened TextOrder
  import opened LinkRules
  import opened LinkEvents
  import opened StableSort

  datatype VocabularyEvent = VocabularyEvent(emitters: seq<Id>, receivers: seq<Id>, listeners: seq<Id>)

  function PushNew(ids: seq<Id>, id: Id): seq<Id> {
    if id in ids then ids else ids + [id]
  }

  predicate AtMost(a: Id, b: Id) {
    a == b || Less(a, b)
  }

  ghost predicate AllDifferent(ids: seq<Id>) {
    forall i, j :: 0 <= i < j < |ids| ==> ids[i] != ids[j]
  }

  ghost predicate ListsSet(ids: seq<Id>, members: set<Id>) {
    AllDifferent(ids) && forall id :: id in ids <==> id in members
  }

  function EventOrNone(events: map<string, VocabularyEvent>, event: string): VocabularyEvent {
    if event in events then events[event] else VocabularyEvent([], [], [])
  }

  /** What the event map holds after some declarations, public declarations and listeners. */
  ghost predicate Lists(
    events: map<string, VocabularyEvent>, decls: seq<(Id, Emit)>, publics: seq<(Id, Emit)>, listens: seq<(Id, string)>)
  {
    forall event ::
      && ListsSet(EventOrNone(events, event).emitters, Emitters(decls, event))
      && ListsSet(EventOrNone(events, event).receivers, Emitters(publics, event))
      && ListsSet(EventOrNone(events, event).listeners, Listeners(listens, event))
  }

  function AllPublics(exts: seq<Extension>): seq<(Id, Emit)> {
    if exts == [] then [] else AllPublics(Init(exts)) + DeclsOf(Last(exts).id, Last(exts).publicEvents)
  }

  function SortEvent(e: VocabularyEvent): VocabularyEvent {
    VocabularyEvent(SortBy(e.emitters, AtMost), SortBy(e.receivers, AtMost), SortBy(e.listeners, AtMost))
  }

  lemma AtMostIsTotal()
    ensures IsTotalPreorder(AtMost)
  {
    forall x, y
      ensures AtMost(x, y) || AtMost(y, x)
    {
      LessIsTotal(x, y);
    }
    forall x, y, z | AtMost(x, y) && AtMost(y, z)
      ensures AtMost(x, z)
    {
      if Less(x, y) && Less(y, z) {
        LessIsTransitive(x, y, z);
      }
    }
  }

  /** Of a registry that links, every event with a listener has an emitter. */
  lemma ListenedEventsHaveEmitters(exts: seq<Extension>, event: string)
    requires Links(exts) && Listeners(AllListens(exts), event) != {}
    ensures Emitters(AllDecls(exts), event) != {}
  {
    ListenersAre(exts, event);
    EmittersAre(exts, event);
    assert IsEmittedIfHeard(exts, event);
    var id :| id in Listeners(AllListens(exts), event);
    var e :| e in exts && e.id == id && event in e.listens;
    var f :| f in exts && EmitsEvent(f, event);
    assert f.id in Emitters(AllDecls(exts), event);
  }

  /** The event map lists exactly who emits, receives and listens, each once and in order. */
  ghost predicate IsEventVocabulary(exts: seq<Extension>, events: map<string, VocabularyEvent>) {
    && Lists(events, AllDecls(exts), AllPublics(exts), AllListens(exts))
    && forall event :: event in events ==>
         IsSorted(events[event].emitters, AtMost) && IsSorted(events[event].receivers, AtMost)
             && IsSorted(events[event].listeners, AtMost)
  }

  /** Sorting keeps a list of a set a list of it. */
  lemma SortedListsSet(ids: seq<Id>, members: set<Id>)
    requires ListsSet(ids, members)
    ensures ListsSet(SortBy(ids, AtMost), members) && IsSorted(SortBy(ids, AtMost), AtMost)
  {
    var sorted := SortBy(ids, AtMost);
    SortPermutes(ids, AtMost);
    AtMostIsTotal();
    SortSorts(ids, AtMost);
    NoDoublesIff(ids);
    NoDoublesIff(sorted);
  }

  lemma {:induction false} NoDoublesIff(ids: seq<Id>)
    ensures AllDifferent(ids) <==> forall id :: multiset(ids)[id] <= 1
  {
    if ids != [] {
      var rest, last := Init(ids), Last(ids);
      NoDoublesIff(rest);
      assert ids == rest + [last];
      assert multiset(ids)[last] == multiset(rest)[last] + 1;
      assert last in rest <==> last in multiset(rest);
      if forall id :: multiset(ids)[id] <= 1 {
        forall id
          ensures multiset(rest)[id] <= 1
        {
          assert multiset(ids)[id] >= multiset(rest)[id];
        }
      }
    }
  }

  /** The events as they are built up in place: collected and sorted. */
  class EventVocabulary {
    var events: map<string, VocabularyEvent>

    constructor ()
      ensures events == map[]
    {
      events := map[];
    }

    method PushDecl(id: Id, d: Emit, isPublic: bool,
                    ghost decls: seq<(Id, Emit)>, ghost publics: seq<(Id, Emit)>, ghost listens: seq<(Id, string)>)
      requires Lists(events, decls, publics, listens)
      modifies this
      ensures Lists(events, decls + [(id, d)], if isPublic then publics + [(id, d)] else publics, listens)
    {
      var e := if d.event in events then events[d.event] else VocabularyEvent([], [], []);
      e := e.(emitters := PushNew(e.emitters, id));
      if isPublic {
        e := e.(receivers := PushNew(e.receivers, id));
      }
      events := events[d.event := e];
      forall event
        ensures ListsSet(EventOrNone(events, event).emitters, Emitters(decls + [(id, d)], event))
        ensures ListsSet(EventOrNone(events, event).receivers,
                Emitters(if isPublic then publics + [(id, d)] else publics, event))
        ensures ListsSet(EventOrNone(events, event).listeners, Listeners(listens, event))
      {
        DeclSnoc(decls, (id, d), event);
        DeclSnoc(publics, (id, d), event);
        assert ListsSet(EventOrNone(old(events), event).emitters, Emitters(decls, event));
        assert ListsSet(EventOrNone(old(events), event).receivers, Emitters(publics, event));
        assert ListsSet(EventOrNone(old(events), event).listeners, Listeners(listens, event));
      }
    }

    method PushDecls(id: Id, ds: seq<Emit>, isPublic: bool,
                     ghost decls: seq<(Id, Emit)>, ghost publics: seq<(Id, Emit)>, ghost listens: seq<(Id, string)>)
      requires Lists(events, decls, publics, listens)
      modifies this
      ensures Lists(events, decls + DeclsOf(id, ds), if isPublic then publics + DeclsOf(id, ds) else publics, listens)
    {
      ghost var seen := DeclsOf(id, ds);
      assert decls + seen[..0] == decls && publics + seen[..0] == publics;
      for i := 0 to |ds|
        invariant Lists(events, decls + seen[..i], if isPublic then publics + seen[..i] else publics, listens)
      {
        PushDecl(id, ds[i], isPublic, decls + seen[..i], if isPublic then publics + seen[..i] else publics, listens);
        assert decls + seen[..i + 1] == decls + seen[..i] + [(id, ds[i])];
        assert publics + seen[..i + 1] == publics + seen[..i] + [(id, ds[i])];
      }
      assert seen[..|ds|] == seen;
    }

    method PushListen(id: Id, event: string,
                      ghost decls: seq<(Id, Emit)>, ghost publics: seq<(Id, Emit)>, ghost listens: seq<(Id, string)>)
      requires Lists(events, decls, publics, listens)
      modifies this
      ensures Lists(events, decls, publics, listens + [(id, event)])
    {
      var e := if event in events then events[event] else VocabularyEvent([], [], []);
      events := events[event := e.(listeners := PushNew(e.listeners, id))];
      forall other
        ensures ListsSet(EventOrNone(events, other).emitters, Emitters(decls, other))
        ensures ListsSet(EventOrNone(events, other).receivers, Emitters(publics, other))
        ensures ListsSet(EventOrNone(events, other).listeners, Listeners(listens + [(id, event)], other))
      {
        ListenSnoc(listens, (id, event), other);
        assert ListsSet(EventOrNone(old(events), other).emitters, Emitters(decls, other));
        assert ListsSet(EventOrNone(old(events), other).receivers, Emitters(publics, other));
        assert ListsSet(EventOrNone(old(events), other).listeners, Listeners(listens, other));
      }
    }

    method PushListens(id: Id, ls: seq<string>,
                       ghost decls: seq<(Id, Emit)>, ghost publics: seq<(Id, Emit)>, ghost listens: seq<(Id, string)>)
      requires Lists(events, decls, publics, listens)
      modifies this
      ensures Lists(events, decls, publics, listens + ListensOf(id, ls))
    {
      ghost var seen := ListensOf(id, ls);
      assert listens + seen[..0] == listens;
      for i := 0 to |ls|
        invariant Lists(events, decls, publics, listens + seen[..i])
      {
        PushListen(id, ls[i], decls, publics, listens + seen[..i]);
        assert listens + seen[..i + 1] == listens + seen[..i] + [(id, ls[i])];
      }
      assert seen[..|ls|] == seen;
    }

    method Collect(exts: seq<Extension>)
      requires events == map[]
      modifies this
      ensures Lists(events, AllDecls(exts), AllPublics(exts), AllListens(exts))
    {
      for i := 0 to |exts|
        invariant Lists(events, AllDecls(exts[..i]), AllPublics(exts[..i]), AllListens(exts[..i]))
      {
        var id := exts[i].id;
        ghost var decls, publics, listens := AllDecls(exts[..i]), AllPublics(exts[..i]), AllListens(exts[..i]);
        PushDecls(id, exts[i].emits, false, decls, publics, listens);
        decls := decls + DeclsOf(id, exts[i].emits);
        PushDecls(id, exts[i].publicEvents, true, decls, publics, listens);
        decls, publics := decls + DeclsOf(id, exts[i].publicEvents), publics + DeclsOf(id, exts[i].publicEvents);
        PushListens(id, exts[i].listens, decls, publics, listens);
        assert Init(exts[..i + 1]) == exts[..i];
      }
      assert exts[..|exts|] == exts;
    }

    method Sort()
      modifies this
      ensures events.Keys == old(events).Keys
      ensures forall event :: event in events ==> events[event] == SortEvent(old(events)[event])
    {
      var rest := events.Keys;
      while rest != {}
        invariant rest <= events.Keys == old(events).Keys
        invariant forall event :: event in rest ==> events[event] == old(events)[event]
        invariant forall event :: event in events && event !in rest ==> events[event] == SortEvent(old(events)[event])
        decreases |rest|
      {
        var event :| event in rest;
        rest := rest - {event};
        events := events[event := SortEvent(events[event])];
      }
    }

    method Build(exts: seq<Extension>)
      requires events == map[]
      modifies this
      ensures IsEventVocabulary(exts, events)
    {
      Collect(exts);
      ghost var collected := events;
      Sort();
      forall event
        ensures ListsSet(EventOrNone(events, event).emitters, Emitters(AllDecls(exts), event))
        ensures ListsSet(EventOrNone(events, event).receivers, Emitters(AllPublics(exts), event))
        ensures ListsSet(EventOrNone(events, event).listeners, Listeners(AllListens(exts), event))
        ensures event in events ==> IsSorted(events[event].emitters, AtMost)
        ensures event in events ==> IsSorted(events[event].receivers, AtMost)
        ensures event in events ==> IsSorted(events[event].listeners, AtMost)
      {
        var e := EventOrNone(collected, event);
        SortedListsSet(e.emitters, Emitters(AllDecls(exts), event));
        SortedListsSet(e.receivers, Emitters(AllPublics(exts), event));
        SortedListsSet(e.listeners, Listeners(AllListens(exts), event));
      }
    }
  }
}
