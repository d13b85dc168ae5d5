/** The part of the link validator that looks at events and their schemas. */
module LinkEvents {
  import opened Prelude
  import opened TextOrder
  import opened LinkRules

  // ---- Comparing schemas ----

  /** The keys in the order of the default sort. */
  ghost predicate IsListing(keys: set<string>, s: seq<string>) {
    && (forall k :: k in s <==> k in keys)
    && forall i, j :: 0 <= i < j < |s| ==> Less(s[i], s[j])
  }

  method InsertKey(s: seq<string>, key: string) returns (r: seq<string>)
    requires key !in s && forall i, j :: 0 <= i < j < |s| ==> Less(s[i], s[j])
    ensures forall k :: k in r <==> k in s || k == key
    ensures forall i, j :: 0 <= i < j < |r| ==> Less(r[i], r[j])
  {
    var at := 0;
    while at < |s| && Less(s[at], key)
      invariant 0 <= at <= |s|
      invariant forall i :: 0 <= i < at ==> Less(s[i], key)
    {
      at := at + 1;
    }
    r := s[..at] + [key] + s[at..];
    assert s == s[..at] + s[at..];
    forall i | at <= i < |s|
      ensures Less(key, s[i])
    {
      LessIsTotal(key, s[at]);
      if i > at {
        LessIsTransitive(key, s[at], s[i]);
      }
    }
  }

  method SortKeys(keys: set<string>) returns (s: seq<string>)
    ensures IsListing(keys, s)
  {
    s := [];
    var rest := keys;
    while rest != {}
      invariant rest <= keys && IsListing(keys - rest, s)
      decreases |rest|
    {
      var key :| key in rest;
      s := InsertKey(s, key);
      rest := rest - {key};
    }
    assert keys - {} == keys;
  }

  lemma {:induction false} ListingIsUnique(keys: set<string>, s: seq<string>, t: seq<string>)
    requires IsListing(keys, s) && IsListing(keys, t)
    ensures s == t
    decreases |s|
  {
    if s == [] || t == [] {
      if s != [] {
        SomeMember(s);
      } else if t != [] {
        SomeMember(t);
      }
    } else {
      LastIsGreatest(keys, s, Last(t));
      LastIsGreatest(keys, t, Last(s));
      if Last(s) != Last(t) {
        LessIsStrict(Last(s), Last(t));
      }
      InitIsListing(keys, s);
      InitIsListing(keys, t);
      ListingIsUnique(keys - {Last(s)}, Init(s), Init(t));
      assert s == Init(s) + [Last(s)] && t == Init(t) + [Last(t)];
    }
  }

  lemma LastIsGreatest(keys: set<string>, s: seq<string>, k: string)
    requires IsListing(keys, s) && s != [] && k in keys
    ensures k == Last(s) || Less(k, Last(s))
  {
    var i :| 0 <= i < |s| && s[i] == k;
  }

  lemma InitIsListing(keys: set<string>, s: seq<string>)
    requires IsListing(keys, s) && s != []
    ensures IsListing(keys - {Last(s)}, Init(s))
  {
    forall k
      ensures k in Init(s) <==> k in keys - {Last(s)}
    {
      if k in Init(s) {
        var i :| 0 <= i < |s| - 1 && s[i] == k;
        LessIsStrict(s[i], Last(s));
      }
      assert s == Init(s) + [Last(s)];
    }
  }

  /** Compares the sorted keys and then the values; this decides whether the schemas are the same. */
  method AreSchemasEqual(a: Schema, b: Schema) returns (same: bool)
    ensures same <==> a == b
  {
    var keysA := SortKeys(a.Keys);
    var keysB := SortKeys(b.Keys);
    if a == b {
      ListingIsUnique(a.Keys, keysA, keysB);
    }
    if |keysA| != |keysB| {
      return false;
    }
    for i := 0 to |keysA|
      invariant forall k :: 0 <= k < i ==> keysA[k] == keysB[k] && a[keysA[k]] == b[keysB[k]]
    {
      assert keysA[i] in a.Keys && keysB[i] in b.Keys;
      if keysA[i] != keysB[i] {
        return false;
      }
      if a[keysA[i]] != b[keysB[i]] {
        return false;
      }
    }
    assert keysA == keysB;
    forall k | k in a
      ensures k in b && a[k] == b[k]
    {
      var i :| 0 <= i < |keysA| && keysA[i] == k;
    }
    assert a.Keys == b.Keys;
    return true;
  }

  // ---- Events as they are declared and listened to ----

  function DeclsOf(id: Id, decls: seq<Emit>): (r: seq<(Id, Emit)>)
    ensures |r| == |decls|
  {
    seq(|decls|, k requires 0 <= k < |decls| => (id, decls[k]))
  }

  function ListensOf(id: Id, listens: seq<string>): (r: seq<(Id, string)>)
    ensures |r| == |listens|
  {
    seq(|listens|, k requires 0 <= k < |listens| => (id, listens[k]))
  }

  function AllDecls(exts: seq<Extension>): seq<(Id, Emit)> {
    if exts == [] then []
    else
      AllDecls(Init(exts)) + DeclsOf(Last(exts).id, Last(exts).emits)
      + DeclsOf(Last(exts).id, Last(exts).publicEvents)
  }

  function AllListens(exts: seq<Extension>): seq<(Id, string)> {
    if exts == [] then [] else AllListens(Init(exts)) + ListensOf(Last(exts).id, Last(exts).listens)
  }

  function Emitters(decls: seq<(Id, Emit)>, event: string): set<Id> {
    if decls == [] then {}
    else Emitters(Init(decls), event) + if Last(decls).1.event == event then {Last(decls).0} else {}
  }

  function Listeners(listens: seq<(Id, string)>, event: string): set<Id> {
    if listens == [] then {}
    else Listeners(Init(listens), event) + if Last(listens).1 == event then {Last(listens).0} else {}
  }

  /** The last schema that each extension gives, and the extensions in the order in which they first give one. */
  datatype SchemaTable = SchemaTable(schemas: map<Id, Schema>, order: seq<Id>)

  function Put(t: SchemaTable, id: Id, schema: Schema): SchemaTable {
    SchemaTable(t.schemas[id := schema], if id in t.schemas then t.order else t.order + [id])
  }

  function Schemas(decls: seq<(Id, Emit)>, event: string): SchemaTable {
    if decls == [] then SchemaTable(map[], [])
    else
      var t, d := Schemas(Init(decls), event), Last(decls);
      if d.1.event == event && d.1.schema.Some? then Put(t, d.0, d.1.schema.value) else t
  }

  datatype EventEntry = EventEntry(emitters: set<Id>, listeners: set<Id>, table: SchemaTable)

  const NOTHING := EventEntry({}, {}, SchemaTable(map[], []))

  function Entry(decls: seq<(Id, Emit)>, listens: seq<(Id, string)>, event: string): EventEntry {
    EventEntry(Emitters(decls, event), Listeners(listens, event), Schemas(decls, event))
  }

  function EntryOf(events: map<string, EventEntry>, event: string): EventEntry {
    if event in events then events[event] else NOTHING
  }

  /** An event is in the map with what is known of it, or is not because nothing is. */
  ghost predicate Noted(events: map<string, EventEntry>, decls: seq<(Id, Emit)>, listens: seq<(Id, string)>) {
    forall event :: EntryOf(events, event) == Entry(decls, listens, event)
  }

  lemma DeclSnoc(decls: seq<(Id, Emit)>, d: (Id, Emit), event: string)
    ensures Emitters(decls + [d], event) == Emitters(decls, event) + if d.1.event == event then {d.0} else {}
    ensures Schemas(decls + [d], event) ==
            if d.1.event == event && d.1.schema.Some? then Put(Schemas(decls, event), d.0, d.1.schema.value)
                else Schemas(decls, event)
  {
    assert Init(decls + [d]) == decls;
  }

  lemma ListenSnoc(listens: seq<(Id, string)>, l: (Id, string), event: string)
    ensures Listeners(listens + [l], event) == Listeners(listens, event) + if l.1 == event then {l.0} else {}
  {
    assert Init(listens + [l]) == listens;
  }

  /** Records one declaration of an event. */
  method TrackDecl(events: map<string, EventEntry>, id: Id,
        d: Emit, ghost decls: seq<(Id, Emit)>, ghost listens: seq<(Id, string)>)
    returns (next: map<string, EventEntry>)
    requires Noted(events, decls, listens)
    ensures Noted(next, decls + [(id, d)], listens)
  {
    var entry := if d.event in events then events[d.event] else NOTHING;
    entry := entry.(emitters := entry.emitters + {id});
    if d.schema.Some? {
      entry := entry.(table := Put(entry.table, id, d.schema.value));
    }
    next := events[d.event := entry];
    forall event
      ensures EntryOf(next, event) == Entry(decls + [(id, d)], listens, event)
    {
      DeclSnoc(decls, (id, d), event);
      assert EntryOf(events, event) == Entry(decls, listens, event);
    }
  }

  method TrackDecls(events: map<string, EventEntry>, id: Id,
        ds: seq<Emit>, ghost decls: seq<(Id, Emit)>, ghost listens: seq<(Id, string)>)
    returns (next: map<string, EventEntry>)
    requires Noted(events, decls, listens)
    ensures Noted(next, decls + DeclsOf(id, ds), listens)
  {
    next := events;
    assert decls + DeclsOf(id, ds)[..0] == decls;
    for i := 0 to |ds|
      invariant Noted(next, decls + DeclsOf(id, ds)[..i], listens)
    {
      next := TrackDecl(next, id, ds[i], decls + DeclsOf(id, ds)[..i], listens);
      assert decls + DeclsOf(id, ds)[..i + 1] == decls + DeclsOf(id, ds)[..i] + [(id, ds[i])];
    }
    assert DeclsOf(id, ds)[..|ds|] == DeclsOf(id, ds);
  }

  method TrackListens(events: map<string, EventEntry>, id: Id,
        ls: seq<string>, ghost decls: seq<(Id, Emit)>, ghost listens: seq<(Id, string)>)
    returns (next: map<string, EventEntry>)
    requires Noted(events, decls, listens)
    ensures Noted(next, decls, listens + ListensOf(id, ls))
  {
    next := events;
    assert listens + ListensOf(id, ls)[..0] == listens;
    for i := 0 to |ls|
      invariant Noted(next, decls, listens + ListensOf(id, ls)[..i])
    {
      ghost var before, heard := next, listens + ListensOf(id, ls)[..i];
      var entry := if ls[i] in next then next[ls[i]] else NOTHING;
      next := next[ls[i] := entry.(listeners := entry.listeners + {id})];
      assert listens + ListensOf(id, ls)[..i + 1] == heard + [(id, ls[i])];
      forall event
        ensures EntryOf(next, event) == Entry(decls, heard + [(id, ls[i])], event)
      {
        ListenSnoc(heard, (id, ls[i]), event);
        assert EntryOf(before, event) == Entry(decls, heard, event);
      }
    }
    assert ListensOf(id, ls)[..|ls|] == ListensOf(id, ls);
  }

  method CollectEvents(exts: seq<Extension>) returns (events: map<string, EventEntry>)
    ensures Noted(events, AllDecls(exts), AllListens(exts))
  {
    events := map[];
    for i := 0 to |exts|
      invariant Noted(events, AllDecls(exts[..i]), AllListens(exts[..i]))
    {
      ghost var decls, listens := AllDecls(exts[..i]), AllListens(exts[..i]);
      events := TrackDecls(events, exts[i].id, exts[i].emits, decls, listens);
      events := TrackDecls(events, exts[i].id, exts[i].publicEvents,
                           decls + DeclsOf(exts[i].id, exts[i].emits), listens);
      decls := decls + DeclsOf(exts[i].id, exts[i].emits) + DeclsOf(exts[i].id, exts[i].publicEvents);
      events := TrackListens(events, exts[i].id, exts[i].listens, decls, listens);
      assert Init(exts[..i + 1]) == exts[..i];
    }
    assert exts[..|exts|] == exts;
  }

  ghost predicate Ordered(t: SchemaTable) {
    forall id :: id in t.order <==> id in t.schemas
  }

  lemma {:induction false} SchemasAreOrdered(decls: seq<(Id, Emit)>, event: string)
    ensures Ordered(Schemas(decls, event))
  {
    if decls != [] {
      SchemasAreOrdered(Init(decls), event);
    }
  }

  /** All extensions that give a schema give the same. */
  ghost predicate AllSame(t: SchemaTable) {
    forall a, b :: a in t.schemas && b in t.schemas ==> t.schemas[a] == t.schemas[b]
  }

  /** Only the first schema is compared with the others. */
  method CheckSchemas(event: string, t: SchemaTable) returns (errors: seq<LinkError>)
    requires Ordered(t)
    ensures errors == [] <==> AllSame(t)
  {
    errors := [];
    if |t.order| > 1 {
      var first := t.order[0];
      assert first in t.order;
      for i := 1 to |t.order|
        invariant errors == [] <==> forall k :: 0 <= k < i ==>
                    t.order[k] in t.schemas && t.schemas[t.order[k]] == t.schemas[first]
      {
        assert t.order[i] in t.order;
        var same := AreSchemasEqual(t.schemas[first], t.schemas[t.order[i]]);
        if !same {
          errors := errors + [MismatchedSchema(event, t.order[i])];
        }
      }
      assert forall k :: 0 <= k < |t.order| ==> t.order[k] in t.order;
      if errors == [] {
        forall a, b | a in t.schemas && b in t.schemas
          ensures t.schemas[a] == t.schemas[b]
        {
          assert a in t.order && b in t.order;
        }
      }
    } else {
      forall a, b | a in t.schemas && b in t.schemas
        ensures t.schemas[a] == t.schemas[b]
      {
        assert a in t.order && b in t.order;
      }
    }
  }

  predicate IsMatched(entry: EventEntry) {
    entry.listeners != {} ==> entry.emitters != {}
  }

  method CheckEvents(events: map<string, EventEntry>) returns (errors: seq<LinkError>)
    requires forall event :: event in events ==> Ordered(events[event].table)
    ensures errors == [] <==> forall event :: event in events ==>
              IsMatched(events[event]) && AllSame(events[event].table)
  {
    errors := [];
    var rest := events.Keys;
    while rest != {}
      invariant rest <= events.Keys
      invariant errors == [] <==>
                forall event :: event in events && event !in rest ==>
                      IsMatched(events[event]) && AllSame(events[event].table)
      decreases |rest|
    {
      var event :| event in rest;
      rest := rest - {event};
      var entry := events[event];
      if entry.listeners != {} && entry.emitters == {} {
        errors := errors + [UnmatchedListener(event)];
      }
      var mismatched := CheckSchemas(event, entry.table);
      errors := errors + mismatched;
    }
  }

  // ---- What the collected events say about the extensions ----

  lemma {:induction false} EmittersAppend(decls: seq<(Id, Emit)>, id: Id, ds: seq<Emit>, event: string)
    ensures Emitters(decls + DeclsOf(id, ds), event) ==
            Emitters(decls, event) + if exists d :: d in ds && d.event == event then {id} else {}
  {
    if ds == [] {
      assert decls + DeclsOf(id, ds) == decls;
    } else {
      EmittersAppend(decls, id, Init(ds), event);
      assert decls + DeclsOf(id, ds) == decls + DeclsOf(id, Init(ds)) + [(id, Last(ds))];
      DeclSnoc(decls + DeclsOf(id, Init(ds)), (id, Last(ds)), event);
      assert ds == Init(ds) + [Last(ds)];
    }
  }

  lemma {:induction false} EmittersAre(exts: seq<Extension>, event: string)
    ensures forall id :: id in Emitters(AllDecls(exts), event) <==>
              exists e :: e in exts && e.id == id && EmitsEvent(e, event)
  {
    if exts != [] {
      var e := Last(exts);
      EmittersAre(Init(exts), event);
      EmittersAppend(AllDecls(Init(exts)), e.id, e.emits, event);
      EmittersAppend(AllDecls(Init(exts)) + DeclsOf(e.id, e.emits), e.id, e.publicEvents, event);
      assert exts == Init(exts) + [e];
      assert EmitsEvent(e, event) <==>
               (exists d :: d in e.emits && d.event == event) || exists d :: d in e.publicEvents && d.event == event;
    }
  }

  lemma {:induction false} ListenersAppend(listens: seq<(Id, string)>, id: Id, ls: seq<string>, event: string)
    ensures Listeners(listens + ListensOf(id, ls), event)
            == Listeners(listens, event) + (if event in ls then {id} else {})
  {
    if ls == [] {
      assert listens + ListensOf(id, ls) == listens;
    } else {
      ListenersAppend(listens, id, Init(ls), event);
      assert listens + ListensOf(id, ls) == listens + ListensOf(id, Init(ls)) + [(id, Last(ls))];
      ListenSnoc(listens + ListensOf(id, Init(ls)), (id, Last(ls)), event);
      assert ls == Init(ls) + [Last(ls)];
    }
  }

  lemma {:induction false} ListenersAre(exts: seq<Extension>, event: string)
    ensures forall id :: id in Listeners(AllListens(exts), event) <==>
              exists e :: e in exts && e.id == id && event in e.listens
  {
    if exts != [] {
      var e := Last(exts);
      ListenersAre(Init(exts), event);
      ListenersAppend(AllListens(Init(exts)), e.id, e.listens, event);
      assert exts == Init(exts) + [e];
    }
  }

  function Given(t: SchemaTable, id: Id): Option<Schema> {
    if id in t.schemas then Some(t.schemas[id]) else None
  }

  function OrElse<T>(a: Option<T>, b: Option<T>): Option<T> {
    if a.Some? then a else b
  }

  lemma {:induction false} SchemasAppend(decls: seq<(Id, Emit)>, id: Id, ds: seq<Emit>, event: string, other: Id)
    ensures Given(Schemas(decls + DeclsOf(id, ds), event), other) ==
            if other == id then OrElse(LastSchema(ds, event), Given(Schemas(decls, event), id))
                else Given(Schemas(decls, event), other)
  {
    if ds == [] {
      assert decls + DeclsOf(id, ds) == decls;
    } else {
      SchemasAppend(decls, id, Init(ds), event, other);
      assert decls + DeclsOf(id, ds) == decls + DeclsOf(id, Init(ds)) + [(id, Last(ds))];
      DeclSnoc(decls + DeclsOf(id, Init(ds)), (id, Last(ds)), event);
    }
  }

  lemma {:induction false} LastSchemaAppend(a: seq<Emit>, b: seq<Emit>, event: string)
    ensures LastSchema(a + b, event) == OrElse(LastSchema(b, event), LastSchema(a, event))
  {
    if b == [] {
      assert a + b == a;
    } else {
      LastSchemaAppend(a, Init(b), event);
      assert Init(a + b) == a + Init(b);
    }
  }

  /** The table holds for each extension the last schema that it gives. */
  lemma {:induction false} SchemasAre(exts: seq<Extension>, event: string, id: Id)
    requires forall i, j :: 0 <= i < j < |exts| ==> exts[i].id != exts[j].id
    ensures forall e :: e in exts && e.id == id ==>
              Given(Schemas(AllDecls(exts), event), id) == LastSchema(Decls(e), event)
    ensures (forall e :: e in exts ==> e.id != id) ==> Given(Schemas(AllDecls(exts), event), id).None?
  {
    if exts != [] {
      var e := Last(exts);
      SchemasAre(Init(exts), event, id);
      SchemasAppend(AllDecls(Init(exts)), e.id, e.emits, event, id);
      SchemasAppend(AllDecls(Init(exts)) + DeclsOf(e.id, e.emits), e.id, e.publicEvents, event, id);
      LastSchemaAppend(e.emits, e.publicEvents, event);
      assert exts == Init(exts) + [e];
      assert forall f :: f in Init(exts) ==> f.id != e.id;
    }
  }

  lemma MatchedIff(exts: seq<Extension>, event: string)
    ensures IsMatched(Entry(AllDecls(exts), AllListens(exts), event)) <==> IsEmittedIfHeard(exts, event)
  {
    var emitters, listeners := Emitters(AllDecls(exts), event), Listeners(AllListens(exts), event);
    ListenersAre(exts, event);
    EmittersAre(exts, event);
    if e :| e in exts && event in e.listens {
      assert e.id in listeners;
    } else {
      assert listeners == {};
    }
    if f :| f in exts && EmitsEvent(f, event) {
      assert f.id in emitters;
    } else {
      assert emitters == {};
    }
  }

  lemma AllSameIff(exts: seq<Extension>, event: string)
    requires IsRegistry(exts)
    ensures AllSame(Schemas(AllDecls(exts), event)) <==> SchemasAgreeOn(exts, event)
  {
    var t := Schemas(AllDecls(exts), event);
    forall e | e in exts
      ensures Given(t, e.id) == LastSchema(Decls(e), event)
    {
      SchemasAre(exts, event, e.id);
    }
    forall id | id in t.schemas
      ensures exists e :: e in exts && e.id == id
    {
      SchemasAre(exts, event, id);
    }
  }

  /** The checks on the collected events decide the rules on the extensions. */
  lemma EventsDecide(exts: seq<Extension>, events: map<string, EventEntry>)
    requires IsRegistry(exts) && Noted(events, AllDecls(exts), AllListens(exts))
    ensures (forall event :: event in events ==> IsMatched(events[event]) && AllSame(events[event].table))
            <==> ListenersAreMatched(exts) && SchemasAgree(exts)
  {
    forall event
      ensures (event in events ==> IsMatched(events[event])) <==> IsEmittedIfHeard(exts, event)
      ensures (event in events ==> AllSame(events[event].table)) <==> SchemasAgreeOn(exts, event)
    {
      assert EntryOf(events, event) == Entry(AllDecls(exts), AllListens(exts), event);
      MatchedIff(exts, event);
      AllSameIff(exts, event);
    }
  }
}
