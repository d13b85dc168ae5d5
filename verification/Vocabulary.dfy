/** The vocabulary that is aggregated over a registry: which mounts fill which slots. */
module Vocabulary {
  import opened Prelude
  import opened TextSplit
  import opened LinkRules
  import opened LinkMounts
  import opened StableSort

  datatype Filler = Filler(extension: Id, component: string, order: real)

  datatype SlotEntry = SlotEntry(multiple: bool, inDetail: bool, fillers: seq<Filler>)

  /** Slots by host id and name. */
  type SlotMap = map<(Id, string), SlotEntry>

  function FillerOf(m: (Id, Mount)): Filler {
    Filler(m.0, m.1.component, m.1.order)
  }

  // ---- Where a mount goes ----

  /** The part before the first dot. */
  function Head(key: string): (r: string)
    ensures Lacks(r, '.') && |r| <= |key| && key[..|r|] == r && (|r| < |key| ==> key[|r|] == '.')
  {
    if key == "" || key[0] == '.' then "" else [key[0]] + Head(key[1..])
  }

  /** The part between the first dot and the second. */
  function Second(key: string): Option<string> {
    if |Head(key)| < |key| then Some(Head(key[|Head(key)| + 1..])) else None
  }

  function FirstWithShortId(exts: seq<Extension>, short: string): Option<Extension> {
    if exts == [] then None
    else
      var e := FirstWithShortId(Init(exts), short);
      if e.Some? then e else if ShortId(Last(exts).id) == short then Some(Last(exts)) else None
  }

  /** The slot that a mount is recorded under: the first two parts of its key decide. */
  function Target(exts: seq<Extension>, key: string): Option<(Id, string)> {
    var host, name := FirstWithShortId(exts, Head(key)), Second(key);
    if host.Some? && name.Some? && SlotNamed(host.value, name.value).Some? then
      Some((host.value.id, name.value))
    else None
  }

  /** The fillers of a slot, in the order of the mounts. */
  function FillersAt(exts: seq<Extension>, mounts: seq<(Id, Mount)>, slot: (Id, string)): seq<Filler> {
    if mounts == [] then []
    else if Target(exts, Last(mounts).1.slot) == Some(slot) then
      FillersAt(exts, Init(mounts), slot) + [FillerOf(Last(mounts))]
    else FillersAt(exts, Init(mounts), slot)
  }

  /** By order, then by id in the given collation. */
  function FillerBefore(collate: (Id, Id) -> bool): (Filler, Filler) -> bool {
    (a: Filler, b: Filler) => a.order < b.order || (a.order == b.order && collate(a.extension, b.extension))
  }

  // ---- What is declared and what is filled ----

  ghost predicate HasSlot(exts: seq<Extension>, slot: (Id, string)) {
    exists e :: e in exts && e.id == slot.0 && SlotNamed(e, slot.1).Some?
  }

  function EntryOrNone(slots: SlotMap, slot: (Id, string)): Option<SlotEntry> {
    if slot in slots then Some(slots[slot]) else None
  }

  function RecordedEntry(before: Option<SlotEntry>, host: Id, entries: seq<(string, bool)>, inDetail: bool,
        slot: (Id, string)): Option<SlotEntry> {
    if slot.0 == host && Lookup(entries, slot.1).Some? then
      Some(SlotEntry(Lookup(entries, slot.1).value, inDetail, []))
    else before
  }

  /** The list view comes last: its flag counts, and the slot is the detail view's only if the list has none. */
  predicate IsDeclaredAs(e: Extension, name: string, entry: SlotEntry) {
    SlotNamed(e, name) == Some(entry.multiple) && (entry.inDetail <==> Lookup(Slots(e.list), name).None?)
  }

  /** A slot is in the map exactly when it is declared, with the flag that counts and no fillers yet. */
  ghost predicate AreDeclarations(exts: seq<Extension>, slots: SlotMap) {
    && (forall slot :: slot in slots <==> HasSlot(exts, slot))
    && (forall slot :: slot in slots ==> slots[slot].fillers == [])
    && forall slot, e :: slot in slots && e in exts && e.id == slot.0 ==> IsDeclaredAs(e, slot.1, slots[slot])
  }

  lemma DeclarationsSnoc(exts: seq<Extension>, e: Extension, before: SlotMap, afterDetail: SlotMap, after: SlotMap)
    requires AreDeclarations(exts, before) && forall f :: f in exts ==> f.id != e.id
    requires forall slot ::
               EntryOrNone(afterDetail, slot)
               == RecordedEntry(EntryOrNone(before, slot), e.id, Slots(e.detail), true, slot)
    requires forall slot ::
               EntryOrNone(after, slot)
               == RecordedEntry(EntryOrNone(afterDetail, slot), e.id, Slots(e.list), false, slot)
    ensures AreDeclarations(exts + [e], after)
  {
    var all := exts + [e];
    assert forall f :: f in all <==> f in exts || f == e;
    forall slot
      ensures slot in after <==> HasSlot(all, slot)
      ensures slot in after ==> after[slot].fillers == []
      ensures slot in after ==> forall f :: f in all && f.id == slot.0 ==> IsDeclaredAs(f, slot.1, after[slot])
    {
      assert EntryOrNone(afterDetail, slot)
             == RecordedEntry(EntryOrNone(before, slot), e.id, Slots(e.detail), true, slot);
      assert EntryOrNone(after, slot)
             == RecordedEntry(EntryOrNone(afterDetail, slot), e.id, Slots(e.list), false, slot);
      if slot.0 == e.id {
        assert !HasSlot(exts, slot);
        assert SlotNamed(e, slot.1).Some? <==> HasSlot(all, slot);
      } else {
        assert HasSlot(exts, slot) <==> HasSlot(all, slot);
      }
    }
  }

  method FindHost(exts: seq<Extension>, short: string) returns (host: Option<Extension>)
    ensures host == FirstWithShortId(exts, short)
  {
    for i := 0 to |exts|
      invariant FirstWithShortId(exts[..i], short) == None
    {
      assert Init(exts[..i + 1]) == exts[..i];
      if ShortId(exts[i].id) == short {
        FoundStays(exts, i + 1, short);
        return Some(exts[i]);
      }
    }
    assert exts[..|exts|] == exts;
    return None;
  }

  lemma {:induction false} FoundStays(exts: seq<Extension>, n: nat, short: string)
    requires n <= |exts| && FirstWithShortId(exts[..n], short).Some?
    ensures FirstWithShortId(exts, short) == FirstWithShortId(exts[..n], short)
    decreases |exts|
  {
    if n < |exts| {
      assert Init(exts)[..n] == exts[..n];
      FoundStays(Init(exts), n, short);
    } else {
      assert exts[..n] == exts;
    }
  }

  /** Each slot holds the fillers of the mounts that go to it. */
  ghost predicate HoldFillers(exts: seq<Extension>, declared: SlotMap, mounts: seq<(Id, Mount)>, slots: SlotMap) {
    && slots.Keys == declared.Keys
    && forall slot :: slot in slots ==> slots[slot] == declared[slot].(fillers := FillersAt(exts, mounts, slot))
  }

  lemma FillersAtSnoc(exts: seq<Extension>, mounts: seq<(Id, Mount)>, m: (Id, Mount), slot: (Id, string))
    ensures FillersAt(exts, mounts + [m], slot) ==
            if Target(exts, m.1.slot) == Some(slot) then FillersAt(exts, mounts, slot) + [FillerOf(m)]
                else FillersAt(exts, mounts, slot)
  {
    assert Init(mounts + [m]) == mounts;
  }

  lemma TargetIsDeclared(exts: seq<Extension>, declared: SlotMap, key: string)
    requires AreDeclarations(exts, declared) && Target(exts, key).Some?
    ensures Target(exts, key).value in declared
  {
    FoundIsThere(exts, Head(key));
    assert HasSlot(exts, Target(exts, key).value);
  }

  lemma HoldFillersSnoc(exts: seq<Extension>, declared: SlotMap, mounts: seq<(Id, Mount)>, m: (Id, Mount),
        slots: SlotMap, next: SlotMap)
    requires HoldFillers(exts, declared, mounts, slots)
    requires var target := Target(exts, m.1.slot);
             if target.Some? then
               target.value in slots
               && next == slots[target.value :=
                     slots[target.value].(fillers := slots[target.value].fillers + [FillerOf(m)])]
             else next == slots
    ensures HoldFillers(exts, declared, mounts + [m], next)
  {
    forall slot | slot in next
      ensures next[slot] == declared[slot].(fillers := FillersAt(exts, mounts + [m], slot))
    {
      FillersAtSnoc(exts, mounts, m, slot);
    }
  }

  lemma {:induction false} FoundIsThere(exts: seq<Extension>, short: string)
    ensures var host := FirstWithShortId(exts, short);
            if host.Some? then host.value in exts && ShortId(host.value.id) == short
            else forall e :: e in exts ==> ShortId(e.id) != short
  {
    if exts != [] {
      FoundIsThere(Init(exts), short);
      assert exts == Init(exts) + [Last(exts)];
    }
  }

  lemma NoTarget(exts: seq<Extension>, declared: SlotMap, key: string)
    requires AreDeclarations(exts, declared)
    requires var host, name := FirstWithShortId(exts, Head(key)), Second(key);
             !(host.Some? && name.Some? && (host.value.id, name.value) in declared)
    ensures Target(exts, key).None?
  {
    if Target(exts, key).Some? {
      TargetIsDeclared(exts, declared, key);
    }
  }

  lemma TargetIs(exts: seq<Extension>, declared: SlotMap, key: string, host: Extension, name: string)
    requires AreDeclarations(exts, declared) && FirstWithShortId(exts, Head(key)) == Some(host)
             && Second(key) == Some(name)
    requires (host.id, name) in declared
    ensures Target(exts, key) == Some((host.id, name))
  {
    FoundIsThere(exts, Head(key));
  }

  // ---- Agreement with the validator ----

  /** One dot, as the shape of a mount demands. */
  predicate OneDot(key: string) {
    |Head(key)| < |key| && Lacks(key[|Head(key)| + 1..], '.')
  }

  ghost predicate MountsHaveOneDot(exts: seq<Extension>) {
    forall m :: m in AllMounts(exts) ==> OneDot(m.1.slot)
  }

  lemma {:induction false} HeadIsAll(s: string)
    requires Lacks(s, '.')
    ensures Head(s) == s
  {
    if s != "" {
      assert s[0] != '.';
      assert Lacks(s[1..], '.') by {
        assert forall k :: 0 <= k < |s| - 1 ==> s[1..][k] == s[k + 1];
      }
      HeadIsAll(s[1..]);
      assert s == [s[0]] + s[1..];
    }
  }

  lemma OneDotParts(key: string)
    requires OneDot(key)
    ensures Second(key) == Some(key[|Head(key)| + 1..]) && key == Head(key) + "." + Second(key).value
  {
    HeadIsAll(key[|Head(key)| + 1..]);
    assert key == key[..|Head(key)|] + [key[|Head(key)|]] + key[|Head(key)| + 1..];
  }

  /** With one dot, a mount goes to the slot that it names. */
  lemma TargetIsNamedSlot(exts: seq<Extension>, key: string, slot: (Id, string))
    requires IsRegistry(exts) && ShortIdsDiffer(exts) && OneDot(key)
    ensures Target(exts, key) == Some(slot) <==> HasSlot(exts, slot) && key == SlotKey(slot.0, slot.1)
  {
    OneDotParts(key);
    FoundIsThere(exts, Head(key));
    if Target(exts, key) == Some(slot) {
      assert HasSlot(exts, slot);
    }
    if HasSlot(exts, slot) && key == SlotKey(slot.0, slot.1) {
      var e :| e in exts && e.id == slot.0 && SlotNamed(e, slot.1).Some?;
      SplitAtFirst('.', Head(key), Second(key).value, ShortId(slot.0), slot.1);
      var host := FirstWithShortId(exts, Head(key)).value;
      var i :| 0 <= i < |exts| && exts[i] == host;
      var j :| 0 <= j < |exts| && exts[j] == e;
      assert i == j;
    }
  }

  /** The fillers of a slot are the mounts of its key. */
  lemma {:induction false} FillersAreMounts(exts: seq<Extension>, mounts: seq<(Id, Mount)>, slot: (Id, string))
    requires IsRegistry(exts) && ShortIdsDiffer(exts) && HasSlot(exts, slot)
    requires forall m :: m in mounts ==> OneDot(m.1.slot)
    ensures FillersAt(exts, mounts, slot) == FillersOf(Fillers(mounts, SlotKey(slot.0, slot.1)))
  {
    if mounts != [] {
      assert Last(mounts) in mounts;
      FillersAreMounts(exts, Init(mounts), slot);
      TargetIsNamedSlot(exts, Last(mounts).1.slot, slot);
    }
  }

  function FillersOf(mounts: seq<(Id, Mount)>): (r: seq<Filler>)
    ensures |r| == |mounts| && forall k :: 0 <= k < |r| ==> r[k] == FillerOf(mounts[k])
  {
    if mounts == [] then [] else FillersOf(Init(mounts)) + [FillerOf(Last(mounts))]
  }

  lemma FillerOrderIsTotal(collate: (Id, Id) -> bool)
    requires IsTotalPreorder(collate)
    ensures IsTotalPreorder(FillerBefore(collate))
  {
    var le := FillerBefore(collate);
    forall x, y
      ensures le(x, y) || le(y, x)
    {
      assert collate(x.extension, y.extension) || collate(y.extension, x.extension);
    }
    forall x, y, z | le(x, y) && le(y, z)
      ensures le(x, z)
    {
      if x.order == y.order == z.order {
        assert collate(x.extension, y.extension) && collate(y.extension, z.extension);
      }
    }
  }

  /** Each slot's fillers are a permutation of the mounts of its key, in order. */
  lemma SlotFillersAgree(exts: seq<Extension>, collate: (Id, Id) -> bool, slot: (Id, string), fillers: seq<Filler>)
    requires IsRegistry(exts) && ShortIdsDiffer(exts) && MountsHaveOneDot(exts) && IsTotalPreorder(collate)
             && HasSlot(exts, slot)
    requires fillers == SortBy(FillersAt(exts, AllMounts(exts), slot), FillerBefore(collate))
    ensures multiset(fillers) == multiset(FillersOf(Fillers(AllMounts(exts), SlotKey(slot.0, slot.1))))
    ensures IsSorted(fillers, FillerBefore(collate))
  {
    FillersAreMounts(exts, AllMounts(exts), slot);
    SortPermutes(FillersAt(exts, AllMounts(exts), slot), FillerBefore(collate));
    FillerOrderIsTotal(collate);
    SortSorts(FillersAt(exts, AllMounts(exts), slot), FillerBefore(collate));
  }

  function TotalFillers(exts: seq<Extension>, mounts: seq<(Id, Mount)>, slots: seq<(Id, string)>): nat {
    if slots == [] then 0 else TotalFillers(exts, mounts, Init(slots)) + |FillersAt(exts, mounts, Last(slots))|
  }

  lemma {:induction false} TotalSnoc(exts: seq<Extension>, mounts: seq<(Id, Mount)>, m: (Id, Mount),
        slots: seq<(Id, string)>)
    requires forall i, j :: 0 <= i < j < |slots| ==> slots[i] != slots[j]
    ensures var target := Target(exts, m.1.slot);
            TotalFillers(exts, mounts + [m], slots) ==
            TotalFillers(exts, mounts, slots) + if target.Some? && target.value in slots then 1 else 0
  {
    if slots != [] {
      TotalSnoc(exts, mounts, m, Init(slots));
      assert Init(mounts + [m]) == mounts;
      assert slots == Init(slots) + [Last(slots)];
    }
  }

  lemma {:induction false} NoFillers(exts: seq<Extension>, slots: seq<(Id, string)>)
    ensures TotalFillers(exts, [], slots) == 0
  {
    if slots != [] {
      NoFillers(exts, Init(slots));
    }
  }

  /** slots lists every declared slot once; every mount is counted in exactly one of them. */
  lemma {:induction false} TotalIsMounts(exts: seq<Extension>, mounts: seq<(Id, Mount)>, slots: seq<(Id, string)>)
    requires forall i, j :: 0 <= i < j < |slots| ==> slots[i] != slots[j]
    requires forall m :: m in mounts ==> Target(exts, m.1.slot).Some? && Target(exts, m.1.slot).value in slots
    ensures TotalFillers(exts, mounts, slots) == |mounts|
  {
    if mounts == [] {
      NoFillers(exts, slots);
    } else {
      assert Last(mounts) in mounts;
      TotalIsMounts(exts, Init(mounts), slots);
      TotalSnoc(exts, Init(mounts), Last(mounts), slots);
      assert mounts == Init(mounts) + [Last(mounts)];
    }
  }

  /** Of a registry that links no mount is lost: there are as many fillers as mounts. */
  lemma NoMountIsLost(exts: seq<Extension>, slots: seq<(Id, string)>)
    requires IsRegistry(exts) && ShortIdsDiffer(exts) && Links(exts) && MountsHaveOneDot(exts)
    requires forall i, j :: 0 <= i < j < |slots| ==> slots[i] != slots[j]
    requires forall slot :: slot in slots <==> HasSlot(exts, slot)
    ensures TotalFillers(exts, AllMounts(exts), slots) == |AllMounts(exts)|
  {
    forall m | m in AllMounts(exts)
      ensures Target(exts, m.1.slot).Some? && Target(exts, m.1.slot).value in slots
    {
      MountHasTarget(exts, m.1.slot);
    }
    TotalIsMounts(exts, AllMounts(exts), slots);
  }

  lemma MountHasTarget(exts: seq<Extension>, key: string)
    requires IsRegistry(exts) && ShortIdsDiffer(exts) && OneDot(key) && exists h :: h in exts && Declares(h, key)
    ensures Target(exts, key).Some? && HasSlot(exts, Target(exts, key).value)
  {
    var h :| h in exts && Declares(h, key);
    KeyOfName(h.id, key);
    var slot := (h.id, NameIn(h.id, key).value);
    assert HasSlot(exts, slot);
    TargetIsNamedSlot(exts, key, slot);
  }

  // ---- Building the slots ----

  /** The slots as they are built up in place: declared, filled and sorted. */
  class SlotVocabulary {
    var slots: SlotMap

    constructor ()
      ensures slots == map[]
    {
      slots := map[];
    }

    method RecordEntries(host: Id, entries: seq<(string, bool)>, inDetail: bool)
      modifies this
      ensures forall slot ::
                EntryOrNone(slots, slot)
                == RecordedEntry(EntryOrNone(old(slots), slot), host, entries, inDetail, slot)
    {
      for i := 0 to |entries|
        invariant forall slot ::
                    EntryOrNone(slots, slot)
                    == RecordedEntry(EntryOrNone(old(slots), slot), host, entries[..i], inDetail, slot)
      {
        ghost var before := slots;
        slots := slots[(host, entries[i].0) := SlotEntry(entries[i].1, inDetail, [])];
        assert Init(entries[..i + 1]) == entries[..i];
        forall slot
          ensures EntryOrNone(slots, slot)
                  == RecordedEntry(EntryOrNone(old(slots), slot), host, entries[..i + 1], inDetail, slot)
        {
          assert EntryOrNone(before, slot)
                 == RecordedEntry(EntryOrNone(old(slots), slot), host, entries[..i], inDetail, slot);
        }
      }
      assert entries[..|entries|] == entries;
    }

    method CollectDeclarations(exts: seq<Extension>)
      requires slots == map[] && forall i, j :: 0 <= i < j < |exts| ==> exts[i].id != exts[j].id
      modifies this
      ensures AreDeclarations(exts, slots)
    {
      for i := 0 to |exts|
        invariant AreDeclarations(exts[..i], slots)
      {
        var e := exts[i];
        ghost var before := slots;
        RecordEntries(e.id, Slots(e.detail), true);
        ghost var afterDetail := slots;
        RecordEntries(e.id, Slots(e.list), false);
        assert exts[..i + 1] == exts[..i] + [e];
        DeclarationsSnoc(exts[..i], e, before, afterDetail, slots);
      }
      assert exts[..|exts|] == exts;
    }

    /** Adds the filler of a mount to the slot that it goes to, if there is one. */
    method Fill(exts: seq<Extension>, m: (Id, Mount), ghost declared: SlotMap, ghost mounts: seq<(Id, Mount)>)
      requires AreDeclarations(exts, declared) && HoldFillers(exts, declared, mounts, slots)
      modifies this
      ensures HoldFillers(exts, declared, mounts + [m], slots)
    {
      var host := FindHost(exts, Head(m.1.slot));
      var name := Second(m.1.slot);
      if host.Some? && name.Some? && (host.value.id, name.value) in slots {
        var slot := (host.value.id, name.value);
        TargetIs(exts, declared, m.1.slot, host.value, name.value);
        slots := slots[slot := slots[slot].(fillers := slots[slot].fillers + [FillerOf(m)])];
      } else {
        NoTarget(exts, declared, m.1.slot);
      }
      HoldFillersSnoc(exts, declared, mounts, m, old(slots), slots);
    }

    method CollectFillers(exts: seq<Extension>)
      requires AreDeclarations(exts, slots)
      modifies this
      ensures HoldFillers(exts, old(slots), AllMounts(exts), slots)
    {
      ghost var all: seq<(Id, Mount)> := [];
      for i := 0 to |exts|
        invariant all == AllMounts(exts[..i]) && HoldFillers(exts, old(slots), all, slots)
      {
        var mounts, id := exts[i].mounts, exts[i].id;
        ghost var before := all;
        for j := 0 to |mounts|
          invariant all == before + MountsOf(exts[i])[..j] && HoldFillers(exts, old(slots), all, slots)
        {
          assert MountsOf(exts[i])[..j + 1] == MountsOf(exts[i])[..j] + [(id, mounts[j])];
          Fill(exts, (id, mounts[j]), old(slots), all);
          all := all + [(id, mounts[j])];
        }
        assert MountsOf(exts[i])[..|mounts|] == MountsOf(exts[i]);
        assert Init(exts[..i + 1]) == exts[..i];
      }
      assert exts[..|exts|] == exts;
    }

    method SortFillers(collate: (Id, Id) -> bool)
      modifies this
      ensures slots.Keys == old(slots).Keys
      ensures forall slot :: slot in slots ==>
                slots[slot] == old(slots)[slot].(fillers := SortBy(old(slots)[slot].fillers, FillerBefore(collate)))
    {
      var rest := slots.Keys;
      while rest != {}
        invariant rest <= slots.Keys == old(slots).Keys
        invariant forall slot :: slot in rest ==> slots[slot] == old(slots)[slot]
        invariant forall slot :: slot in slots && slot !in rest ==>
                    slots[slot] == old(slots)[slot].(fillers := SortBy(old(slots)[slot].fillers, FillerBefore(collate)))
        decreases |rest|
      {
        var slot :| slot in rest;
        rest := rest - {slot};
        slots := slots[slot := slots[slot].(fillers := SortBy(slots[slot].fillers, FillerBefore(collate)))];
      }
    }

    method Build(exts: seq<Extension>, collate: (Id, Id) -> bool)
      requires slots == map[] && forall i, j :: 0 <= i < j < |exts| ==> exts[i].id != exts[j].id
      modifies this
      ensures forall slot :: slot in slots <==> HasSlot(exts, slot)
      ensures forall slot, e :: slot in slots && e in exts && e.id == slot.0 ==> IsDeclaredAs(e, slot.1, slots[slot])
      ensures forall slot :: slot in slots ==>
                slots[slot].fillers == SortBy(FillersAt(exts, AllMounts(exts), slot), FillerBefore(collate))
    {
      CollectDeclarations(exts);
      CollectFillers(exts);
      SortFillers(collate);
    }
  }
}
