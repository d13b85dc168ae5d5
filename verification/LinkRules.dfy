/** What it means for a set of extensions to link: the rules that span extensions, each said on its own. */
module LinkRules {
  import opened Prelude
  import opened TextSplit

  type Id = string
  type Schema = map<string, string>

  /** A detail or list view: an empty route counts as none; each slot says whether it takes several fillers. */
  datatype Surface = Surface(route: string, slots: seq<(string, bool)>)

  datatype Mount = Mount(slot: string, component: string, order: real)

  datatype Emit = Emit(event: string, schema: Option<Schema>)

  datatype Extension = Extension(
    id: Id, detail: Option<Surface>, list: Option<Surface>, rail: Option<Option<real>>, mounts: seq<Mount>,
    emits: seq<Emit>, publicEvents: seq<Emit>, listens: seq<string>, sessions: seq<string>, preferences: seq<string>)

  datatype LinkError =
    | DuplicateRoute(route: string, id: Id)
    | RouteCollision(route: string)
    | UndeclaredSlot(slot: string, id: Id)
    | OverfilledSlot(slot: string)
    | CircularMount(a: Id, b: Id)
    | UnmatchedListener(event: string)
    | MismatchedSchema(event: string, id: Id)
    | DuplicateSession(kind: string, id: Id)
    | ReservedPreference(key: string, id: Id)

  /** The part of an id after its last dot. */
  function ShortId(id: Id): (r: string)
    ensures Lacks(r, '.')
  {
    if id == "" || Last(id) == '.' then "" else ShortId(Init(id)) + [Last(id)]
  }

  // ---- Routes ----

  function Route(s: Option<Surface>): Option<string> {
    if s.Some? && s.value.route != "" then Some(s.value.route) else None
  }

  /** The detail or the list view of an extension. */
  function View(e: Extension, detail: bool): Option<Surface> {
    if detail then e.detail else e.list
  }

  ghost predicate RoutesDiffer(exts: seq<Extension>, detail: bool) {
    forall i, j :: 0 <= i < j < |exts| && Route(View(exts[i], detail)).Some? ==>
      Route(View(exts[i], detail)) != Route(View(exts[j], detail))
  }

  ghost predicate NoRouteIsBoth(exts: seq<Extension>) {
    forall e, f :: e in exts && f in exts && Route(View(e, true)).Some? ==>
          Route(View(e, true)) != Route(View(f, false))
  }

  ghost predicate RoutesAreUnique(exts: seq<Extension>) {
    RoutesDiffer(exts, true) && RoutesDiffer(exts, false) && NoRouteIsBoth(exts)
  }

  // ---- Slots ----

  function Slots(s: Option<Surface>): seq<(string, bool)> {
    if s.Some? then s.value.slots else []
  }

  /** The last entry with the name. */
  function Lookup(slots: seq<(string, bool)>, name: string): Option<bool> {
    if slots == [] then None
    else if Last(slots).0 == name then Some(Last(slots).1)
    else Lookup(Init(slots), name)
  }

  /** The name that a slot key has within its host. */
  function NameIn(host: Id, key: string): Option<string> {
    var short := ShortId(host);
    if |short| < |key| && key[..|short|] == short && key[|short|] == '.' then Some(key[|short| + 1..]) else None
  }

  function SlotKey(host: Id, name: string): string {
    ShortId(host) + "." + name
  }

  /**
   Whether the extension declares a slot with the name, and whether that takes several fillers: its list comes
   last.
   */
  function SlotNamed(e: Extension, name: string): Option<bool> {
    var inList := Lookup(Slots(e.list), name);
    if inList.Some? then inList else Lookup(Slots(e.detail), name)
  }

  function SlotAt(e: Extension, key: string): Option<bool> {
    var name := NameIn(e.id, key);
    if name.None? then None else SlotNamed(e, name.value)
  }

  predicate Declares(e: Extension, key: string) {
    SlotAt(e, key).Some?
  }

  function MountsOf(e: Extension): seq<(Id, Mount)> {
    seq(|e.mounts|, k requires 0 <= k < |e.mounts| => (e.id, e.mounts[k]))
  }

  function AllMounts(exts: seq<Extension>): seq<(Id, Mount)> {
    if exts == [] then [] else AllMounts(Init(exts)) + MountsOf(Last(exts))
  }

  ghost predicate MountsAreDeclared(exts: seq<Extension>) {
    forall m :: m in AllMounts(exts) ==> exists h :: h in exts && Declares(h, m.1.slot)
  }

  /** A slot that takes one filler has at most one mount. */
  ghost predicate SingleSlotsAreSingle(exts: seq<Extension>) {
    var all := AllMounts(exts);
    forall a, b, h :: 0 <= a < b < |all| && all[a].1.slot == all[b].1.slot && h in exts ==>
          SlotAt(h, all[a].1.slot) != Some(false)
  }

  ghost predicate MountsOn(a: Extension, b: Extension) {
    exists m :: m in a.mounts && Declares(b, m.slot)
  }

  ghost predicate NoMutualMounts(exts: seq<Extension>) {
    forall a, b :: a in exts && b in exts && a.id != b.id && MountsOn(a, b) ==> !MountsOn(b, a)
  }

  // ---- Events ----

  function Decls(e: Extension): seq<Emit> {
    e.emits + e.publicEvents
  }

  predicate EmitsEvent(e: Extension, event: string) {
    exists d :: d in Decls(e) && d.event == event
  }

  /** If anyone listens to the event, someone emits it. */
  ghost predicate IsEmittedIfHeard(exts: seq<Extension>, event: string) {
    (exists e :: e in exts && event in e.listens) ==> exists f :: f in exts && EmitsEvent(f, event)
  }

  ghost predicate ListenersAreMatched(exts: seq<Extension>) {
    forall event :: IsEmittedIfHeard(exts, event)
  }

  /** The last schema that is given for the event. */
  function LastSchema(decls: seq<Emit>, event: string): Option<Schema> {
    if decls == [] then None
    else if Last(decls).event == event && Last(decls).schema.Some? then Last(decls).schema
    else LastSchema(Init(decls), event)
  }

  ghost predicate SchemasAgreeOn(exts: seq<Extension>, event: string) {
    forall e, f :: e in exts && f in exts && LastSchema(Decls(e), event).Some? && LastSchema(Decls(f), event).Some? ==>
      LastSchema(Decls(e), event) == LastSchema(Decls(f), event)
  }

  ghost predicate SchemasAgree(exts: seq<Extension>) {
    forall event :: SchemasAgreeOn(exts, event)
  }

  // ---- Sessions and preferences ----

  ghost predicate SessionsAreUnique(exts: seq<Extension>) {
    forall e, j, k :: e in exts && 0 <= j < k < |e.sessions| ==> e.sessions[j] != e.sessions[k]
  }

  const RESERVED_KEY := "room_order"
  const RESERVED_PREFIX := "_system:"

  predicate IsReserved(key: string) {
    key == RESERVED_KEY || RESERVED_PREFIX <= key
  }

  ghost predicate PreferencesAreFree(exts: seq<Extension>) {
    forall e, p :: e in exts && p in e.preferences ==> !IsReserved(p)
  }

  // ---- All of them ----

  ghost predicate Links(exts: seq<Extension>) {
    && RoutesAreUnique(exts)
    && MountsAreDeclared(exts)
    && SingleSlotsAreSingle(exts)
    && NoMutualMounts(exts)
    && ListenersAreMatched(exts)
    && SchemasAgree(exts)
    && SessionsAreUnique(exts)
    && PreferencesAreFree(exts)
  }

  /** What a registry keeps, and what the shape of an id guarantees. */
  ghost predicate IsRegistry(exts: seq<Extension>) {
    && (forall i, j :: 0 <= i < j < |exts| ==> exts[i].id != exts[j].id)
    && forall e :: e in exts ==> Lacks(e.id, ':')
  }

  ghost predicate ShortIdsDiffer(exts: seq<Extension>) {
    forall i, j :: 0 <= i < j < |exts| ==> ShortId(exts[i].id) != ShortId(exts[j].id)
  }

  // ---- Slot keys ----

  lemma NameOfKey(host: Id, name: string)
    ensures NameIn(host, SlotKey(host, name)) == Some(name)
  {
    var short, key := ShortId(host), SlotKey(host, name);
    assert key[..|short|] == short && key[|short| + 1..] == name;
  }

  lemma KeyOfName(host: Id, key: string)
    requires NameIn(host, key).Some?
    ensures key == SlotKey(host, NameIn(host, key).value)
  {
    var short := ShortId(host);
    assert key == key[..|short|] + [key[|short|]] + key[|short| + 1..];
  }

  /** With different short ids, a key belongs to one extension at most. */
  lemma HostIsUnique(a: Id, b: Id, key: string)
    requires NameIn(a, key).Some? && NameIn(b, key).Some?
    ensures ShortId(a) == ShortId(b)
  {
    KeyOfName(a, key);
    KeyOfName(b, key);
    SplitAtFirst('.', ShortId(a), NameIn(a, key).value, ShortId(b), NameIn(b, key).value);
  }
}
