/** The registry of extensions. */
module ExtensionRegistry {
  import opened Prelude
  import opened LinkRules
  import opened LinkMounts
  import opened StableSort

  datatype RegistryError = NoId | AlreadyRegistered(id: Id)

  /** Those that declare a rail, in order. */
  function WithRail(exts: seq<Extension>): (r: seq<Extension>)
    ensures forall e :: e in r <==> e in exts && e.rail.Some?
  {
    if exts == [] then []
    else if Last(exts).rail.Some? then WithRail(Init(exts)) + [Last(exts)]
    else WithRail(Init(exts))
  }

  /** An order that is not given counts as 0. */
  function RailOrder(e: Extension): real {
    if e.rail.Some? && e.rail.value.Some? then e.rail.value.value else 0.0
  }

  predicate RailBefore(a: Extension, b: Extension) {
    RailOrder(a) <= RailOrder(b)
  }

  predicate HasDetailRoute(e: Extension, route: string) {
    e.detail.Some? && e.detail.value.route == route
  }

  ghost predicate IsFirstOwner(exts: seq<Extension>, route: string, i: int) {
    0 <= i < |exts| && HasDetailRoute(exts[i], route) && forall k :: 0 <= k < i ==> !HasDetailRoute(exts[k], route)
  }

  class ExtensionRegistry {
    /** The extensions in the order in which they were added. */
    var extensions: seq<Extension>

    ghost predicate Valid()
      reads this
    {
      forall i, j :: 0 <= i < j < |extensions| ==> extensions[i].id != extensions[j].id
    }

    constructor ()
      ensures Valid() && extensions == []
    {
      extensions := [];
    }

    method Has(id: Id) returns (r: bool)
      ensures r <==> exists e :: e in extensions && e.id == id
    {
      for i := 0 to |extensions|
        invariant forall k :: 0 <= k < i ==> extensions[k].id != id
      {
        if extensions[i].id == id {
          assert extensions[i] in extensions;
          return true;
        }
      }
      return false;
    }

    method Add(e: Extension) returns (r: Result<(), RegistryError>)
      requires Valid()
      modifies this
      ensures Valid()
      ensures r.Ok? <==> e.id != "" && forall f :: f in old(extensions) ==> f.id != e.id
      ensures extensions == if r.Ok? then old(extensions) + [e] else old(extensions)
    {
      if e.id == "" {
        return Err(NoId);
      }
      var present := Has(e.id);
      if present {
        return Err(AlreadyRegistered(e.id));
      }
      assert forall i :: 0 <= i < |extensions| ==> extensions[i] in extensions;
      extensions := extensions + [e];
      return Ok(());
    }

    /** The extension whose detail view has the route; the first, if there were several. */
    method OwnerOfRoute(route: string) returns (owner: Option<Extension>)
      ensures owner.Some? ==> exists i :: IsFirstOwner(extensions, route, i) && extensions[i] == owner.value
      ensures owner.None? ==> forall e :: e in extensions ==> !HasDetailRoute(e, route)
    {
      for i := 0 to |extensions|
        invariant forall k :: 0 <= k < i ==> !HasDetailRoute(extensions[k], route)
      {
        if extensions[i].detail.Some? && extensions[i].detail.value.route == route {
          assert IsFirstOwner(extensions, route, i);
          return Some(extensions[i]);
        }
      }
      return None;
    }

    method ByRailOrder() returns (r: seq<Extension>)
      ensures multiset(r) == multiset(WithRail(extensions))
      ensures IsSorted(r, RailBefore) && IsStable(WithRail(extensions), r, RailBefore)
    {
      var rails := [];
      for i := 0 to |extensions|
        invariant rails == WithRail(extensions[..i])
      {
        assert Init(extensions[..i + 1]) == extensions[..i];
        if extensions[i].rail.Some? {
          rails := rails + [extensions[i]];
        }
      }
      assert extensions[..|extensions|] == extensions;
      SortPermutes(rails, RailBefore);
      SortIsStable(rails, SortBy(rails, RailBefore), RailBefore);
      return SortBy(rails, RailBefore);
    }

    method Size() returns (n: nat)
      ensures n == |extensions|
    {
      return |extensions|;
    }
  }

  /** Among extensions that link, a detail route has one owner. */
  lemma OwnerIsUnique(exts: seq<Extension>, a: Extension, b: Extension)
    requires RoutesAreUnique(exts) && a in exts && b in exts
    requires Route(a.detail).Some? && Route(a.detail) == Route(b.detail)
    ensures a == b
  {
    var i :| 0 <= i < |exts| && exts[i] == a;
    var j :| 0 <= j < |exts| && exts[j] == b;
    assert Route(View(exts[i], true)) == Route(View(exts[j], true));
  }
}
