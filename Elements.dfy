/** Element.cs: the read-only snapshot of one host element (`Element`) and the
    extension methods that build and sort lists of them (`ElementExtensions`). */
module Elements {
  import opened Wrappers
  import opened Strings
  import opened Sequences
  import opened HostApi

  /** Type names of 3-D shapes all live in this namespace. */
  const ShapeTypePrefix := "TopSolid.Kernel.DB.D3.Shapes."
  /** Defaults substituted when a name or type query throws. */
  const UnknownName := "Nom inconnu"
  const UnknownType := "Type inconnu"
  /** 1 m³ = 10^9 mm³. */
  const CubicMmPerCubicMetre: real := 1000000000.0

  /** The snapshot: `friendlyName` and `typeFullName` stay `None` (C# `null`) when the
      handle is empty; `volume` is in m³. */
  datatype Element = Element(
    elementId: ElementId,
    friendlyName: Option<string>,
    typeFullName: Option<string>,
    isShape: bool,
    volume: Option<real>)
  {
    /** The volume in mm³. */
    function VolumeMm3(): (r: Option<real>)
      ensures r.Some? <==> volume.Some?
    {
      if volume.Some? then Some(volume.value * CubicMmPerCubicMetre) else None
    }
  }

  /** `!string.IsNullOrEmpty(t) && t.StartsWith(ShapeTypePrefix)`. */
  predicate IsShapeType(t: Option<string>) {
    t.Some? && |t.value| > 0 && StartsWith(t.value, ShapeTypePrefix)
  }

  /** What `new Element(id)` captures when the host answers as `host` does. */
  function Snapshot(id: ElementId, host: Host): (e: Element)
    ensures e.elementId == id
    ensures id.Empty? ==> e == Element(Empty, None, None, false, None)
    ensures e.isShape <==>
      !id.Empty? && host.typeFullName(id).Answer? &&
      StartsWith(host.typeFullName(id).value, ShapeTypePrefix) && host.shapeVolume(id).Answer?
    ensures e.volume.Some? <==> e.isShape
    ensures e.isShape ==> e.volume == Some(host.shapeVolume(id).value)
    ensures !id.Empty? && host.friendlyName(id).Answer? ==> e.friendlyName == Some(host.friendlyName(id).value)
    ensures !id.Empty? && host.friendlyName(id).Threw? ==> e.friendlyName == Some(UnknownName)
    ensures !id.Empty? && host.typeFullName(id).Answer? ==> e.typeFullName == Some(host.typeFullName(id).value)
    ensures !id.Empty? && host.typeFullName(id).Threw? ==> e.typeFullName == Some(UnknownType) && !e.isShape
  {
    if id.Empty? then Element(Empty, None, None, false, None)
    else
      var name := if host.friendlyName(id).Answer? then host.friendlyName(id).value else UnknownName;
      var typeName := if host.typeFullName(id).Answer? then host.typeFullName(id).value else UnknownType;
      assert !StartsWith(UnknownType, ShapeTypePrefix);
      if IsShapeType(Some(typeName)) && host.shapeVolume(id).Answer? then
        Element(id, Some(name), Some(typeName), true, Some(host.shapeVolume(id).value))
      else
        Element(id, Some(name), Some(typeName), false, None)
  }

  /** The `Element` constructor and `InitializeElement`: each query's failure is caught
      and replaced by a default, and an empty handle skips every query. */
  method NewElement(id: ElementId, host: Host) returns (e: Element)
    ensures e == Snapshot(id, host)
  {
    var friendlyName: Option<string> := None;
    var typeFullName: Option<string> := None;
    var isShape := false;
    var volume: Option<real> := None;
    if id != Empty {
      match host.friendlyName(id) {
        case Answer(n) => friendlyName := Some(n);
        case Threw => friendlyName := Some(UnknownName);
      }
      match host.typeFullName(id) {
        case Answer(t) => typeFullName := Some(t);
        case Threw => typeFullName := Some(UnknownType);
      }
      isShape := IsShapeType(typeFullName);
      if isShape {
        match host.shapeVolume(id) {
          case Answer(v) => volume := Some(v);
          case Threw => isShape := false; volume := None;
        }
      } else {
        volume := None;
      }
    }
    e := Element(id, friendlyName, typeFullName, isShape, volume);
  }

  /** Scaling to mm³ preserves the order of volumes, in both directions. */
  lemma VolumeMm3Monotone(a: Element, b: Element)
    requires a.volume.Some? && b.volume.Some?
    ensures a.volume.value <= b.volume.value <==> a.VolumeMm3().value <= b.VolumeMm3().value
  {
  }

  /** `ElementExtensions.ToElements`: one snapshot per handle, in order; `null` gives an
      empty list. */
  method ToElements(ids: Option<seq<ElementId>>, host: Host) returns (elements: seq<Element>)
    ensures ids.None? ==> elements == []
    ensures ids.Some? ==> |elements| == |ids.value|
    ensures ids.Some? ==> forall i :: 0 <= i < |elements| ==>
      elements[i] == Snapshot(ids.value[i], host) && elements[i].elementId == ids.value[i]
  {
    elements := [];
    if ids.None? {
      return;
    }
    var list := ids.value;
    var k := 0;
    while k < |list|
      invariant 0 <= k <= |list|
      invariant |elements| == k
      invariant forall i :: 0 <= i < k ==> elements[i] == Snapshot(list[i], host)
    {
      var e := NewElement(list[k], host);
      elements := elements + [e];
      k := k + 1;
    }
  }

  // ----- GetShapesSortedByVolume -----

  /** The filter of `GetShapesSortedByVolume`: a shape that has a volume. */
  predicate HasVolume(e: Element) {
    e.isShape && e.volume.Some?
  }

  /** The sort key, defined on every element so that comparisons need no precondition. */
  function Volume(e: Element): (r: real) {
    if e.volume.Some? then e.volume.value else 0.0
  }

  /** `x` may come before `y`: the comparison `List.Sort` is given. */
  predicate InOrder(x: Element, y: Element, descending: bool) {
    if descending then Volume(y) <= Volume(x) else Volume(x) <= Volume(y)
  }

  predicate Sorted(s: seq<Element>, descending: bool) {
    forall i, j :: 0 <= i < j < |s| ==> InOrder(s[i], s[j], descending)
  }

  /** `List.Sort` with a volume comparison: sorts in place, in no particular order
      among equal volumes. */
  method SortByVolume(a: array<Element>, descending: bool)
    modifies a
    ensures Sorted(a[..], descending)
    ensures multiset(a[..]) == old(multiset(a[..]))
  {
    var i := 0;
    while i < a.Length
      invariant 0 <= i <= a.Length
      invariant Sorted(a[..i], descending)
      invariant multiset(a[..]) == old(multiset(a[..]))
    {
      InsertInPlace(a, i, descending);
      i := i + 1;
    }
    assert a[..a.Length] == a[..];
  }

  /** One insertion step: moves `a[i]` down into the sorted prefix `a[..i]`. */
  method InsertInPlace(a: array<Element>, i: nat, descending: bool)
    requires i < a.Length && Sorted(a[..i], descending)
    modifies a
    ensures Sorted(a[..i + 1], descending)
    ensures multiset(a[..i + 1]) == old(multiset(a[..i + 1]))
    ensures a[i + 1..] == old(a[i + 1..])
    ensures multiset(a[..]) == old(multiset(a[..]))
  {
    InsertStart(a[..], i, descending);
    var j := i;
    while j > 0 && !InOrder(a[j - 1], a[j], descending)
      invariant 0 <= j <= i
      invariant SortedExcept(a[..], i, j, descending) && AboveHole(a[..], i, j, descending)
      invariant multiset(a[..i + 1]) == old(multiset(a[..i + 1]))
      invariant a[i + 1..] == old(a[i + 1..])
      invariant multiset(a[..]) == old(multiset(a[..]))
    {
      ghost var before := a[..];
      a[j - 1], a[j] := a[j], a[j - 1];
      assert a[..] == before[j - 1 := before[j]][j := before[j - 1]];
      SwapDown(before, i, j, descending);
      SwapWithin(before, i, j);
      j := j - 1;
    }
    InsertDone(a[..], i, j, descending);
  }

  /** Positions up to `i`, the hole `j` aside, are in order. */
  predicate SortedExcept(s: seq<Element>, i: nat, j: nat, descending: bool)
    requires i < |s|
  {
    forall k, l :: 0 <= k < l <= i && k != j && l != j ==> InOrder(s[k], s[l], descending)
  }

  /** The element in the hole `j` may precede everything after it, up to `i`. */
  predicate AboveHole(s: seq<Element>, i: nat, j: nat, descending: bool)
    requires j <= i < |s|
  {
    forall l :: j < l <= i ==> InOrder(s[j], s[l], descending)
  }

  lemma InsertStart(s: seq<Element>, i: nat, descending: bool)
    requires i < |s| && Sorted(s[..i], descending)
    ensures SortedExcept(s, i, i, descending) && AboveHole(s, i, i, descending)
  {
    forall k, l | 0 <= k < l < i
      ensures InOrder(s[k], s[l], descending)
    {
      assert s[..i][k] == s[k] && s[..i][l] == s[l];
    }
  }

  /** Swapping the hole with its out-of-order left neighbour moves the hole down. */
  lemma SwapDown(s: seq<Element>, i: nat, j: nat, descending: bool)
    requires 0 < j <= i < |s|
    requires SortedExcept(s, i, j, descending) && AboveHole(s, i, j, descending)
    requires !InOrder(s[j - 1], s[j], descending)
    ensures SortedExcept(s[j - 1 := s[j]][j := s[j - 1]], i, j - 1, descending)
    ensures AboveHole(s[j - 1 := s[j]][j := s[j - 1]], i, j - 1, descending)
    ensures multiset(s[j - 1 := s[j]][j := s[j - 1]]) == multiset(s)
  {
    var t := s[j - 1 := s[j]][j := s[j - 1]];
    assert InOrder(s[j], s[j - 1], descending);
    forall k, l | 0 <= k < l <= i && k != j - 1 && l != j - 1
      ensures InOrder(t[k], t[l], descending)
    {
      if l == j {
        assert InOrder(s[k], s[j - 1], descending);
      } else if k == j {
        assert InOrder(s[j - 1], s[l], descending);
      }
    }
    forall l | j - 1 < l <= i
      ensures InOrder(t[j - 1], t[l], descending)
    {
      if l > j {
        assert InOrder(s[j], s[l], descending);
      }
    }
  }

  /** When the hole is in order with its left neighbour, the prefix is sorted. */
  lemma InsertDone(s: seq<Element>, i: nat, j: nat, descending: bool)
    requires j <= i < |s|
    requires SortedExcept(s, i, j, descending) && AboveHole(s, i, j, descending)
    requires j == 0 || InOrder(s[j - 1], s[j], descending)
    ensures Sorted(s[..i + 1], descending)
  {
    forall k, l | 0 <= k < l <= i
      ensures InOrder(s[k], s[l], descending)
    {
      if k == j || l == j {
      } else if k < j < l {
        assert InOrder(s[k], s[j - 1], descending) || k == j - 1;
      }
    }
    assert forall k :: 0 <= k <= i ==> s[..i + 1][k] == s[k];
  }

  /** `GetShapesSortedByVolume`: the shapes that have a volume, sorted by volume,
      largest first when `descending` (the default) and smallest first otherwise. */
  method GetShapesSortedByVolume(elements: seq<Element>, descending: bool) returns (shapes: seq<Element>)
    ensures multiset(shapes) == multiset(Filter(elements, HasVolume))
    ensures forall i :: 0 <= i < |shapes| ==> HasVolume(shapes[i])
    ensures descending ==>
      forall i, j :: 0 <= i < j < |shapes| ==> shapes[j].volume.value <= shapes[i].volume.value
    ensures !descending ==>
      forall i, j :: 0 <= i < j < |shapes| ==> shapes[i].volume.value <= shapes[j].volume.value
  {
    var kept := Filter(elements, HasVolume);
    var a := new Element[|kept|](i requires 0 <= i < |kept| => kept[i]);
    assert a[..] == kept;
    SortByVolume(a, descending);
    shapes := a[..];
    forall i | 0 <= i < |shapes|
      ensures HasVolume(shapes[i])
    {
      assert shapes[i] in multiset(kept);
      FilterMembership(elements, HasVolume, shapes[i]);
    }
  }
}
