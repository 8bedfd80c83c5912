/** MainWindow.xaml.cs, steps 1-8 of the collection pipeline: the element filters, the
    expansion of duplication operations into their children, the search for the master
    electrode, the assembly of the candidate list and the reading of document parameters.
    Every helper follows the source's convention of answering `null` (`None`) for a
    missing or empty input list. */
module Pipeline {
  import opened Wrappers
  import opened Strings
  import opened Sequences
  import opened HostApi

  /** The type of the duplication operations whose children are the gapped electrodes. */
  const DuplicateCreation := "TopSolid.Kernel.DB.Operations.DuplicateCreation"
  /** The name of the master electrode, exported without a gap. */
  const ElectrodeName := "Electrode"

  /** A C# `List<ElementId>` that is appended to in place. */
  class IdList {
    var items: seq<ElementId>

    constructor (initial: seq<ElementId>)
      ensures items == initial
    {
      items := initial;
    }

    method Add(id: ElementId)
      modifies this
      ensures items == old(items) + [id]
    {
      items := items + [id];
    }

    method AddRange(ids: seq<ElementId>)
      modifies this
      ensures items == old(items) + ids
    {
      items := items + ids;
    }
  }

  // ----- Steps 2 and 3: ListOperations, OperationsActive -----

  /** The null-on-empty filter the helpers share: `null` for a null or empty list,
      otherwise the handles that pass, in order (possibly none). */
  function KeepOrNull(elements: Option<seq<ElementId>>, keep: ElementId -> bool): (r: Option<seq<ElementId>>)
    ensures r.None? <==> elements.None? || elements.value == []
    ensures r.Some? ==> forall x :: x in r.value <==> x in elements.value && keep(x)
  {
    if elements.None? || elements.value == [] then None
    else
      assert forall x :: x in Filter(elements.value, keep) <==> x in elements.value && keep(x) by {
        forall x { FilterMembership(elements.value, keep, x); }
      }
      Some(Filter(elements.value, keep))
  }

  /** The loop both filters run: append every handle that passes. */
  method KeepWhere(elements: seq<ElementId>, keep: ElementId -> bool) returns (kept: seq<ElementId>)
    ensures kept == Filter(elements, keep)
  {
    kept := [];
    var k := 0;
    while k < |elements|
      invariant 0 <= k <= |elements|
      invariant kept == Filter(elements[..k], keep)
    {
      TakeSnoc(elements, k);
      FilterSnoc(elements[..k], elements[k], keep);
      if keep(elements[k]) {
        kept := kept + [elements[k]];
      }
      k := k + 1;
    }
    TakeAll(elements);
  }

  /** `ListOperations`: the elements the host reports as operations. */
  method ListOperations(elements: Option<seq<ElementId>>, host: Host) returns (operations: Option<seq<ElementId>>)
    ensures operations == KeepOrNull(elements, host.isOperation)
  {
    if elements.Some? && |elements.value| > 0 {
      var kept := KeepWhere(elements.value, host.isOperation);
      return Some(kept);
    }
    return None;
  }

  /** `OperationsActive`: the operations the host reports as active. */
  method OperationsActive(operations: Option<seq<ElementId>>, host: Host) returns (active: Option<seq<ElementId>>)
    ensures active == KeepOrNull(operations, host.isActive)
  {
    if operations.Some? && |operations.value| > 0 {
      var kept := KeepWhere(operations.value, host.isActive);
      return Some(kept);
    }
    return None;
  }

  // ----- Step 4: searchOperations -----

  /** The host answers `operationName` as the full type name of `id`. */
  function HasType(host: Host, operationName: string): (r: ElementId -> bool) {
    id => host.typeFullName(id) == Answer(operationName)
  }

  /** What `searchOperations` yields: the type query is not guarded, so one that throws
      escapes to the caller. */
  function SearchResult(operations: Option<seq<ElementId>>, operationName: string, host: Host): (r: Query<Option<seq<ElementId>>>)
    ensures r.Threw? <==> operations.Some? && exists i :: 0 <= i < |operations.value| && host.typeFullName(operations.value[i]).Threw?
  {
    if operations.Some? && exists i :: 0 <= i < |operations.value| && host.typeFullName(operations.value[i]).Threw? then Threw
    else Answer(KeepOrNull(operations, HasType(host, operationName)))
  }

  /** `searchOperations`: the operations whose full type name is `operationName`. */
  method SearchOperations(operations: Option<seq<ElementId>>, operationName: string, host: Host)
    returns (r: Query<Option<seq<ElementId>>>)
    ensures r == SearchResult(operations, operationName, host)
  {
    if operations.None? || |operations.value| == 0 {
      return Answer(None);
    }
    var ops := operations.value;
    var found := [];
    var k := 0;
    while k < |ops|
      invariant 0 <= k <= |ops|
      invariant found == Filter(ops[..k], HasType(host, operationName))
      invariant forall i :: 0 <= i < k ==> host.typeFullName(ops[i]).Answer?
    {
      var typeName := host.typeFullName(ops[k]);
      if typeName.Threw? {
        return Threw;
      }
      TakeSnoc(ops, k);
      FilterSnoc(ops[..k], ops[k], HasType(host, operationName));
      if typeName.value == operationName {
        found := found + [ops[k]];
      }
      k := k + 1;
    }
    TakeAll(ops);
    return Answer(Some(found));
  }

  // ----- Step 5: childrenElements -----

  /** The children an operation contributes: none when the host answers null or empty. */
  function Kids(host: Host, operation: ElementId): (r: seq<ElementId>) {
    if host.children(operation).Some? then host.children(operation).value else []
  }

  /** The children of every operation, operation by operation. */
  function ChildrenOf(operations: seq<ElementId>, host: Host): (r: seq<ElementId>)
  {
    if operations == [] then []
    else ChildrenOf(operations[..|operations| - 1], host) + Kids(host, operations[|operations| - 1])
  }

  /** A handle is collected iff it is a child of one of the operations. */
  lemma {:induction false} ChildrenOfMembership(operations: seq<ElementId>, host: Host, x: ElementId)
    ensures x in ChildrenOf(operations, host) <==> exists i :: 0 <= i < |operations| && x in Kids(host, operations[i])
  {
    if operations != [] {
      var front := operations[..|operations| - 1];
      ChildrenOfMembership(front, host, x);
      if x in ChildrenOf(front, host) {
        var i :| 0 <= i < |front| && x in Kids(host, front[i]);
        assert operations[i] == front[i];
      }
      if exists i :: 0 <= i < |operations| && x in Kids(host, operations[i]) {
        var i :| 0 <= i < |operations| && x in Kids(host, operations[i]);
        if i < |front| { assert front[i] == operations[i]; }
      }
    }
  }

  /** `childrenElements`: `null` only for a null input; an empty input gives an empty,
      non-null list. */
  method ChildrenElements(operations: Option<seq<ElementId>>, host: Host) returns (children: IdList?)
    ensures operations.None? <==> children == null
    ensures children != null ==> fresh(children) && children.items == ChildrenOf(operations.value, host)
  {
    if operations.None? {
      return null;
    }
    var ops := operations.value;
    children := new IdList([]);
    var k := 0;
    while k < |ops|
      invariant 0 <= k <= |ops|
      invariant fresh(children)
      invariant children.items == ChildrenOf(ops[..k], host)
    {
      TakeTake(ops, k);
      var kids := host.children(ops[k]);
      if kids.Some? && |kids.value| > 0 {
        children.AddRange(kids.value);
      }
      k := k + 1;
    }
    TakeAll(ops);
  }

  // ----- Step 6: SearchElectrode, and the parameter lookups -----

  /** The scan `SearchElectrode` and `GetParameterValue` share: the first handle whose
      friendly name is `name`, `None` when there is none, `Threw` when a name query throws
      before a match is found. */
  function FirstNamed(s: seq<ElementId>, name: string, host: Host): (r: Query<Option<ElementId>>)
    ensures r.Answer? && r.value.Some? ==> r.value.value in s && host.friendlyName(r.value.value) == Answer(name)
  {
    if s == [] then Answer(None)
    else match host.friendlyName(s[0])
      case Threw => Threw
      case Answer(n) => if n == name then Answer(Some(s[0])) else FirstNamed(s[1..], name, host)
  }

  /** Position `i` is where the scan stops: every earlier name was answered and differs. */
  predicate ScanReaches(s: seq<ElementId>, name: string, host: Host, i: nat) {
    i <= |s| && forall j :: 0 <= j < i ==> host.friendlyName(s[j]).Answer? && host.friendlyName(s[j]).value != name
  }

  /** The scan returns the first match, throws at the first failing query, and finds
      nothing only when every name was answered and none matched. */
  lemma {:induction false} FirstNamedCharacterization(s: seq<ElementId>, name: string, host: Host, i: nat)
    requires ScanReaches(s, name, host, i)
    ensures i < |s| && host.friendlyName(s[i]) == Answer(name) ==> FirstNamed(s, name, host) == Answer(Some(s[i]))
    ensures i < |s| && host.friendlyName(s[i]).Threw? ==> FirstNamed(s, name, host) == Threw
    ensures i == |s| ==> FirstNamed(s, name, host) == Answer(None)
  {
    if i > 0 {
      assert ScanReaches(s[1..], name, host, i - 1) by {
        forall j | 0 <= j < i - 1 ensures s[1..][j] == s[j + 1] { }
      }
      FirstNamedCharacterization(s[1..], name, host, i - 1);
    }
  }

  /** The handle `SearchElectrode` finds: the first one named `name`, `Empty` otherwise. */
  function Located(elements: Option<seq<ElementId>>, name: string, host: Host): (id: ElementId)
    ensures id != Empty ==> elements.Some? && id in elements.value && host.friendlyName(id) == Answer(name)
    ensures elements.None? ==> id == Empty
    ensures elements.Some? && FirstNamed(elements.value, name, host).Threw? ==> id == Empty
    ensures elements.Some? && FirstNamed(elements.value, name, host) == Answer(None) ==> id == Empty
    ensures elements.Some? && FirstNamed(elements.value, name, host).Answer? && FirstNamed(elements.value, name, host).value.Some? ==>
      id == FirstNamed(elements.value, name, host).value.value
  {
    if elements.None? then Empty
    else match FirstNamed(elements.value, name, host)
      case Answer(Some(id)) => id
      case _ => Empty
  }

  /** `SearchElectrode`: the first element named `electrodeName`, or `Empty`; a null
      element list or a throwing name query is caught and also gives `Empty`. */
  method SearchElectrode(elements: Option<seq<ElementId>>, electrodeName: string, host: Host) returns (electrodeId: ElementId)
    ensures electrodeId == Located(elements, electrodeName, host)
  {
    if elements.None? {
      return Empty;
    }
    var s := elements.value;
    var k := 0;
    while k < |s|
      invariant 0 <= k <= |s|
      invariant FirstNamed(s, electrodeName, host) == FirstNamed(s[k..], electrodeName, host)
    {
      assert s[k..][1..] == s[k + 1..];
      var n := host.friendlyName(s[k]);
      if n.Threw? {
        return Empty;
      }
      if n.value == electrodeName {
        return s[k];
      }
      k := k + 1;
    }
    return Empty;
  }

  /** What `GetParameterValue` yields: the text of the first parameter named `name`. */
  function ParameterText(parameters: Option<seq<ElementId>>, name: string, host: Host): (r: Query<Option<string>>)
    ensures parameters.None? ==> r == Answer(None)
    ensures r.Answer? && r.value.Some? ==>
      exists p :: p in parameters.value && host.friendlyName(p) == Answer(name) && host.textValue(p) == r.value
  {
    if parameters.None? then Answer(None)
    else match FirstNamed(parameters.value, name, host)
      case Threw => Threw
      case Answer(None) => Answer(None)
      case Answer(Some(p)) => Answer(host.textValue(p))
  }

  /** `GetParameterValue`: the text value of the first parameter named `parameterName`,
      `null` when there is none or the parameter list is null; a name query that throws
      escapes to the caller. */
  method GetParameterValue(parameters: Option<seq<ElementId>>, parameterName: string, host: Host)
    returns (r: Query<Option<string>>)
    ensures r == ParameterText(parameters, parameterName, host)
  {
    if parameters.None? {
      return Answer(None);
    }
    var s := parameters.value;
    var k := 0;
    while k < |s|
      invariant 0 <= k <= |s|
      invariant FirstNamed(s, parameterName, host) == FirstNamed(s[k..], parameterName, host)
    {
      assert s[k..][1..] == s[k + 1..];
      var n := host.friendlyName(s[k]);
      if n.Threw? {
        return Threw;
      }
      if n.value == parameterName {
        return Answer(host.textValue(s[k]));
      }
      k := k + 1;
    }
    return Answer(None);
  }

  // ----- Step 7: AddShapeToList -----

  /** The list `AddShapeToList` produces, as a value: the children followed by the
      electrode when it is not empty; `null` when there would be nothing in it. */
  function ShapeList(children: Option<seq<ElementId>>, electrodeId: ElementId): (r: Option<seq<ElementId>>)
    ensures r.None? <==> (children.None? || children.value == []) && electrodeId == Empty
    ensures r.Some? ==> |r.value| > 0
    ensures r.Some? ==> forall x :: x in r.value <==> (children.Some? && x in children.value) || (x == electrodeId && x != Empty)
  {
    var base := if children.Some? then children.value else [];
    var all := base + (if electrodeId == Empty then [] else [electrodeId]);
    if all == [] then None else Some(all)
  }

  /** `AddShapeToList`: appends the electrode to the caller's list in place (creating
      the list when it is null) and hands back that list, or null when it is empty. */
  method AddShapeToList(list: IdList?, electrodeId: ElementId) returns (r: IdList?)
    modifies list
    ensures list != null ==> list.items == old(list.items) + (if electrodeId == Empty then [] else [electrodeId])
    ensures list != null && r != null ==> r == list
    ensures list == null && r != null ==> fresh(r)
    ensures r == null <==> ShapeList(if list == null then None else Some(old(list.items)), electrodeId).None?
    ensures r != null ==> r.items == ShapeList(if list == null then None else Some(old(list.items)), electrodeId).value
  {
    if (list == null || |list.items| == 0) && electrodeId == Empty {
      return null;
    }
    r := list;
    if r == null {
      r := new IdList([]);
    }
    if electrodeId != Empty {
      r.Add(electrodeId);
    }
    if |r.items| == 0 {
      r := null;
    }
  }

  /** Steps 2-7 run in sequence on the document's elements, as on load and again after
      the document is made dirty: the children of the active duplication operations,
      followed by the master electrode. */
  function CollectedShapes(elements: Option<seq<ElementId>>, host: Host): (r: Query<Option<seq<ElementId>>>) {
    match SearchResult(KeepOrNull(KeepOrNull(elements, host.isOperation), host.isActive), DuplicateCreation, host)
    case Threw => Threw
    case Answer(dup) =>
      var children := if dup.None? then None else Some(ChildrenOf(dup.value, host));
      Answer(ShapeList(children, Located(elements, ElectrodeName, host)))
  }

  method CollectShapes(elements: Option<seq<ElementId>>, host: Host) returns (shapes: Query<Option<seq<ElementId>>>)
    ensures shapes == CollectedShapes(elements, host)
  {
    var operations := ListOperations(elements, host);
    var active := OperationsActive(operations, host);
    var dup := SearchOperations(active, DuplicateCreation, host);
    if dup.Threw? {
      return Threw;
    }
    var children := ChildrenElements(dup.value, host);
    var electrodeId := SearchElectrode(elements, ElectrodeName, host);
    var list := AddShapeToList(children, electrodeId);
    shapes := Answer(if list == null then None else Some(list.items));
  }

  /** Every collected handle is a child of an active duplication operation of the
      document, or the element named "Electrode". */
  lemma CollectedShapeOrigin(elements: Option<seq<ElementId>>, host: Host, shapes: seq<ElementId>, x: ElementId)
    requires CollectedShapes(elements, host) == Answer(Some(shapes))
    requires x in shapes
    ensures elements.Some?
    ensures (exists op :: op in elements.value && host.isOperation(op) && host.isActive(op) &&
               host.typeFullName(op) == Answer(DuplicateCreation) && x in Kids(host, op))
         || (x in elements.value && host.friendlyName(x) == Answer(ElectrodeName))
  {
    var ops := KeepOrNull(elements, host.isOperation);
    var active := KeepOrNull(ops, host.isActive);
    var dup := SearchResult(active, DuplicateCreation, host).value;
    var electrode := Located(elements, ElectrodeName, host);
    if dup.Some? && x in ChildrenOf(dup.value, host) {
      ChildrenOfMembership(dup.value, host, x);
      var i :| 0 <= i < |dup.value| && x in Kids(host, dup.value[i]);
      var op := dup.value[i];
      assert op in dup.value;
      assert active.Some?;
      assert op in active.value && HasType(host, DuplicateCreation)(op);
    } else {
      assert x == electrode && x != Empty;
    }
  }

  // ----- Step 8: gapString -----

  /** The three gap texts in mm, each "0" until a parameter sets it. */
  datatype Gaps = Gaps(rough: string, halfFinish: string, finish: string)

  const DefaultGaps := Gaps("0", "0", "0")
  const RoughGapPrefix := "00-Gap Eb"
  const HalfFinishGapPrefix := "01-Gap Demi fini"
  const FinishGapPrefix := "02-Gap Fini"

  /** The name carries one of the three gap prefixes, so its value is read. */
  predicate IsGapName(name: string) {
    StartsWith(name, RoughGapPrefix) || StartsWith(name, HalfFinishGapPrefix) || StartsWith(name, FinishGapPrefix)
  }

  /** One iteration of the `gapString` loop: the first prefix that matches decides which
      gap the parameter's text replaces. */
  function ApplyGapParameter(g: Gaps, name: string, text: string): (r: Gaps) {
    if StartsWith(name, RoughGapPrefix) then g.(rough := text)
    else if StartsWith(name, HalfFinishGapPrefix) then g.(halfFinish := text)
    else if StartsWith(name, FinishGapPrefix) then g.(finish := text)
    else g
  }

  /** The gaps after reading `parameters` in order; neither the name query nor the value
      query of a gap parameter is guarded. */
  function GapsRead(parameters: seq<ElementId>, host: Host): (r: Query<Gaps>)
  {
    if parameters == [] then Answer(DefaultGaps)
    else
      var last := parameters[|parameters| - 1];
      match GapsRead(parameters[..|parameters| - 1], host)
      case Threw => Threw
      case Answer(g) =>
        match host.friendlyName(last)
        case Threw => Threw
        case Answer(n) =>
          if !IsGapName(n) then Answer(g)
          else match host.gapText(last)
            case Threw => Threw
            case Answer(text) => Answer(ApplyGapParameter(g, n, text))
  }

  /** `gapString`: reads the three gap parameters; a null parameter list, a throwing
      name query or a throwing value query ends the read with an exception. */
  method GapString(parameters: Option<seq<ElementId>>, host: Host) returns (r: Query<Gaps>)
    ensures parameters.None? ==> r.Threw?
    ensures parameters.Some? ==> r == GapsRead(parameters.value, host)
  {
    if parameters.None? {
      return Threw;
    }
    var s := parameters.value;
    var gapEb, gapDemiFini, gapFini := DefaultGaps.rough, DefaultGaps.halfFinish, DefaultGaps.finish;
    var k := 0;
    while k < |s|
      invariant 0 <= k <= |s|
      invariant GapsRead(s[..k], host) == Answer(Gaps(gapEb, gapDemiFini, gapFini))
    {
      TakeTake(s, k);
      var paramName := host.friendlyName(s[k]);
      if paramName.Threw? {
        GapsReadThrows(s, k + 1, host);
        return Threw;
      }
      if IsGapName(paramName.value) {
        var value := host.gapText(s[k]);
        if value.Threw? {
          GapsReadThrows(s, k + 1, host);
          return Threw;
        }
        if StartsWith(paramName.value, RoughGapPrefix) {
          gapEb := value.value;
        } else if StartsWith(paramName.value, HalfFinishGapPrefix) {
          gapDemiFini := value.value;
        } else {
          gapFini := value.value;
        }
      }
      k := k + 1;
    }
    TakeAll(s);
    return Answer(Gaps(gapEb, gapDemiFini, gapFini));
  }

  lemma {:induction false} GapsReadThrows(s: seq<ElementId>, k: nat, host: Host)
    requires 0 < k <= |s| && GapsRead(s[..k], host).Threw?
    ensures GapsRead(s, host).Threw?
    decreases |s| - k
  {
    if k < |s| {
      TakeTake(s, k);
      GapsReadThrows(s, k + 1, host);
    } else {
      TakeAll(s);
    }
  }

  /** Reading parameter `p` throws: its name query throws, or it is a gap parameter and
      its value query throws. */
  predicate ReadThrows(host: Host, p: ElementId) {
    host.friendlyName(p).Threw? || (IsGapName(host.friendlyName(p).value) && host.gapText(p).Threw?)
  }

  /** The read throws exactly when reading one of the parameters throws. */
  lemma {:induction false} GapsReadThrowsExactly(s: seq<ElementId>, host: Host)
    ensures GapsRead(s, host).Threw? <==> exists i :: 0 <= i < |s| && ReadThrows(host, s[i])
  {
    if s != [] {
      var front := s[..|s| - 1];
      GapsReadThrowsExactly(front, host);
      if GapsRead(s, host).Threw? && !GapsRead(front, host).Threw? {
        assert ReadThrows(host, s[|s| - 1]);
      }
      if exists i :: 0 <= i < |s| && ReadThrows(host, s[i]) {
        var i :| 0 <= i < |s| && ReadThrows(host, s[i]);
        if i < |s| - 1 {
          assert front[i] == s[i];
        }
      }
      if exists i :: 0 <= i < |front| && ReadThrows(host, front[i]) {
        var i :| 0 <= i < |front| && ReadThrows(host, front[i]);
        assert s[i] == front[i];
      }
    }
  }

  /** The value of the last parameter whose name starts with `prefix`, or "0". */
  function LastGapText(parameters: seq<ElementId>, prefix: string, host: Host): (r: Query<string>) {
    if parameters == [] then Answer("0")
    else
      var last := parameters[|parameters| - 1];
      if host.friendlyName(last).Answer? && StartsWith(host.friendlyName(last).value, prefix) then host.gapText(last)
      else LastGapText(parameters[..|parameters| - 1], prefix, host)
  }

  /** Each gap is set by the last parameter carrying its prefix, independently of the
      others, and stays "0" when no parameter carries it. */
  lemma {:induction false} GapIsLastMatch(parameters: seq<ElementId>, host: Host)
    requires GapsRead(parameters, host).Answer?
    ensures LastGapText(parameters, RoughGapPrefix, host) == Answer(GapsRead(parameters, host).value.rough)
    ensures LastGapText(parameters, HalfFinishGapPrefix, host) == Answer(GapsRead(parameters, host).value.halfFinish)
    ensures LastGapText(parameters, FinishGapPrefix, host) == Answer(GapsRead(parameters, host).value.finish)
  {
    if parameters != [] {
      var front := parameters[..|parameters| - 1];
      assert GapsRead(front, host).Answer?;
      GapIsLastMatch(front, host);
      var n := host.friendlyName(parameters[|parameters| - 1]).value;
      PrefixesExclusive(n);
    }
  }

  /** No parameter name carries two of the gap prefixes. */
  lemma PrefixesExclusive(n: string)
    ensures StartsWith(n, RoughGapPrefix) ==> !StartsWith(n, HalfFinishGapPrefix) && !StartsWith(n, FinishGapPrefix)
    ensures StartsWith(n, HalfFinishGapPrefix) ==> !StartsWith(n, FinishGapPrefix)
  {
    if StartsWith(n, RoughGapPrefix) { assert n[1] == RoughGapPrefix[1]; }
    if StartsWith(n, HalfFinishGapPrefix) { assert n[1] == HalfFinishGapPrefix[1]; }
  }
}
