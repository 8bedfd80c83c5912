/** MainWindow.xaml.cs, `SelectFile_Click`: the saved labels, the re-binding of the
    reloaded electrodes to them by position, the export of each checked item with its
    host steps succeeding or failing, the two counters and the closing summary. */
module Export {
  import opened Wrappers
  import opened Sequences
  import opened Strings
  import opened HostApi
  import opened Elements
  import opened Pipeline
  import opened Classifier
  import opened Naming

  // ----- The saved labels -----

  /** A list-box item as saved before the document is made dirty: its label and state. */
  datatype Selection = Selection(name: string, isChecked: bool)

  function Selections(items: seq<ElementItem>): (r: seq<Selection>)
    ensures |r| == |items|
    ensures forall i :: 0 <= i < |items| ==> r[i].name == items[i].name && r[i].isChecked == items[i].isChecked
  {
    seq(|items|, i requires 0 <= i < |items| => Selection(items[i].name, items[i].isChecked))
  }

  /** The copy of the list box into `electrodesToExport`. */
  method SaveSelections(items: seq<ElementItem>) returns (saved: seq<Selection>)
    ensures saved == Selections(items)
  {
    saved := [];
    var i := 0;
    while i < |items|
      invariant 0 <= i <= |items|
      invariant |saved| == i
      invariant forall k :: 0 <= k < i ==> saved[k] == Selection(items[k].name, items[k].isChecked)
    {
      saved := saved + [Selection(items[i].name, items[i].isChecked)];
      i := i + 1;
    }
  }

  // ----- Re-binding by position -----

  /** The position of the first "Sans GAP" label, or the number of labels. */
  function FirstSansGap(saved: seq<Selection>): (p: nat)
    ensures p <= |saved|
    ensures forall i :: 0 <= i < p ==> saved[i].name != SansGap
    ensures p < |saved| ==> saved[p].name == SansGap
  {
    if saved == [] || saved[0].name == SansGap then 0 else 1 + FirstSansGap(saved[1..])
  }

  /** How many of `n` reloaded electrodes the loop binds: `index` advances with the
      electrodes until it runs out of labels or reaches a "Sans GAP" label, where it stops. */
  function BoundCount(saved: seq<Selection>, n: nat): (m: nat)
    ensures m <= n && m <= |saved|
    ensures forall i :: 0 <= i < m ==> saved[i].name != SansGap
    ensures m < n && m < |saved| ==> saved[m].name == SansGap
  {
    var p := FirstSansGap(saved);
    if n < p then n else p
  }

  function IdsOf(s: seq<Element>): (ids: seq<ElementId>)
    ensures |ids| == |s| && forall i :: 0 <= i < |s| ==> ids[i] == s[i].elementId
  {
    seq(|s|, i requires 0 <= i < |s| => s[i].elementId)
  }

  /** The dictionary after binding `saved[i].name` to `ids[i]` in order: a later label
      equal to an earlier one overwrites its entry. */
  function Bind(saved: seq<Selection>, ids: seq<ElementId>): (m: map<string, ElementId>)
    requires |ids| <= |saved|
    ensures forall k :: k in m <==> exists i :: 0 <= i < |ids| && saved[i].name == k
    decreases |ids|
  {
    if ids == [] then map[]
    else Bind(saved, ids[..|ids| - 1])[saved[|ids| - 1].name := ids[|ids| - 1]]
  }

  /** A label bound for the last time at position `i` keeps the id bound there. */
  lemma {:induction false} BindLastWins(saved: seq<Selection>, ids: seq<ElementId>, i: nat)
    requires |ids| <= |saved| && i < |ids|
    requires forall j :: i < j < |ids| ==> saved[j].name != saved[i].name
    ensures Bind(saved, ids)[saved[i].name] == ids[i]
    decreases |ids|
  {
    if i < |ids| - 1 {
      BindLastWins(saved, ids[..|ids| - 1], i);
    }
  }

  /** One more reloaded electrode is bound exactly when the next label exists and is not
      "Sans GAP", which happens only while every electrode so far has been bound. */
  lemma BoundCountStep(saved: seq<Selection>, t: nat)
    ensures var m := BoundCount(saved, t);
      BoundCount(saved, t + 1) == if m < |saved| && saved[m].name != SansGap then m + 1 else m
    ensures var m := BoundCount(saved, t);
      m < |saved| && saved[m].name != SansGap ==> m == t
  {
  }

  lemma BindSnoc(saved: seq<Selection>, ids: seq<ElementId>, m: nat)
    requires m < |ids| && m < |saved|
    ensures Bind(saved, ids[..m + 1]) == Bind(saved, ids[..m])[saved[m].name := ids[m]]
  {
    TakeTake(ids, m);
  }

  /** `electrodeMapping` after the loop and the "Sans GAP" entry. */
  function Rebinding(saved: seq<Selection>, sorted: seq<Element>, master: Option<Element>): (r: map<string, ElementId>)
    ensures forall k :: k in r <==> (exists i :: 0 <= i < BoundCount(saved, |sorted|) && saved[i].name == k) || (k == SansGap && master.Some?)
    ensures master.Some? ==> r[SansGap] == master.value.elementId
    ensures master.None? ==> SansGap !in r
  {
    var base := Bind(saved, IdsOf(sorted)[..BoundCount(saved, |sorted|)]);
    if master.Some? then base[SansGap := master.value.elementId] else base
  }

  /** The index-driven loop: the t-th sorted electrode is bound to the label at `index`
      only while `index` is below the label count and that label is not "Sans GAP". */
  method Rebind(saved: seq<Selection>, sorted: seq<Element>, master: Option<Element>) returns (mapping: map<string, ElementId>)
    ensures mapping == Rebinding(saved, sorted, master)
  {
    mapping := map[];
    var index := 0;
    var t := 0;
    while t < |sorted|
      invariant 0 <= t <= |sorted|
      invariant index == BoundCount(saved, t)
      invariant mapping == Bind(saved, IdsOf(sorted)[..index])
    {
      BoundCountStep(saved, t);
      if index < |saved| {
        if saved[index].name != SansGap {
          BindSnoc(saved, IdsOf(sorted), index);
          mapping := mapping[saved[index].name := sorted[t].elementId];
          index := index + 1;
        }
      }
      t := t + 1;
    }
    if master.Some? {
      mapping := mapping[SansGap := master.value.elementId];
    }
  }

  /** A bound label whose last bound position is `i` maps to the i-th reloaded electrode. */
  lemma RebindingLastWins(saved: seq<Selection>, sorted: seq<Element>, master: Option<Element>, i: nat)
    requires i < BoundCount(saved, |sorted|)
    requires forall j :: i < j < BoundCount(saved, |sorted|) ==> saved[j].name != saved[i].name
    ensures saved[i].name in Rebinding(saved, sorted, master)
    ensures Rebinding(saved, sorted, master)[saved[i].name] == sorted[i].elementId
  {
    var m := BoundCount(saved, |sorted|);
    BindLastWins(saved, IdsOf(sorted)[..m], i);
  }

  /** The first character of each position's label tells the stages apart. */
  lemma StageInitial(n: nat, k: int, gaps: Gaps)
    ensures StageLabel(n, k, gaps)[0] == (if n == 1 || (k == n - 1 && k != 0) then 'F' else if k == 0 then 'E' else 'D')
  {
  }

  /** Every gapped item of a classified list is bound when as many electrodes are reloaded. */
  lemma ClassifiedAllBound(items: seq<ElementItem>, sorted: seq<Element>, master: Option<Element>, gaps: Gaps)
    requires Classification(items, sorted, master, gaps)
    ensures BoundCount(Selections(items), |sorted|) == |sorted|
  {
    var saved := Selections(items);
    var p := FirstSansGap(saved);
    if p < |sorted| {
      assert saved[p].name == StageLabel(|sorted|, p, gaps);
      StageLabelNotSansGap(|sorted|, p, gaps);
    }
  }

  /** Positions `j < l` of `n` carry different labels unless both are half-finish ones. */
  lemma StageLabelsDiffer(n: nat, j: nat, l: nat, gaps: Gaps)
    requires j < l < n && !(0 < j && l < n - 1)
    ensures StageLabel(n, j, gaps) != StageLabel(n, l, gaps)
  {
    StageInitial(n, j, gaps);
    StageInitial(n, l, gaps);
  }

  /** Binding a classified list to as many reloaded electrodes: the rough and finish
      items get the electrode at their own position, but every half-finish item shares
      one label and so gets the last half-finish electrode. */
  lemma RebindClassified(items: seq<ElementItem>, sorted: seq<Element>, master: Option<Element>, gaps: Gaps,
                         reloaded: seq<Element>, reloadedMaster: Option<Element>, k: nat)
    requires Classification(items, sorted, master, gaps)
    requires |reloaded| == |sorted| && k < |sorted|
    ensures items[k].name in Rebinding(Selections(items), reloaded, reloadedMaster)
    ensures Rebinding(Selections(items), reloaded, reloadedMaster)[items[k].name] ==
      if 0 < k < |sorted| - 1 then reloaded[|sorted| - 2].elementId else reloaded[k].elementId
  {
    var saved := Selections(items);
    var j := if 0 < k < |sorted| - 1 then |sorted| - 2 else k;
    LastHalfFinish(items, sorted, master, gaps, k, j);
    RebindingLastWins(saved, reloaded, reloadedMaster, j);
  }

  /** Position `j` is the last one labelled like position `k`, and every label is bound. */
  lemma LastHalfFinish(items: seq<ElementItem>, sorted: seq<Element>, master: Option<Element>, gaps: Gaps, k: nat, j: nat)
    requires Classification(items, sorted, master, gaps)
    requires k < |sorted| && j == if 0 < k < |sorted| - 1 then |sorted| - 2 else k
    ensures BoundCount(Selections(items), |sorted|) == |sorted|
    ensures Selections(items)[j].name == items[k].name
    ensures forall l :: j < l < |sorted| ==> Selections(items)[l].name != Selections(items)[j].name
  {
    var saved := Selections(items);
    var n := |sorted|;
    ClassifiedAllBound(items, sorted, master, gaps);
    forall l | j < l < n
      ensures saved[l].name != saved[j].name
    {
      StageLabelsDiffer(n, j, l, gaps);
    }
  }

  // ----- The export loop -----

  /** How the host answers the steps of one item's export. */
  datatype Attempt = Attempt(
    startCreate: bool,          // StartModification before the representation is made
    representation: ElementId,  // CreateRepresentation's result; Empty also when it threw
    addAndActivate: bool,       // AddRepresentationConstituent, SetCurrentRepresentation, EndModification
    exportFiles: bool,          // the STEP and the Parasolid exports
    startDelete: bool,          // StartModification before the representation is deleted
    deleteOk: bool)             // Delete and EndModification

  /** What happens to one saved item: not attempted, exported under a file name (the
      representation is deleted only if its transaction could start), or failed (the
      clean-up deletion is attempted iff a representation was created). */
  datatype ItemOutcome =
    | Skipped
    | Exported(fileName: string, electrode: ElementId, representationDeleted: bool)
    | Errored(cleanupAttempted: bool)

  predicate Eligible(mapping: map<string, ElementId>, s: Selection) {
    s.isChecked && s.name in mapping
  }

  function IsEligible(mapping: map<string, ElementId>): (r: Selection -> bool) {
    (s: Selection) => Eligible(mapping, s)
  }

  /** Every step of an export succeeds: the representation is made and shown, the file
      name is derived, both files are written, and the deletion does not fail once started. */
  predicate StepsSucceed(name: string, nomElec: string, a: Attempt) {
    a.startCreate && a.representation != Empty && a.addAndActivate &&
    GenerateElectrodeName(nomElec, name).Answer? && a.exportFiles && (a.startDelete ==> a.deleteOk)
  }

  /** One pass of the loop body. */
  function Outcome(s: Selection, mapping: map<string, ElementId>, nomElec: string, a: Attempt): (r: ItemOutcome)
    ensures r.Skipped? <==> !Eligible(mapping, s)
    ensures r.Exported? <==> Eligible(mapping, s) && StepsSucceed(s.name, nomElec, a)
    ensures r.Exported? ==> GenerateElectrodeName(nomElec, s.name) == Answer(r.fileName) && StartsWith(r.fileName, nomElec)
    ensures r.Exported? ==> r.electrode == mapping[s.name] && r.representationDeleted == a.startDelete
    ensures r.Errored? ==> (r.cleanupAttempted <==> a.startCreate && a.representation != Empty)
  {
    if !Eligible(mapping, s) then Skipped
    else if !a.startCreate || a.representation == Empty || !a.addAndActivate then
      Errored(a.startCreate && a.representation != Empty)
    else match GenerateElectrodeName(nomElec, s.name)
      case Threw => Errored(true)
      case Answer(fileName) =>
        if !a.exportFiles || (a.startDelete && !a.deleteOk) then Errored(true)
        else Exported(fileName, mapping[s.name], a.startDelete)
  }

  /** The outcome of every saved item, the i-th answered by `attempt(i)`. */
  function Outcomes(saved: seq<Selection>, mapping: map<string, ElementId>, nomElec: string, attempt: nat -> Attempt): (r: seq<ItemOutcome>)
    ensures |r| == |saved|
    ensures forall i :: 0 <= i < |saved| ==> r[i] == Outcome(saved[i], mapping, nomElec, attempt(i))
  {
    seq(|saved|, i requires 0 <= i < |saved| => Outcome(saved[i], mapping, nomElec, attempt(i)))
  }

  function CountExported(o: seq<ItemOutcome>): (c: nat)
    ensures c <= |o|
    ensures c > 0 <==> exists i :: 0 <= i < |o| && o[i].Exported?
  {
    if o == [] then 0 else CountExported(o[..|o| - 1]) + (if o[|o| - 1].Exported? then 1 else 0)
  }

  function CountErrored(o: seq<ItemOutcome>): (c: nat)
    ensures c <= |o|
    ensures c > 0 <==> exists i :: 0 <= i < |o| && o[i].Errored?
  {
    if o == [] then 0 else CountErrored(o[..|o| - 1]) + (if o[|o| - 1].Errored? then 1 else 0)
  }

  /** The body of the `foreach` for one eligible item: create and show the representation,
      derive the file name, export both files, then delete the representation; a failing
      step ends in the `catch`, which tries to delete a representation already made. */
  method ExportItem(s: Selection, mapping: map<string, ElementId>, nomElec: string, a: Attempt) returns (outcome: ItemOutcome)
    requires Eligible(mapping, s)
    ensures outcome == Outcome(s, mapping, nomElec, a)
  {
    var representationId := Empty;
    if !a.startCreate {
      return Errored(false);
    }
    representationId := a.representation;
    if representationId == Empty || !a.addAndActivate {
      return Errored(representationId != Empty);
    }
    var fileName := GenerateElectrodeName(nomElec, s.name);
    if fileName.Threw? || !a.exportFiles {
      return Errored(true);
    }
    if a.startDelete && !a.deleteOk {
      return Errored(true);
    }
    return Exported(fileName.value, mapping[s.name], a.startDelete);
  }

  /** The `foreach` over the saved items with its `exportCount` and `errorCount`. */
  method ExportLoop(saved: seq<Selection>, mapping: map<string, ElementId>, nomElec: string, attempt: nat -> Attempt)
    returns (exportCount: nat, errorCount: nat, outcomes: seq<ItemOutcome>)
    ensures outcomes == Outcomes(saved, mapping, nomElec, attempt)
    ensures exportCount == CountExported(outcomes) && errorCount == CountErrored(outcomes)
  {
    exportCount, errorCount, outcomes := 0, 0, [];
    var i := 0;
    while i < |saved|
      invariant 0 <= i <= |saved|
      invariant outcomes == Outcomes(saved, mapping, nomElec, attempt)[..i]
      invariant exportCount == CountExported(outcomes) && errorCount == CountErrored(outcomes)
    {
      var outcome := Skipped;
      if saved[i].isChecked && saved[i].name in mapping {
        outcome := ExportItem(saved[i], mapping, nomElec, attempt(i));
        if outcome.Exported? {
          exportCount := exportCount + 1;
        } else {
          errorCount := errorCount + 1;
        }
      }
      assert outcome == Outcome(saved[i], mapping, nomElec, attempt(i));
      CountSnoc(outcomes, outcome);
      TakeSnoc(Outcomes(saved, mapping, nomElec, attempt), i);
      outcomes := outcomes + [outcome];
      i := i + 1;
    }
    TakeAll(Outcomes(saved, mapping, nomElec, attempt));
  }

  /** Counting outcomes that are counted exactly at the eligible items. */
  lemma {:induction false} CountsCover(o: seq<ItemOutcome>, saved: seq<Selection>, mapping: map<string, ElementId>)
    requires |o| == |saved|
    requires forall i :: 0 <= i < |o| ==> (o[i].Exported? || o[i].Errored? <==> Eligible(mapping, saved[i]))
    ensures CountExported(o) + CountErrored(o) == |Filter(saved, IsEligible(mapping))|
  {
    if o != [] {
      var n := |o|;
      var front, before := o[..n - 1], saved[..n - 1];
      assert forall i :: 0 <= i < n - 1 ==> front[i] == o[i] && before[i] == saved[i];
      CountsCover(front, before, mapping);
      LastSplit(o);
      CountSnoc(front, o[n - 1]);
      LastSplit(saved);
      FilterSnoc(before, saved[n - 1], IsEligible(mapping));
    }
  }

  /** One more outcome raises at most one of the counters. */
  lemma CountSnoc(o: seq<ItemOutcome>, x: ItemOutcome)
    ensures CountExported(o + [x]) == CountExported(o) + (if x.Exported? then 1 else 0)
    ensures CountErrored(o + [x]) == CountErrored(o) + (if x.Errored? then 1 else 0)
  {
    assert (o + [x])[..|o|] == o;
  }

  /** Every checked item present in the dictionary is counted exactly once, as an export
      or as an error, and no other item is counted. */
  lemma CountsCoverEligible(saved: seq<Selection>, mapping: map<string, ElementId>, nomElec: string, attempt: nat -> Attempt)
    ensures var o := Outcomes(saved, mapping, nomElec, attempt);
      CountExported(o) + CountErrored(o) == |Filter(saved, IsEligible(mapping))|
  {
    var o := Outcomes(saved, mapping, nomElec, attempt);
    forall i | 0 <= i < |o|
      ensures o[i].Exported? || o[i].Errored? <==> Eligible(mapping, saved[i])
    {
      assert o[i] == Outcome(saved[i], mapping, nomElec, attempt(i));
    }
    CountsCover(o, saved, mapping);
  }

  // ----- The summary -----

  /** The closing message: how many were exported (and how many failed), that none could
      be exported, or that none was checked. */
  datatype Summary = Done(exported: nat, errors: nat) | NoneExported | NothingChecked

  function Summarize(exportCount: nat, errorCount: nat): (r: Summary) {
    if exportCount > 0 then Done(exportCount, errorCount)
    else if errorCount > 0 then NoneExported
    else NothingChecked
  }

  /** The summary in terms of the items: "nothing checked" exactly when no checked item
      had an entry, "done" exactly when some item was exported. */
  lemma SummaryMeaning(saved: seq<Selection>, mapping: map<string, ElementId>, nomElec: string, attempt: nat -> Attempt)
    ensures var o := Outcomes(saved, mapping, nomElec, attempt);
      Summarize(CountExported(o), CountErrored(o)).NothingChecked? <==> forall i :: 0 <= i < |saved| ==> !Eligible(mapping, saved[i])
    ensures var o := Outcomes(saved, mapping, nomElec, attempt);
      Summarize(CountExported(o), CountErrored(o)).Done? <==> exists i :: 0 <= i < |saved| && o[i].Exported?
    ensures var o := Outcomes(saved, mapping, nomElec, attempt);
      Summarize(CountExported(o), CountErrored(o)).NoneExported? <==> exists i :: 0 <= i < |saved| && o[i].Errored? && forall j :: 0 <= j < |saved| ==> !o[j].Exported?
  {
    var o := Outcomes(saved, mapping, nomElec, attempt);
    forall i | 0 <= i < |saved|
      ensures !Eligible(mapping, saved[i]) <==> o[i].Skipped?
    {
    }
  }

  // ----- SelectFile_Click -----

  const NomDocuParameter := "Nom_docu"
  const DesignationParameter := "Designation"
  const NomElecParameter := "Nom elec"

  /** The three document parameters, read before any of them is checked. */
  datatype DocumentParameters = DocumentParameters(nomDocu: Option<string>, designation: Option<string>, nomElec: Option<string>)

  function ReadParameters(parameters: Option<seq<ElementId>>, host: Host): (r: Query<DocumentParameters>)
    ensures r.Threw? <==> (ParameterText(parameters, NomDocuParameter, host).Threw? ||
      ParameterText(parameters, DesignationParameter, host).Threw? || ParameterText(parameters, NomElecParameter, host).Threw?)
  {
    match (ParameterText(parameters, NomDocuParameter, host), ParameterText(parameters, DesignationParameter, host), ParameterText(parameters, NomElecParameter, host))
    case (Answer(n), Answer(d), Answer(e)) => Answer(DocumentParameters(n, d, e))
    case _ => Threw
  }

  /** `string.IsNullOrEmpty`. */
  predicate Missing(text: Option<string>) {
    text.None? || text.value == ""
  }

  /** The name of the first parameter, in checking order, that is null or empty. */
  function FirstMissing(p: DocumentParameters): (r: Option<string>)
    ensures r.None? <==> !Missing(p.nomDocu) && !Missing(p.designation) && !Missing(p.nomElec)
    ensures r.Some? ==> r.value in [NomDocuParameter, DesignationParameter, NomElecParameter]
  {
    if Missing(p.nomDocu) then Some(NomDocuParameter)
    else if Missing(p.designation) then Some(DesignationParameter)
    else if Missing(p.nomElec) then Some(NomElecParameter)
    else None
  }

  predicate ParametersFound(parameters: Option<seq<ElementId>>, host: Host) {
    ReadParameters(parameters, host).Answer? && FirstMissing(ReadParameters(parameters, host).value).None?
  }

  /** The destination folder `BuildExportPath` gives for the document's parameters. */
  function FolderFor(chemin: string, parameters: Option<seq<ElementId>>, host: Host, directoryReady: bool): (r: Option<string>)
    requires ParametersFound(parameters, host)
  {
    var p := ReadParameters(parameters, host).value;
    BuildExportPath(chemin, p.nomDocu.value, p.designation.value, directoryReady)
  }

  /** The items the list box holds; the "nothing found" message is a string, so the
      cast to `ElementItem` in the copy loop throws. */
  function ShownItems(shown: Display): (r: Query<seq<ElementItem>>) {
    match shown
    case NothingFound => Threw
    case Failed => Answer([])
    case Items(items) => Answer(items)
  }

  /** The electrodes found again after the document is made dirty: the sorted gapped
      copies and the master; a host query that throws ends the export. */
  datatype Reload = Reload(sorted: seq<Element>, master: Option<Element>)

  function Reloaded(elements: Option<seq<ElementId>>, host: Host): (r: Query<Reload>) {
    match CollectedShapes(elements, host)
    case Threw => Threw
    case Answer(None) => Answer(Reload([], None))
    case Answer(Some(ids)) =>
      if NamesAnswered(ids, host) then Answer(Reload(OrderByVolume(Candidates(ids, host)), MasterOf(ids, host))) else Threw
  }

  /** The outcome of every saved item once re-bound to the reloaded electrodes. */
  function ExportOutcomes(items: seq<ElementItem>, reload: Reload, nomElec: string, attempt: nat -> Attempt): (r: seq<ItemOutcome>) {
    var saved := Selections(items);
    Outcomes(saved, Rebinding(saved, reload.sorted, reload.master), nomElec, attempt)
  }

  /** The three `GetParameterValue` calls; the first one that throws ends the click. */
  method ReadDocumentParameters(parameters: Option<seq<ElementId>>, host: Host) returns (r: Query<DocumentParameters>)
    ensures r == ReadParameters(parameters, host)
  {
    var nomDocu := GetParameterValue(parameters, NomDocuParameter, host);
    if nomDocu.Threw? {
      return Threw;
    }
    var designation := GetParameterValue(parameters, DesignationParameter, host);
    if designation.Threw? {
      return Threw;
    }
    var nomElec := GetParameterValue(parameters, NomElecParameter, host);
    if nomElec.Threw? {
      return Threw;
    }
    r := Answer(DocumentParameters(nomDocu.value, designation.value, nomElec.value));
  }

  /** The reload after `EnsureIsDirty`: the shapes are collected again, the master is
      set apart and the gapped copies are ordered by volume. */
  method ReloadElectrodes(elements: Option<seq<ElementId>>, host: Host) returns (r: Query<Reload>)
    ensures r == Reloaded(elements, host)
  {
    var shapes := CollectShapes(elements, host);
    if shapes.Threw? {
      return Threw;
    }
    if shapes.value.None? {
      return Answer(Reload([], None));
    }
    var ok, candidates, master := CollectCandidates(shapes.value.value, host);
    if !ok {
      return Threw;
    }
    r := Answer(Reload(OrderByVolume(candidates), master));
  }

  /** How a click on the export button ends: an early warning, an error caught by the
      outer handler, or the export's outcomes and summary. */
  datatype Report =
    | NoDocument
    | NoDestination
    | ParameterMissing(parameter: string)
    | InvalidFolder
    | NotPrepared
    | GeneralError
    | Finished(folder: string, outcomes: seq<ItemOutcome>, summary: Summary)

  /** How the click ends once the folder is built: the list box is copied, the document
      made dirty and the electrodes reloaded, each step with its own exit. */
  function ShownReport(folder: string, shown: Display, preparation: Query<bool>, reloadedElements: Option<seq<ElementId>>,
                       reloadedHost: Host, nomElec: string, attempt: nat -> Attempt): (r: Report)
    ensures r.GeneralError? || r.NotPrepared? || r.Finished?
  {
    match ShownItems(shown)
    case Threw => GeneralError
    case Answer(items) =>
      match preparation
      case Threw => GeneralError
      case Answer(dirty) =>
        if !dirty then NotPrepared
        else match Reloaded(reloadedElements, reloadedHost)
          case Threw => GeneralError
          case Answer(reload) =>
            var o := ExportOutcomes(items, reload, nomElec, attempt);
            Finished(folder, o, Summarize(CountExported(o), CountErrored(o)))
  }

  /** Each ending after the folder happens exactly under its own condition. */
  lemma ShownReportExits(folder: string, shown: Display, preparation: Query<bool>, reloadedElements: Option<seq<ElementId>>,
                         reloadedHost: Host, nomElec: string, attempt: nat -> Attempt)
    ensures var r := ShownReport(folder, shown, preparation, reloadedElements, reloadedHost, nomElec, attempt);
      r == GeneralError <==> (ShownItems(shown).Threw? || preparation.Threw? ||
        (preparation == Answer(true) && Reloaded(reloadedElements, reloadedHost).Threw?))
    ensures var r := ShownReport(folder, shown, preparation, reloadedElements, reloadedHost, nomElec, attempt);
      r == NotPrepared <==> (ShownItems(shown).Answer? && preparation == Answer(false))
    ensures var r := ShownReport(folder, shown, preparation, reloadedElements, reloadedHost, nomElec, attempt);
      r.Finished? <==> (ShownItems(shown).Answer? && preparation == Answer(true) && Reloaded(reloadedElements, reloadedHost).Answer?)
    ensures var r := ShownReport(folder, shown, preparation, reloadedElements, reloadedHost, nomElec, attempt);
      r.Finished? ==> (r.folder == folder &&
        r.outcomes == ExportOutcomes(ShownItems(shown).value, Reloaded(reloadedElements, reloadedHost).value, nomElec, attempt) &&
        r.summary == Summarize(CountExported(r.outcomes), CountErrored(r.outcomes)))
  {
  }

  /** How a click on the export button ends, check by check. */
  function ClickReport(docOpen: bool, chemin: string, parameters: Option<seq<ElementId>>, host: Host,
                       directoryReady: bool, shown: Display, preparation: Query<bool>,
                       reloadedElements: Option<seq<ElementId>>, reloadedHost: Host, attempt: nat -> Attempt): (r: Report)
    ensures r.Finished? ==> docOpen && !IsBlank(chemin)
  {
    if !docOpen then NoDocument
    else if IsBlank(chemin) then NoDestination
    else match ReadParameters(parameters, host)
      case Threw => GeneralError
      case Answer(p) =>
        if FirstMissing(p).Some? then ParameterMissing(FirstMissing(p).value)
        else match BuildExportPath(chemin, p.nomDocu.value, p.designation.value, directoryReady)
          case None => InvalidFolder
          case Some(folder) => ShownReport(folder, shown, preparation, reloadedElements, reloadedHost, p.nomElec.value, attempt)
  }

  /** The early endings of a click, up to the folder, each exactly under its condition. */
  lemma ClickReportEarlyExits(docOpen: bool, chemin: string, parameters: Option<seq<ElementId>>, host: Host,
                              directoryReady: bool, shown: Display, preparation: Query<bool>,
                              reloadedElements: Option<seq<ElementId>>, reloadedHost: Host, attempt: nat -> Attempt)
    ensures var r := ClickReport(docOpen, chemin, parameters, host, directoryReady, shown, preparation, reloadedElements, reloadedHost, attempt);
      r == NoDocument <==> !docOpen
    ensures var r := ClickReport(docOpen, chemin, parameters, host, directoryReady, shown, preparation, reloadedElements, reloadedHost, attempt);
      r == NoDestination <==> (docOpen && IsBlank(chemin))
    ensures var r := ClickReport(docOpen, chemin, parameters, host, directoryReady, shown, preparation, reloadedElements, reloadedHost, attempt);
      r.ParameterMissing? <==> (docOpen && !IsBlank(chemin) && ReadParameters(parameters, host).Answer? &&
        FirstMissing(ReadParameters(parameters, host).value).Some?)
    ensures var r := ClickReport(docOpen, chemin, parameters, host, directoryReady, shown, preparation, reloadedElements, reloadedHost, attempt);
      r.ParameterMissing? ==> r == ParameterMissing(FirstMissing(ReadParameters(parameters, host).value).value)
    ensures var r := ClickReport(docOpen, chemin, parameters, host, directoryReady, shown, preparation, reloadedElements, reloadedHost, attempt);
      r == InvalidFolder <==> (docOpen && !IsBlank(chemin) && ParametersFound(parameters, host) &&
        FolderFor(chemin, parameters, host, directoryReady).None?)
  {
  }

  /** A click ends in the general error exactly when a parameter read, the copy of the
      list box, the preparation or the reload throws. */
  lemma ClickReportGeneralError(docOpen: bool, chemin: string, parameters: Option<seq<ElementId>>, host: Host,
                             directoryReady: bool, shown: Display, preparation: Query<bool>,
                             reloadedElements: Option<seq<ElementId>>, reloadedHost: Host, attempt: nat -> Attempt)
    ensures var r := ClickReport(docOpen, chemin, parameters, host, directoryReady, shown, preparation, reloadedElements, reloadedHost, attempt);
      r == GeneralError <==> (docOpen && !IsBlank(chemin) && (ReadParameters(parameters, host).Threw? ||
        (ParametersFound(parameters, host) && FolderFor(chemin, parameters, host, directoryReady).Some? &&
         (ShownItems(shown).Threw? || preparation.Threw? || (preparation == Answer(true) && Reloaded(reloadedElements, reloadedHost).Threw?)))))
  {
    if docOpen && !IsBlank(chemin) && ParametersFound(parameters, host) && FolderFor(chemin, parameters, host, directoryReady).Some? {
      var p := ReadParameters(parameters, host).value;
      var folder := FolderFor(chemin, parameters, host, directoryReady).value;
      assert ClickReport(docOpen, chemin, parameters, host, directoryReady, shown, preparation, reloadedElements, reloadedHost, attempt) ==
        ShownReport(folder, shown, preparation, reloadedElements, reloadedHost, p.nomElec.value, attempt);
      ShownReportExits(folder, shown, preparation, reloadedElements, reloadedHost, p.nomElec.value, attempt);
    }
  }

  /** The other endings of a click once the folder is built, each exactly under its
      condition. */
  lemma ClickReportLateExits(docOpen: bool, chemin: string, parameters: Option<seq<ElementId>>, host: Host,
                             directoryReady: bool, shown: Display, preparation: Query<bool>,
                             reloadedElements: Option<seq<ElementId>>, reloadedHost: Host, attempt: nat -> Attempt)
    ensures var r := ClickReport(docOpen, chemin, parameters, host, directoryReady, shown, preparation, reloadedElements, reloadedHost, attempt);
      r == NotPrepared <==> (docOpen && !IsBlank(chemin) && ParametersFound(parameters, host) &&
        FolderFor(chemin, parameters, host, directoryReady).Some? && ShownItems(shown).Answer? && preparation == Answer(false))
    ensures var r := ClickReport(docOpen, chemin, parameters, host, directoryReady, shown, preparation, reloadedElements, reloadedHost, attempt);
      r.Finished? <==> (docOpen && !IsBlank(chemin) && ParametersFound(parameters, host) &&
        FolderFor(chemin, parameters, host, directoryReady).Some? && ShownItems(shown).Answer? && preparation == Answer(true) &&
        Reloaded(reloadedElements, reloadedHost).Answer?)
    ensures var r := ClickReport(docOpen, chemin, parameters, host, directoryReady, shown, preparation, reloadedElements, reloadedHost, attempt);
      r.Finished? ==> (r.folder == FolderFor(chemin, parameters, host, directoryReady).value &&
        r.outcomes == ExportOutcomes(ShownItems(shown).value, Reloaded(reloadedElements, reloadedHost).value,
          ReadParameters(parameters, host).value.nomElec.value, attempt) &&
        r.summary == Summarize(CountExported(r.outcomes), CountErrored(r.outcomes)))
  {
    if docOpen && !IsBlank(chemin) && ParametersFound(parameters, host) && FolderFor(chemin, parameters, host, directoryReady).Some? {
      var p := ReadParameters(parameters, host).value;
      var folder := FolderFor(chemin, parameters, host, directoryReady).value;
      assert ClickReport(docOpen, chemin, parameters, host, directoryReady, shown, preparation, reloadedElements, reloadedHost, attempt) ==
        ShownReport(folder, shown, preparation, reloadedElements, reloadedHost, p.nomElec.value, attempt);
      ShownReportExits(folder, shown, preparation, reloadedElements, reloadedHost, p.nomElec.value, attempt);
    }
  }

  /** `SelectFile_Click`. `docOpen` is whether a document is open, `chemin` the chosen
      destination, `directoryReady` whether the folders exist or could be created,
      `shown` what the list box holds, `preparation` how making the document dirty ended
      (`Answer(true)` when it was made dirty, `Answer(false)` when the modification could
      not start or `EnsureIsDirty` failed and was rolled back, `Threw` when
      `StartModification` or the rollback's `EndModification` threw), `reloadedElements` and
      `reloadedHost` the document and its answers after that, and `attempt(i)` the host's
      answers while exporting the i-th saved item. */
  method SelectFileClick(docOpen: bool, chemin: string, parameters: Option<seq<ElementId>>, host: Host,
                         directoryReady: bool, shown: Display, preparation: Query<bool>,
                         reloadedElements: Option<seq<ElementId>>, reloadedHost: Host, attempt: nat -> Attempt)
    returns (report: Report)
    ensures report == ClickReport(docOpen, chemin, parameters, host, directoryReady, shown, preparation, reloadedElements, reloadedHost, attempt)
  {
    if !docOpen {
      return NoDocument;
    }
    if IsBlank(chemin) {
      return NoDestination;
    }
    var read := ReadDocumentParameters(parameters, host);
    if read.Threw? {
      return GeneralError;
    }
    var p := read.value;
    if Missing(p.nomDocu) {
      return ParameterMissing(NomDocuParameter);
    }
    if Missing(p.designation) {
      return ParameterMissing(DesignationParameter);
    }
    if Missing(p.nomElec) {
      return ParameterMissing(NomElecParameter);
    }
    var folder := BuildExportPath(chemin, p.nomDocu.value, p.designation.value, directoryReady);
    if folder.None? {
      return InvalidFolder;
    }
    report := ExportShown(folder.value, shown, preparation, reloadedElements, reloadedHost, p.nomElec.value, attempt);
  }

  /** The part of `SelectFile_Click` after the folder is built: the list box is copied,
      the document made dirty, the electrodes reloaded, re-bound and exported. */
  method ExportShown(folder: string, shown: Display, preparation: Query<bool>, reloadedElements: Option<seq<ElementId>>,
                     reloadedHost: Host, nomElec: string, attempt: nat -> Attempt)
    returns (report: Report)
    ensures report == ShownReport(folder, shown, preparation, reloadedElements, reloadedHost, nomElec, attempt)
  {
    var items := ShownItems(shown);
    if items.Threw? {
      return GeneralError;
    }
    var saved := SaveSelections(items.value);
    if preparation.Threw? {
      return GeneralError;
    }
    if !preparation.value {
      return NotPrepared;
    }
    var reload := ReloadElectrodes(reloadedElements, reloadedHost);
    if reload.Threw? {
      return GeneralError;
    }
    var mapping := Rebind(saved, reload.value.sorted, reload.value.master);
    var exportCount, errorCount, outcomes := ExportLoop(saved, mapping, nomElec, attempt);
    report := Finished(folder, outcomes, Summarize(exportCount, errorCount));
  }

  /** With four or more copies every half-finish item is exported from the same, last
      half-finish electrode and under the same file name, so each export overwrites the
      previous one. */
  lemma HalfFinishExportsCollide(items: seq<ElementItem>, sorted: seq<Element>, master: Option<Element>, gaps: Gaps,
                                 reload: Reload, nomElec: string, attempt: nat -> Attempt, k: nat)
    requires Classification(items, sorted, master, gaps) && GapText(gaps.rough) && GapText(gaps.halfFinish) && GapText(gaps.finish)
    requires |reload.sorted| == |sorted| && 0 < k < |sorted| - 1
    requires ExportOutcomes(items, reload, nomElec, attempt)[k].Exported?
    ensures ExportOutcomes(items, reload, nomElec, attempt)[k].electrode == reload.sorted[|sorted| - 2].elementId
    ensures ExportOutcomes(items, reload, nomElec, attempt)[k].fileName == nomElec + "DemiFini-G" + Digits(gaps.halfFinish)
  {
    RebindClassified(items, sorted, master, gaps, reload.sorted, reload.master, k);
    ClassifiedFileName(nomElec, |sorted|, k, gaps);
  }
}
