/** MainWindow.xaml.cs, `ClassifyAndDisplayElectrodes`: splits the candidate shapes into
    the master electrode and the gapped copies, sorts the copies by volume and labels
    them by position; the items it would put in the list box are returned instead. */
module Classifier {
  import opened Wrappers
  import opened Sequences
  import opened HostApi
  import opened Elements
  import opened Pipeline

  const Ebauche := "Ebauche"
  const DemiFinition := "Demi finition"
  const Finition := "Finition"
  /** The label of the master electrode, exported without a gap. */
  const SansGap := "Sans GAP"

  /** `ElementItem`: one checkable entry of the electrode list. */
  datatype ElementItem = ElementItem(name: string, isChecked: bool, elementId: ElementId)

  /** What the list box holds after a pass: the "nothing found" message, nothing (an
      exception was caught and reported), or the classified items. */
  datatype Display = NothingFound | Failed | Items(items: seq<ElementItem>)

  /** "{stage}: {gap} mm". */
  function Label(stage: string, gap: string): (r: string) {
    stage + ": " + gap + " mm"
  }

  /** The rough label of the three-or-more branch, written without the space before "mm". */
  function UnspacedLabel(stage: string, gap: string): (r: string) {
    stage + ": " + gap + "mm"
  }

  // ----- The candidates -----

  /** The names of all shapes were answered, so the collection loop ran to its end. */
  predicate NamesAnswered(ids: seq<ElementId>, host: Host) {
    forall i :: 0 <= i < |ids| ==> host.friendlyName(ids[i]).Answer?
  }

  /** A gapped copy: not named "Electrode", a shape, and with a volume. */
  function IsCandidate(host: Host): (r: Element -> bool) {
    (e: Element) => host.friendlyName(e.elementId) != Answer(ElectrodeName) && e.isShape && e.VolumeMm3().Some?
  }

  function Snapshots(ids: seq<ElementId>, host: Host): (r: seq<Element>)
    ensures |r| == |ids| && forall i :: 0 <= i < |ids| ==> r[i] == Snapshot(ids[i], host)
  {
    seq(|ids|, i requires 0 <= i < |ids| => Snapshot(ids[i], host))
  }

  lemma SnapshotsSnoc(ids: seq<ElementId>, k: nat, host: Host)
    requires k < |ids|
    ensures Snapshots(ids[..k + 1], host) == Snapshots(ids[..k], host) + [Snapshot(ids[k], host)]
  {
  }

  /** The gapped copies, in input order. */
  function Candidates(ids: seq<ElementId>, host: Host): (r: seq<Element>) {
    Filter(Snapshots(ids, host), IsCandidate(host))
  }

  /** `ids[i]` is the last shape named "Electrode". */
  predicate IsLastMaster(ids: seq<ElementId>, host: Host, i: int) {
    0 <= i < |ids| && host.friendlyName(ids[i]) == Answer(ElectrodeName) &&
    forall j :: i < j < |ids| ==> host.friendlyName(ids[j]) != Answer(ElectrodeName)
  }

  /** The position of the last shape named "Electrode", if any. */
  function LastMasterIndex(ids: seq<ElementId>, host: Host): (r: Option<nat>)
    ensures r.Some? ==> IsLastMaster(ids, host, r.value)
    ensures r.None? ==> forall i :: 0 <= i < |ids| ==> host.friendlyName(ids[i]) != Answer(ElectrodeName)
  {
    if ids == [] then None
    else if host.friendlyName(ids[|ids| - 1]) == Answer(ElectrodeName) then Some(|ids| - 1)
    else
      var front := ids[..|ids| - 1];
      assert forall i :: 0 <= i < |front| ==> front[i] == ids[i];
      LastMasterIndex(front, host)
  }

  /** The master electrode: the snapshot of the last shape named "Electrode", if any;
      when several carry the name, the last one wins. */
  function MasterOf(ids: seq<ElementId>, host: Host): (m: Option<Element>)
    ensures m.Some? <==> exists i :: 0 <= i < |ids| && host.friendlyName(ids[i]) == Answer(ElectrodeName)
    ensures m.Some? ==> exists i :: IsLastMaster(ids, host, i) && m.value == Snapshot(ids[i], host)
  {
    match LastMasterIndex(ids, host)
    case None => None
    case Some(i) => Some(Snapshot(ids[i], host))
  }

  lemma NamesAnsweredSnoc(ids: seq<ElementId>, k: nat, host: Host)
    requires k < |ids| && NamesAnswered(ids[..k], host) && host.friendlyName(ids[k]).Answer?
    ensures NamesAnswered(ids[..k + 1], host)
  {
    assert forall i :: 0 <= i < k ==> ids[..k + 1][i] == ids[..k][i];
  }

  /** One more shape extends the candidates by its snapshot when it is a candidate. */
  lemma CandidatesSnoc(ids: seq<ElementId>, k: nat, host: Host)
    requires k < |ids|
    ensures Candidates(ids[..k + 1], host) ==
      Candidates(ids[..k], host) + (if IsCandidate(host)(Snapshot(ids[k], host)) then [Snapshot(ids[k], host)] else [])
  {
    SnapshotsSnoc(ids, k, host);
    FilterSnoc(Snapshots(ids[..k], host), Snapshot(ids[k], host), IsCandidate(host));
  }

  /** One more shape named "Electrode" becomes the master; any other keeps it. */
  lemma MasterOfSnoc(ids: seq<ElementId>, k: nat, host: Host)
    requires k < |ids|
    ensures MasterOf(ids[..k + 1], host) ==
      if host.friendlyName(ids[k]) == Answer(ElectrodeName) then Some(Snapshot(ids[k], host)) else MasterOf(ids[..k], host)
  {
    TakeTake(ids, k);
    assert ids[..k + 1][k] == ids[k];
  }

  /** The collection loop: a snapshot and a name query per shape; the name query is
      outside the snapshot's own error handling, so one that throws ends the pass. */
  method CollectCandidates(ids: seq<ElementId>, host: Host)
    returns (ok: bool, candidates: seq<Element>, master: Option<Element>)
    ensures ok <==> NamesAnswered(ids, host)
    ensures ok ==> candidates == Candidates(ids, host) && master == MasterOf(ids, host)
  {
    candidates, master := [], None;
    var k := 0;
    while k < |ids|
      invariant 0 <= k <= |ids|
      invariant NamesAnswered(ids[..k], host)
      invariant candidates == Candidates(ids[..k], host)
      invariant master == MasterOf(ids[..k], host)
    {
      var element := NewElement(ids[k], host);
      var friendlyName := host.friendlyName(ids[k]);
      if friendlyName.Threw? {
        return false, candidates, master;
      }
      NamesAnsweredSnoc(ids, k, host);
      CandidatesSnoc(ids, k, host);
      MasterOfSnoc(ids, k, host);
      if friendlyName.value == ElectrodeName {
        master := Some(element);
      } else if element.isShape && element.VolumeMm3().Some? {
        candidates := candidates + [element];
      }
      k := k + 1;
    }
    TakeAll(ids);
    ok := true;
  }

  // ----- OrderBy(e => e.VolumeMm3): a stable ascending sort -----

  /** The sort key; every candidate has a volume. */
  function Mm3(e: Element): (r: real) {
    if e.VolumeMm3().Some? then e.VolumeMm3().value else 0.0
  }

  predicate Ascending(s: seq<Element>) {
    forall i, j :: 0 <= i < j < |s| ==> Mm3(s[i]) <= Mm3(s[j])
  }

  /** Places `x` before the first element whose volume is at least its own. */
  function InsertByVolume(x: Element, s: seq<Element>): (r: seq<Element>)
    ensures |r| == |s| + 1
    ensures multiset(r) == multiset(s) + multiset{x}
  {
    if s == [] || Mm3(x) <= Mm3(s[0]) then [x] + s
    else
      assert s == [s[0]] + s[1..];
      [s[0]] + InsertByVolume(x, s[1..])
  }

  lemma {:induction false} InsertAscending(x: Element, s: seq<Element>)
    requires Ascending(s)
    ensures Ascending(InsertByVolume(x, s))
  {
    if s == [] || Mm3(x) <= Mm3(s[0]) {
      forall j | 0 <= j < |s|
        ensures Mm3(x) <= Mm3(s[j])
      {
        if j > 0 {
          assert Mm3(s[0]) <= Mm3(s[j]);
        }
      }
      AscendingCons(x, s);
    } else {
      var rest := InsertByVolume(x, s[1..]);
      InsertAscending(x, s[1..]);
      forall j | 0 <= j < |rest|
        ensures Mm3(s[0]) <= Mm3(rest[j])
      {
        assert rest[j] in multiset(rest);
        if rest[j] != x {
          assert rest[j] in multiset(s[1..]);
          assert rest[j] in s[1..];
        }
      }
      AscendingCons(s[0], rest);
    }
  }

  /** An element no larger than any of an ascending sequence may lead it. */
  lemma AscendingCons(h: Element, t: seq<Element>)
    requires Ascending(t)
    requires forall j :: 0 <= j < |t| ==> Mm3(h) <= Mm3(t[j])
    ensures Ascending([h] + t)
  {
    var r := [h] + t;
    forall i, j | 0 <= i < j < |r|
      ensures Mm3(r[i]) <= Mm3(r[j])
    {
      assert r[j] == t[j - 1];
      if i > 0 {
        assert r[i] == t[i - 1];
      }
    }
  }

  /** LINQ `OrderBy` on the volume: a stable sort, smallest volume first. */
  function OrderByVolume(s: seq<Element>): (r: seq<Element>)
    ensures Ascending(r)
    ensures multiset(r) == multiset(s)
    ensures |r| == |s|
  {
    if s == [] then []
    else
      assert s == [s[0]] + s[1..];
      InsertAscending(s[0], OrderByVolume(s[1..]));
      InsertByVolume(s[0], OrderByVolume(s[1..]))
  }

  function HasMm3(v: real): (r: Element -> bool) {
    (e: Element) => Mm3(e) == v
  }

  lemma {:induction false} InsertStable(x: Element, s: seq<Element>, v: real)
    ensures Filter(InsertByVolume(x, s), HasMm3(v)) == Filter([x] + s, HasMm3(v))
  {
    if s != [] && Mm3(s[0]) < Mm3(x) {
      var rest := InsertByVolume(x, s[1..]);
      InsertStable(x, s[1..], v);
      FilterSwap(s[0], x, rest, s[1..], HasMm3(v));
      assert [s[0]] + s[1..] == s;
    }
  }

  /** `OrderBy` is stable: the elements of any one volume keep their input order. */
  lemma {:induction false} OrderByVolumeStable(s: seq<Element>, v: real)
    ensures Filter(OrderByVolume(s), HasMm3(v)) == Filter(s, HasMm3(v))
  {
    if s != [] {
      OrderByVolumeStable(s[1..], v);
      InsertStable(s[0], OrderByVolume(s[1..]), v);
      FilterCons(s[0], OrderByVolume(s[1..]), HasMm3(v));
    }
  }

  // ----- Labels by position -----

  /** The label of the `k`-th smallest of `n` gapped copies. */
  function StageLabel(n: nat, k: int, gaps: Gaps): (r: string) {
    if n == 1 then Label(Finition, gaps.finish)
    else if k == 0 then (if n == 2 then Label(Ebauche, gaps.rough) else UnspacedLabel(Ebauche, gaps.rough))
    else if k == n - 1 then Label(Finition, gaps.finish)
    else Label(DemiFinition, gaps.halfFinish)
  }

  /** The labels of the four cases, in order: none; "Finition"; "Ebauche" then
      "Finition"; "Ebauche", n - 2 times "Demi finition", "Finition". */
  lemma StageTable(n: nat, gaps: Gaps)
    ensures seq(n, k => StageLabel(n, k, gaps)) ==
      if n == 0 then []
      else if n == 1 then [Label(Finition, gaps.finish)]
      else if n == 2 then [Label(Ebauche, gaps.rough), Label(Finition, gaps.finish)]
      else [UnspacedLabel(Ebauche, gaps.rough)] + seq(n - 2, _ => Label(DemiFinition, gaps.halfFinish)) + [Label(Finition, gaps.finish)]
  {
  }

  /** What the list box shows for `sorted` copies and an optional master: one checked
      item per copy, labelled by position, then the unchecked "Sans GAP" item. */
  predicate Classification(items: seq<ElementItem>, sorted: seq<Element>, master: Option<Element>, gaps: Gaps) {
    |items| == |sorted| + (if master.Some? then 1 else 0) &&
    (forall k :: 0 <= k < |sorted| ==> items[k] == ElementItem(StageLabel(|sorted|, k, gaps), true, sorted[k].elementId)) &&
    (master.Some? ==> items[|sorted|] == ElementItem(SansGap, false, master.value.elementId))
  }

  /** The `switch` on the number of gapped copies: one checked item per copy, labelled
      by its position among the sorted copies. */
  method LabelByPosition(sorted: seq<Element>, gaps: Gaps) returns (items: seq<ElementItem>)
    ensures |items| == |sorted|
    ensures forall k :: 0 <= k < |sorted| ==> items[k] == ElementItem(StageLabel(|sorted|, k, gaps), true, sorted[k].elementId)
  {
    var n := |sorted|;
    items := [];
    if n == 1 {
      items := [ElementItem(Label(Finition, gaps.finish), true, sorted[0].elementId)];
    } else if n == 2 {
      items := [ElementItem(Label(Ebauche, gaps.rough), true, sorted[0].elementId),
                ElementItem(Label(Finition, gaps.finish), true, sorted[1].elementId)];
    } else if n >= 3 {
      items := [ElementItem(UnspacedLabel(Ebauche, gaps.rough), true, sorted[0].elementId)];
      var i := 1;
      while i < n - 1
        invariant 1 <= i <= n - 1
        invariant |items| == i
        invariant forall k :: 0 <= k < i ==> items[k] == ElementItem(StageLabel(n, k, gaps), true, sorted[k].elementId)
      {
        items := items + [ElementItem(Label(DemiFinition, gaps.halfFinish), true, sorted[i].elementId)];
        i := i + 1;
      }
      items := items + [ElementItem(Label(Finition, gaps.finish), true, sorted[n - 1].elementId)];
    }
  }

  /** `ClassifyAndDisplayElectrodes`: the gapped copies smallest first, then the master. */
  method ClassifyAndDisplayElectrodes(shapesIds: Option<seq<ElementId>>, gaps: Gaps, host: Host) returns (d: Display)
    ensures shapesIds.None? || shapesIds.value == [] ==> d == NothingFound
    ensures shapesIds.Some? && shapesIds.value != [] && !NamesAnswered(shapesIds.value, host) ==> d == Failed
    ensures shapesIds.Some? && shapesIds.value != [] && NamesAnswered(shapesIds.value, host) ==>
      d.Items? &&
      Classification(d.items, OrderByVolume(Candidates(shapesIds.value, host)), MasterOf(shapesIds.value, host), gaps)
  {
    if shapesIds.None? || |shapesIds.value| == 0 {
      return NothingFound;
    }
    var ok, allElements, electrodeWithoutGap := CollectCandidates(shapesIds.value, host);
    if !ok {
      return Failed;
    }
    var sorted := OrderByVolume(allElements);
    var items := LabelByPosition(sorted, gaps);
    if electrodeWithoutGap.Some? {
      items := items + [ElementItem(SansGap, false, electrodeWithoutGap.value.elementId)];
    }
    d := Items(items);
  }

  // ----- Properties of a classification -----

  /** Exactly the gapped copies are checked, and the only other item is the unchecked
      "Sans GAP" one, last, present iff a master exists. */
  lemma GappedCount(items: seq<ElementItem>, sorted: seq<Element>, master: Option<Element>, gaps: Gaps)
    requires Classification(items, sorted, master, gaps)
    ensures forall k :: 0 <= k < |items| ==> (items[k].isChecked <==> k < |sorted|)
    ensures (exists k :: 0 <= k < |items| && items[k].name == SansGap) <==> master.Some?
    ensures master.Some? ==> items[|items| - 1] == ElementItem(SansGap, false, master.value.elementId)
  {
    forall k | 0 <= k < |sorted|
      ensures items[k].name != SansGap
    {
      StageLabelNotSansGap(|sorted|, k, gaps);
    }
  }

  lemma StageLabelNotSansGap(n: nat, k: int, gaps: Gaps)
    ensures StageLabel(n, k, gaps) != SansGap
  {
    var l := StageLabel(n, k, gaps);
    assert l[|l| - 1] == 'm';
  }

  /** The gapped items list the copies smallest first, and copies of equal volume appear
      as they did in the input. */
  lemma GappedInVolumeOrder(ids: seq<ElementId>, host: Host, items: seq<ElementItem>, gaps: Gaps, v: real)
    requires Classification(items, OrderByVolume(Candidates(ids, host)), MasterOf(ids, host), gaps)
    ensures var sorted := OrderByVolume(Candidates(ids, host));
      forall k, l :: 0 <= k < l < |sorted| ==> items[k].elementId == sorted[k].elementId && Mm3(sorted[k]) <= Mm3(sorted[l])
    ensures Filter(OrderByVolume(Candidates(ids, host)), HasMm3(v)) == Filter(Candidates(ids, host), HasMm3(v))
  {
    OrderByVolumeStable(Candidates(ids, host), v);
  }

  /** The master electrode is never among the gapped items. */
  lemma MasterNeverGapped(ids: seq<ElementId>, host: Host, items: seq<ElementItem>, gaps: Gaps)
    requires MasterOf(ids, host).Some?
    requires Classification(items, OrderByVolume(Candidates(ids, host)), MasterOf(ids, host), gaps)
    ensures forall k :: 0 <= k < |items| - 1 ==> items[k].elementId != MasterOf(ids, host).value.elementId
  {
    var sorted := OrderByVolume(Candidates(ids, host));
    var master := MasterOf(ids, host).value;
    var i :| IsLastMaster(ids, host, i) && master == Snapshot(ids[i], host);
    forall k | 0 <= k < |items| - 1
      ensures items[k].elementId != master.elementId
    {
      assert sorted[k] in multiset(Candidates(ids, host));
      FilterMembership(Snapshots(ids, host), IsCandidate(host), sorted[k]);
    }
  }
}
