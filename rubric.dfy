/**
 * The rubric synchroniser of `_setup_rubric`: the target item list built from
 * the rubric dict, the rubric-edit URL derived from the assignment URL, and
 * what applying the items one by one does to a rubric page that starts with
 * a single default item.
 */
module Rubric {
  import opened Wrappers
  import opened Text

  /** One rubric row: its description and its point value. */
  datatype Item = Item(description: string, points: real)

  /** The rubric dict in insertion order, one (description, points) pair per key. */
  type RubricDict = seq<(string, real)>

  /** The target list: each description capitalised, each points value as given. */
  function Targets(rubric: RubricDict): seq<Item>
  {
    seq(|rubric|, i requires 0 <= i < |rubric| => Item(Capitalize(rubric[i].0), rubric[i].1))
  }

  /** `_setup_rubric`'s first loop, which appends one entry per dict item. */
  method BuildItems(rubric: RubricDict) returns (items: seq<Item>)
    ensures |items| == |rubric|
    ensures forall i :: 0 <= i < |rubric| ==>
      items[i].description == Capitalize(rubric[i].0) && items[i].points == rubric[i].1
    ensures items == Targets(rubric)
  {
    items := [];
    for i := 0 to |rubric|
      invariant |items| == i
      invariant forall j :: 0 <= j < i ==> items[j] == Item(Capitalize(rubric[j].0), rubric[j].1)
    {
      var (description, points) := rubric[i];
      items := items + [Item(Capitalize(description), points)];
    }
  }

  // ---------------------------------------------------------------- URLs

  const AssignmentsSegment := "/assignments/"

  /**
   * The assignment id in a URL: the text after the first `/assignments/` up to
   * the next `/` or the end; `None` when the URL has no `/assignments/`.
   */
  function AssignmentId(url: string): (r: Option<string>)
    ensures r.None? <==> forall j :: 0 <= j <= |url| ==> !OccursAt(url, AssignmentsSegment, j)
    ensures r.Some? ==> '/' !in r.value
    ensures r.Some? ==>
      var k := Find(url, AssignmentsSegment).value + |AssignmentsSegment|;
      && k + |r.value| <= |url| && url[k..k + |r.value|] == r.value
      && (k + |r.value| == |url| || url[k + |r.value|] == '/')
  {
    match Find(url, AssignmentsSegment)
    case None => None
    case Some(i) => Some(UpTo(url, i + |AssignmentsSegment|, '/'))
  }

  /** `{course_url}/assignments/{assignment_id}/rubric/edit`, when the URL names an assignment. */
  function RubricUrl(courseUrl: string, url: string): (r: Option<string>)
    ensures r.Some? <==> AssignmentId(url).Some?
    ensures r.Some? ==> r.value == courseUrl + AssignmentsSegment + AssignmentId(url).value + "/rubric/edit"
  {
    match AssignmentId(url)
    case None => None
    case Some(id) => Some(courseUrl + AssignmentsSegment + id + "/rubric/edit")
  }

  /** An occurrence that ends within a prefix is an occurrence in the prefix. */
  lemma OccursInPrefix(p: string, s: string, pat: string, j: nat)
    requires j + |pat| <= |p|
    ensures OccursAt(p + s, pat, j) <==> OccursAt(p, pat, j)
  {
    assert (p + s)[j..j + |pat|] == p[j..j + |pat|];
  }

  /**
   * The rubric URL addresses the assignment it was derived from: reading the
   * id back from it gives the same id, as long as the course URL does not
   * itself run into an earlier `/assignments/`.
   */
  lemma RubricUrlKeepsId(courseUrl: string, url: string)
    requires AssignmentId(url).Some?
    requires Find(courseUrl + AssignmentsSegment, AssignmentsSegment) == Some(|courseUrl|)
    ensures AssignmentId(RubricUrl(courseUrl, url).value) == AssignmentId(url)
  {
    var id := AssignmentId(url).value;
    var head := courseUrl + AssignmentsSegment;
    var tail := id + "/rubric/edit";
    var r := RubricUrl(courseUrl, url).value;
    assert r == head + tail;
    forall j | 0 <= j < |courseUrl| ensures !OccursAt(r, AssignmentsSegment, j) {
      OccursInPrefix(head, tail, AssignmentsSegment, j);
    }
    OccursInPrefix(head, tail, AssignmentsSegment, |courseUrl|);
    assert Find(r, AssignmentsSegment) == Some(|courseUrl|);
    var k := |head|;
    assert r[k..k + |id|] == id;
    assert r[k + |id|] == '/';
    UpToIsSegment(r, k, id);
  }

  /** `UpTo` stops at the first `/`, so a slash-free segment followed by `/` is what it returns. */
  lemma {:induction false} UpToIsSegment(s: string, k: nat, id: string)
    requires k + |id| < |s| && s[k..k + |id|] == id && '/' !in id && s[k + |id|] == '/'
    ensures UpTo(s, k, '/') == id
    decreases |id|
  {
    if id != [] {
      assert s[k] == id[0];
      assert s[k + 1..k + 1 + |id[1..]|] == id[1..];
      UpToIsSegment(s, k + 1, id[1..]);
    }
  }

  // ---------------------------------------------------------------- synchronisation

  /** The label of the item a freshly created assignment's rubric starts with. */
  const DefaultLabel := "Correct"

  /**
   * What went wrong, if anything, when one target item was applied. Three
   * faults raise and are logged: pasting its description, pasting its
   * points, or the click on "Add Rubric Item" (`AddFails`), which skips the
   * rest of that item. `NoAddButton` raises nothing: no button matched on
   * that pass, nothing is clicked, and the item is still filled into the
   * newest item when the page holds more than its index. The first item has
   * no add step, so the two add faults change nothing there.
   */
  datatype Fault = NoFault | DescriptionFails | PointsFails | AddFails | NoAddButton

  /** The fault for item `i`; items past the end of the list meet none. */
  function FaultAt(faults: seq<Fault>, i: nat): Fault
  {
    if i < |faults| then faults[i] else NoFault
  }

  /**
   * How the rubric page reacts: whether it has an "Add Rubric Item" button,
   * and the item a click on it appends.
   */
  datatype RubricPage = RubricPage(addButton: bool, added: Item)

  /** The first item whose description reads `caption`. */
  function FirstLabelled(items: seq<Item>, caption: string): (r: Option<nat>)
    ensures r.Some? ==> r.value < |items| && items[r.value].description == caption
    ensures r.Some? ==> forall j :: 0 <= j < r.value ==> items[j].description != caption
    ensures r.None? ==> forall j :: 0 <= j < |items| ==> items[j].description != caption
  {
    if items == [] then None
    else if items[0].description == caption then Some(0)
    else match FirstLabelled(items[1..], caption)
      case None => None
      case Some(j) => Some(j + 1)
  }

  /**
   * Item 0: the description goes into the first item labelled "Correct" (if
   * any), the points into the first points field on the page (if any).
   */
  function EditDefault(items: seq<Item>, t: Item, fault: Fault): seq<Item>
  {
    if fault == DescriptionFails then items
    else
      var described :=
        match FirstLabelled(items, DefaultLabel)
        case None => items
        case Some(j) => items[j := items[j].(description := t.description)];
      if fault == PointsFails || described == [] then described
      else described[0 := described[0].(points := t.points)]
  }

  /** The "Add Rubric Item" step of an item after the first appends nothing. */
  predicate AddMissed(fault: Fault)
  {
    fault == AddFails || fault == NoAddButton
  }

  /** The "Add Rubric Item" step of an item after the first appends an item. */
  predicate Adds(fault: Fault, page: RubricPage)
  {
    page.addButton && !AddMissed(fault)
  }

  /**
   * Item `i` ≥ 1: the "Add Rubric Item" step; then, unless its click raised
   * and only if the page holds more than `i` items, the newest one is filled.
   */
  function AddAndFill(items: seq<Item>, i: nat, t: Item, fault: Fault, page: RubricPage): seq<Item>
  {
    var grown := if Adds(fault, page) then items + [page.added] else items;
    if |grown| <= i || fault == DescriptionFails || fault == AddFails then grown
    else
      var last := |grown| - 1;
      var described := grown[last := grown[last].(description := t.description)];
      if fault == PointsFails then described
      else described[last := described[last].(points := t.points)]
  }

  /**
   * What the add step of item `i` ≥ 1 does with the items on the page: a
   * raised click leaves them as they are; a pass without a button still
   * fills the newest item when there are more than `i`; a successful add
   * with no paste failure appends the target once the page holds `i` items.
   */
  lemma AddStepOutcomes(items: seq<Item>, i: nat, t: Item, page: RubricPage)
    requires i >= 1
    ensures AddAndFill(items, i, t, AddFails, page) == items
    ensures |items| > i ==> AddAndFill(items, i, t, NoAddButton, page) == items[|items| - 1 := t]
    ensures |items| <= i ==> AddAndFill(items, i, t, NoAddButton, page) == items
    ensures page.addButton && |items| >= i ==> AddAndFill(items, i, t, NoFault, page) == items + [t]
  {
  }

  function ApplyItem(items: seq<Item>, i: nat, t: Item, fault: Fault, page: RubricPage): seq<Item>
  {
    if i == 0 then EditDefault(items, t, fault) else AddAndFill(items, i, t, fault, page)
  }

  /** The rubric after the first `k` target items have been applied, in order. */
  function Synced(items: seq<Item>, targets: seq<Item>, faults: seq<Fault>, page: RubricPage, k: nat): seq<Item>
    requires k <= |targets|
  {
    if k == 0 then items
    else ApplyItem(Synced(items, targets, faults, page, k - 1), k - 1, targets[k - 1], FaultAt(faults, k - 1), page)
  }

  /** How many of the items 1 .. k-1 get through their add step on a page with the button. */
  function AddsMade(faults: seq<Fault>, k: nat): nat
  {
    if k <= 1 then 0 else AddsMade(faults, k - 1) + if AddMissed(FaultAt(faults, k - 1)) then 0 else 1
  }

  /** The first item among 1 .. k-1 whose add step fails; `k` when none does. */
  function FirstAddFailure(faults: seq<Fault>, k: nat): nat
  {
    if k <= 1 then k
    else
      var f := FirstAddFailure(faults, k - 1);
      if f < k - 1 then f else if AddMissed(FaultAt(faults, k - 1)) then k - 1 else k
  }

  /** The number of "Add Rubric Item" clicks that go through when `n` items are applied. */
  function AddClicks(faults: seq<Fault>, n: nat, page: RubricPage): nat
  {
    if page.addButton then AddsMade(faults, n) else 0
  }

  /** What ends up at position `j` of a rubric that started with the default item `d`. */
  function Expected(j: nat, t: Item, fault: Fault, d: Item, page: RubricPage): Item
  {
    var start := if j == 0 then d else page.added;
    match fault
    case NoFault => t
    case AddFails => t
    case NoAddButton => t
    case PointsFails => start.(description := t.description)
    case DescriptionFails => start
  }

  /**
   * The bookkeeping of the add steps: each failed add is one item fewer,
   * and once one has failed the adds cannot catch up with the item index.
   */
  lemma {:induction false} AddsMadeBound(faults: seq<Fault>, k: nat)
    requires k >= 1
    ensures 1 <= FirstAddFailure(faults, k) <= k
    ensures FirstAddFailure(faults, k) - 1 <= AddsMade(faults, k) <= k - 1
    ensures FirstAddFailure(faults, k) == k ==> AddsMade(faults, k) == k - 1
    ensures FirstAddFailure(faults, k) < k ==> AddsMade(faults, k) <= k - 2
    ensures forall j :: 1 <= j < FirstAddFailure(faults, k) ==> !AddMissed(FaultAt(faults, j))
    ensures FirstAddFailure(faults, k) < k ==> AddMissed(FaultAt(faults, FirstAddFailure(faults, k)))
  {
    if k > 1 {
      AddsMadeBound(faults, k - 1);
    }
  }

  /**
   * From a page with only the default item and an "Add Rubric Item" button,
   * applying `k` items leaves one item per add step that went through, plus
   * the default. Up to the first failed add, the items are in input order,
   * each the target where applying it did not fail, and a description or
   * points failure touches only its own item. From the first failed add on,
   * the page holds fewer items than the index, so the guard on the item count
   * skips the filling and every later add leaves its new item as added.
   */
  lemma {:induction false} SyncedFromDefault(d: Item, targets: seq<Item>, faults: seq<Fault>, page: RubricPage, k: nat)
    requires d.description == DefaultLabel && page.addButton
    requires 1 <= k <= |targets|
    ensures var r := Synced([d], targets, faults, page, k);
      && |r| == 1 + AddsMade(faults, k)
      && FirstAddFailure(faults, k) <= |r| <= k
      && (forall j :: 0 <= j < FirstAddFailure(faults, k) ==>
            r[j] == Expected(j, targets[j], FaultAt(faults, j), d, page))
      && (forall j :: FirstAddFailure(faults, k) <= j < |r| ==> r[j] == page.added)
  {
    AddsMadeBound(faults, k);
    if k == 1 {
      assert FirstLabelled([d], DefaultLabel) == Some(0);
    } else {
      var i := k - 1;
      SyncedFromDefault(d, targets, faults, page, i);
      AddsMadeBound(faults, i);
      AddOnShortPage(Synced([d], targets, faults, page, i), i, targets[i], FaultAt(faults, i), d, page);
    }
  }

  /**
   * One add step on a page holding no more than `i` items keeps those items.
   * The item it appends, if any, is filled only when the page held exactly `i`.
   */
  lemma AddOnShortPage(items: seq<Item>, i: nat, t: Item, fault: Fault, d: Item, page: RubricPage)
    requires i >= 1 && page.addButton && |items| <= i
    ensures var r := AddAndFill(items, i, t, fault, page);
      && |r| == |items| + (if AddMissed(fault) then 0 else 1)
      && (forall j :: 0 <= j < |items| ==> r[j] == items[j])
      && (!AddMissed(fault) && |items| == i ==> r[i] == Expected(i, t, fault, d, page))
      && (!AddMissed(fault) && |items| < i ==> r[|items|] == page.added)
  {
  }

  /** With no failures, N target items give exactly those N items, in order. */
  lemma SyncedFaultFree(d: Item, targets: seq<Item>, page: RubricPage)
    requires d.description == DefaultLabel && page.addButton && |targets| >= 1
    ensures Synced([d], targets, [], page, |targets|) == targets
  {
    SyncedFromDefault(d, targets, [], page, |targets|);
    AddsMadeBound([], |targets|);
  }

  /**
   * A failed add at item `m`, with no failure before it: the rubric ends up
   * shorter than the target list, the items before `m` are the targets, and
   * no target from `m` on is ever written.
   */
  lemma FailedAddDropsRest(d: Item, targets: seq<Item>, faults: seq<Fault>, page: RubricPage, m: nat)
    requires d.description == DefaultLabel && page.addButton
    requires 1 <= m < |targets| && AddMissed(FaultAt(faults, m))
    requires forall j :: 0 <= j < m ==> FaultAt(faults, j) == NoFault
    ensures var r := Synced([d], targets, faults, page, |targets|);
      && m <= |r| < |targets|
      && r[..m] == targets[..m]
      && forall j :: m <= j < |r| ==> r[j] == page.added
  {
    var n := |targets|;
    SyncedFromDefault(d, targets, faults, page, n);
    FirstFailureIs(faults, n, m);
    AddsMadeBound(faults, n);
  }

  /** `m` is the first failed add among the first `k` items when it fails and none before it does. */
  lemma {:induction false} FirstFailureIs(faults: seq<Fault>, k: nat, m: nat)
    requires 1 <= m < k && AddMissed(FaultAt(faults, m))
    requires forall j :: 1 <= j < m ==> !AddMissed(FaultAt(faults, j))
    ensures FirstAddFailure(faults, k) == m
  {
    if k - 1 > m {
      FirstFailureIs(faults, k - 1, m);
    } else {
      AddsMadeBound(faults, k - 1);
    }
  }

  /** Without an "Add Rubric Item" button only the default item is ever written. */
  lemma {:induction false} SyncedWithoutAddButton(d: Item, targets: seq<Item>, faults: seq<Fault>, page: RubricPage, k: nat)
    requires d.description == DefaultLabel && !page.addButton
    requires 1 <= k <= |targets|
    ensures Synced([d], targets, faults, page, k) == [Expected(0, targets[0], FaultAt(faults, 0), d, page)]
  {
    if k == 1 {
      assert FirstLabelled([d], DefaultLabel) == Some(0);
    } else {
      SyncedWithoutAddButton(d, targets, faults, page, k - 1);
    }
  }
}
