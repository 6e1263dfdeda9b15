/**
 * What one `create` call and one `batch_create` call do to the browser,
 * stated over an abstract page. An `Env` says how the site behaves during
 * one attempt: which required buttons become clickable, what the forms hold
 * when they open, which of their controls can be found, and where applying a
 * rubric item raises.
 */
module Workflow {
  import opened Wrappers
  import opened Text
  import opened Assignment
  import opened DetailsForm
  import opened OutlinePage
  import opened Rubric

  datatype Env = Env(
    createButton: bool,                    // "Create Assignment" on the list page becomes clickable
    typeLabels: seq<string>,               // the texts of the type dialog's buttons, in page order
    firstNext: bool,                       // the first "Next" becomes clickable
    form0: Form,                           // the details form as it opens
    present: set<Element>,                 // the details-form controls that can be found
    secondNext: bool,                      // the second "Next" becomes clickable
    createFinal: bool,                     // the final "Create Assignment" becomes clickable
    assignmentUrl: string,                 // where that click leads: the new assignment's outline page,
                                           // still the current URL after its Save (Save is taken not to navigate)
    outline0: map<OutlineField, string>,   // the outline page as it opens
    outlinePresent: set<OutlineControl>,   // the outline controls that can be found
    rubric0: seq<Item>,                    // the rubric editor's items as it opens
    rubricPage: RubricPage,                // whether it has "Add Rubric Item", and what that adds
    faults: seq<Fault>)                    // where applying each rubric item raises

  /**
   * The browser as the creator leaves it: the current URL, every URL opened
   * with `driver.get` in order, the type button picked in the last type
   * dialog, the details form and the checkbox clicks its last filling made,
   * the outline fields and whether Save was pressed, the rubric items and the
   * "Add Rubric Item" clicks, and the pauses between batch items.
   */
  datatype Page = Page(url: string, visits: seq<string>, typeChosen: Option<nat>, form: Form, boxClicks: seq<Box>,
                       outline: map<OutlineField, string>, outlineSaved: bool,
                       rubric: seq<Item>, addClicks: nat, pauses: nat)

  /** The course's assignment list, which `goto_assignments` opens. */
  function ListUrl(courseUrl: string): string
  {
    courseUrl + "/assignments"
  }

  /** `driver.get(u)`. */
  function Visit(p: Page, u: string): Page
  {
    p.(url := u, visits := p.visits + [u])
  }

  /** The caption that marks the type button to click. */
  const OnlineLabel := "Online Assignment"

  predicate Mentions(text: string, caption: string)
  {
    Find(text, caption).Some?
  }

  /** The first type button whose text mentions "Online Assignment", the one `create` clicks. */
  function FirstOnline(labels: seq<string>): (r: Option<nat>)
    ensures r.Some? ==> r.value < |labels| && Mentions(labels[r.value], OnlineLabel)
    ensures r.Some? ==> forall j :: 0 <= j < r.value ==> !Mentions(labels[j], OnlineLabel)
    ensures r.None? ==> forall j :: 0 <= j < |labels| ==> !Mentions(labels[j], OnlineLabel)
  {
    if labels == [] then None
    else if Mentions(labels[0], OnlineLabel) then Some(0)
    else match FirstOnline(labels[1..])
      case None => None
      case Some(j) => Some(j + 1)
  }

  /**
   * `create` returns `True`: every step outside the outline and rubric steps
   * went through: the two "Create Assignment" buttons, both "Next" buttons,
   * and the details form's title and parsed dates.
   */
  predicate Succeeds(a: OnlineAssignment, env: Env)
  {
    && env.createButton && env.firstNext
    && RequiredFieldsResolve(TypedTexts(a), env.present)
    && env.secondNext && env.createFinal
  }

  /** The page when the required steps end, whether they all went through or one raised. */
  function AfterRequired(p: Page, a: OnlineAssignment, env: Env): Page
  {
    if !env.createButton then p
    else
      var chosen := p.(typeChosen := FirstOnline(env.typeLabels));
      if !env.firstNext then chosen
      else
        var filled := Fill(env.form0, a, env.present);
        chosen.(form := filled.form, boxClicks := filled.clicks)
  }

  /** `_setup_rubric` on the page `p` shows: open the rubric editor and apply every item in order. */
  function RubricAfter(p: Page, courseUrl: string, rubric: RubricDict, env: Env): Page
  {
    match RubricUrl(courseUrl, p.url)
    case None => p
    case Some(u) =>
      var items := Targets(rubric);
      Visit(p, u).(rubric := Synced(env.rubric0, items, env.faults, env.rubricPage, |items|),
                   addClicks := p.addClicks + AddClicks(env.faults, |items|, env.rubricPage))
  }

  /** The best-effort steps after "Create Assignment": the outline page, then the rubric when there is one. */
  function AfterBestEffort(p: Page, courseUrl: string, a: OnlineAssignment, env: Env): Page
  {
    var outlined := p.(url := env.assignmentUrl, outline := OutlineValues(env.outline0, a, env.outlinePresent),
                       outlineSaved := SaveDone(a, env.outlinePresent));
    if HasRubric(a.rubric) then RubricAfter(outlined, courseUrl, a.rubric.value, env) else outlined
  }

  /** `create(a)`: the required steps, the best-effort steps when those went through, then the list page either way. */
  function AfterCreate(p: Page, courseUrl: string, a: OnlineAssignment, env: Env): Page
  {
    Finish(AfterRequired(p, a, env), courseUrl, a, env, Succeeds(a, env))
  }

  /** The end of an attempt whose required steps left the page `q` and went through when `ok`. */
  function Finish(q: Page, courseUrl: string, a: OnlineAssignment, env: Env, ok: bool): Page
  {
    Visit(if ok then AfterBestEffort(q, courseUrl, a, env) else q, ListUrl(courseUrl))
  }

  // ---------------------------------------------------------------- properties of one attempt

  /** The required steps open no URL and touch neither the outline nor the rubric. */
  lemma RequiredKeeps(p: Page, a: OnlineAssignment, env: Env)
    ensures var q := AfterRequired(p, a, env);
      && q.url == p.url && q.visits == p.visits && q.pauses == p.pauses
      && q.outline == p.outline && q.outlineSaved == p.outlineSaved
      && q.rubric == p.rubric && q.addClicks == p.addClicks
  {
  }

  /** Finishing an attempt ends on the list, after any earlier visits, without a pause. */
  lemma FinishReturnsToList(q: Page, courseUrl: string, a: OnlineAssignment, env: Env, ok: bool)
    ensures var r := Finish(q, courseUrl, a, env, ok);
      && r.url == ListUrl(courseUrl)
      && |r.visits| > |q.visits| && r.visits[..|q.visits|] == q.visits
      && r.visits[|r.visits| - 1] == ListUrl(courseUrl)
      && r.pauses == q.pauses
  {
    var before := if ok then AfterBestEffort(q, courseUrl, a, env) else q;
    if ok {
      var outlined := q.(url := env.assignmentUrl, outline := OutlineValues(env.outline0, a, env.outlinePresent),
                         outlineSaved := SaveDone(a, env.outlinePresent));
      if HasRubric(a.rubric) && RubricUrl(courseUrl, outlined.url).Some? {
        assert before.visits == q.visits + [RubricUrl(courseUrl, outlined.url).value];
      }
    }
    assert (before.visits + [ListUrl(courseUrl)])[..|q.visits|] == before.visits[..|q.visits|];
  }

  /**
   * Both exits of `create` end on the assignment list: it is the last URL
   * opened, earlier visits are kept, and no pause is taken.
   */
  lemma CreateReturnsToList(p: Page, courseUrl: string, a: OnlineAssignment, env: Env)
    ensures var r := AfterCreate(p, courseUrl, a, env);
      && r.url == ListUrl(courseUrl)
      && |r.visits| > |p.visits| && r.visits[..|p.visits|] == p.visits
      && r.visits[|r.visits| - 1] == ListUrl(courseUrl)
      && r.pauses == p.pauses
  {
    RequiredKeeps(p, a, env);
    FinishReturnsToList(AfterRequired(p, a, env), courseUrl, a, env, Succeeds(a, env));
  }

  /**
   * A failed attempt leaves the outline and the rubric alone: it can only
   * have picked the type and filled the details form before returning to
   * the list.
   */
  lemma FailedCreateOnlyTouchesForm(p: Page, courseUrl: string, a: OnlineAssignment, env: Env)
    requires !Succeeds(a, env)
    ensures var r := AfterCreate(p, courseUrl, a, env);
      && r.outline == p.outline && r.outlineSaved == p.outlineSaved
      && r.rubric == p.rubric && r.addClicks == p.addClicks
      && r.visits == p.visits + [ListUrl(courseUrl)]
      && (!env.createButton ==> r == Visit(p, ListUrl(courseUrl)))
  {
  }

  /** The rubric-editor visit a successful attempt makes, if any. */
  function RubricVisits(courseUrl: string, a: OnlineAssignment, env: Env): seq<string>
  {
    if HasRubric(a.rubric) && RubricUrl(courseUrl, env.assignmentUrl).Some? then [RubricUrl(courseUrl, env.assignmentUrl).value] else []
  }

  /**
   * A successful attempt leaves the details form as filling leaves it, the
   * outline page as filling it leaves it, and opens the rubric editor (when
   * there is a rubric and the URL names the assignment) before the list.
   */
  lemma CreatedPage(p: Page, courseUrl: string, a: OnlineAssignment, env: Env)
    requires Succeeds(a, env)
    ensures var r := AfterCreate(p, courseUrl, a, env);
      && r.typeChosen == FirstOnline(env.typeLabels)
      && r.form == Fill(env.form0, a, env.present).form
      && r.boxClicks == Fill(env.form0, a, env.present).clicks
      && r.outline == OutlineValues(env.outline0, a, env.outlinePresent)
      && r.outlineSaved == SaveDone(a, env.outlinePresent)
      && r.visits == p.visits + RubricVisits(courseUrl, a, env) + [ListUrl(courseUrl)]
      && (!HasRubric(a.rubric) ==> r.rubric == p.rubric && r.addClicks == p.addClicks)
  {
    RequiredOk(p, a, env);
    FinishOk(AfterRequired(p, a, env), courseUrl, a, env);
  }

  /** Required steps that go through pick the type and leave the form as filling leaves it. */
  lemma RequiredOk(p: Page, a: OnlineAssignment, env: Env)
    requires env.createButton && env.firstNext
    ensures var filled := Fill(env.form0, a, env.present);
      AfterRequired(p, a, env) == p.(typeChosen := FirstOnline(env.typeLabels), form := filled.form, boxClicks := filled.clicks)
  {
  }

  /** Finishing a successful attempt fills the outline, opens the rubric editor when needed, then the list. */
  lemma FinishOk(q: Page, courseUrl: string, a: OnlineAssignment, env: Env)
    ensures var r := Finish(q, courseUrl, a, env, true);
      && r.typeChosen == q.typeChosen && r.form == q.form && r.boxClicks == q.boxClicks
      && r.outline == OutlineValues(env.outline0, a, env.outlinePresent)
      && r.outlineSaved == SaveDone(a, env.outlinePresent)
      && r.visits == q.visits + RubricVisits(courseUrl, a, env) + [ListUrl(courseUrl)]
      && (!HasRubric(a.rubric) ==> r.rubric == q.rubric && r.addClicks == q.addClicks)
  {
  }

  /**
   * On a successful attempt whose rubric editor opens with the single
   * default "Correct" item and has an "Add Rubric Item" button, the rubric
   * ends with the default item plus one item per add step that went through.
   * Up to the first failed add, item `j` is dict entry `j` with its
   * description capitalised, unless applying it raised; every item added
   * after that failure stays as the button added it.
   */
  lemma CreatedRubric(p: Page, courseUrl: string, a: OnlineAssignment, env: Env, d: Item)
    requires Succeeds(a, env) && HasRubric(a.rubric) && AssignmentId(env.assignmentUrl).Some?
    requires env.rubric0 == [d] && d.description == DefaultLabel && env.rubricPage.addButton
    ensures var r := AfterCreate(p, courseUrl, a, env);
      var rubric := a.rubric.value;
      var first := FirstAddFailure(env.faults, |rubric|);
      && |r.rubric| == 1 + AddsMade(env.faults, |rubric|)
      && first <= |r.rubric| <= |rubric|
      && (forall j :: 0 <= j < first ==>
            r.rubric[j] == Expected(j, Item(Capitalize(rubric[j].0), rubric[j].1), FaultAt(env.faults, j), d, env.rubricPage))
      && (forall j :: first <= j < |r.rubric| ==> r.rubric[j] == env.rubricPage.added)
      && r.addClicks == p.addClicks + AddsMade(env.faults, |rubric|)
  {
    var targets := Targets(a.rubric.value);
    SyncedFromDefault(d, targets, env.faults, env.rubricPage, |targets|);
  }

  /**
   * When every "Add Rubric Item" step goes through, the rubric has one item
   * per dict entry, in dict order, after exactly N - 1 clicks.
   */
  lemma CreatedRubricAllAdded(p: Page, courseUrl: string, a: OnlineAssignment, env: Env, d: Item)
    requires Succeeds(a, env) && HasRubric(a.rubric) && AssignmentId(env.assignmentUrl).Some?
    requires env.rubric0 == [d] && d.description == DefaultLabel && env.rubricPage.addButton
    requires forall j :: 1 <= j < |a.rubric.value| ==> !AddMissed(FaultAt(env.faults, j))
    ensures var r := AfterCreate(p, courseUrl, a, env);
      var rubric := a.rubric.value;
      && |r.rubric| == |rubric|
      && (forall j :: 0 <= j < |rubric| ==>
            r.rubric[j] == Expected(j, Item(Capitalize(rubric[j].0), rubric[j].1), FaultAt(env.faults, j), d, env.rubricPage))
      && r.addClicks == p.addClicks + |rubric| - 1
  {
    var n := |a.rubric.value|;
    CreatedRubric(p, courseUrl, a, env, d);
    AddsMadeBound(env.faults, n);
    if FirstAddFailure(env.faults, n) < n {
      assert false;
    }
  }

  /**
   * Whether `create` returns `True` does not depend on anything the outline
   * and rubric steps meet: two attempts that differ only there agree.
   */
  lemma OutcomeIgnoresBestEffort(a: OnlineAssignment, env: Env, other: Env)
    requires other == env.(assignmentUrl := other.assignmentUrl, outline0 := other.outline0,
                           outlinePresent := other.outlinePresent, rubric0 := other.rubric0,
                           rubricPage := other.rubricPage, faults := other.faults)
    ensures Succeeds(a, other) == Succeeds(a, env)
  {
  }

  // ---------------------------------------------------------------- the batch

  /** What `create` returns for each assignment. */
  function Outcomes(assignments: seq<OnlineAssignment>, envs: seq<Env>): seq<bool>
    requires |envs| == |assignments|
  {
    seq(|assignments|, i requires 0 <= i < |assignments| => Succeeds(assignments[i], envs[i]))
  }

  /** How many attempts succeeded. */
  function CountTrue(outcomes: seq<bool>): nat
  {
    if outcomes == [] then 0
    else CountTrue(outcomes[..|outcomes| - 1]) + if outcomes[|outcomes| - 1] then 1 else 0
  }

  /** The positions of the failed attempts, in order. */
  function FailedIndices(outcomes: seq<bool>): seq<nat>
  {
    if outcomes == [] then []
    else FailedIndices(outcomes[..|outcomes| - 1]) + if outcomes[|outcomes| - 1] then [] else [|outcomes| - 1]
  }

  /** `failed_names`: the names of the failed attempts, appended as the loop meets them. */
  function FailedNames(assignments: seq<OnlineAssignment>, outcomes: seq<bool>): seq<string>
    requires |outcomes| == |assignments|
  {
    if assignments == [] then []
    else
      var n := |assignments| - 1;
      FailedNames(assignments[..n], outcomes[..n]) + if outcomes[n] then [] else [assignments[n].name]
  }

  /** The pauses between `n` consecutive items: one between each two, none after the last. */
  function Gaps(n: nat): nat
  {
    if n == 0 then 0 else n - 1
  }

  function PauseIf(p: Page, pause: bool): Page
  {
    if pause then p.(pauses := p.pauses + 1) else p
  }

  /** `batch_create`: each item's attempt in order, with a pause between consecutive ones. */
  function AfterBatch(p: Page, courseUrl: string, assignments: seq<OnlineAssignment>, envs: seq<Env>): Page
    requires |envs| == |assignments|
  {
    if assignments == [] then p
    else
      var n := |assignments| - 1;
      AfterCreate(PauseIf(AfterBatch(p, courseUrl, assignments[..n], envs[..n]), n > 0), courseUrl, assignments[n], envs[n])
  }

  /** Every item is counted once: `success_count + len(failed_names) == len(assignments)`. */
  lemma {:induction false} BatchAccounts(assignments: seq<OnlineAssignment>, outcomes: seq<bool>)
    requires |outcomes| == |assignments|
    ensures CountTrue(outcomes) + |FailedNames(assignments, outcomes)| == |assignments|
    decreases |assignments|
  {
    if assignments != [] {
      var n := |assignments| - 1;
      BatchAccounts(assignments[..n], outcomes[..n]);
    }
  }

  /** `FailedIndices` lists exactly the failed positions, each once, in increasing order. */
  lemma {:induction false} FailedIndicesExact(outcomes: seq<bool>)
    ensures var f := FailedIndices(outcomes);
      && (forall k :: 0 <= k < |f| ==> f[k] < |outcomes| && !outcomes[f[k]])
      && (forall i :: 0 <= i < |outcomes| && !outcomes[i] ==> i in f)
      && (forall k, l :: 0 <= k < l < |f| ==> f[k] < f[l])
    decreases |outcomes|
  {
    if outcomes != [] {
      var n := |outcomes| - 1;
      var init := outcomes[..n];
      FailedIndicesExact(init);
      var f := FailedIndices(outcomes);
      assert f == FailedIndices(init) + if outcomes[n] then [] else [n];
      forall i | 0 <= i < |outcomes| && !outcomes[i] ensures i in f {
        if i < n {
          assert !init[i];
        }
      }
    }
  }

  /** `failed_names` holds the name of each failed position, in input order. */
  lemma {:induction false} FailedNamesInOrder(assignments: seq<OnlineAssignment>, outcomes: seq<bool>)
    requires |outcomes| == |assignments|
    ensures var f := FailedIndices(outcomes);
      && |FailedNames(assignments, outcomes)| == |f|
      && forall k :: 0 <= k < |f| ==> f[k] < |assignments| && FailedNames(assignments, outcomes)[k] == assignments[f[k]].name
    decreases |assignments|
  {
    FailedIndicesExact(outcomes);
    if assignments != [] {
      var n := |assignments| - 1;
      FailedNamesInOrder(assignments[..n], outcomes[..n]);
      FailedIndicesExact(outcomes[..n]);
    }
  }

  /** A batch of `n` items pauses `n - 1` times, and a non-empty batch ends on the assignment list. */
  lemma {:induction false} BatchPausesAndEnd(p: Page, courseUrl: string, assignments: seq<OnlineAssignment>, envs: seq<Env>)
    requires |envs| == |assignments|
    ensures AfterBatch(p, courseUrl, assignments, envs).pauses == p.pauses + Gaps(|assignments|)
    ensures assignments != [] ==> AfterBatch(p, courseUrl, assignments, envs).url == ListUrl(courseUrl)
    decreases |assignments|
  {
    if assignments != [] {
      var n := |assignments| - 1;
      var q := AfterBatch(p, courseUrl, assignments[..n], envs[..n]);
      BatchPausesAndEnd(p, courseUrl, assignments[..n], envs[..n]);
      CreateReturnsToList(PauseIf(q, n > 0), courseUrl, assignments[n], envs[n]);
    }
  }

  /** Extending the attempts by one adds its outcome to the count and, on failure, its name to the failures. */
  lemma TallyStep(assignments: seq<OnlineAssignment>, i: nat, seen: seq<bool>, ok: bool)
    requires |seen| == i < |assignments|
    ensures CountTrue(seen + [ok]) == CountTrue(seen) + if ok then 1 else 0
    ensures FailedNames(assignments[..i + 1], seen + [ok])
      == FailedNames(assignments[..i], seen) + if ok then [] else [assignments[i].name]
  {
    assert (seen + [ok])[..i] == seen;
    assert assignments[..i + 1][..i] == assignments[..i];
  }

  /** The outcomes of one more attempt are those before it and its own. */
  lemma OutcomesStep(assignments: seq<OnlineAssignment>, envs: seq<Env>, i: nat)
    requires |envs| == |assignments| && i < |assignments|
    ensures Outcomes(assignments[..i + 1], envs[..i + 1]) == Outcomes(assignments[..i], envs[..i]) + [Succeeds(assignments[i], envs[i])]
  {
  }

  /** Extending the batch by one attempt: a pause when it is not the first, then that attempt. */
  lemma BatchStep(p: Page, courseUrl: string, assignments: seq<OnlineAssignment>, envs: seq<Env>, i: nat)
    requires |envs| == |assignments| && i < |assignments|
    ensures AfterBatch(p, courseUrl, assignments[..i + 1], envs[..i + 1])
      == AfterCreate(PauseIf(AfterBatch(p, courseUrl, assignments[..i], envs[..i]), i > 0), courseUrl, assignments[i], envs[i])
  {
    assert assignments[..i + 1][..i] == assignments[..i];
    assert envs[..i + 1][..i] == envs[..i];
  }
}
