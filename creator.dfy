/**
 * The creator object: the course URL it was built with and the browser it
 * drives, cut down to the page state of `Workflow.Page`. Each method takes
 * the steps of the script's method of the same role on that state, and is
 * proved to leave it as the matching function of `Workflow`, `DetailsForm`,
 * `OutlinePage` or `Rubric` says.
 */
module Creator {
  import opened Wrappers
  import opened Text
  import DateTime
  import opened Assignment
  import opened DetailsForm
  import opened OutlinePage
  import opened Rubric
  import opened Workflow

  /** How `_set_datetime_field` ends: `False`, `True`, or the wait for its field raising. */
  datatype DateOutcome = Unparsed | Typed | NotFound

  class OnlineCreator {
    const courseUrl: string
    /** What the driven browser shows and has done so far. */
    var page: Page

    /** `__init__`: the course URL loses its trailing slashes; the browser has opened nothing yet. */
    constructor (rawCourseUrl: string)
      ensures courseUrl == TrimTrailing(rawCourseUrl, '/')
      ensures page == Page("", [], None, Form({}, map[]), [], map[], false, [], 0, 0)
    {
      courseUrl := TrimTrailing(rawCourseUrl, '/');
      page := Page("", [], None, Form({}, map[]), [], map[], false, [], 0, 0);
    }

    /** `goto_assignments`: open the course's assignment list. */
    method GotoAssignments()
      modifies this
      ensures page == Visit(old(page), ListUrl(courseUrl))
    {
      var listUrl := courseUrl + "/assignments";
      page := page.(url := listUrl, visits := page.visits + [listUrl]);
    }

    // ------------------------------------------------------------ the details form

    /** The ensure-checked idiom: click box `b` only when it is not selected, so it ends selected. */
    method EnsureChecked(b: Box)
      modifies this
      ensures page.form == old(page.form).(checked := old(page.form.checked) + {b})
      ensures page.boxClicks == old(page.boxClicks) + if b in old(page.form.checked) then [] else [b]
      ensures page == old(page).(form := page.form, boxClicks := page.boxClicks)
    {
      if b !in page.form.checked {
        page := page.(form := page.form.(checked := page.form.checked + {b}), boxClicks := page.boxClicks + [b]);
      }
    }

    /**
     * `_set_datetime_field`: a text that does not parse returns `False`
     * before the page is touched; one that parses is typed into the field
     * in the canonical form, unless the wait for the field raises.
     */
    method SetDateTimeField(field: Field, dateStr: string, present: set<Element>) returns (outcome: DateOutcome)
      modifies this
      ensures outcome == Unparsed <==> DateTime.Normalize(dateStr).None?
      ensures outcome == NotFound <==> DateTime.Normalize(dateStr).Some? && FieldElement(field) !in present
      ensures page == old(page).(form := old(page.form).(values :=
        Put(old(page.form.values), field, if outcome == Typed then DateTime.Normalize(dateStr) else None)))
    {
      var dt := DateTime.Parse24h(dateStr);
      if dt.None? {
        return Unparsed;
      }
      var human := DateTime.Format(dt.value);
      assert DateTime.Normalize(dateStr) == Some(human);
      if FieldElement(field) !in present {
        return NotFound;
      }
      page := page.(form := page.form.(values := page.form.values[field := human]));
      outcome := Typed;
    }

    /** The late-due-date group: tick "allow late submissions", then set the late date; failures are swallowed. */
    method AllowLateGroup(a: OnlineAssignment, present: set<Element>)
      modifies this
      ensures var r := LatePart(Filled(old(page.form), old(page.boxClicks), true), a, TypedTexts(a), present);
        page == old(page).(form := r.form, boxClicks := r.clicks)
    {
      if HasText(a.lateDueDate) && BoxElement(AllowLate) in present {
        EnsureChecked(AllowLate);
        var _ := SetDateTimeField(LateDueDate, a.lateDueDate.value, present);
      }
    }

    /** The time-limit group: tick "enforce time limit", then type the minutes; failures are swallowed. */
    method TimeLimitGroup(a: OnlineAssignment, present: set<Element>)
      modifies this
      ensures var r := TimeLimitPart(Filled(old(page.form), old(page.boxClicks), true), a, TypedTexts(a), present);
        page == old(page).(form := r.form, boxClicks := r.clicks)
    {
      if IsSet(a.enforceTimeLimit) && BoxElement(EnforceTimeLimit) in present {
        EnsureChecked(EnforceTimeLimit);
        if HasNumber(a.timeLimit) && FieldElement(TimeLimit) in present {
          page := page.(form := page.form.(values := page.form.values[TimeLimit := IntText(a.timeLimit.value)]));
        }
      }
    }

    /** The anonymous-grading group: tick "anonymous grading"; a failure is swallowed. */
    method AnonymousGroup(a: OnlineAssignment, present: set<Element>)
      modifies this
      ensures var r := AnonymousPart(Filled(old(page.form), old(page.boxClicks), true), a, present);
        page == old(page).(form := r.form, boxClicks := r.clicks)
    {
      if IsSet(a.anonymousGrading) && BoxElement(AnonymousGrading) in present {
        EnsureChecked(AnonymousGrading);
      }
    }

    /** The group-submission group: tick "group submission", then type the group size; failures are swallowed. */
    method GroupSubmissionGroup(a: OnlineAssignment, present: set<Element>)
      modifies this
      ensures var r := GroupPart(Filled(old(page.form), old(page.boxClicks), true), a, TypedTexts(a), present);
        page == old(page).(form := r.form, boxClicks := r.clicks)
    {
      if IsSet(a.groupSubmission) && BoxElement(GroupSubmission) in present {
        EnsureChecked(GroupSubmission);
        if HasNumber(a.groupSize) && FieldElement(GroupSize) in present {
          page := page.(form := page.form.(values := page.form.values[GroupSize := IntText(a.groupSize.value)]));
        }
      }
    }

    /** One date of the form: `_set_datetime_field`, with the wait for its field raising when it is missing. */
    method FillDate(field: Field, dateStr: string, present: set<Element>) returns (found: bool)
      modifies this
      ensures var r := DateStep(Filled(old(page.form), old(page.boxClicks), true), field, DateTime.Normalize(dateStr), present);
        found == r.Some? && page == if found then old(page).(form := r.value.form) else old(page)
    {
      var outcome := SetDateTimeField(field, dateStr, present);
      found := outcome != NotFound;
    }

    /**
     * The title and the two dates of `_fill_create_form`; `completed` is
     * false when one of their fields cannot be found. The clicks of this
     * filling start here.
     */
    method FillRequiredFields(a: OnlineAssignment, present: set<Element>) returns (completed: bool)
      modifies this
      ensures var r := RequiredPart(old(page.form), a, TypedTexts(a), present);
        page == old(page).(form := r.form, boxClicks := r.clicks) && completed == r.completed
    {
      page := page.(boxClicks := []);
      if FieldElement(Title) !in present {
        return false;
      }
      page := page.(form := page.form.(values := page.form.values[Title := a.name]));
      completed := FillDate(ReleaseDate, a.releaseDate, present);
      if completed {
        completed := FillDate(DueDate, a.dueDate, present);
      }
    }

    /** The four optional groups of `_fill_create_form`, in order. */
    method FillOptionalGroups(a: OnlineAssignment, present: set<Element>)
      modifies this
      ensures var r := OptionalParts(Filled(old(page.form), old(page.boxClicks), true), a, TypedTexts(a), present);
        page == old(page).(form := r.form, boxClicks := r.clicks)
    {
      AllowLateGroup(a, present);
      TimeLimitGroup(a, present);
      AnonymousGroup(a, present);
      GroupSubmissionGroup(a, present);
    }

    /**
     * `_fill_create_form`: the required fields, then the four optional
     * groups. `completed` is whether no exception escaped; the page's box
     * clicks record the clicks of this filling.
     */
    method FillCreateForm(a: OnlineAssignment, present: set<Element>) returns (completed: bool)
      modifies this
      ensures var r := Fill(old(page.form), a, present);
        page == old(page).(form := r.form, boxClicks := r.clicks) && completed == r.completed
    {
      completed := FillRequiredFields(a, present);
      if completed {
        FillOptionalGroups(a, present);
      }
    }

    /** The type dialog: click the first button whose text mentions "Online Assignment", if any. */
    method ChooseType(labels: seq<string>)
      modifies this
      ensures page == old(page).(typeChosen := FirstOnline(labels))
    {
      var i := 0;
      while i < |labels|
        invariant 0 <= i <= |labels|
        invariant forall j :: 0 <= j < i ==> !Mentions(labels[j], OnlineLabel)
        invariant page == old(page)
      {
        if Mentions(labels[i], OnlineLabel) {
          page := page.(typeChosen := Some(i));
          FirstOnlineAt(labels, i);
          return;
        }
        i := i + 1;
      }
      page := page.(typeChosen := None);
      FirstOnlineNone(labels);
    }

    static lemma {:induction false} FirstOnlineAt(labels: seq<string>, i: nat)
      requires i < |labels| && Mentions(labels[i], OnlineLabel)
      requires forall j :: 0 <= j < i ==> !Mentions(labels[j], OnlineLabel)
      ensures FirstOnline(labels) == Some(i)
      decreases i
    {
      if i > 0 {
        FirstOnlineAt(labels[1..], i - 1);
      }
    }

    static lemma {:induction false} FirstOnlineNone(labels: seq<string>)
      requires forall j :: 0 <= j < |labels| ==> !Mentions(labels[j], OnlineLabel)
      ensures FirstOnline(labels) == None
      decreases |labels|
    {
      if labels != [] {
        FirstOnlineNone(labels[1..]);
      }
    }

    // ------------------------------------------------------------ the outline page and the rubric

    /**
     * `_fill_outline_page`: the question title (when there is question
     * text), the point value, the problem template, then Save; the first
     * control that cannot be found ends the page, and nothing is raised.
     */
    method FillOutlinePage(a: OnlineAssignment, present: set<OutlineControl>)
      modifies this
      ensures page == old(page).(outline := OutlineValues(old(page.outline), a, present),
                                 outlineSaved := old(page.outlineSaved) || SaveDone(a, present))
    {
      if HasText(a.questionText) {
        if Input(QuestionTitle) !in present {
          return;
        }
        page := page.(outline := page.outline[QuestionTitle := a.questionText.value]);
      }
      if Input(PointValue) !in present {
        return;
      }
      page := page.(outline := page.outline[PointValue := IntText(a.totalPoints)]);
      if Input(ProblemBody) !in present {
        return;
      }
      page := page.(outline := page.outline[ProblemBody := ProblemTemplate]);
      if SaveButton !in present {
        return;
      }
      page := page.(outlineSaved := true);
    }

    /**
     * `_setup_rubric`: when the current URL names an assignment, open its
     * rubric editor, build the item list, then apply the items in order.
     */
    method SetupRubric(rubricData: RubricDict, env: Env)
      modifies this
      ensures page == RubricAfter(old(page), courseUrl, rubricData, env)
    {
      var shown := OpenRubricEditor(env);
      if shown {
        var items := BuildItems(rubricData);
        ApplyItems(items, env);
      }
    }

    /** Derive the rubric editor's URL from the current one and open it; `false` when the URL names no assignment. */
    method OpenRubricEditor(env: Env) returns (shown: bool)
      modifies this
      ensures shown == RubricUrl(courseUrl, old(page.url)).Some?
      ensures page == if shown then Visit(old(page), RubricUrl(courseUrl, old(page.url)).value).(rubric := env.rubric0) else old(page)
    {
      var at := Find(page.url, AssignmentsSegment);
      if at.None? {
        return false;
      }
      var assignmentId := UpTo(page.url, at.value + |AssignmentsSegment|, '/');
      var rubricUrl := courseUrl + AssignmentsSegment + assignmentId + "/rubric/edit";
      page := page.(url := rubricUrl, visits := page.visits + [rubricUrl], rubric := env.rubric0);
      shown := true;
    }

    /**
     * Apply the items in order: item 0 edits the default item, each later one
     * adds an item first; `addClicks` counts the clicks on "Add Rubric Item"
     * that went through.
     */
    method ApplyItems(items: seq<Item>, env: Env)
      modifies this
      ensures page == old(page).(rubric := Synced(old(page.rubric), items, env.faults, env.rubricPage, |items|),
                                 addClicks := old(page.addClicks) + AddClicks(env.faults, |items|, env.rubricPage))
    {
      for i := 0 to |items|
        invariant page == old(page).(rubric := Synced(old(page.rubric), items, env.faults, env.rubricPage, i),
                                     addClicks := old(page.addClicks) + AddClicks(env.faults, i, env.rubricPage))
      {
        var fault := FaultAt(env.faults, i);
        if i == 0 {
          page := page.(rubric := EditDefault(page.rubric, items[i], fault));
        } else {
          if Adds(fault, env.rubricPage) {
            page := page.(addClicks := page.addClicks + 1);
          }
          page := page.(rubric := AddAndFill(page.rubric, i, items[i], fault, env.rubricPage));
        }
      }
    }

    // ------------------------------------------------------------ create and batch_create

    /** The steps of `create` whose failure makes it return `False`; `ok` says whether all went through. */
    method RequiredSteps(a: OnlineAssignment, env: Env) returns (ok: bool)
      modifies this
      ensures ok == Succeeds(a, env)
      ensures page == AfterRequired(old(page), a, env)
    {
      if !env.createButton {
        return false;
      }
      ChooseType(env.typeLabels);
      if !env.firstNext {
        return false;
      }
      page := page.(form := env.form0);
      var completed := FillCreateForm(a, env.present);
      if !completed {
        return false;
      }
      ok := env.secondNext && env.createFinal;
    }

    /**
     * `create`: `True` exactly when the required steps went through; the
     * outline and rubric steps cannot change that; the assignment list is
     * opened on both exits.
     */
    method Create(a: OnlineAssignment, env: Env) returns (ok: bool)
      modifies this
      ensures ok == Succeeds(a, env)
      ensures page == AfterCreate(old(page), courseUrl, a, env)
    {
      ok := RequiredSteps(a, env);
      if ok {
        page := page.(url := env.assignmentUrl, outline := env.outline0, outlineSaved := false);
        FillOutlinePage(a, env.outlinePresent);
        if HasRubric(a.rubric) {
          SetupRubric(a.rubric.value, env);
        }
      }
      GotoAssignments();
    }

    /**
     * `batch_create`: every assignment in order, one attempt each, with a
     * pause between consecutive ones; returns the number of successes and
     * the names of the failures.
     */
    method BatchCreate(assignments: seq<OnlineAssignment>, envs: seq<Env>) returns (successCount: nat, failedNames: seq<string>)
      requires |envs| == |assignments|
      modifies this
      ensures successCount == CountTrue(Outcomes(assignments, envs))
      ensures failedNames == FailedNames(assignments, Outcomes(assignments, envs))
      ensures page == AfterBatch(old(page), courseUrl, assignments, envs)
    {
      successCount, failedNames := 0, [];
      ghost var seen: seq<bool> := [];
      for i := 0 to |assignments|
        invariant seen == Outcomes(assignments[..i], envs[..i])
        invariant successCount == CountTrue(seen)
        invariant failedNames == FailedNames(assignments[..i], seen)
        invariant page == PauseIf(AfterBatch(old(page), courseUrl, assignments[..i], envs[..i]), 0 < i < |assignments|)
      {
        var ok := Attempt(assignments, envs, i, old(page));
        OutcomesStep(assignments, envs, i);
        TallyStep(assignments, i, seen, ok);
        if ok {
          successCount := successCount + 1;
        } else {
          failedNames := failedNames + [assignments[i].name];
        }
        seen := seen + [ok];
      }
      WholePrefix(assignments, envs);
    }

    /** Attempt `i` of a batch: create it, then pause unless it is the last. */
    method Attempt(assignments: seq<OnlineAssignment>, envs: seq<Env>, i: nat, ghost start: Page) returns (ok: bool)
      requires |envs| == |assignments| && i < |assignments|
      requires page == PauseIf(AfterBatch(start, courseUrl, assignments[..i], envs[..i]), i > 0)
      modifies this
      ensures ok == Succeeds(assignments[i], envs[i])
      ensures page == PauseIf(AfterBatch(start, courseUrl, assignments[..i + 1], envs[..i + 1]), i + 1 < |assignments|)
    {
      ok := Create(assignments[i], envs[i]);
      BatchStep(start, courseUrl, assignments, envs, i);
      if i + 1 < |assignments| {
        page := page.(pauses := page.pauses + 1);
      }
    }

    static lemma WholePrefix(assignments: seq<OnlineAssignment>, envs: seq<Env>)
      ensures assignments[..|assignments|] == assignments && envs[..|envs|] == envs
    {
    }
  }
}
