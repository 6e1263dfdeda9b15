/**
 * What `_fill_create_form` does to the assignment-details form: the title,
 * the two required dates, and four optional groups (late due date, time
 * limit, anonymous grading, group submission), each a checkbox that is
 * clicked only when not already selected plus, for three of them, a
 * dependent field. A failure inside an optional group is swallowed; a
 * missing title field, or a missing date field for a date that parsed,
 * raises out of the form and aborts the attempt.
 */
module DetailsForm {
  import opened Wrappers
  import opened Text
  import DateTime
  import opened Assignment

  datatype Box = AllowLate | EnforceTimeLimit | AnonymousGrading | GroupSubmission

  datatype Field = Title | ReleaseDate | DueDate | LateDueDate | TimeLimit | GroupSize

  /** A form control the page may or may not let the driver find. */
  datatype Element = BoxElement(box: Box) | FieldElement(field: Field)

  /** The form as the page holds it: which boxes are ticked and what each field reads. */
  datatype Form = Form(checked: set<Box>, values: map<Field, string>)

  /** The form after filling, the checkbox clicks made on the way, and whether no exception escaped. */
  datatype Filled = Filled(form: Form, clicks: seq<Box>, completed: bool)

  /**
   * The texts filling types: the three dates as `_set_datetime_field`
   * normalises them (`None`: unparseable or absent), and `str()` of the time
   * limit and of the group size (`None`: absent or zero).
   */
  datatype Texts = Texts(release: Option<string>, due: Option<string>, late: Option<string>,
                         timeLimit: Option<string>, groupSize: Option<string>)

  function TypedTexts(a: OnlineAssignment): Texts
  {
    Texts(DateTime.Normalize(a.releaseDate), DateTime.Normalize(a.dueDate),
          if a.lateDueDate.Some? then DateTime.Normalize(a.lateDueDate.value) else None,
          if HasNumber(a.timeLimit) then Some(IntText(a.timeLimit.value)) else None,
          if HasNumber(a.groupSize) then Some(IntText(a.groupSize.value)) else None)
  }

  // ---------------------------------------------------------------- what filling should do

  /** The `if` that guards the group of box `b`. */
  predicate Wanted(b: Box, a: OnlineAssignment)
  {
    match b
    case AllowLate => HasText(a.lateDueDate)
    case EnforceTimeLimit => IsSet(a.enforceTimeLimit)
    case AnonymousGrading => IsSet(a.anonymousGrading)
    case GroupSubmission => IsSet(a.groupSubmission)
  }

  /** The group of box `b` is asked for and its box can be found. */
  predicate Asked(b: Box, a: OnlineAssignment, present: set<Element>)
  {
    Wanted(b, a) && BoxElement(b) in present
  }

  /** The steps whose failure escapes `_fill_create_form`: the title, and each date that parses. */
  predicate RequiredFieldsResolve(texts: Texts, present: set<Element>)
  {
    && FieldElement(Title) in present
    && (texts.release.Some? ==> FieldElement(ReleaseDate) in present)
    && (texts.due.Some? ==> FieldElement(DueDate) in present)
  }

  /** Box `b` ends ticked by filling: the form got past its required steps, and the group was asked for. */
  predicate Ticked(b: Box, a: OnlineAssignment, texts: Texts, present: set<Element>)
  {
    RequiredFieldsResolve(texts, present) && Asked(b, a, present)
  }

  /** The text filling types into `field`, if it types one. */
  function WrittenValue(field: Field, a: OnlineAssignment, texts: Texts, present: set<Element>): Option<string>
  {
    if FieldElement(field) !in present then None
    else
      match field
      case Title => Some(a.name)
      case ReleaseDate => if FieldElement(Title) in present then texts.release else None
      case DueDate =>
        if FieldElement(Title) in present && (texts.release.Some? ==> FieldElement(ReleaseDate) in present)
        then texts.due else None
      case LateDueDate => if Ticked(AllowLate, a, texts, present) then texts.late else None
      case TimeLimit => if Ticked(EnforceTimeLimit, a, texts, present) then texts.timeLimit else None
      case GroupSize => if Ticked(GroupSubmission, a, texts, present) then texts.groupSize else None
  }

  // ---------------------------------------------------------------- the form, step by step

  /** `field` set to the text in `value`, or left alone when there is none. */
  function Put(values: map<Field, string>, field: Field, value: Option<string>): map<Field, string>
  {
    if value.Some? then values[field := value.value] else values
  }

  /** `{b}` when `b` is ticked by its group, `{}` otherwise. */
  function TickIf(b: Box, ticked: bool): set<Box>
  {
    if ticked then {b} else {}
  }

  /** The click box `b` costs on a form whose ticked boxes are `checked`. */
  function ClickIf(b: Box, checked: set<Box>, ticked: bool): seq<Box>
  {
    if ticked && b !in checked then [b] else []
  }

  /** The ensure-checked idiom: click the box only when it is not selected. */
  function Check(f: Filled, b: Box): (r: Filled)
    ensures r.form == f.form.(checked := f.form.checked + {b})
    ensures r.clicks == f.clicks + ClickIf(b, f.form.checked, true) && r.completed == f.completed
  {
    if b in f.form.checked then f
    else f.(form := f.form.(checked := f.form.checked + {b}), clicks := f.clicks + [b])
  }

  /**
   * `_set_datetime_field`, given the normalised text: it goes into the
   * field; an unparseable text (`None`) leaves the page alone (the `False`
   * return is ignored); the result is `None` when the field cannot be found,
   * i.e. the wait raises.
   */
  function DateStep(f: Filled, field: Field, normalized: Option<string>, present: set<Element>): (r: Option<Filled>)
    ensures r.Some? <==> normalized.None? || FieldElement(field) in present
    ensures r.Some? ==> r.value == f.(form := f.form.(values := Put(f.form.values, field, normalized)))
  {
    match normalized
    case None => Some(f)
    case Some(c) => if FieldElement(field) in present then Some(f.(form := f.form.(values := f.form.values[field := c]))) else None
  }

  /** What a group made of box `b` and a dependent `field` does: tick `b`, then type `value` when the field is found. */
  predicate GroupDone(f: Filled, r: Filled, b: Box, asked: bool, field: Field, value: Option<string>, present: set<Element>)
  {
    && r.form.checked == f.form.checked + TickIf(b, asked)
    && r.form.values == Put(f.form.values, field, GroupText(asked, field, value, present))
    && r.clicks == f.clicks + ClickIf(b, f.form.checked, asked)
    && r.completed == f.completed
  }

  /** The late-due-date group: tick "allow late submissions", then set the late date. */
  function LatePart(f: Filled, a: OnlineAssignment, texts: Texts, present: set<Element>): (r: Filled)
    ensures GroupDone(f, r, AllowLate, Asked(AllowLate, a, present), LateDueDate, texts.late, present)
  {
    if !HasText(a.lateDueDate) || BoxElement(AllowLate) !in present then f
    else
      var checked := Check(f, AllowLate);
      match DateStep(checked, LateDueDate, texts.late, present)
      case None => checked
      case Some(g) => g
  }

  /** The time-limit group: tick "enforce time limit", then type the minutes. */
  function TimeLimitPart(f: Filled, a: OnlineAssignment, texts: Texts, present: set<Element>): (r: Filled)
    ensures GroupDone(f, r, EnforceTimeLimit, Asked(EnforceTimeLimit, a, present), TimeLimit, texts.timeLimit, present)
  {
    if !IsSet(a.enforceTimeLimit) || BoxElement(EnforceTimeLimit) !in present then f
    else
      var checked := Check(f, EnforceTimeLimit);
      if texts.timeLimit.Some? && FieldElement(TimeLimit) in present
      then checked.(form := checked.form.(values := checked.form.values[TimeLimit := texts.timeLimit.value]))
      else checked
  }

  /** The anonymous-grading group: tick "anonymous grading". */
  function AnonymousPart(f: Filled, a: OnlineAssignment, present: set<Element>): (r: Filled)
    ensures r.form == f.form.(checked := f.form.checked + TickIf(AnonymousGrading, Asked(AnonymousGrading, a, present)))
    ensures r.clicks == f.clicks + ClickIf(AnonymousGrading, f.form.checked, Asked(AnonymousGrading, a, present))
    ensures r.completed == f.completed
  {
    if !IsSet(a.anonymousGrading) || BoxElement(AnonymousGrading) !in present then f
    else Check(f, AnonymousGrading)
  }

  /** The group-submission group: tick "group submission", then type the group size. */
  function GroupPart(f: Filled, a: OnlineAssignment, texts: Texts, present: set<Element>): (r: Filled)
    ensures GroupDone(f, r, GroupSubmission, Asked(GroupSubmission, a, present), GroupSize, texts.groupSize, present)
  {
    if !IsSet(a.groupSubmission) || BoxElement(GroupSubmission) !in present then f
    else
      var checked := Check(f, GroupSubmission);
      if texts.groupSize.Some? && FieldElement(GroupSize) in present
      then checked.(form := checked.form.(values := checked.form.values[GroupSize := texts.groupSize.value]))
      else checked
  }

  /** Whether filling ticks each box. */
  function TickedBy(a: OnlineAssignment, texts: Texts, present: set<Element>): Box -> bool
  {
    b => Ticked(b, a, texts, present)
  }

  /** What filling types into each field. */
  function WrittenBy(a: OnlineAssignment, texts: Texts, present: set<Element>): Field -> Option<string>
  {
    field => WrittenValue(field, a, texts, present)
  }

  /** The boxes `ticked` picks. */
  function Boxes(ticked: Box -> bool): set<Box>
  {
    TickIf(AllowLate, ticked(AllowLate)) + TickIf(EnforceTimeLimit, ticked(EnforceTimeLimit))
      + TickIf(AnonymousGrading, ticked(AnonymousGrading)) + TickIf(GroupSubmission, ticked(GroupSubmission))
  }

  /** The clicks that ticking the boxes `ticked` picks costs, in the order the groups come in the form. */
  function ClickSeq(checked: set<Box>, ticked: Box -> bool): seq<Box>
  {
    ClickIf(AllowLate, checked, ticked(AllowLate)) + ClickIf(EnforceTimeLimit, checked, ticked(EnforceTimeLimit))
      + ClickIf(AnonymousGrading, checked, ticked(AnonymousGrading)) + ClickIf(GroupSubmission, checked, ticked(GroupSubmission))
  }

  /** `values` with the texts of `written` put in, field by field in form order. */
  function Overlay(values: map<Field, string>, written: Field -> Option<string>): map<Field, string>
  {
    Put(Put(Put(Put(Put(Put(values, Title, written(Title)), ReleaseDate, written(ReleaseDate)),
      DueDate, written(DueDate)), LateDueDate, written(LateDueDate)), TimeLimit, written(TimeLimit)),
      GroupSize, written(GroupSize))
  }

  /** A group's text when it is asked for and its field is found. */
  function GroupText(asked: bool, field: Field, value: Option<string>, present: set<Element>): Option<string>
  {
    if asked && FieldElement(field) in present then value else None
  }

  /** The four optional groups, in the order the form has them. */
  function OptionalParts(f: Filled, a: OnlineAssignment, texts: Texts, present: set<Element>): Filled
  {
    GroupPart(AnonymousPart(TimeLimitPart(LatePart(f, a, texts, present), a, texts, present), a, present), a, texts, present)
  }

  /**
   * Once the required steps went through, the optional groups tick the
   * `Ticked` boxes, click those not yet ticked once each in form order, and
   * type the group texts of `WrittenValue`.
   */
  lemma OptionalPartsClosedForm(f: Filled, a: OnlineAssignment, texts: Texts, present: set<Element>)
    requires RequiredFieldsResolve(texts, present)
    ensures var r := OptionalParts(f, a, texts, present);
      && r.form.checked == f.form.checked + Boxes(TickedBy(a, texts, present))
      && r.form.values == Put(Put(Put(f.form.values,
           LateDueDate, WrittenValue(LateDueDate, a, texts, present)),
           TimeLimit, WrittenValue(TimeLimit, a, texts, present)),
           GroupSize, WrittenValue(GroupSize, a, texts, present))
      && r.clicks == f.clicks + ClickSeq(f.form.checked, TickedBy(a, texts, present))
      && r.completed == f.completed
  {
    var p1 := LatePart(f, a, texts, present);
    var p2 := TimeLimitPart(p1, a, texts, present);
    var p3 := AnonymousPart(p2, a, present);
    var p4 := GroupPart(p3, a, texts, present);
    Chain(f, p1, p2, p3, p4, TickedBy(a, texts, present), texts.late, texts.timeLimit, texts.groupSize, present);
  }

  /**
   * The four groups one after the other, each ticking its own box when
   * `ticked` says so: together they tick the boxes `ticked` picks, click
   * each of those not already ticked once in form order, and type the
   * group texts.
   */
  lemma Chain(f: Filled, p1: Filled, p2: Filled, p3: Filled, p4: Filled, ticked: Box -> bool,
              late: Option<string>, limit: Option<string>, size: Option<string>, present: set<Element>)
    requires GroupDone(f, p1, AllowLate, ticked(AllowLate), LateDueDate, late, present)
    requires GroupDone(p1, p2, EnforceTimeLimit, ticked(EnforceTimeLimit), TimeLimit, limit, present)
    requires p3.form == p2.form.(checked := p2.form.checked + TickIf(AnonymousGrading, ticked(AnonymousGrading)))
    requires p3.clicks == p2.clicks + ClickIf(AnonymousGrading, p2.form.checked, ticked(AnonymousGrading))
    requires p3.completed == p2.completed
    requires GroupDone(p3, p4, GroupSubmission, ticked(GroupSubmission), GroupSize, size, present)
    ensures p4.form.checked == f.form.checked + Boxes(ticked)
    ensures p4.form.values == Put(Put(Put(f.form.values,
      LateDueDate, GroupText(ticked(AllowLate), LateDueDate, late, present)),
      TimeLimit, GroupText(ticked(EnforceTimeLimit), TimeLimit, limit, present)),
      GroupSize, GroupText(ticked(GroupSubmission), GroupSize, size, present))
    ensures p4.clicks == f.clicks + ClickSeq(f.form.checked, ticked)
    ensures p4.completed == f.completed
  {
    ChainClicks(f.form.checked, p1.form.checked, p2.form.checked, f.clicks, p1.clicks, p2.clicks, p3.clicks, p4.clicks, ticked);
  }

  /** The click half of `Chain`: a box's click does not depend on boxes ticked by the groups before it. */
  lemma ChainClicks(c0: set<Box>, c1: set<Box>, c2: set<Box>, k0: seq<Box>, k1: seq<Box>, k2: seq<Box>, k3: seq<Box>, k4: seq<Box>,
                    ticked: Box -> bool)
    requires c1 == c0 + TickIf(AllowLate, ticked(AllowLate))
    requires c2 == c1 + TickIf(EnforceTimeLimit, ticked(EnforceTimeLimit))
    requires k1 == k0 + ClickIf(AllowLate, c0, ticked(AllowLate))
    requires k2 == k1 + ClickIf(EnforceTimeLimit, c1, ticked(EnforceTimeLimit))
    requires k3 == k2 + ClickIf(AnonymousGrading, c2, ticked(AnonymousGrading))
    requires k4 == k3 + ClickIf(GroupSubmission, c2 + TickIf(AnonymousGrading, ticked(AnonymousGrading)), ticked(GroupSubmission))
    ensures k4 == k0 + ClickSeq(c0, ticked)
  {
    var t := ticked;
    ClickIfIgnores(EnforceTimeLimit, c0, TickIf(AllowLate, t(AllowLate)), t(EnforceTimeLimit));
    ClickIfIgnores(AnonymousGrading, c0, TickIf(AllowLate, t(AllowLate)) + TickIf(EnforceTimeLimit, t(EnforceTimeLimit)), t(AnonymousGrading));
    ClickIfIgnores(GroupSubmission, c0, TickIf(AllowLate, t(AllowLate)) + TickIf(EnforceTimeLimit, t(EnforceTimeLimit))
      + TickIf(AnonymousGrading, t(AnonymousGrading)), t(GroupSubmission));
    assert c2 + TickIf(AnonymousGrading, t(AnonymousGrading)) == c0 + (TickIf(AllowLate, t(AllowLate)) + TickIf(EnforceTimeLimit, t(EnforceTimeLimit))
      + TickIf(AnonymousGrading, t(AnonymousGrading)));
    Append4(k0, ClickIf(AllowLate, c0, t(AllowLate)), ClickIf(EnforceTimeLimit, c0, t(EnforceTimeLimit)),
      ClickIf(AnonymousGrading, c0, t(AnonymousGrading)), ClickIf(GroupSubmission, c0, t(GroupSubmission)));
  }

  /** Boxes other than `b` ticked on the way do not change whether `b` costs a click. */
  lemma ClickIfIgnores(b: Box, c: set<Box>, extra: set<Box>, t: bool)
    requires b !in extra
    ensures ClickIf(b, c + extra, t) == ClickIf(b, c, t)
  {
  }

  lemma Append4(k: seq<Box>, a: seq<Box>, b: seq<Box>, c: seq<Box>, d: seq<Box>)
    ensures k + a + b + c + d == k + (a + b + c + d)
  {
  }

  /**
   * The required steps of `_fill_create_form`: the title, then the release
   * and due dates; a field that cannot be found raises, which leaves the
   * form as far as it got and not completed.
   */
  function RequiredPart(form: Form, a: OnlineAssignment, texts: Texts, present: set<Element>): Filled
  {
    if FieldElement(Title) !in present then Filled(form, [], false)
    else
      var titled := Filled(form.(values := form.values[Title := a.name]), [], true);
      match DateStep(titled, ReleaseDate, texts.release, present)
      case None => titled.(completed := false)
      case Some(released) =>
        match DateStep(released, DueDate, texts.due, present)
        case None => released.(completed := false)
        case Some(dated) => dated
  }

  /** `_fill_create_form` with the typed texts already computed: the required steps, then the optional groups. */
  function FillWith(form: Form, a: OnlineAssignment, texts: Texts, present: set<Element>): Filled
  {
    var required := RequiredPart(form, a, texts, present);
    if required.completed then OptionalParts(required, a, texts, present) else required
  }

  /**
   * Whatever state the form starts in, filling ticks the `Ticked` boxes and
   * puts in the texts of `WrittenValue` on top of it, clicks exactly the
   * boxes it ticks that were not ticked, and raises exactly when a required
   * step cannot find its field.
   */
  lemma FillClosedForm(form: Form, a: OnlineAssignment, texts: Texts, present: set<Element>)
    ensures var r := FillWith(form, a, texts, present);
      && r.form == Form(form.checked + Boxes(TickedBy(a, texts, present)), Overlay(form.values, WrittenBy(a, texts, present)))
      && r.clicks == ClickSeq(form.checked, TickedBy(a, texts, present))
      && r.completed == RequiredFieldsResolve(texts, present)
  {
    if RequiredFieldsResolve(texts, present) {
      var titled := Filled(form.(values := form.values[Title := a.name]), [], true);
      var dated := Filled(form.(values := Put(Put(form.values[Title := a.name], ReleaseDate, texts.release), DueDate, texts.due)), [], true);
      assert FillWith(form, a, texts, present) == OptionalParts(dated, a, texts, present);
      OptionalPartsClosedForm(dated, a, texts, present);
    }
  }

  /** `_fill_create_form` on a form in state `form`, with the controls in `present` findable. */
  function Fill(form: Form, a: OnlineAssignment, present: set<Element>): Filled
  {
    FillWith(form, a, TypedTexts(a), present)
  }

  // ---------------------------------------------------------------- properties

  /** Ticking an already ticked box changes nothing and clicks nothing. */
  lemma CheckIdempotent(f: Filled, b: Box)
    ensures Check(Check(f, b), b) == Check(f, b)
  {
  }

  /**
   * What filling leaves behind, box by box and field by field: a box ends
   * ticked when it was ticked or its group asked for it, and it is clicked
   * exactly when it was not ticked and its group asked for it, so a ticked
   * box is never clicked (which would untick it) and a box whose flag is
   * `None` or `False` is left as it was; a field reads what filling typed
   * into it, or what it read before; and the form raises exactly when a
   * required step cannot find its field.
   */
  lemma FillState(form: Form, a: OnlineAssignment, texts: Texts, present: set<Element>)
    ensures var r := FillWith(form, a, texts, present);
      && r.completed == RequiredFieldsResolve(texts, present)
      && (forall b :: b in r.form.checked <==> b in form.checked || Ticked(b, a, texts, present))
      && (forall b :: b in r.clicks <==> b !in form.checked && Ticked(b, a, texts, present))
      && (forall i, j :: 0 <= i < j < |r.clicks| ==> r.clicks[i] != r.clicks[j])
      && (forall field :: field in r.form.values <==>
            field in form.values || WrittenValue(field, a, texts, present).Some?)
      && (forall field :: field in r.form.values ==>
            r.form.values[field] == if WrittenValue(field, a, texts, present).Some?
              then WrittenValue(field, a, texts, present).value else form.values[field])
  {
    FillClosedForm(form, a, texts, present);
    BoxesPick(TickedBy(a, texts, present));
    ClickSeqPicks(form.checked, TickedBy(a, texts, present));
    ClickSeqOnce(form.checked, TickedBy(a, texts, present));
    OverlayPuts(form.values, WrittenBy(a, texts, present));
  }

  /** `Boxes(ticked)` holds exactly the boxes `ticked` picks. */
  lemma BoxesPick(ticked: Box -> bool)
    ensures forall b :: b in Boxes(ticked) <==> ticked(b)
  {
    forall b ensures b in Boxes(ticked) <==> ticked(b) {
      match b
      case AllowLate =>
      case EnforceTimeLimit =>
      case AnonymousGrading =>
      case GroupSubmission =>
    }
  }

  /** `ClickSeq` clicks exactly the picked boxes not yet ticked. */
  lemma ClickSeqPicks(checked: set<Box>, ticked: Box -> bool)
    ensures forall b :: b in ClickSeq(checked, ticked) <==> ticked(b) && b !in checked
  {
    var s := ClickSeq(checked, ticked);
    forall b ensures b in s <==> ticked(b) && b !in checked {
      match b
      case AllowLate =>
      case EnforceTimeLimit =>
      case AnonymousGrading =>
      case GroupSubmission =>
    }
  }

  /** `ClickSeq` clicks no box twice. */
  lemma ClickSeqOnce(checked: set<Box>, ticked: Box -> bool)
    ensures var s := ClickSeq(checked, ticked); forall i, j :: 0 <= i < j < |s| ==> s[i] != s[j]
  {
    var c1 := ClickIf(AllowLate, checked, ticked(AllowLate));
    var c2 := ClickIf(EnforceTimeLimit, checked, ticked(EnforceTimeLimit));
    var c3 := ClickIf(AnonymousGrading, checked, ticked(AnonymousGrading));
    var c4 := ClickIf(GroupSubmission, checked, ticked(GroupSubmission));
    var s := ClickSeq(checked, ticked);
    forall i, j | 0 <= i < j < |s| ensures s[i] != s[j] {
      assert s == c1 + c2 + c3 + c4;
    }
  }

  /** Each field of `Overlay(values, written)` holds the text of `written` there, if any, else what it held. */
  lemma OverlayPuts(values: map<Field, string>, written: Field -> Option<string>)
    ensures var o := Overlay(values, written);
      && (forall field :: field in o <==> field in values || written(field).Some?)
      && (forall field :: field in o ==> o[field] == if written(field).Some? then written(field).value else values[field])
  {
    var o := Overlay(values, written);
    forall field ensures field in o <==> field in values || written(field).Some?
      ensures field in o ==> o[field] == if written(field).Some? then written(field).value else values[field]
    {
      match field
      case Title =>
      case ReleaseDate =>
      case DueDate =>
      case LateDueDate =>
      case TimeLimit =>
      case GroupSize =>
    }
  }

  /**
   * Filling a second time, on the form the first fill left, types the same
   * texts again and clicks nothing.
   */
  lemma FillIdempotent(form: Form, a: OnlineAssignment, texts: Texts, present: set<Element>)
    ensures var once := FillWith(form, a, texts, present);
      var twice := FillWith(once.form, a, texts, present);
      twice.form == once.form && twice.clicks == [] && twice.completed == once.completed
  {
    var once := FillWith(form, a, texts, present);
    var ticked := TickedBy(a, texts, present);
    var written := WrittenBy(a, texts, present);
    FillClosedForm(form, a, texts, present);
    FillClosedForm(once.form, a, texts, present);
    OverlayTwice(form.values, written);
    BoxesPick(ticked);
    ClickSeqPicks(once.form.checked, ticked);
    ClickSeqNone(once.form.checked, ticked);
  }

  /** Putting the same texts in a second time changes nothing. */
  lemma OverlayTwice(values: map<Field, string>, written: Field -> Option<string>)
    ensures Overlay(Overlay(values, written), written) == Overlay(values, written)
  {
    var once := Overlay(values, written);
    OverlayPuts(values, written);
    OverlayPuts(once, written);
  }

  /** Once every picked box is ticked, ticking them again clicks nothing. */
  lemma ClickSeqNone(checked: set<Box>, ticked: Box -> bool)
    requires forall b :: ticked(b) ==> b in checked
    ensures ClickSeq(checked, ticked) == []
  {
  }

  /**
   * When the form goes through, the title is typed, a release or due date
   * that parsed is typed as normalised, and one that did not leaves its
   * field as it was.
   */
  lemma FillDates(form: Form, a: OnlineAssignment, texts: Texts, present: set<Element>)
    requires RequiredFieldsResolve(texts, present)
    ensures var r := FillWith(form, a, texts, present);
      && r.completed
      && Title in r.form.values && r.form.values[Title] == a.name
      && (texts.release.Some? ==> ReleaseDate in r.form.values && r.form.values[ReleaseDate] == texts.release.value)
      && (texts.release.None? ==> Unwritten(form, r.form, ReleaseDate))
      && (texts.due.Some? ==> DueDate in r.form.values && r.form.values[DueDate] == texts.due.value)
      && (texts.due.None? ==> Unwritten(form, r.form, DueDate))
  {
    FillState(form, a, texts, present);
    assert WrittenValue(Title, a, texts, present) == Some(a.name);
    assert WrittenValue(ReleaseDate, a, texts, present) == texts.release;
    assert WrittenValue(DueDate, a, texts, present) == texts.due;
  }

  /** Field `field` reads the same in `before` and `after`. */
  predicate Unwritten(before: Form, after: Form, field: Field)
  {
    && (field in after.values <==> field in before.values)
    && (field in before.values ==> after.values[field] == before.values[field])
  }
}
