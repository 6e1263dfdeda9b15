/**
 * `_fill_outline_page`: on the outline page of a freshly created assignment,
 * type the question title (when the assignment has question text), the point
 * value and the answer-box template, then press Save. Every step looks its
 * control up first; the first lookup that fails ends the page, and that
 * failure is only logged, never raised.
 */
module OutlinePage {
  import opened Wrappers
  import opened Text
  import opened Assignment

  datatype OutlineField = QuestionTitle | PointValue | ProblemBody

  /** A control of the outline page the driver looks up. */
  datatype OutlineControl = Input(field: OutlineField) | SaveButton

  /** What goes into the problem box: two empty lines and a blank answer box. */
  const ProblemTemplate := "\n\n|____|"

  /** The title step went through: there is no question text to type, or its input was found. */
  predicate TitleDone(a: OnlineAssignment, present: set<OutlineControl>)
  {
    !HasText(a.questionText) || Input(QuestionTitle) in present
  }

  predicate PointsDone(a: OnlineAssignment, present: set<OutlineControl>)
  {
    TitleDone(a, present) && Input(PointValue) in present
  }

  predicate BodyDone(a: OnlineAssignment, present: set<OutlineControl>)
  {
    PointsDone(a, present) && Input(ProblemBody) in present
  }

  /** Save is pressed: every earlier step went through and the enabled Save button was found. */
  predicate SaveDone(a: OnlineAssignment, present: set<OutlineControl>)
  {
    BodyDone(a, present) && SaveButton in present
  }

  /** The text filling types into `field`, when the steps get that far. */
  function OutlineText(field: OutlineField, a: OnlineAssignment, present: set<OutlineControl>): Option<string>
  {
    match field
    case QuestionTitle => if HasText(a.questionText) && Input(QuestionTitle) in present then a.questionText else None
    case PointValue => if PointsDone(a, present) then Some(IntText(a.totalPoints)) else None
    case ProblemBody => if BodyDone(a, present) then Some(ProblemTemplate) else None
  }

  function Type(values: map<OutlineField, string>, field: OutlineField, text: Option<string>): map<OutlineField, string>
  {
    if text.Some? then values[field := text.value] else values
  }

  /**
   * The outline fields after filling: a field the steps reach reads its
   * text, every other field reads what it read before.
   */
  function OutlineValues(values: map<OutlineField, string>, a: OnlineAssignment, present: set<OutlineControl>)
    : (r: map<OutlineField, string>)
    ensures forall field :: field in r <==> field in values || OutlineText(field, a, present).Some?
    ensures forall field :: field in r ==>
      r[field] == if OutlineText(field, a, present).Some? then OutlineText(field, a, present).value else values[field]
  {
    var r := Type(Type(Type(values,
      QuestionTitle, OutlineText(QuestionTitle, a, present)),
      PointValue, OutlineText(PointValue, a, present)),
      ProblemBody, OutlineText(ProblemBody, a, present));
    TypeEach(values, a, present);
    r
  }

  /** Which fields the three `Type` steps of `OutlineValues` hold, field by field. */
  lemma TypeEach(values: map<OutlineField, string>, a: OnlineAssignment, present: set<OutlineControl>)
    ensures var r := Type(Type(Type(values,
      QuestionTitle, OutlineText(QuestionTitle, a, present)),
      PointValue, OutlineText(PointValue, a, present)),
      ProblemBody, OutlineText(ProblemBody, a, present));
      forall field :: field in r <==> field in values || OutlineText(field, a, present).Some?
  {
    var r := Type(Type(Type(values,
      QuestionTitle, OutlineText(QuestionTitle, a, present)),
      PointValue, OutlineText(PointValue, a, present)),
      ProblemBody, OutlineText(ProblemBody, a, present));
    forall field ensures field in r <==> field in values || OutlineText(field, a, present).Some? {
      match field
      case QuestionTitle =>
      case PointValue =>
      case ProblemBody =>
    }
  }

  /**
   * Save is pressed only on a complete page: the title (when there is
   * question text), `str(total_points)` and the template are all in.
   */
  lemma SavedMeansFilled(values: map<OutlineField, string>, a: OnlineAssignment, present: set<OutlineControl>)
    requires SaveDone(a, present)
    ensures var r := OutlineValues(values, a, present);
      && PointValue in r && r[PointValue] == IntText(a.totalPoints)
      && ProblemBody in r && r[ProblemBody] == ProblemTemplate
      && (HasText(a.questionText) ==> QuestionTitle in r && r[QuestionTitle] == a.questionText.value)
  {
    assert OutlineText(PointValue, a, present) == Some(IntText(a.totalPoints));
    assert OutlineText(ProblemBody, a, present) == Some(ProblemTemplate);
    assert HasText(a.questionText) ==> OutlineText(QuestionTitle, a, present) == a.questionText;
  }
}
