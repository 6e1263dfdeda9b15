/** The `OnlineAssignment` record one batch item is made from. */
module Assignment {
  import opened Wrappers
  import Rubric

  datatype OnlineAssignment = OnlineAssignment(
    name: string,
    releaseDate: string,
    dueDate: string,
    totalPoints: int,
    anonymousGrading: Option<bool>,
    groupSubmission: Option<bool>,
    lateDueDate: Option<string>,
    enforceTimeLimit: Option<bool>,
    timeLimit: Option<int>,
    groupSize: Option<int>,
    questionText: Option<string>,
    rubric: Option<Rubric.RubricDict>)

  // The `if a.field:` tests of the source: Python truthiness of each optional field.

  predicate IsSet(flag: Option<bool>)
  {
    flag == Some(true)
  }

  predicate HasText(s: Option<string>)
  {
    s.Some? && s.value != ""
  }

  predicate HasNumber(n: Option<int>)
  {
    n.Some? && n.value != 0
  }

  predicate HasRubric(r: Option<Rubric.RubricDict>)
  {
    r.Some? && r.value != []
  }
}
