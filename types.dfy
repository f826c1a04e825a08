/** The records exchanged between the dashboard and the grading service
    (src/lib/types.ts). */
module Types {
  import opened Wrappers

  /** The six grades the grading model may assign. */
  datatype Grade = A | B | C | D | F | NotApplicable

  /** The wire spelling of a grade. */
  function GradeLabel(g: Grade): string
  {
    match g
    case A => "A"
    case B => "B"
    case C => "C"
    case D => "D"
    case F => "F"
    case NotApplicable => "N/A"
  }

  /** The grades in the order the summary lists them. */
  const GRADES: seq<Grade> := [A, B, C, D, F, NotApplicable]

  /** `grade` is the wire spelling of one of the six grades. */
  predicate IsGradeLabel(grade: string)
  {
    grade == "A" || grade == "B" || grade == "C" || grade == "D" || grade == "F" || grade == "N/A"
  }

  datatype Church = Church(id: string, name: string, chatbotUrl: string, websiteUrl: string)

  /** One graded answer. `grade` is kept as the string the service sends:
      nothing on the client checks that it is one of the six grades. */
  datatype EvaluationResult = EvaluationResult(
    churchId: string,
    question: string,
    botAnswer: string,
    gptAnswer: string,
    grade: string,
    softMatch: bool,
    justification: string,
    timestamp: Option<string>)

  datatype Status = Running | Complete | Error

  datatype JobStatus = JobStatus(
    jobId: string,
    status: Status,
    progress: int,
    results: seq<EvaluationResult>,
    error: Option<string>)
}
