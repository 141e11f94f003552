/** The question set: reports of `{id, question, answer}` entries. The conversion
    script produces it and the evaluation run consumes it. */
module Questions {

  datatype Question = Question(id: string, question: string, answer: string)

  /** A named group of questions, in the order they were read. */
  datatype Report = Report(name: string, questions: seq<Question>)

  /** The number of questions over all reports. */
  function QuestionCount(reports: seq<Report>): nat
  {
    if reports == [] then 0 else |reports[0].questions| + QuestionCount(reports[1..])
  }
}
