/** The evaluation run: every question goes to every backend, and the scored replies
    are merged into one record per question. */
module Orchestrator {
  import opened Options
  import opened Text
  import opened Evaluation
  import opened ModelUtils
  import opened Questions

  /** The configured backends, in the order their columns appear. */
  const ModelList: seq<ModelType> := [OpenAI, Gemini, Llama]

  /** Every backend is configured, once. */
  lemma ModelListComplete(m: ModelType)
    ensures m in ModelList
    ensures multiset(ModelList)[m] == 1
  {
    match m
    case OpenAI =>
    case Gemini =>
    case Llama =>
  }

  /** The per-model key prefix of a flat record: the model name with `-` turned into `_`. */
  function FieldPrefix(modelName: string): (prefix: string)
    ensures |prefix| == |modelName|
    ensures forall i :: 0 <= i < |prefix| ==> prefix[i] != '-'
    ensures forall i :: 0 <= i < |prefix| ==> prefix[i] == if modelName[i] == '-' then '_' else modelName[i]
  {
    ReplaceChar(modelName, '-', '_')
  }

  /** No two backends share a key prefix, so per-model fields never overwrite each other
      and a map keyed by the backend holds the same information as the flat record. */
  lemma FieldPrefixesDistinct(a: ModelType, b: ModelType)
    requires a != b
    ensures FieldPrefix(a.Value()) != FieldPrefix(b.Value())
  {
    var pa, pb := FieldPrefix(a.Value()), FieldPrefix(b.Value());
    if |pa| == |pb| {
      assert pa[0] == a.Value()[0] && pb[0] == b.Value()[0];
    }
  }

  /** A key of the flat record: the backend's prefix, `_`, then the field name. */
  function FlatKey(m: ModelType, field: string): (key: string)
    ensures |key| == |m.Value()| + 1 + |field|
    ensures key[..|m.Value()|] == FieldPrefix(m.Value())
    ensures key[|m.Value()|] == '_'
    ensures key[|m.Value()| + 1..] == field
  {
    FieldPrefix(m.Value()) + "_" + field
  }

  /** The first two characters of a flat key are those of the model name: neither holds a `-`. */
  lemma KeyHead(m: ModelType, field: string)
    ensures FlatKey(m, field)[..2] == m.Value()[..2]
  {
    var key := FlatKey(m, field);
    assert key[..2] == key[..|m.Value()|][..2];
  }

  /** The model names already differ in their first two characters. */
  lemma NameHeadsDistinct(a: ModelType, b: ModelType)
    requires a != b
    ensures a.Value()[..2] != b.Value()[..2]
  {
    assert OpenAI.Value()[..2] == "gp";
    assert Gemini.Value()[..2] == "ge";
    assert Llama.Value()[..2] == "ll";
  }

  /** Two flat keys coincide only for the same backend and the same field, so no
      backend's fields overwrite another's. Distinct prefixes alone would not give this
      (`x` with `is_correct` and `x_is` with `correct` meet). */
  lemma FlatKeysDistinct(a: ModelType, b: ModelType, f: string, g: string)
    ensures FlatKey(a, f) == FlatKey(b, g) <==> a == b && f == g
  {
    if a != b {
      KeyHead(a, f);
      KeyHead(b, g);
      NameHeadsDistinct(a, b);
    }
  }

  /** One backend's outcome for one question. */
  datatype ModelResult = ModelResult(response: string, isCorrect: bool, cost: real, tokens: int)

  /** One question merged with every backend's outcome. */
  datatype EvaluationRecord = EvaluationRecord(
    id: string,
    question: string,
    expectedAnswer: string,
    results: map<ModelType, ModelResult>)

  /** A backend: given the model, the audit report and the question, its response. */
  type Backend = (ModelType, string, string) -> ModelResponse

  /** Scores one response: its text, cost and tokens are kept and the flag is the
      correctness rule; an error-shaped response is incorrect and free. */
  function ScoreResponse(expectedAnswer: string, response: ModelResponse): (r: ModelResult)
    ensures r.response == response.text && r.cost == response.cost && r.tokens == response.totalTokens
    ensures r.isCorrect <==>
      response.text != [] && Occurs(Canonical(response.text), Canonical(expectedAnswer))
    ensures ErrorShaped(response) ==> r == ModelResult("", false, 0.0, 0)
  {
    ModelResult(response.text, EvaluateResponse(expectedAnswer, Some(response.text)),
      response.cost, response.totalTokens)
  }

  /** The record of one question: its fields copied, and one scored result per backend. */
  function ProcessQuestion(auditReport: string, qa: Question, ask: Backend): (rec: EvaluationRecord)
    ensures rec.id == qa.id && rec.question == qa.question && rec.expectedAnswer == qa.answer
    ensures HasAllModels(rec)
    ensures forall m: ModelType :: m in rec.results ==>
      rec.results[m] == ScoreResponse(qa.answer, ask(m, auditReport, qa.question))
  {
    var results := map m | m in ModelList :: ScoreResponse(qa.answer, ask(m, auditReport, qa.question));
    assert forall m: ModelType :: m in ModelList by {
      forall m: ModelType
        ensures m in ModelList
      {
        ModelListComplete(m);
      }
    }
    EvaluationRecord(qa.id, qa.question, qa.answer, results)
  }

  /** The record has a result for every backend. */
  predicate HasAllModels(rec: EvaluationRecord)
  {
    forall m: ModelType :: m in rec.results
  }

  /** Every record has a result for every backend. */
  predicate Complete(records: seq<EvaluationRecord>)
  {
    forall i :: 0 <= i < |records| ==> HasAllModels(records[i])
  }

  /** `process_model_responses`: one record per question, appended in question order. */
  function ProcessModelResponses(auditReport: string, qaList: seq<Question>, ask: Backend)
    : (records: seq<EvaluationRecord>)
    ensures |records| == |qaList|
    ensures Complete(records)
    ensures forall i :: 0 <= i < |qaList| ==>
      && records[i].id == qaList[i].id
      && records[i].question == qaList[i].question
      && records[i].expectedAnswer == qaList[i].answer
      && forall m: ModelType :: m in records[i].results ==>
        records[i].results[m] == ScoreResponse(qaList[i].answer, ask(m, auditReport, qaList[i].question))
  {
    if qaList == [] then []
    else
      ProcessModelResponses(auditReport, qaList[..|qaList| - 1], ask)
      + [ProcessQuestion(auditReport, qaList[|qaList| - 1], ask)]
  }

  /** A backend that fails on every question still leaves a full set of records, with
      that backend incorrect, free and silent throughout. */
  lemma FailingBackendStillReported(auditReport: string, qaList: seq<Question>, ask: Backend, m: ModelType)
    requires forall i :: 0 <= i < |qaList| ==> ErrorShaped(ask(m, auditReport, qaList[i].question))
    ensures |ProcessModelResponses(auditReport, qaList, ask)| == |qaList|
    ensures forall i :: 0 <= i < |qaList| ==>
      ProcessModelResponses(auditReport, qaList, ask)[i].results[m] == ModelResult("", false, 0.0, 0)
  {
  }

  /** The records of one report. */
  datatype ReportResults = ReportResults(name: string, records: seq<EvaluationRecord>)

  /** The loop of `main`: each report's questions processed, reports kept in order. */
  function EvaluateReports(auditReport: string, reports: seq<Report>, ask: Backend)
    : (results: seq<ReportResults>)
    ensures |results| == |reports|
    ensures forall i :: 0 <= i < |reports| ==>
      results[i].name == reports[i].name
      && results[i].records == ProcessModelResponses(auditReport, reports[i].questions, ask)
  {
    if reports == [] then []
    else
      [ReportResults(reports[0].name, ProcessModelResponses(auditReport, reports[0].questions, ask))]
      + EvaluateReports(auditReport, reports[1..], ask)
  }

  /** The number of records over all reports. */
  function RecordCount(results: seq<ReportResults>): nat
  {
    if results == [] then 0 else |results[0].records| + RecordCount(results[1..])
  }

  /** The run produces exactly one record per question. */
  lemma {:induction false} OneRecordPerQuestion(auditReport: string, reports: seq<Report>, ask: Backend)
    ensures RecordCount(EvaluateReports(auditReport, reports, ask)) == QuestionCount(reports)
  {
    if reports != [] {
      var results := EvaluateReports(auditReport, reports, ask);
      assert results[1..] == EvaluateReports(auditReport, reports[1..], ask);
      OneRecordPerQuestion(auditReport, reports[1..], ask);
    }
  }
}
