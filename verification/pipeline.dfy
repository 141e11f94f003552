/** The two stages together: spreadsheet rows grouped into reports, then every report
    evaluated against the backends. */
module Pipeline {
  import opened Questions
  import opened CsvToJson
  import opened Orchestrator

  /** Every spreadsheet row yields exactly one evaluation record, in a report whose name
      occurs once. */
  lemma EveryRowEvaluatedOnce(rows: seq<Row>, auditReport: string, ask: Backend)
    requires WellFormedRows(rows)
    ensures RecordCount(EvaluateReports(auditReport, GroupRows(rows), ask)) == |rows|
    ensures Distinct(Names(GroupRows(rows)))
  {
    GroupTotal(rows);
    GroupOrder(rows);
    OneRecordPerQuestion(auditReport, GroupRows(rows), ask);
  }
}
