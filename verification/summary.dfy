/** The per-model reduction of a report's records and the summary table built from it,
    shared by the CSV summary and the console summary. */
module Summary {
  import opened Text
  import opened ModelUtils
  import opened Orchestrator
  import opened Questions
  import Table

  /** One backend's results, record by record: the `{prefix}_...` fields the loop reads. */
  function Column(records: seq<EvaluationRecord>, m: ModelType): (col: seq<ModelResult>)
    requires Complete(records)
    ensures |col| == |records|
    ensures forall i :: 0 <= i < |records| ==> col[i] == records[i].results[m]
  {
    seq(|records|, i requires 0 <= i < |records| => records[i].results[m])
  }

  /** Reference sum of the tokens. */
  function SumTokens(col: seq<ModelResult>): int
  {
    if col == [] then 0 else col[0].tokens + SumTokens(col[1..])
  }

  /** Reference sum of the costs. */
  function SumCost(col: seq<ModelResult>): real
  {
    if col == [] then 0.0 else col[0].cost + SumCost(col[1..])
  }

  /** Reference count of the results flagged correct. */
  function CountCorrect(col: seq<ModelResult>): (c: nat)
    ensures c <= |col|
  {
    if col == [] then 0 else (if col[0].isCorrect then 1 else 0) + CountCorrect(col[1..])
  }

  /** The state of the loop over the records: the count of correct answers, the cost and
      token totals, and the flags printed so far. */
  datatype Tally = Tally(correctCount: nat, totalCost: real, totalTokens: int, flags: seq<bool>)

  const Start := Tally(0, 0.0, 0, [])

  /** One iteration of the loop body: the record's flag is counted and appended, its
      cost and tokens added. */
  function Step(t: Tally, r: ModelResult): Tally
  {
    Tally(t.correctCount + (if r.isCorrect then 1 else 0), t.totalCost + r.cost,
      t.totalTokens + r.tokens, t.flags + [r.isCorrect])
  }

  /** The remaining iterations of the loop, from state `t` over the results `col`: the
      counts and totals grow by the reference count and sums of `col`, and one flag per
      result is appended in order. */
  function Loop(t: Tally, col: seq<ModelResult>): (u: Tally)
    ensures u.correctCount == t.correctCount + CountCorrect(col)
    ensures u.totalTokens == t.totalTokens + SumTokens(col)
    ensures u.totalCost == t.totalCost + SumCost(col)
    ensures |u.flags| == |t.flags| + |col|
    ensures u.flags[..|t.flags|] == t.flags
    ensures forall i :: 0 <= i < |col| ==> u.flags[|t.flags| + i] == col[i].isCorrect
    decreases |col|
  {
    if col == [] then t
    else
      var u := Loop(Step(t, col[0]), col[1..]);
      assert u.flags[..|t.flags| + 1][..|t.flags|] == t.flags;
      assert forall i :: 1 <= i < |col| ==> col[i] == col[1..][i - 1];
      u
  }

  /** The whole loop over one backend's results. */
  function TallyModel(col: seq<ModelResult>): (t: Tally)
    ensures |t.flags| == |col|
    ensures forall i :: 0 <= i < |col| ==> t.flags[i] == col[i].isCorrect
    ensures t.correctCount == CountCorrect(col)
    ensures t.totalTokens == SumTokens(col)
    ensures t.totalCost == SumCost(col)
  {
    Loop(Start, col)
  }

  /** Non-negative costs add up to a non-negative total. */
  lemma {:induction false} SumCostNonNegative(col: seq<ModelResult>)
    requires forall i :: 0 <= i < |col| ==> col[i].cost >= 0.0
    ensures SumCost(col) >= 0.0
  {
    if col != [] {
      SumCostNonNegative(col[1..]);
    }
  }

  /** A run whose replies for backend `m` never cost a negative amount (as every adapter
      response, by `AdapterCostNonNegative`) reports a non-negative total cost for `m`. */
  lemma RunCostNonNegative(auditReport: string, qaList: seq<Question>, ask: Backend, m: ModelType)
    requires |qaList| > 0
    requires forall i :: 0 <= i < |qaList| ==> ask(m, auditReport, qaList[i].question).cost >= 0.0
    ensures Summarize(ProcessModelResponses(auditReport, qaList, ask), m).totalCost >= 0.0
  {
    var records := ProcessModelResponses(auditReport, qaList, ask);
    var col := Column(records, m);
    forall i | 0 <= i < |col|
      ensures col[i].cost >= 0.0
    {
      assert col[i] == ScoreResponse(qaList[i].answer, ask(m, auditReport, qaList[i].question));
    }
    SumCostNonNegative(col);
    assert Summarize(records, m).totalCost == SumCost(col);
  }

  /** `p` percent of `n` is `count`. */
  predicate IsPercentage(p: real, count: nat, n: nat)
  {
    p * n as real == 100.0 * count as real
  }

  /** `a` is the mean of `n` items summing to `total`. */
  predicate IsMean(a: real, total: int, n: nat)
  {
    a * n as real == total as real
  }

  /** `count / n * 100`: the share of `n` that `count` is, as a percentage. */
  function Percentage(count: nat, n: nat): (p: real)
    requires 0 < n && count <= n
    ensures IsPercentage(p, count, n)
    ensures 0.0 <= p <= 100.0
  {
    var share := count as real / n as real;
    assert share <= 1.0;
    share * 100.0
  }

  /** `total / n`: the mean over `n` items. */
  function Mean(total: int, n: nat): (a: real)
    requires 0 < n
    ensures IsMean(a, total, n)
  {
    total as real / n as real
  }

  /** One backend's line of a report summary. */
  datatype ModelSummary = ModelSummary(
    modelType: ModelType,
    flags: seq<bool>,
    percentCorrect: real,
    totalCost: real,
    totalTokens: int,
    avgTokens: real)

  /** The statistics of a finished pass over `n` records. */
  function FromTally(m: ModelType, t: Tally, n: nat): (s: ModelSummary)
    requires 0 < n && t.correctCount <= n
    ensures s.modelType == m && s.flags == t.flags
    ensures s.totalCost == t.totalCost && s.totalTokens == t.totalTokens
    ensures IsPercentage(s.percentCorrect, t.correctCount, n)
    ensures 0.0 <= s.percentCorrect <= 100.0
    ensures IsMean(s.avgTokens, t.totalTokens, n)
  {
    ModelSummary(m, t.flags, Percentage(t.correctCount, n), t.totalCost, t.totalTokens, Mean(t.totalTokens, n))
  }

  /** The reduction: share of correct answers as a percentage, cost and token totals,
      and tokens per question. The division by the record count needs a record. */
  function Summarize(records: seq<EvaluationRecord>, m: ModelType): (s: ModelSummary)
    requires |records| > 0 && Complete(records)
    ensures s.modelType == m
    ensures |s.flags| == |records|
    ensures forall i :: 0 <= i < |records| ==> s.flags[i] == records[i].results[m].isCorrect
    ensures IsPercentage(s.percentCorrect, CountCorrect(Column(records, m)), |records|)
    ensures 0.0 <= s.percentCorrect <= 100.0
    ensures s.totalTokens == SumTokens(Column(records, m))
    ensures s.totalCost == SumCost(Column(records, m))
    ensures IsMean(s.avgTokens, s.totalTokens, |records|)
  {
    var col := Column(records, m);
    FromTally(m, TallyModel(col), |records|)
  }

  /** A cell of the summary table, before formatting. */
  datatype Cell =
    | Label(text: string)
    | Flag(value: bool)
    | Percent(percent: real)
    | Dollars(amount: real)
    | Count(count: int)
    | Average(average: real)

  const StatColumns: seq<Cell> :=
    [Label("%Correct"), Label("TotalCost"), Label("TotalTokens"), Label("AvgTokens/Q")]

  /** The header: `Model`, the question ids in record order, then the four statistics. */
  function Header(records: seq<EvaluationRecord>): (h: seq<Cell>)
    ensures |h| == |records| + 5
    ensures h[0] == Label("Model")
    ensures forall i :: 0 <= i < |records| ==> h[i + 1] == Label(records[i].id)
    ensures h[|records| + 1..] == StatColumns
  {
    [Label("Model")] + seq(|records|, i requires 0 <= i < |records| => Label(records[i].id)) + StatColumns
  }

  /** One backend's row: its name, its flags in record order, then its statistics. */
  function SummaryRow(s: ModelSummary): (row: seq<Cell>)
    ensures |row| == |s.flags| + 5
    ensures row[0] == Label(s.modelType.Value())
    ensures forall i :: 0 <= i < |s.flags| ==> row[i + 1] == Flag(s.flags[i])
    ensures row[|s.flags| + 1..] ==
      [Percent(s.percentCorrect), Dollars(s.totalCost), Count(s.totalTokens), Average(s.avgTokens)]
  {
    var flags := seq(|s.flags|, i requires 0 <= i < |s.flags| => Flag(s.flags[i]));
    var stats := [Percent(s.percentCorrect), Dollars(s.totalCost), Count(s.totalTokens), Average(s.avgTokens)];
    var row := [Label(s.modelType.Value())] + flags + stats;
    assert row[|s.flags| + 1..] == stats;
    assert forall i :: 0 <= i < |s.flags| ==> row[i + 1] == flags[i];
    row
  }

  /** One row per configured backend, in configuration order, each as long as the header
      and carrying that backend's flag for every record in record order. */
  function SummaryRows(records: seq<EvaluationRecord>): (rows: seq<seq<Cell>>)
    requires |records| > 0 && Complete(records)
    ensures |rows| == |ModelList|
    ensures forall k :: 0 <= k < |ModelList| ==> rows[k] == SummaryRow(Summarize(records, ModelList[k]))
    ensures forall k :: 0 <= k < |ModelList| ==> |rows[k]| == |records| + 5
    ensures forall k, i :: 0 <= k < |ModelList| && 0 <= i < |records| ==>
      rows[k][i + 1] == Flag(records[i].results[ModelList[k]].isCorrect)
  {
    seq(|ModelList|, k requires 0 <= k < |ModelList| => SummaryRow(Summarize(records, ModelList[k])))
  }

  /** One report's block of the CSV summary: a `REPORT:` label, then either `No data.`
      or the header, the backend rows and an empty separating row. */
  function CsvSection(reportName: string, records: seq<EvaluationRecord>): (block: seq<seq<Cell>>)
    requires Complete(records)
    ensures |block| == SectionSize(records) && block[0] == [Label("REPORT: " + reportName)]
    ensures records == [] ==> block == [[Label("REPORT: " + reportName)], [Label("No data.")]]
    ensures records != [] ==>
      && |block| == |ModelList| + 3
      && block[1] == Header(records)
      && block[2..|ModelList| + 2] == SummaryRows(records)
      && block[|ModelList| + 2] == []
  {
    if records == [] then [[Label("REPORT: " + reportName)], [Label("No data.")]]
    else [[Label("REPORT: " + reportName)], Header(records)] + SummaryRows(records) + [[]]
  }

  predicate AllComplete(results: seq<ReportResults>)
  {
    forall k :: 0 <= k < |results| ==> Complete(results[k].records)
  }

  /** The size of one report's CSV block. */
  function SectionSize(records: seq<EvaluationRecord>): nat
  {
    if records == [] then 2 else |ModelList| + 3
  }

  /** The blocks `blocks` written one after the other. */
  function Flatten<T>(blocks: seq<seq<T>>): seq<T>
  {
    if blocks == [] then [] else blocks[0] + Flatten(blocks[1..])
  }

  /** Where block `k` starts: the total length of the blocks before it. */
  function Offset<T>(blocks: seq<seq<T>>, k: nat): nat
    requires k <= |blocks|
  {
    if k == 0 then 0 else |blocks[0]| + Offset(blocks[1..], k - 1)
  }

  /** Each block sits, whole, at its offset, and nothing follows the last one. */
  lemma {:induction false} FlattenLayout<T>(blocks: seq<seq<T>>, k: nat)
    requires k < |blocks|
    ensures |Flatten(blocks)| == Offset(blocks, |blocks|)
    ensures Offset(blocks, k) + |blocks[k]| <= |Flatten(blocks)|
    ensures Flatten(blocks)[Offset(blocks, k)..Offset(blocks, k) + |blocks[k]|] == blocks[k]
  {
    var rest := blocks[1..];
    var flat := Flatten(blocks);
    assert flat == blocks[0] + Flatten(rest);
    if k == 0 {
      if rest != [] {
        FlattenLayout(rest, 0);
      }
      assert flat[..|blocks[0]|] == blocks[0];
    } else {
      FlattenLayout(rest, k - 1);
      var a := Offset(rest, k - 1);
      assert rest[k - 1] == blocks[k];
      assert flat[|blocks[0]| + a..|blocks[0]| + a + |blocks[k]|] == Flatten(rest)[a..a + |blocks[k]|];
    }
  }

  /** Each report's CSV block, in report order. */
  function Sections(results: seq<ReportResults>): (blocks: seq<seq<seq<Cell>>>)
    requires AllComplete(results)
    ensures |blocks| == |results|
    ensures forall k :: 0 <= k < |results| ==> blocks[k] == CsvSection(results[k].name, results[k].records)
  {
    seq(|results|, k requires 0 <= k < |results| && AllComplete(results) =>
      CsvSection(results[k].name, results[k].records))
  }

  /** `write_csv_summary`: the report blocks one after the other, in report order. */
  function CsvSummary(results: seq<ReportResults>): (csvRows: seq<seq<Cell>>)
    requires AllComplete(results)
    ensures results == [] ==> csvRows == []
    ensures results != [] ==>
      && SectionSize(results[0].records) <= |csvRows|
      && csvRows[..SectionSize(results[0].records)] == CsvSection(results[0].name, results[0].records)
  {
    var blocks := Sections(results);
    assert blocks != [] ==> Flatten(blocks) == blocks[0] + Flatten(blocks[1..]);
    Flatten(blocks)
  }

  /** Report `k`'s block sits in the CSV right after the blocks of the reports before
      it, and the CSV ends with the last report's block. */
  lemma CsvSummaryLayout(results: seq<ReportResults>, k: nat)
    requires AllComplete(results) && k < |results|
    ensures |CsvSummary(results)| == Offset(Sections(results), |results|)
    ensures Offset(Sections(results), k) + SectionSize(results[k].records) <= |CsvSummary(results)|
    ensures CsvSummary(results)[Offset(Sections(results), k)..Offset(Sections(results), k) + SectionSize(results[k].records)]
      == CsvSection(results[k].name, results[k].records)
  {
    FlattenLayout(Sections(results), k);
  }

  /** The rows of `print_summary_table`, before formatting: header and backend rows. It
      has no guard for an empty report, so it needs one record. */
  function ConsoleRows(records: seq<EvaluationRecord>): (table: (seq<Cell>, seq<seq<Cell>>))
    requires |records| > 0 && Complete(records)
    ensures table.0 == Header(records)
    ensures table.1 == SummaryRows(records)
  {
    (Header(records), SummaryRows(records))
  }

  /** The CSV block of a non-empty report carries the very header and backend rows the
      console table prints. */
  lemma CsvAgreesWithConsole(reportName: string, records: seq<EvaluationRecord>)
    requires |records| > 0 && Complete(records)
    ensures var block := CsvSection(reportName, records);
      block[1] == ConsoleRows(records).0 && block[2..|ModelList| + 2] == ConsoleRows(records).1
  {
  }

  /** How a cell is printed. `fixed(x, d)` renders `x` with `d` decimals; Python's float
      formatting is not part of this model. */
  function Render(cell: Cell, fixed: (real, nat) -> string): (s: string)
    ensures cell.Label? ==> s == cell.text
    ensures cell.Flag? ==> s == if cell.value then "True" else "False"
    ensures cell.Count? ==> s == IntToString(cell.count)
    ensures cell.Percent? ==> |s| > 0 && s[|s| - 1] == '%' && s[..|s| - 1] == fixed(cell.percent, 1)
    ensures cell.Dollars? ==> |s| > 0 && s[0] == '$' && s[1..] == fixed(cell.amount, 4)
    ensures cell.Average? ==> s == fixed(cell.average, 1)
  {
    match cell
    case Label(text) => text
    case Flag(value) => if value then "True" else "False"
    case Percent(p) => fixed(p, 1) + "%"
    case Dollars(d) => "$" + fixed(d, 4)
    case Count(n) => IntToString(n)
    case Average(a) => fixed(a, 1)
  }

  function RenderRow(cells: seq<Cell>, fixed: (real, nat) -> string): (r: seq<string>)
    ensures |r| == |cells|
    ensures forall i :: 0 <= i < |cells| ==> r[i] == Render(cells[i], fixed)
  {
    seq(|cells|, i requires 0 <= i < |cells| => Render(cells[i], fixed))
  }

  /** Every row rendered. */
  function RenderRows(rows: seq<seq<Cell>>, fixed: (real, nat) -> string): (r: seq<seq<string>>)
    ensures |r| == |rows|
    ensures forall k :: 0 <= k < |rows| ==> r[k] == RenderRow(rows[k], fixed)
  {
    seq(|rows|, k requires 0 <= k < |rows| => RenderRow(rows[k], fixed))
  }

  /** The printed summary table of one non-empty report. */
  function ConsoleTable(records: seq<EvaluationRecord>, fixed: (real, nat) -> string): (lines: seq<string>)
    requires |records| > 0 && Complete(records)
    ensures |lines| == |ModelList| + 2
    ensures lines[1] == Repeat('-', |lines[0]|)
  {
    Table.RenderTable(RenderRow(Header(records), fixed), RenderRows(SummaryRows(records), fixed))
  }

  /** Every backend line of the printed table is exactly as long as the header line;
      `Table.ColumnsAligned` places each column at the same offset in all of them. */
  lemma ConsoleLinesAligned(records: seq<EvaluationRecord>, fixed: (real, nat) -> string, k: nat)
    requires |records| > 0 && Complete(records)
    requires k < |ModelList|
    ensures |ConsoleTable(records, fixed)[k + 2]| == |ConsoleTable(records, fixed)[0]|
  {
    var header := RenderRow(Header(records), fixed);
    var rows := RenderRows(SummaryRows(records), fixed);
    assert forall j :: 0 <= j < |rows| ==> |rows[j]| == |header|;
    Table.UniformRowLines(header, rows, k);
  }
}
