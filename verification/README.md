# LLM extraction evaluation harness: Dafny model of the scoring and aggregation core

The harness asks several language-model backends (OpenAI `gpt-4o-mini`, Google
`gemini-2.0-flash`, `llama3.2-3b`) the questions of an audit-report question set. It
scores every reply against the expected answer and summarises each backend per report,
both as a CSV block and as a printed table. A separate conversion script builds the
question set from a spreadsheet by grouping its rows by report number.

This project models the deterministic part of that pipeline in Dafny and proves what
it promises:

- `Text` (text.dfy) holds the Python string operations the code relies on: `strip`,
  `lower`, `replace`, `in`, `str(n)` and `join`. Each is stated over
  `seq<char>`, and the scanning `in` is proved equal to a reference "occurs at some
  offset" definition.
- `Evaluation` (evaluation.dfy) models `normalize_text` and `evaluate_response`. This
  covers the six apostrophe variants and the correctness rule (normalise, strip,
  lower-case, substring).
- `ModelUtils` (model_utils.dfy) holds the uniform `ModelResponse`, the per-1000-token
  cost rule, the prompt template and the error constructor. It also models the shape
  the three backend adapters build from a provider reply.
- `Orchestrator` (orchestrator.dfy) models `process_model_responses` and `main`'s loop
  over reports. The backends are an abstract function from model, report and question
  to a `ModelResponse`. The flat `"{prefix}_response"`-style record keys are a map from
  backend to a small result record; `FlatKeysDistinct` proves two flat keys coincide only
  for the same backend and field, so no backend's fields overwrite another's.
- `Summary` (summary.dfy) models the per-backend reduction that `write_csv_summary` and
  `print_summary_table` both perform, along with the header, the rows, the CSV blocks
  and the printed table.
- `Table` (table.dfy) covers column widths, left-justification (`ljust`) and the ` | `-joined
  lines.
- `Questions` (questions.dfy) and `CsvToJson` (csv_to_json.dfy) model the question set
  and the grouping loop of `conversion/csv_to_json.py`, over already-parsed rows.
- `Pipeline` (pipeline.dfy) connects the two stages.

One might expect a response to carry an error exactly when its text is empty and its
tokens and cost are zero. The code gives only one direction. `handle_model_error` always builds that shape, but the Gemini adapter
strips the reply and falls back to 0 tokens when usage data is missing, so a
successful call can have the same shape with no error. The model follows the code:
`AdapterResponse` states the implication only, and `BlankGeminiReplyIsNotAnError`
exhibits a reply for which the converse fails.

## Model

| member | source | states |
|---|---|---|
| Text.StripLeading | src/evaluation.py:40-41 | the left half of `strip()`: the result is a suffix of the input, what was dropped is all whitespace, and the result does not start with whitespace |
| Text.StripTrailing | src/evaluation.py:40-41 | the right half of `strip()`: the result is a prefix of the input, what was dropped is all whitespace, and the result does not end with whitespace |
| Text.Strip | src/evaluation.py:40-41 | `strip()` is empty exactly when the input is all whitespace, and a non-empty result begins and ends with non-whitespace |
| Text.StripIsSlice | src/evaluation.py:40-41 | `strip()` removes only whitespace and only at the ends: the result sits at some offset of the input with whitespace on both sides |
| Text.Lower | src/evaluation.py:40-41 | lower-casing keeps the length and maps each character independently (ASCII letters down by 32, all else unchanged) |
| Text.StripSameCase | src/evaluation.py:40-41 | stripping texts equal up to case gives texts equal up to case: whitespace is never a letter, so both sides drop the same ends |
| Text.ReplaceChar | src/evaluation.py:26 | one-character `replace` keeps the length and changes exactly the occurrences of the replaced character |
| Text.ContainsOccurrence | src/evaluation.py:43 | when the scanning `in` succeeds, the needle really occurs at the returned offset |
| Text.OccurrenceContained | src/evaluation.py:43 | the scanning `in` does not miss an occurrence at any offset |
| Text.ContainsIffOccurs | src/evaluation.py:43 | `needle in haystack` holds exactly when the needle occurs at some offset |
| Text.NatToString | conversion/csv_to_json.py:17 | `str(i)` of a row index is a non-empty decimal numeral with no leading zero whose value is `i` |
| Text.IntToString | src/main.py:116 | `str(total_tokens)` is the numeral of the magnitude, with a minus sign before it when negative |
| Text.Repeat | src/main.py:197 | `"-" * n` has length `n` and holds only that character |
| Text.Join | src/main.py:195 | `sep.join` of no parts is empty and of one part is that part; `Table.JoinLayout` states where each part lands in general |
| Evaluation.ReplaceEach | src/evaluation.py:24-26 | the replacement loop keeps the length and turns exactly the listed characters into `'` |
| Evaluation.NormalizeText | src/evaluation.py:6-28 | empty text is returned unchanged; otherwise the length is kept, each apostrophe variant becomes `'`, every other character stays, and no variant remains |
| Evaluation.NormalizeIdempotent | src/evaluation.py:15-28 | normalising twice equals normalising once |
| Evaluation.NormalizeIdentifiesVariants | src/evaluation.py:15-26 | texts that differ only in which apostrophe form they use normalise to the same text |
| Evaluation.WhitespaceNotApostrophe | src/evaluation.py:15-22 | no whitespace character is one of the six variants, so normalising never removes whitespace; and `'` is not whitespace, so it never creates any |
| Evaluation.EvaluateResponse | src/evaluation.py:30-43 | an absent or empty response is incorrect whatever the answer; otherwise it is correct exactly when the canonical answer occurs in the canonical response |
| Evaluation.BlankAnswerPasses | src/evaluation.py:40-43 | an empty or all-whitespace expected answer is correct against every non-empty response |
| Evaluation.ResponsePassesItself | src/evaluation.py:40-43 | every non-empty response is correct against itself as the expected answer |
| Evaluation.AnswerLongerThanResponseFails | src/evaluation.py:40-43 | an answer whose canonical form is longer than the response's is never correct: the rule is containment in the response, not the other way |
| Evaluation.ApostropheFormIrrelevant | src/evaluation.py:15-43 | changing apostrophe forms in the answer or the response never changes the verdict |
| Evaluation.NormalizeSameCase | src/evaluation.py:15-28 | normalising texts equal up to case gives texts equal up to case: no apostrophe variant is a letter |
| Evaluation.CaseIrrelevant | src/evaluation.py:30-43 | the comparison is case-insensitive: changing the case of letters in the answer or the response never changes the verdict |
| ModelUtils.ModelNamesDistinct | src/model_utils.py:9-13 | the three enum members have pairwise different model names |
| ModelUtils.RateTableTotal | src/model_utils.py:31-35 | the rate table has a positive rate for every backend, so the cost lookup cannot fail |
| ModelUtils.CalculateCost | src/model_utils.py:37-41 | the cost is 0 for 0 tokens, non-negative for non-negative tokens, and positive for positive tokens |
| ModelUtils.CostAdditive | src/model_utils.py:37-41 | the cost of `a + b` tokens is the cost of `a` tokens plus the cost of `b` tokens |
| ModelUtils.CostLinear | src/model_utils.py:37-41 | the cost of `k * n` tokens is `k` times the cost of `n` tokens, `cost(2n) == 2 * cost(n)` among them |
| ModelUtils.SystemPrompt | src/model_utils.py:43-46 | the system prompt is a non-empty instruction |
| ModelUtils.SystemPromptUniform | src/model_utils.py:43-46 | every backend gets the same system prompt |
| ModelUtils.CreateAuditPrompt | src/model_utils.py:48-51 | the prompt is the fixed heading, the whole report, the fixed `Based on this report, answer:` span, then the question, each at its own offset; its length is the sum of the parts |
| ModelUtils.PromptDeterminesArguments | src/model_utils.py:48-51 | two prompts built from reports of equal length are equal only if the reports and the questions are equal |
| ModelUtils.HandleModelError | src/model_utils.py:53-63 | the error response keeps the model type, has empty text, 0 tokens and 0.0 cost, and its error is the model name, `" error: "` and the message, so `is_error` holds |
| ModelUtils.AdapterResponse | src/models.py:26-107 | an adapter's response is an error exactly when the key is missing or the call raised; errors have the error shape, with the `"<KEY> not found"` message for a missing key and the exception's message for a raised call; a completed call reports the provider's usage tokens, its content (stripped for Gemini) and the cost of those tokens at the backend's rate |
| ModelUtils.AdapterCostNonNegative | src/models.py:26-107 | no adapter response has a negative cost |
| ModelUtils.BlankGeminiReplyIsNotAnError | src/models.py:94-105 | a Gemini reply of one space without usage data has empty text, 0 tokens and 0 cost but no error, so the error shape does not imply an error |
| Orchestrator.ModelListComplete | src/main.py:17-21 | every backend is configured, exactly once |
| Orchestrator.FieldPrefix | src/main.py:59 | the key prefix is the model name with every `-` turned into `_` and every other character kept, so it contains no `-` |
| Orchestrator.FieldPrefixesDistinct | src/main.py:58-59 | different backends get different key prefixes |
| Orchestrator.FlatKey | src/main.py:62-67 | a flat key is the backend's prefix, `_`, then the field name, each at its own offset |
| Orchestrator.FlatKeysDistinct | src/main.py:58-67 | two flat keys coincide exactly when backend and field are the same, so no backend's fields overwrite another's in a record |
| Orchestrator.ScoreResponse | src/main.py:58-67 | a scored result keeps the response's text, cost and tokens, and is correct exactly when the text is non-empty and contains the answer canonically; an error-shaped response scores incorrect, free and empty |
| Orchestrator.ProcessQuestion | src/main.py:40-67 | a record copies the question's id, text and answer, has a result for every backend, and each result is that backend's scored reply |
| Orchestrator.ProcessModelResponses | src/main.py:35-71 | exactly one record per question, in question order, each with copied fields and one scored result per backend |
| Orchestrator.FailingBackendStillReported | src/main.py:58-69 | a backend that fails on every question still has a result in every record, incorrect, with no cost and no tokens |
| Orchestrator.EvaluateReports | src/main.py:222-225 | one result set per report, in report order, each the processed records of that report |
| Orchestrator.OneRecordPerQuestion | src/main.py:222-225 | over all reports, there are as many records as questions |
| Table.WidenColumn | src/main.py:188-191 | the width grows to fit every row cell of the column, skipping short rows, and equals the start value or one of those cells' lengths |
| Table.ColumnWidths | src/main.py:186-192 | one width per header cell, at least that cell's length and at least every row cell's length in that column |
| Table.ColumnWidthsTight | src/main.py:186-192 | no width is larger than needed: it is the header cell's length or some row cell's length |
| Table.LJust | src/main.py:195 | `ljust` keeps the text as a prefix and fills with spaces up to the width, never shortening |
| Table.PadCells | src/main.py:195 | every cell is left-justified to its own column's width |
| Table.JoinLayout | src/main.py:195 | in a line joined with the column separator, each part starts at the sum of the earlier parts' lengths plus the separators, and the line's length is the sum of the parts plus the separators |
| Table.LineLayout | src/main.py:195-200 | in a printed line whose cells fit, each column's padded cell starts at the column's offset and spans exactly the column width |
| Table.RenderTable | src/main.py:194-201 | the table is the header line, a dash rule exactly as long as it, then one line per row padded to the shared widths |
| Table.ColumnsAligned | src/main.py:186-201 | a full row's line is as long as the header line, and in both lines column `i` occupies the same span, holding the cell padded to a width that fits it |
| Table.FormatLine | src/main.py:195 | a printed line of a non-empty row is as long as its padded cells plus one separator between each pair |
| Table.UniformRowLines | src/main.py:194-201 | when every row has a cell for each header column, every row line is exactly as long as the header line |
| Summary.Column | src/main.py:100-103 | a backend's column is its result in each record, in record order |
| Summary.Loop | src/main.py:100-108 | the accumulation loop adds the count of correct flags, the token sum and the cost sum of the remaining records, and appends their flags in order |
| Summary.TallyModel | src/main.py:96-108 | the full loop ends with one flag per record in order, the count of correct results, and the token and cost totals |
| Summary.SumCostNonNegative | src/main.py:97-106 | non-negative costs give a non-negative total |
| Summary.RunCostNonNegative | src/main.py:96-106 | for a run whose replies for a backend never cost a negative amount, the summary's total cost for that backend is non-negative |
| Summary.Percentage | src/main.py:110 | the percentage is `100 * count / n` and lies between 0 and 100 |
| Summary.Mean | src/main.py:111 | the average times `n` is the total |
| Summary.FromTally | src/main.py:110-118 | the statistics keep the flags and totals, derive the percentage of correct answers in [0, 100], and derive the mean tokens per question |
| Summary.Summarize | src/main.py:92-118 | for a non-empty report, a backend's flags are its correctness per record in record order, the percentage is `100 * correct / n` in [0, 100], the totals are the sums of the records' tokens and costs, and the average is the token total over `n` |
| Summary.Header | src/main.py:85-88 | the header is `Model`, the question ids in record order, then the four statistic names: `n + 5` cells |
| Summary.SummaryRow | src/main.py:93-118 | a backend's row is its name, one flag per record in order, then percentage, cost, tokens and average |
| Summary.SummaryRows | src/main.py:92-120 | one row per configured backend, in configuration order, each `n + 5` cells long, with cell `i + 1` that backend's flag for record `i` |
| Summary.CsvSection | src/main.py:79-122 | a report's block starts with the `REPORT:` label; an empty report gives just `No data.`, any other gives the header, one row per backend and an empty row |
| Summary.CsvSummary | src/main.py:73-122 | no reports give an empty CSV; otherwise the CSV opens with the first report's whole block, and `CsvSummaryLayout` places every later block |
| Summary.Sections | src/main.py:79-122 | one CSV block per report, in report order |
| Summary.FlattenLayout | src/main.py:79-122 | writing blocks one after the other puts each block, whole, at the total length of the blocks before it, and nothing after the last |
| Summary.CsvSummaryLayout | src/main.py:79-122 | report `k`'s block sits in the CSV right after the blocks of the reports before it, and the CSV ends with the last block |
| Summary.ConsoleRows | src/main.py:149-183 | the printed table's header and rows are, by construction, the `Header` and `SummaryRows` the CSV block holds: lines 155-181 repeat lines 92-118, so one definition models both |
| Summary.CsvAgreesWithConsole | src/main.py:149-183 | the CSV block holds the console table's header and rows; this holds by construction, since one definition models both copies of the loop, and is not a proof that two separate loops agree |
| Summary.RenderRow | src/main.py:108 | rendering keeps the row's length and renders each cell in place with `Render` |
| Summary.Render | src/main.py:108-118 | a flag prints as `True` or `False`, a token count as its decimal numeral, a percentage with a trailing `%`, a cost with a leading `$`, and a label as itself |
| Summary.RenderRows | src/main.py:199-200 | every row rendered, in order |
| Summary.ConsoleTable | src/main.py:145-201 | the printed table has a header line, a dash rule exactly as long as it and one line per backend |
| Summary.ConsoleLinesAligned | src/main.py:194-201 | every backend line of the printed table is exactly as long as the header line |
| CsvToJson.EntryOf | conversion/csv_to_json.py:17-22 | an entry's id is the row's `#` cell when that column exists, otherwise the decimal numeral of the 1-based row position; question and answer are copied from the row |
| CsvToJson.AddEntry | conversion/csv_to_json.py:13-22 | one loop step adds at most one group and never leaves the groups empty; `AddEntryNames`, `AddEntryLookup` and `AddEntryCount` state what it does to names, contents and counts |
| CsvToJson.AddEntryNames | conversion/csv_to_json.py:14-15 | a step opens a new group at the end exactly when the report has not been seen, and otherwise keeps the group names |
| CsvToJson.AddEntryLookup | conversion/csv_to_json.py:18-22 | a step appends the entry to the end of its own report's group and leaves every other group unchanged |
| CsvToJson.AddEntryCount | conversion/csv_to_json.py:14-22 | a step adds exactly one entry over all groups |
| CsvToJson.FirstOccurrences | conversion/csv_to_json.py:13-15 | the reference order of the groups holds every report number, each exactly once |
| CsvToJson.GroupRows | conversion/csv_to_json.py:12-22 | the loop produces at most one group per row and at least one group for a non-empty input; `GroupOrder`, `GroupContents` and `GroupTotal` state its result against the reference definitions |
| CsvToJson.GroupOrder | conversion/csv_to_json.py:12-15 | the groups appear in order of each report's first row, and no report has two groups |
| CsvToJson.GroupContents | conversion/csv_to_json.py:12-22 | each report's group holds exactly the entries of that report's rows, in row order, each with its own row position |
| CsvToJson.GroupTotal | conversion/csv_to_json.py:12-22 | the groups together hold as many entries as there are rows |
| CsvToJson.RowInItsGroup | conversion/csv_to_json.py:13-22 | every row's entry is in the group of that row's report number |
| Pipeline.EveryRowEvaluatedOnce | src/main.py:222-225 | every spreadsheet row ends up as exactly one evaluation record, under a report name that occurs once |

## Left out

- src/models.py: the OpenAI, Gemini and Llama SDK calls, the client setup and the environment lookups are not modelled. `AdapterResponse` models what an adapter does with a missing key, a raised exception or a completed call. The orchestrator takes the backends as an abstract function.
- ModelUtils.AdapterResponse: a completed Gemini call without usage data is modelled by the caller passing 0 tokens. A `None` reply text, whose `.strip()` raises inside the `try`, is modelled as a raised call.
- Orchestrator.ScoreResponse: the response text is a `string`, never `None`. `EvaluateResponse` itself handles an absent response, but a provider returning `None` content is not modelled.
- src/logging_config.py and all logging calls: no effect on the results.
- The I/O of src/main.py is not modelled: `load_input_files`, `write_json_results`, the `csv.writer` and `print` mechanics, the `REPORT` title line of the printed table, `print_detailed_results` and `main`'s file paths. The CSV summary is modelled as rows of unformatted cells.
- conversion/json_to_csv.py: a fixed projection of one report onto a CSV, with no logic beyond serialisation.
- conversion/csv_to_json.py: CSV parsing (`csv.DictReader`), JSON writing and the file paths are not modelled. Rows are already-parsed maps from column name to cell text. `DictReader`'s `None` cells for short rows are not modelled.
- CsvToJson.EntryOf: requires the `Report #`, `Question` and `Answer` columns. The script stops with a `KeyError` when one is missing.
- Text.Lower: lower-cases ASCII letters only. Python's `str.lower()` also folds non-ASCII letters; full Unicode case mapping is out of scope.
- Text.Strip: the whitespace set is that of `str.isspace()` for the characters listed in `IsWhitespace`. No other Unicode property tables are modelled.
- ModelUtils.CalculateCost: costs, percentages and averages are exact reals, not binary floating point.
- Summary.Render: the `:.1f`, `:.4f`, `$` and `%` formatting is an injected `fixed` function, not Python's float formatting.
- Summary.Summarize: requires a non-empty report. `print_summary_table` has no guard and divides by `len(records)`, raising `ZeroDivisionError` for an empty report; `write_csv_summary` guards the case with `No data.` (`CsvSection`).
- Summary.ConsoleTable: its own contract gives the line count and the dash rule. The lengths of the backend lines are stated by `ConsoleLinesAligned`, and the column spans by `Table.ColumnsAligned`.
- Orchestrator.ProcessModelResponses: a backend is a function of the model, the report and the question text. Two questions with the same text therefore get the same reply, which the real network calls do not guarantee. No property here depends on two calls agreeing.
- Orchestrator.EvaluateReports: report names are a sequence, not a dict, so a repeated report name would not be collapsed. `CsvToJson.GroupOrder` proves the conversion never produces one.
- The flat `"{prefix}_{field}"` record keys are a map from backend to a result record. `FlatKeysDistinct` justifies the change: distinct backends never write the same key.
