/** The conversion of the question spreadsheet into the question set: already-parsed CSV
    rows grouped by report number, in row order. */
module CsvToJson {
  import opened Text
  import opened Questions

  /** One parsed CSV row: column name to cell text. */
  type Row = map<string, string>

  const ReportColumn := "Report #"
  const IdColumn := "#"
  const QuestionColumn := "Question"
  const AnswerColumn := "Answer"

  /** The columns every row is read from; a missing one stops the conversion. */
  predicate HasRequiredColumns(row: Row)
  {
    ReportColumn in row && QuestionColumn in row && AnswerColumn in row
  }

  predicate WellFormedRows(rows: seq<Row>)
  {
    forall i :: 0 <= i < |rows| ==> HasRequiredColumns(rows[i])
  }

  /** The entry of a row at 1-based position `index`: the `#` cell as id when the column
      exists, the position in decimal otherwise; question and answer copied. */
  function EntryOf(row: Row, index: nat): (q: Question)
    requires HasRequiredColumns(row)
    ensures IdColumn in row ==> q.id == row[IdColumn]
    ensures IdColumn !in row ==>
      q.id == NatToString(index) && (forall i :: 0 <= i < |q.id| ==> IsDigit(q.id[i])) && DecimalValue(q.id) == index
    ensures q.question == row[QuestionColumn] && q.answer == row[AnswerColumn]
  {
    var id := if IdColumn in row then row[IdColumn] else NatToString(index);
    Question(id, row[QuestionColumn], row[AnswerColumn])
  }

  /** The report names of the groups, in group order. */
  function Names(groups: seq<Report>): (names: seq<string>)
    ensures |names| == |groups|
    ensures forall i :: 0 <= i < |groups| ==> names[i] == groups[i].name
  {
    seq(|groups|, i requires 0 <= i < |groups| => groups[i].name)
  }

  /** The entries of the group named `name`, none when there is no such group. */
  function Lookup(groups: seq<Report>, name: string): seq<Question>
  {
    if groups == [] then []
    else if groups[0].name == name then groups[0].questions
    else Lookup(groups[1..], name)
  }

  /** One step of the loop: the entry is appended to its report's group, or a group is
      opened for it at the end when the report has not been seen yet. */
  function AddEntry(groups: seq<Report>, name: string, q: Question): (r: seq<Report>)
    ensures |r| == |groups| || |r| == |groups| + 1
    ensures r != []
  {
    if groups == [] then [Report(name, [q])]
    else if groups[0].name == name then [Report(name, groups[0].questions + [q])] + groups[1..]
    else [groups[0]] + AddEntry(groups[1..], name, q)
  }

  /** A step opens a group, at the end, exactly when the report is new. */
  lemma {:induction false} AddEntryNames(groups: seq<Report>, name: string, q: Question)
    ensures Names(AddEntry(groups, name, q)) ==
      if name in Names(groups) then Names(groups) else Names(groups) + [name]
  {
    if groups == [] {
    } else if groups[0].name == name {
      assert Names(groups)[0] == name;
    } else {
      var rest := AddEntry(groups[1..], name, q);
      AddEntryNames(groups[1..], name, q);
      NamesCons(groups[0], groups[1..]);
      NamesCons(groups[0], rest);
      assert [groups[0]] + groups[1..] == groups;
    }
  }

  lemma NamesCons(g: Report, groups: seq<Report>)
    ensures Names([g] + groups) == [g.name] + Names(groups)
  {
  }

  /** A step appends the entry to its own report's group and touches no other group. */
  lemma {:induction false} AddEntryLookup(groups: seq<Report>, name: string, q: Question, k: string)
    ensures Lookup(AddEntry(groups, name, q), k) ==
      if k == name then Lookup(groups, k) + [q] else Lookup(groups, k)
  {
    if groups != [] && groups[0].name != name {
      var rest := AddEntry(groups[1..], name, q);
      AddEntryLookup(groups[1..], name, q, k);
      assert ([groups[0]] + rest)[1..] == rest;
    }
  }

  /** A step adds exactly one entry. */
  lemma {:induction false} AddEntryCount(groups: seq<Report>, name: string, q: Question)
    ensures QuestionCount(AddEntry(groups, name, q)) == QuestionCount(groups) + 1
  {
    if groups == [] {
      assert QuestionCount([Report(name, [q])]) == 1 + QuestionCount([]);
    } else if groups[0].name == name {
      var r := [Report(name, groups[0].questions + [q])] + groups[1..];
      assert r[1..] == groups[1..];
    } else {
      var rest := AddEntry(groups[1..], name, q);
      AddEntryCount(groups[1..], name, q);
      assert ([groups[0]] + rest)[1..] == rest;
    }
  }

  /** The report number of every row, in row order. */
  function ReportKeys(rows: seq<Row>): (keys: seq<string>)
    requires WellFormedRows(rows)
    ensures |keys| == |rows|
    ensures forall i :: 0 <= i < |rows| ==> keys[i] == rows[i][ReportColumn]
  {
    seq(|rows|, i requires 0 <= i < |rows| => rows[i][ReportColumn])
  }

  /** Reference order of the groups: each key once, where it first appears. */
  function FirstOccurrences(keys: seq<string>): (firsts: seq<string>)
    ensures forall k :: k in firsts <==> k in keys
    ensures Distinct(firsts)
  {
    if keys == [] then []
    else
      var front := FirstOccurrences(keys[..|keys| - 1]);
      var last := keys[|keys| - 1];
      assert keys == keys[..|keys| - 1] + [last];
      if last in front then front else front + [last]
  }

  predicate Distinct(names: seq<string>)
  {
    forall i, j :: 0 <= i < j < |names| ==> names[i] != names[j]
  }

  /** Reference content of one group: the entries of the rows carrying that report
      number, in row order, each with its own 1-based position. */
  function EntriesFor(rows: seq<Row>, name: string): seq<Question>
    requires WellFormedRows(rows)
  {
    if rows == [] then []
    else
      var n := |rows|;
      EntriesFor(rows[..n - 1], name)
      + (if rows[n - 1][ReportColumn] == name then [EntryOf(rows[n - 1], n)] else [])
  }

  /** The loop of the conversion script over `enumerate(rows, start=1)`. */
  function GroupRows(rows: seq<Row>): (groups: seq<Report>)
    requires WellFormedRows(rows)
    ensures |groups| <= |rows|
    ensures rows != [] ==> groups != []
  {
    if rows == [] then []
    else
      var n := |rows|;
      AddEntry(GroupRows(rows[..n - 1]), rows[n - 1][ReportColumn], EntryOf(rows[n - 1], n))
  }

  /** The groups appear in order of the first row of each report, one per report. */
  lemma {:induction false} GroupOrder(rows: seq<Row>)
    requires WellFormedRows(rows)
    ensures Names(GroupRows(rows)) == FirstOccurrences(ReportKeys(rows))
    ensures Distinct(Names(GroupRows(rows)))
  {
    if rows != [] {
      var n := |rows|;
      var name := rows[n - 1][ReportColumn];
      var before := GroupRows(rows[..n - 1]);
      GroupOrder(rows[..n - 1]);
      AddEntryNames(before, name, EntryOf(rows[n - 1], n));
      ReportKeysSnoc(rows);
      FirstOccurrencesStep(ReportKeys(rows[..n - 1]), name);
      if name !in Names(before) {
        DistinctAppend(Names(before), name);
      }
    }
  }

  lemma ReportKeysSnoc(rows: seq<Row>)
    requires WellFormedRows(rows) && rows != []
    ensures WellFormedRows(rows[..|rows| - 1])
    ensures ReportKeys(rows) == ReportKeys(rows[..|rows| - 1]) + [rows[|rows| - 1][ReportColumn]]
  {
    var n := |rows|;
    assert ReportKeys(rows)[..n - 1] == ReportKeys(rows[..n - 1]);
    assert ReportKeys(rows) == ReportKeys(rows)[..n - 1] + [ReportKeys(rows)[n - 1]];
  }

  /** One more key extends the reference order exactly when it is new. */
  lemma FirstOccurrencesStep(keys: seq<string>, key: string)
    ensures FirstOccurrences(keys + [key]) ==
      if key in FirstOccurrences(keys) then FirstOccurrences(keys) else FirstOccurrences(keys) + [key]
  {
    assert (keys + [key])[..|keys|] == keys;
  }

  lemma DistinctAppend(names: seq<string>, name: string)
    requires Distinct(names) && name !in names
    ensures Distinct(names + [name])
  {
  }

  /** Each group holds exactly the rows of its report, in row order. */
  lemma {:induction false} GroupContents(rows: seq<Row>, name: string)
    requires WellFormedRows(rows)
    ensures Lookup(GroupRows(rows), name) == EntriesFor(rows, name)
  {
    if rows != [] {
      var n := |rows|;
      GroupContents(rows[..n - 1], name);
      AddEntryLookup(GroupRows(rows[..n - 1]), rows[n - 1][ReportColumn], EntryOf(rows[n - 1], n), name);
    }
  }

  /** No row is lost or duplicated: the groups hold as many entries as there are rows. */
  lemma {:induction false} GroupTotal(rows: seq<Row>)
    requires WellFormedRows(rows)
    ensures QuestionCount(GroupRows(rows)) == |rows|
  {
    if rows != [] {
      var n := |rows|;
      GroupTotal(rows[..n - 1]);
      AddEntryCount(GroupRows(rows[..n - 1]), rows[n - 1][ReportColumn], EntryOf(rows[n - 1], n));
    }
  }

  /** Every row's entry is in the group of its report. */
  lemma {:induction false} RowInItsGroup(rows: seq<Row>, i: nat)
    requires WellFormedRows(rows)
    requires i < |rows|
    ensures EntryOf(rows[i], i + 1) in Lookup(GroupRows(rows), rows[i][ReportColumn])
  {
    GroupContents(rows, rows[i][ReportColumn]);
    EntryInFilter(rows, i);
  }

  lemma {:induction false} EntryInFilter(rows: seq<Row>, i: nat)
    requires WellFormedRows(rows)
    requires i < |rows|
    ensures EntryOf(rows[i], i + 1) in EntriesFor(rows, rows[i][ReportColumn])
  {
    var n := |rows|;
    var front := rows[..n - 1];
    var key := rows[i][ReportColumn];
    assert EntriesFor(rows, key) == EntriesFor(front, key)
      + (if rows[n - 1][ReportColumn] == key then [EntryOf(rows[n - 1], n)] else []);
    if i < n - 1 {
      assert front[i] == rows[i];
      EntryInFilter(front, i);
    }
  }
}
