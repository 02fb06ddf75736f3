/** The query flow of `main` once a network's file has been loaded: stop when
    nothing was loaded, list the distinct lines, read the user's line number,
    look up the route, and narrow the table to that line and the chosen
    period. The user's answers are parameters; prompts, printing and the
    chart are not part of this model. */
module Viewer {
  import opened Wrappers
  import opened Text
  import opened IntParse
  import opened Loader
  import opened Query
  import opened Routes

  /** How a run ends: no records loaded, an invalid line selection, or the
      selected line with its route (if listed) and the rows to show, which may
      be empty ("No data found" is not an error). */
  datatype Outcome =
    | NoData
    | InvalidSelection
    | Shown(line: string, route: Option<string>, rows: seq<Record>)

  /** `df['Line'].unique()`. */
  function AvailableLines(records: seq<Record>): seq<string> {
    Unique(ColumnValues(records, LineColumn))
  }

  /** The listed lines: no line twice, the line of every record, nothing that
      is not some record's line, in the order the lines first appear. */
  lemma AvailableLinesSpec(records: seq<Record>)
    ensures NoDuplicates(AvailableLines(records))
    ensures forall r :: r in records ==> r.line in AvailableLines(records)
    ensures forall x :: x in AvailableLines(records) ==> exists r :: r in records && r.line == x
    ensures forall i, j :: 0 <= i < j < |AvailableLines(records)| ==>
      FirstIndex(ColumnValues(records, LineColumn), AvailableLines(records)[i])
        < FirstIndex(ColumnValues(records, LineColumn), AvailableLines(records)[j])
  {
    var col := ColumnValues(records, LineColumn);
    UniqueFirstOccurrenceOrder(col);
    forall r | r in records ensures r.line in AvailableLines(records) {
      var k :| 0 <= k < |records| && records[k] == r;
      assert col[k] == r.line;
    }
    forall x | x in AvailableLines(records) ensures exists r :: r in records && r.line == x {
      var k :| 0 <= k < |col| && col[k] == x;
      assert records[k] in records;
    }
  }

  /** One pass through the query steps of `main`, given the loaded records,
      the answer to "Select a line" and the answer to "Enter your choice (1-3)". */
  function Browse(records: seq<Record>, lineAnswer: string, periodAnswer: string): Outcome {
    if records == [] then NoData
    else
      match Select(AvailableLines(records), ParseInt(lineAnswer))
      case None => InvalidSelection
      case Some(line) =>
        Shown(line, Route(line), PeriodFilter(FilterEquals(records, LineColumn, line), Strip(periodAnswer)))
  }

  /** The outcome of a run: it stops early exactly when nothing was loaded or
      the line answer is not a number in the range -n+1..n of the n listed
      lines; otherwise it shows a line some record has, that line's route
      exactly when the directory lists it, and the rows of that line (and
      period, for answers "1" and "2") in file order. */
  lemma BrowseSpec(records: seq<Record>, lineAnswer: string, periodAnswer: string)
    ensures Browse(records, lineAnswer, periodAnswer).NoData? <==> records == []
    ensures Browse(records, lineAnswer, periodAnswer).InvalidSelection? <==>
      records != [] &&
      (ParseInt(lineAnswer).None? ||
       !(1 - |AvailableLines(records)| <= ParseInt(lineAnswer).value <= |AvailableLines(records)|))
    ensures Browse(records, lineAnswer, periodAnswer).Shown? ==>
      var o := Browse(records, lineAnswer, periodAnswer);
      && (exists r :: r in records && r.line == o.line)
      && (o.route.Some? <==> o.line in LineRoutes)
      && (o.route.Some? ==> o.route.value == LineRoutes[o.line])
      && o.rows == FilterAll(records, [Condition(LineColumn, o.line)] + PeriodConditions(Strip(periodAnswer)))
      && IsSubsequence(o.rows, records)
      && (forall r :: r in o.rows ==> r.line == o.line)
    ensures Browse(records, lineAnswer, periodAnswer).Shown? ==>
      var n := |AvailableLines(records)|;
      var v := ParseInt(lineAnswer).value;
      && (1 <= v <= n ==> Browse(records, lineAnswer, periodAnswer).line == AvailableLines(records)[v - 1])
      && (1 - n <= v <= 0 ==> Browse(records, lineAnswer, periodAnswer).line == AvailableLines(records)[n - 1 + v])
  {
    if records != [] {
      var available := AvailableLines(records);
      var choice := ParseInt(lineAnswer);
      if choice.Some? {
        SelectSpec(available, choice.value);
      }
      var o := Browse(records, lineAnswer, periodAnswer);
      if o.Shown? {
        var line := o.line;
        assert line in available;
        var k :| 0 <= k < |records| && ColumnValues(records, LineColumn)[k] == line;
        assert records[k] in records && records[k].line == line;
        var choiceP := Strip(periodAnswer);
        LineThenPeriodIsConjunction(records, line, choiceP);
        var lineRows := FilterEquals(records, LineColumn, line);
        FilterEqualsExact(records, LineColumn, line);
        if choiceP == "1" || choiceP == "2" {
          var p := if choiceP == "1" then "Month" else "Year";
          FilterEqualsExact(lineRows, PeriodColumn, p);
          SubsequenceTransitive(o.rows, lineRows, records);
        }
      }
    }
  }

  /** Answering with the number k of a listed line (1 <= k <= n), written as
      Python prints it, selects that line. */
  lemma BrowseNumberedLine(records: seq<Record>, k: int, periodAnswer: string)
    requires 1 <= k <= |AvailableLines(records)|
    ensures Browse(records, Decimal(k), periodAnswer).Shown?
    ensures Browse(records, Decimal(k), periodAnswer).line == AvailableLines(records)[k - 1]
  {
    ParseDecimal(k);
    SelectSpec(AvailableLines(records), k);
  }

  /** Being a subsequence is transitive. */
  lemma {:induction false} SubsequenceTransitive(a: seq<Record>, b: seq<Record>, c: seq<Record>)
    requires IsSubsequence(a, b) && IsSubsequence(b, c)
    ensures IsSubsequence(a, c)
    decreases |c|
  {
    if a != [] {
      assert b != [] && c != [];
      if b[0] == c[0] && IsSubsequence(b[1..], c[1..]) {
        if a[0] == b[0] && IsSubsequence(a[1..], b[1..]) {
          SubsequenceTransitive(a[1..], b[1..], c[1..]);
        } else {
          SubsequenceTransitive(a, b[1..], c[1..]);
        }
      } else {
        SubsequenceTransitive(a, b, c[1..]);
      }
    }
  }
}
