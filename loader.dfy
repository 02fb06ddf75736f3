/** The record loader `load_data_manually`: turns the lines of a punctuality
    file into four-field records. The file itself is not read here; the input
    is the sequence of lines that `readlines()` would return. */
module Loader {
  import opened Text

  /** The header line; any stripped line that starts with it is skipped. */
  const Header: string := "Line,Period,Date,Punctuality"

  /** One row of the table: the columns Line, Period, Date and Punctuality,
      all kept as text. */
  datatype Record = Record(line: string, period: string, date: string, punctuality: string)

  /** `parts[:4]` as a record. */
  function RecordOf(parts: seq<string>): Record
    requires |parts| >= 4
  {
    Record(parts[0], parts[1], parts[2], parts[3])
  }

  /** The fields of a record in column order. */
  function Fields(r: Record): seq<string> {
    [r.line, r.period, r.date, r.punctuality]
  }

  /** A record made from pieces holds the first four pieces, in order. */
  lemma FieldsOfRecordOf(parts: seq<string>)
    requires |parts| >= 4
    ensures Fields(RecordOf(parts)) == parts[..4]
  {
  }

  /** A stripped line that yields a record: non-empty, not starting with the
      header, and with at least four comma-separated pieces. */
  predicate IsDataLine(t: string) {
    t != [] && !StartsWith(t, Header) && |Split(t)| >= 4
  }

  /** The records one raw line contributes: none, or its first four pieces. */
  function LineRecords(raw: string): seq<Record> {
    var t := Strip(raw);
    if IsDataLine(t) then [RecordOf(Split(t))] else []
  }

  /** What the loader produces: the lines that are data lines once stripped,
      in file order, each cut to its first four pieces. */
  function ParseLines(lines: seq<string>): seq<Record> {
    if lines == [] then [] else ParseLines(lines[..|lines| - 1]) + LineRecords(lines[|lines| - 1])
  }

  /** The `',' in line` test of the loader is implied by the piece count. */
  lemma CommaTestRedundant(t: string)
    requires |Split(t)| >= 4
    ensures ',' in t
  {
    CommaIffSeveralPieces(t);
  }

  /** The loader loop: strip each line, skip empty and header lines, split the
      rest on commas and keep the first four pieces of lines that have at
      least four. */
  method LoadDataManually(lines: seq<string>) returns (data: seq<Record>)
    ensures data == ParseLines(lines)
  {
    data := [];
    for i := 0 to |lines|
      invariant data == ParseLines(lines[..i])
    {
      assert lines[..i + 1][..i] == lines[..i];
      var line := Strip(lines[i]);
      if line != [] && !StartsWith(line, Header) {
        if ',' in line {
          var parts := Split(line);
          if |parts| >= 4 {
            data := data + [RecordOf(parts)];
          }
        } else {
          SplitNoComma(line);
        }
      }
    }
    assert lines[..|lines|] == lines;
  }

  /** Loading two pieces of a file loads each piece and concatenates. */
  lemma {:induction false} ParseLinesAppend(a: seq<string>, b: seq<string>)
    ensures ParseLines(a + b) == ParseLines(a) + ParseLines(b)
  {
    if b == [] {
      assert a + b == a;
    } else {
      var m := |b| - 1;
      assert (a + b)[..|a + b| - 1] == a + b[..m];
      ParseLinesAppend(a, b[..m]);
    }
  }

  /** The positions, in increasing order, of the lines that become records. */
  ghost function KeptIndices(lines: seq<string>): (idx: seq<nat>)
    ensures |idx| <= |lines|
    ensures forall k :: 0 <= k < |idx| ==> idx[k] < |lines| && IsDataLine(Strip(lines[idx[k]]))
  {
    if lines == [] then []
    else
      var n := |lines| - 1;
      var front := KeptIndices(lines[..n]);
      assert forall k :: 0 <= k < |front| ==> lines[..n][front[k]] == lines[front[k]];
      if IsDataLine(Strip(lines[n])) then front + [n] else front
  }

  /** The kept positions are strictly increasing. */
  lemma {:induction false} KeptIndicesIncreasing(lines: seq<string>)
    ensures forall k, m :: 0 <= k < m < |KeptIndices(lines)| ==> KeptIndices(lines)[k] < KeptIndices(lines)[m]
  {
    if lines != [] {
      KeptIndicesIncreasing(lines[..|lines| - 1]);
    }
  }

  /** Every data line is among the kept positions. */
  lemma {:induction false} KeptIndicesComplete(lines: seq<string>)
    ensures forall j :: 0 <= j < |lines| && IsDataLine(Strip(lines[j])) ==> j in KeptIndices(lines)
  {
    if lines != [] {
      var n := |lines| - 1;
      var front := lines[..n];
      KeptIndicesComplete(front);
      forall j | 0 <= j < |lines| && IsDataLine(Strip(lines[j]))
        ensures j in KeptIndices(lines)
      {
        if j < n {
          assert front[j] == lines[j];
          assert j in KeptIndices(front);
        }
      }
    }
  }

  /** There are as many records as data lines, hence never more than lines. */
  lemma {:induction false} ParseLinesCount(lines: seq<string>)
    ensures |ParseLines(lines)| == |KeptIndices(lines)| <= |lines|
  {
    if lines != [] {
      ParseLinesCount(lines[..|lines| - 1]);
    }
  }

  /** The k-th record is the first four pieces of the k-th data line. */
  lemma {:induction false} ParseLinesAt(lines: seq<string>, k: nat)
    requires k < |ParseLines(lines)|
    ensures k < |KeptIndices(lines)|
    ensures ParseLines(lines)[k] == RecordOf(Split(Strip(lines[KeptIndices(lines)[k]])))
  {
    var n := |lines| - 1;
    var front := lines[..n];
    ParseLinesCount(front);
    if k < |ParseLines(front)| {
      ParseLinesAt(front, k);
      assert front[KeptIndices(front)[k]] == lines[KeptIndices(front)[k]];
    }
  }

  /** The records are exactly the data lines, in file order: the k-th record is
      the first four pieces of the k-th data line. Nothing is reordered, merged
      or deduplicated, so there are never more records than lines. */
  lemma ParseLinesOrigins(lines: seq<string>)
    ensures |ParseLines(lines)| == |KeptIndices(lines)| <= |lines|
    ensures forall k :: 0 <= k < |ParseLines(lines)| ==>
      ParseLines(lines)[k] == RecordOf(Split(Strip(lines[KeptIndices(lines)[k]])))
  {
    ParseLinesCount(lines);
    forall k | 0 <= k < |ParseLines(lines)|
      ensures ParseLines(lines)[k] == RecordOf(Split(Strip(lines[KeptIndices(lines)[k]])))
    {
      ParseLinesAt(lines, k);
    }
  }

  /** Every record comes from a data line of the input, whose first four
      pieces are the record's fields with no further trimming. */
  lemma RecordsComeFromDataLines(lines: seq<string>, r: Record)
    requires r in ParseLines(lines)
    ensures exists j :: 0 <= j < |lines| && IsDataLine(Strip(lines[j])) && Fields(r) == Split(Strip(lines[j]))[..4]
  {
    var k :| 0 <= k < |ParseLines(lines)| && ParseLines(lines)[k] == r;
    ParseLinesAt(lines, k);
    var j := KeptIndices(lines)[k];
    FieldsOfRecordOf(Split(Strip(lines[j])));
  }

  /** The record fields hold no comma, and writing them back with commas gives
      the stripped line itself when it had exactly four pieces, or a prefix of
      it followed by a comma when it had more. */
  lemma RecordFieldsAreFirstPieces(t: string)
    requires IsDataLine(t)
    ensures NoCommas(Fields(RecordOf(Split(t))))
    ensures multiset(t)[','] == 3 ==> Join(Fields(RecordOf(Split(t)))) == t
    ensures multiset(t)[','] > 3 ==> StartsWith(t, Join(Fields(RecordOf(Split(t)))) + ",")
  {
    var parts := Split(t);
    SplitJoin(t);
    SplitCount(t);
    FieldsOfRecordOf(parts);
    JoinPrefix(parts, 4);
  }

  /** Joining a list of pieces starts with joining its first `n` pieces. */
  lemma {:induction false} JoinPrefix(parts: seq<string>, n: nat)
    requires 1 <= n <= |parts|
    ensures n == |parts| ==> Join(parts[..n]) == Join(parts)
    ensures n < |parts| ==> Join(parts) == Join(parts[..n]) + "," + Join(parts[n..])
  {
    if n == |parts| {
      assert parts[..n] == parts;
    } else if n > 1 {
      JoinPrefix(parts[1..], n - 1);
      assert parts[..n][1..] == parts[1..][..n - 1];
      assert parts[1..][n - 1..] == parts[n..];
    }
  }

  /** A one-line file yields that line's records. */
  lemma ParseLinesSingle(raw: string)
    ensures ParseLines([raw]) == LineRecords(raw)
  {
    assert [raw][..0] == [];
  }

  /** The records of a file are those before a line, that line's, and those after. */
  lemma ParseLinesAround(a: seq<string>, x: string, b: seq<string>)
    ensures ParseLines(a + [x] + b) == ParseLines(a) + LineRecords(x) + ParseLines(b)
  {
    ParseLinesSingle(x);
    ParseLinesAppend(a + [x], b);
    ParseLinesAppend(a, [x]);
  }

  /** A line that does not yield a record (too few pieces, empty, or header)
      leaves the record list as if it were absent; a well-formed line in its
      place yields exactly one record more. */
  lemma DroppedLineChangesCountByOne(a: seq<string>, bad: string, good: string, b: seq<string>)
    requires !IsDataLine(Strip(bad)) && IsDataLine(Strip(good))
    ensures ParseLines(a + [bad] + b) == ParseLines(a + b)
    ensures |ParseLines(a + [good] + b)| == |ParseLines(a + [bad] + b)| + 1
  {
    ParseLinesAround(a, bad, b);
    ParseLinesAround(a, good, b);
    ParseLinesAppend(a, b);
  }

  /** The header names the four columns, separated by commas. */
  lemma HeaderPieces()
    ensures Split(Header) == ["Line", "Period", "Date", "Punctuality"]
    ensures multiset(Header)[','] == 3
  {
    var names := ["Line", "Period", "Date", "Punctuality"];
    assert Join(names) == Header;
    JoinSplit(names);
    SplitCount(Header);
  }

  /** The header neither begins nor ends with whitespace. */
  lemma HeaderTrimmed()
    ensures Header != [] && Trimmed(Header)
  {
    assert Header[0] == 'L' && Header[|Header| - 1] == 'y';
  }

  /** A line that starts with the header text is skipped whatever follows it:
      more fields, a newline or other whitespace. */
  lemma HeaderPrefixedLineSkipped(rest: string)
    ensures LineRecords(Header + rest) == []
    ensures ParseLines([Header + rest]) == []
  {
    HeaderTrimmed();
    StripKeepsTrimmedPrefix(Header, rest);
    ParseLinesSingle(Header + rest);
  }

  /** The header test is what skips such a line: once stripped it still
      splits into at least four pieces. */
  lemma HeaderPrefixedLineHasFields(rest: string)
    ensures |Split(Strip(Header + rest))| >= 4
  {
    var t := Strip(Header + rest);
    HeaderTrimmed();
    StripKeepsTrimmedPrefix(Header, rest);
    HeaderPieces();
    SplitCount(t);
    assert multiset(t) == multiset(Header) + multiset(t[|Header|..]);
  }

  /** A line written as comma-separated fields (at least four, none holding a
      comma, no whitespace at either end, not the header) and ended by
      whitespace such as a newline yields the record of its first four fields. */
  lemma DataLineRecord(parts: seq<string>, ending: string)
    requires |parts| >= 4 && NoCommas(parts) && AllSpace(ending)
    requires Trimmed(Join(parts)) && !StartsWith(Join(parts), Header)
    ensures LineRecords(Join(parts) + ending) == [RecordOf(parts)]
  {
    var t := Join(parts);
    JoinSplit(parts);
    assert t != [] by { assert |Split(t)| >= 2; }
    StripTrailingSpace(t, ending);
  }

  /** A line that is blank once stripped yields no record. */
  lemma BlankLineSkipped(raw: string)
    requires AllSpace(raw)
    ensures LineRecords(raw) == []
  {
    StripSpec(raw);
  }

  /** A line with fewer than three commas (fewer than four fields) yields no
      record. */
  lemma FewFieldsDropped(raw: string)
    requires multiset(raw)[','] < 3
    ensures LineRecords(raw) == []
  {
    StripKeepsCommas(raw);
    SplitCount(Strip(raw));
  }

  /** In particular a line of three comma-separated fields yields no record. */
  lemma ThreeFieldLineDropped(a: string, b: string, c: string)
    requires ',' !in a && ',' !in b && ',' !in c
    ensures LineRecords(a + "," + b + "," + c) == []
  {
    var t := a + "," + b + "," + c;
    assert multiset(t) == multiset(a) + multiset(",") + multiset(b) + multiset(",") + multiset(c);
    FewFieldsDropped(t);
  }
}
