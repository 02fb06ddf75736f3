/** The queries `main` runs on the loaded table through pandas: the distinct
    values of the Line column (`unique()`), picking a line by a 1-based number,
    and boolean-mask filters on one column. The table is the record sequence
    itself; a filter keeps the rows in their original order. */
module Query {
  import opened Wrappers
  import opened Loader

  /** The columns of the table, in the order the loader fills them. */
  datatype Column = LineColumn | PeriodColumn | DateColumn | PunctualityColumn

  function Field(r: Record, c: Column): string {
    match c
    case LineColumn => r.line
    case PeriodColumn => r.period
    case DateColumn => r.date
    case PunctualityColumn => r.punctuality
  }

  /** `df[column]`: the column's values, one per row. */
  function ColumnValues(rs: seq<Record>, c: Column): seq<string> {
    seq(|rs|, k requires 0 <= k < |rs| => Field(rs[k], c))
  }

  ghost predicate NoDuplicates(xs: seq<string>) {
    forall i, j :: 0 <= i < j < |xs| ==> xs[i] != xs[j]
  }

  /** Position of the first occurrence of `x` in `xs`. */
  function FirstIndex(xs: seq<string>, x: string): (i: nat)
    requires x in xs
    ensures i < |xs| && xs[i] == x && x !in xs[..i]
  {
    if xs[0] == x then 0 else 1 + FirstIndex(xs[1..], x)
  }

  /** `Series.unique()`: each distinct value once, in the order of its first
      occurrence. A value is appended when it has not been seen before. */
  function Unique(xs: seq<string>): (u: seq<string>)
    ensures NoDuplicates(u)
    ensures forall x :: x in u <==> x in xs
  {
    if xs == [] then []
    else
      var n := |xs| - 1;
      var u := Unique(xs[..n]);
      assert forall x :: x in xs <==> x in xs[..n] || x == xs[n] by {
        assert xs == xs[..n] + [xs[n]];
      }
      if xs[n] in u then u else u + [xs[n]]
  }

  /** Distinct values are listed in first-occurrence order. */
  lemma {:induction false} UniqueFirstOccurrenceOrder(xs: seq<string>)
    ensures forall i, j :: 0 <= i < j < |Unique(xs)| ==>
      FirstIndex(xs, Unique(xs)[i]) < FirstIndex(xs, Unique(xs)[j])
  {
    if xs != [] {
      var n := |xs| - 1;
      var front := xs[..n];
      UniqueFirstOccurrenceOrder(front);
      var u := Unique(front);
      forall x | x in front ensures FirstIndex(xs, x) == FirstIndex(front, x) {
        FirstIndexPrefix(front, [xs[n]], x);
        assert xs == front + [xs[n]];
      }
      if xs[n] !in u {
        FirstIndexOfNew(front, xs[n]);
        assert xs == front + [xs[n]];
      }
    }
  }

  /** Appending to a sequence does not move the first occurrence of a value
      already in it. */
  lemma {:induction false} FirstIndexPrefix(a: seq<string>, b: seq<string>, x: string)
    requires x in a
    ensures FirstIndex(a + b, x) == FirstIndex(a, x)
  {
    if a[0] != x {
      assert (a + b)[1..] == a[1..] + b;
      FirstIndexPrefix(a[1..], b, x);
    }
  }

  /** A value first seen at the end has its first occurrence there. */
  lemma {:induction false} FirstIndexOfNew(a: seq<string>, x: string)
    requires x !in a
    ensures FirstIndex(a + [x], x) == |a|
  {
    if a != [] {
      assert (a + [x])[1..] == a[1..] + [x];
      FirstIndexOfNew(a[1..], x);
    }
  }

  /** `available_lines[int(answer) - 1]`: the user numbers lines from 1, and
      Python indexing also accepts an index from -n to -1, counted from the
      end. Any other number, and an answer that is not a number (`None`), is
      the invalid-selection path (`ValueError` or `IndexError`). */
  function Select(available: seq<string>, choice: Option<int>): Option<string> {
    match choice
    case None => None
    case Some(k) =>
      var i := k - 1;
      if 0 <= i < |available| then Some(available[i])
      else if -|available| <= i < 0 then Some(available[|available| + i])
      else None
  }

  /** What a numeric answer selects: numbers 1..n pick the line with that
      number, numbers -n+1..0 count back from the last line (0 picks the last
      one), and everything else selects nothing. */
  lemma SelectSpec(available: seq<string>, k: int)
    ensures Select(available, Some(k)).Some? <==> 1 - |available| <= k <= |available|
    ensures 1 <= k <= |available| ==> Select(available, Some(k)) == Some(available[k - 1])
    ensures 1 - |available| <= k <= 0 ==> Select(available, Some(k)) == Some(available[|available| - 1 + k])
    ensures |available| > 0 ==> Select(available, Some(0)) == Some(available[|available| - 1])
    ensures Select(available, None) == None
  {
  }

  /** One equality test `Field(r, column) == value` of a filter. */
  datatype Condition = Condition(column: Column, value: string)

  predicate MatchesAll(r: Record, conds: seq<Condition>) {
    forall k :: 0 <= k < |conds| ==> Field(r, conds[k].column) == conds[k].value
  }

  /** A boolean-mask filter: the rows that satisfy every condition, in their
      original order. With no conditions it keeps every row. */
  function FilterAll(rs: seq<Record>, conds: seq<Condition>): seq<Record> {
    if rs == [] then []
    else (if MatchesAll(rs[0], conds) then [rs[0]] else []) + FilterAll(rs[1..], conds)
  }

  /** `df[df[column] == value]`: the rows whose field equals `value` exactly. */
  function FilterEquals(rs: seq<Record>, c: Column, v: string): seq<Record> {
    FilterAll(rs, [Condition(c, v)])
  }

  /** `a` is `b` with some elements left out, the rest in the same order. */
  ghost predicate IsSubsequence(a: seq<Record>, b: seq<Record>)
    decreases |b|
  {
    a == [] || (b != [] && ((a[0] == b[0] && IsSubsequence(a[1..], b[1..])) || IsSubsequence(a, b[1..])))
  }

  /** Each row occurs in the result as often as in the table if it satisfies
      the conditions, and not at all otherwise. */
  lemma {:induction false} FilterAllCount(rs: seq<Record>, conds: seq<Condition>, r: Record)
    ensures multiset(FilterAll(rs, conds))[r] == if MatchesAll(r, conds) then multiset(rs)[r] else 0
  {
    if rs != [] {
      FilterAllCount(rs[1..], conds, r);
      assert rs == [rs[0]] + rs[1..];
    }
  }

  /** The result is an order-preserving subsequence of the table. */
  lemma {:induction false} FilterAllSubsequence(rs: seq<Record>, conds: seq<Condition>)
    ensures IsSubsequence(FilterAll(rs, conds), rs)
  {
    if rs != [] {
      FilterAllSubsequence(rs[1..], conds);
      var rest := FilterAll(rs[1..], conds);
      var out := FilterAll(rs, conds);
      if MatchesAll(rs[0], conds) {
        assert out == [rs[0]] + rest;
        assert out[0] == rs[0] && out[1..] == rest;
      } else {
        assert out == rest;
      }
    }
  }

  /** The line filter keeps exactly the rows of that line: each such row as
      often as in the table, no other row, in the table's order. */
  lemma FilterEqualsExact(rs: seq<Record>, c: Column, v: string)
    ensures forall r :: multiset(FilterEquals(rs, c, v))[r] == if Field(r, c) == v then multiset(rs)[r] else 0
    ensures forall r :: r in FilterEquals(rs, c, v) <==> r in rs && Field(r, c) == v
    ensures IsSubsequence(FilterEquals(rs, c, v), rs)
  {
    forall r
      ensures multiset(FilterEquals(rs, c, v))[r] == if Field(r, c) == v then multiset(rs)[r] else 0
      ensures r in FilterEquals(rs, c, v) <==> r in rs && Field(r, c) == v
    {
      FilterAllCount(rs, [Condition(c, v)], r);
      MatchesOne(r, c, v);
      assert r in FilterEquals(rs, c, v) <==> r in multiset(FilterEquals(rs, c, v));
      assert r in rs <==> r in multiset(rs);
    }
    FilterAllSubsequence(rs, [Condition(c, v)]);
  }

  /** A single condition is satisfied when the field has that value. */
  lemma MatchesOne(r: Record, c: Column, v: string)
    ensures MatchesAll(r, [Condition(c, v)]) <==> Field(r, c) == v
  {
    assert [Condition(c, v)][0] == Condition(c, v);
  }

  /** Satisfying a concatenation of conditions is satisfying both parts. */
  lemma MatchesAllConcat(r: Record, cs: seq<Condition>, ds: seq<Condition>)
    ensures MatchesAll(r, cs + ds) <==> MatchesAll(r, cs) && MatchesAll(r, ds)
  {
    var all := cs + ds;
    if MatchesAll(r, cs) && MatchesAll(r, ds) {
      forall k | 0 <= k < |all| ensures Field(r, all[k].column) == all[k].value {
        if k < |cs| { assert all[k] == cs[k]; } else { assert all[k] == ds[k - |cs|]; }
      }
    }
    if MatchesAll(r, all) {
      forall k | 0 <= k < |cs| ensures Field(r, cs[k].column) == cs[k].value {
        assert all[k] == cs[k];
      }
      forall k | 0 <= k < |ds| ensures Field(r, ds[k].column) == ds[k].value {
        assert all[|cs| + k] == ds[k];
      }
    }
  }

  /** Filtering the result of a filter equals one pass with both sets of
      conditions. */
  lemma {:induction false} FilterAllCompose(rs: seq<Record>, cs: seq<Condition>, ds: seq<Condition>)
    ensures FilterAll(FilterAll(rs, cs), ds) == FilterAll(rs, cs + ds)
  {
    if rs != [] {
      FilterAllCompose(rs[1..], cs, ds);
      MatchesAllConcat(rs[0], cs, ds);
      var rest := FilterAll(rs[1..], cs);
      if MatchesAll(rs[0], cs) {
        assert FilterAll(rs, cs) == [rs[0]] + rest;
        assert ([rs[0]] + rest)[0] == rs[0];
        assert ([rs[0]] + rest)[1..] == rest;
      } else {
        assert FilterAll(rs, cs) == rest;
      }
    }
  }

  /** Filters with the same conditions, in any order or repetition, agree. */
  lemma {:induction false} FilterAllSameConditions(rs: seq<Record>, cs: seq<Condition>, ds: seq<Condition>)
    requires forall x :: x in cs <==> x in ds
    ensures FilterAll(rs, cs) == FilterAll(rs, ds)
  {
    if rs != [] {
      FilterAllSameConditions(rs[1..], cs, ds);
      assert MatchesAll(rs[0], cs) <==> MatchesAll(rs[0], ds) by {
        if MatchesAll(rs[0], cs) {
          forall k | 0 <= k < |ds| ensures Field(rs[0], ds[k].column) == ds[k].value {
            assert ds[k] in cs;
          }
        }
        if MatchesAll(rs[0], ds) {
          forall k | 0 <= k < |cs| ensures Field(rs[0], cs[k].column) == cs[k].value {
            assert cs[k] in ds;
          }
        }
      }
    }
  }

  /** The empty conjunction is the identity filter. */
  lemma {:induction false} FilterAllNoConditions(rs: seq<Record>)
    ensures FilterAll(rs, []) == rs
  {
    if rs != [] {
      FilterAllNoConditions(rs[1..]);
      assert rs == [rs[0]] + rs[1..];
    }
  }

  /** Filtering a second time by the same column and value changes nothing. */
  lemma FilterEqualsIdempotent(rs: seq<Record>, c: Column, v: string)
    ensures FilterEquals(FilterEquals(rs, c, v), c, v) == FilterEquals(rs, c, v)
  {
    FilterAllCompose(rs, [Condition(c, v)], [Condition(c, v)]);
    FilterAllSameConditions(rs, [Condition(c, v)] + [Condition(c, v)], [Condition(c, v)]);
  }

  /** Two successive single-column filters equal one filter on the conjunction,
      whichever order they are applied in. */
  lemma FilterTwiceIsConjunction(rs: seq<Record>, c1: Column, v1: string, c2: Column, v2: string)
    ensures FilterEquals(FilterEquals(rs, c1, v1), c2, v2) == FilterAll(rs, [Condition(c1, v1), Condition(c2, v2)])
    ensures FilterEquals(FilterEquals(rs, c1, v1), c2, v2) == FilterEquals(FilterEquals(rs, c2, v2), c1, v1)
  {
    FilterAllCompose(rs, [Condition(c1, v1)], [Condition(c2, v2)]);
    FilterAllCompose(rs, [Condition(c2, v2)], [Condition(c1, v1)]);
    assert [Condition(c1, v1)] + [Condition(c2, v2)] == [Condition(c1, v1), Condition(c2, v2)];
    FilterAllSameConditions(rs, [Condition(c1, v1)] + [Condition(c2, v2)], [Condition(c2, v2)] + [Condition(c1, v1)]);
  }

  /** The period step after the line filter: answer "1" keeps the monthly
      rows, "2" the yearly rows, and any other answer keeps every row. */
  function PeriodFilter(rs: seq<Record>, choice: string): seq<Record> {
    if choice == "1" then FilterEquals(rs, PeriodColumn, "Month")
    else if choice == "2" then FilterEquals(rs, PeriodColumn, "Year")
    else rs
  }

  /** The condition an answer adds: the condition on Period, or none. */
  function PeriodConditions(choice: string): seq<Condition> {
    if choice == "1" then [Condition(PeriodColumn, "Month")]
    else if choice == "2" then [Condition(PeriodColumn, "Year")]
    else []
  }

  /** The line filter followed by the period step is one conjunctive filter:
      Line equals the selection, and Period equals "Month" or "Year" when the
      answer asks for it; any other answer leaves the line's rows unchanged. */
  lemma LineThenPeriodIsConjunction(rs: seq<Record>, line: string, choice: string)
    ensures PeriodFilter(FilterEquals(rs, LineColumn, line), choice)
         == FilterAll(rs, [Condition(LineColumn, line)] + PeriodConditions(choice))
    ensures choice != "1" && choice != "2" ==>
      PeriodFilter(FilterEquals(rs, LineColumn, line), choice) == FilterEquals(rs, LineColumn, line)
  {
    FilterAllCompose(rs, [Condition(LineColumn, line)], PeriodConditions(choice));
    if choice != "1" && choice != "2" {
      FilterAllNoConditions(FilterEquals(rs, LineColumn, line));
    }
  }
}
