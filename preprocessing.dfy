/**
 * `filter_by_criteria` of src/data/preprocessing.py: up to three equality filters on the
 * final table, on Year, Province and Municipality_name, each switched off by the value 'All'.
 */
module Preprocessing {
  import opened Combiner

  /** A criterion as the caller passes it: a text (such as 'All') or a number. */
  datatype Criterion = Text(s: string) | Number(n: int)

  /** The column a criterion is compared with. */
  datatype Field = YearField | ProvinceField | NameField

  /** `criterion != 'All'` is false. */
  predicate Disabled(c: Criterion)
  {
    c == Text("All")
  }

  /**
   * `df[column] == criterion` for one row: the integer Year column equals only a number,
   * the text columns only a text.
   */
  predicate Equals(r: FinalRow, field: Field, c: Criterion)
  {
    match field
    case YearField => c.Number? && r.year == c.n
    case ProvinceField => c.Text? && r.province == c.s
    case NameField => c.Text? && r.name == c.s
  }

  /** `df[df[column] == criterion]`: the rows that match, in order. */
  function Keep(rows: seq<FinalRow>, field: Field, c: Criterion): seq<FinalRow>
  {
    if |rows| == 0 then []
    else
      var last := rows[|rows| - 1];
      Keep(rows[..|rows| - 1], field, c) + (if Equals(last, field, c) then [last] else [])
  }

  /** One `if criterion != 'All': df = df[...]` block. */
  function Step(rows: seq<FinalRow>, field: Field, c: Criterion): seq<FinalRow>
  {
    if Disabled(c) then rows else Keep(rows, field, c)
  }

  /** `filter_by_criteria(df, year, province, municipality)`. */
  function FilterByCriteria(rows: seq<FinalRow>, year: Criterion, province: Criterion, municipality: Criterion): seq<FinalRow>
  {
    Step(Step(Step(rows, YearField, year), ProvinceField, province), NameField, municipality)
  }

  // ---------------------------------------------------------------- the reference

  /** A row meets a criterion when the criterion is 'All' or the row's column equals it. */
  predicate Accepts(r: FinalRow, field: Field, c: Criterion)
  {
    Disabled(c) || Equals(r, field, c)
  }

  predicate MeetsAll(r: FinalRow, year: Criterion, province: Criterion, municipality: Criterion)
  {
    Accepts(r, YearField, year) && Accepts(r, ProvinceField, province) && Accepts(r, NameField, municipality)
  }

  /** The rows that meet all three criteria, in their order: one filter instead of three. */
  function Meeting(rows: seq<FinalRow>, year: Criterion, province: Criterion, municipality: Criterion): (out: seq<FinalRow>)
    ensures forall r :: r in out <==> r in rows && MeetsAll(r, year, province, municipality)
  {
    if |rows| == 0 then []
    else
      var last := rows[|rows| - 1];
      assert rows == rows[..|rows| - 1] + [last];
      Meeting(rows[..|rows| - 1], year, province, municipality)
      + (if MeetsAll(last, year, province, municipality) then [last] else [])
  }

  lemma StepSnoc(rows: seq<FinalRow>, r: FinalRow, field: Field, c: Criterion)
    ensures Step(rows + [r], field, c) == Step(rows, field, c) + (if Accepts(r, field, c) then [r] else [])
  {
    assert (rows + [r])[..|rows|] == rows;
  }

  /** The three successive filters are the one filter by all three criteria. */
  lemma {:induction false} FilterIsMeeting(rows: seq<FinalRow>, year: Criterion, province: Criterion, municipality: Criterion)
    ensures FilterByCriteria(rows, year, province, municipality) == Meeting(rows, year, province, municipality)
  {
    if |rows| > 0 {
      var r0, r := rows[..|rows| - 1], rows[|rows| - 1];
      assert rows == r0 + [r];
      FilterIsMeeting(r0, year, province, municipality);
      var a := Step(r0, YearField, year);
      var b := Step(a, ProvinceField, province);
      StepSnoc(r0, r, YearField, year);
      StepSnoc(a, r, ProvinceField, province);
      StepSnoc(b, r, NameField, municipality);
      if !Accepts(r, YearField, year) {
        assert Step(rows, YearField, year) == a;
      } else if !Accepts(r, ProvinceField, province) {
        assert Step(rows, YearField, year) == a + [r];
        assert Step(a + [r], ProvinceField, province) == b;
      } else {
        assert Step(rows, YearField, year) == a + [r];
        assert Step(a + [r], ProvinceField, province) == b + [r];
      }
    }
  }

  // ---------------------------------------------------------------- properties

  /** With every criterion 'All', the table is returned unchanged. */
  lemma FilterAllIsIdentity(rows: seq<FinalRow>)
    ensures FilterByCriteria(rows, Text("All"), Text("All"), Text("All")) == rows
  {
  }

  /** A row is kept exactly when it is in the table and meets every criterion that is not 'All'. */
  lemma FilterMembers(rows: seq<FinalRow>, year: Criterion, province: Criterion, municipality: Criterion, r: FinalRow)
    ensures r in FilterByCriteria(rows, year, province, municipality)
        <==> r in rows
             && (!Disabled(year) ==> Equals(r, YearField, year))
             && (!Disabled(province) ==> Equals(r, ProvinceField, province))
             && (!Disabled(municipality) ==> Equals(r, NameField, municipality))
  {
    FilterIsMeeting(rows, year, province, municipality);
  }

  /** `out` is `rows` with some rows left out, the rest in their order: `out[k] == rows[idx[k]]`. */
  ghost predicate Embeds(out: seq<FinalRow>, rows: seq<FinalRow>, idx: seq<nat>)
  {
    && |idx| == |out|
    && (forall k | 0 <= k < |idx| :: idx[k] < |rows| && out[k] == rows[idx[k]])
    && (forall k, l | 0 <= k < l < |idx| :: idx[k] < idx[l])
  }

  /** The filtered table is an order-preserving subsequence of the input. */
  lemma {:induction false} FilterIsSubsequence(rows: seq<FinalRow>, year: Criterion, province: Criterion, municipality: Criterion)
    returns (idx: seq<nat>)
    ensures Embeds(FilterByCriteria(rows, year, province, municipality), rows, idx)
  {
    FilterIsMeeting(rows, year, province, municipality);
    idx := MeetingIndices(rows, year, province, municipality);
  }

  lemma {:induction false} MeetingIndices(rows: seq<FinalRow>, year: Criterion, province: Criterion, municipality: Criterion)
    returns (idx: seq<nat>)
    ensures Embeds(Meeting(rows, year, province, municipality), rows, idx)
    ensures forall k | 0 <= k < |idx| :: idx[k] < |rows|
  {
    if |rows| == 0 {
      idx := [];
    } else {
      var r0, r := rows[..|rows| - 1], rows[|rows| - 1];
      idx := MeetingIndices(r0, year, province, municipality);
      if MeetsAll(r, year, province, municipality) {
        idx := idx + [|r0|];
      }
    }
  }

  /** Filtering twice with the same criteria is filtering once. */
  lemma FilterIdempotent(rows: seq<FinalRow>, year: Criterion, province: Criterion, municipality: Criterion)
    ensures var once := FilterByCriteria(rows, year, province, municipality);
            FilterByCriteria(once, year, province, municipality) == once
  {
    var once := FilterByCriteria(rows, year, province, municipality);
    FilterIsMeeting(rows, year, province, municipality);
    FilterIsMeeting(once, year, province, municipality);
    forall i | 0 <= i < |once| ensures MeetsAll(once[i], year, province, municipality) {
      assert once[i] in once;
    }
    MeetingAll(once, year, province, municipality);
  }

  /** A table whose every row meets the criteria is kept whole. */
  lemma {:induction false} MeetingAll(rows: seq<FinalRow>, year: Criterion, province: Criterion, municipality: Criterion)
    requires forall i | 0 <= i < |rows| :: MeetsAll(rows[i], year, province, municipality)
    ensures Meeting(rows, year, province, municipality) == rows
  {
    if |rows| > 0 {
      MeetingAll(rows[..|rows| - 1], year, province, municipality);
      assert rows == rows[..|rows| - 1] + [rows[|rows| - 1]];
    }
  }

  /** The Year column is an integer: a year passed as text matches no row. */
  lemma TextYearMatchesNothing(rows: seq<FinalRow>, year: string, province: Criterion, municipality: Criterion)
    requires year != "All"
    ensures FilterByCriteria(rows, Text(year), province, municipality) == []
  {
    FilterIsMeeting(rows, Text(year), province, municipality);
    MeetingNone(rows, Text(year), province, municipality);
  }

  /** A table none of whose rows meets the criteria is filtered to nothing. */
  lemma {:induction false} MeetingNone(rows: seq<FinalRow>, year: Criterion, province: Criterion, municipality: Criterion)
    requires forall i | 0 <= i < |rows| :: !MeetsAll(rows[i], year, province, municipality)
    ensures Meeting(rows, year, province, municipality) == []
  {
    if |rows| > 0 {
      MeetingNone(rows[..|rows| - 1], year, province, municipality);
    }
  }
}
