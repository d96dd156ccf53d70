/**
 * dataframe_combiner.py: the cleaned hospital and case tables are merged on (Date,
 * Municipality_code) with an outer join and every row holding a missing cell is dropped;
 * the result is left-joined with the cleaned population table on (Municipality_code,
 * Year) and given three incidence rates per 100,000 inhabitants.
 */
module Combiner {
  import opened Wrappers
  import opened Records
  import opened RecordCleaner
  import opened PopulationCleaner

  // ---------------------------------------------------------------- the outer merge

  /**
   * A row of the outer merge. The hospital side brings the name and the admissions, the
   * case side Province, the two counts, Year and Month; a side without a partner leaves
   * its cells missing.
   */
  datatype MergedRow = MergedRow(
    date: Date,
    code: string,
    name: Option<string>,
    admission: Option<real>,
    province: Option<string>,
    totalReported: Option<real>,
    deceased: Option<real>,
    year: Option<int>,
    month: Option<Month>)

  /** A row of the combined COVID table: no cell is missing. */
  datatype CovidRow = CovidRow(
    date: Date,
    code: string,
    name: string,
    admission: real,
    province: string,
    totalReported: real,
    deceased: real,
    year: int,
    month: Month)

  /** The merge key (Date, Municipality_code) agrees. */
  predicate SameKey(h: HospitalRow, c: CaseRow)
  {
    h.date == c.date && h.code == c.code
  }

  function BothSides(h: HospitalRow, c: CaseRow): MergedRow
  {
    MergedRow(h.date, h.code, Some(h.name), Some(h.admission),
              Some(c.province), Some(c.totalReported), Some(c.deceased), Some(c.year), Some(c.month))
  }

  function HospitalOnly(h: HospitalRow): MergedRow
  {
    MergedRow(h.date, h.code, Some(h.name), Some(h.admission), None, None, None, None, None)
  }

  function CasesOnly(c: CaseRow): MergedRow
  {
    MergedRow(c.date, c.code, None, None,
              Some(c.province), Some(c.totalReported), Some(c.deceased), Some(c.year), Some(c.month))
  }

  /** The case rows that share the key of a hospital row, in their order. */
  function Partners(h: HospitalRow, cases: seq<CaseRow>): (m: seq<CaseRow>)
    ensures forall c :: c in m <==> c in cases && SameKey(h, c)
  {
    if |cases| == 0 then []
    else
      var rest := Partners(h, cases[..|cases| - 1]);
      var last := cases[|cases| - 1];
      assert cases == cases[..|cases| - 1] + [last];
      if SameKey(h, last) then rest + [last] else rest
  }

  function PairRows(h: HospitalRow, m: seq<CaseRow>): (r: seq<MergedRow>)
  {
    if |m| == 0 then [] else PairRows(h, m[..|m| - 1]) + [BothSides(h, m[|m| - 1])]
  }

  /** The rows of the merge that come from one hospital row. */
  function RowsOf(h: HospitalRow, cases: seq<CaseRow>): seq<MergedRow>
  {
    var m := Partners(h, cases);
    if |m| == 0 then [HospitalOnly(h)] else PairRows(h, m)
  }

  function HospitalSide(hospital: seq<HospitalRow>, cases: seq<CaseRow>): seq<MergedRow>
  {
    if |hospital| == 0 then []
    else HospitalSide(hospital[..|hospital| - 1], cases) + RowsOf(hospital[|hospital| - 1], cases)
  }

  /** The case rows whose key no hospital row has. */
  function CaseSide(hospital: seq<HospitalRow>, cases: seq<CaseRow>): seq<MergedRow>
  {
    if |cases| == 0 then []
    else
      var c := cases[|cases| - 1];
      CaseSide(hospital, cases[..|cases| - 1])
      + (if exists h :: h in hospital && SameKey(h, c) then [] else [CasesOnly(c)])
  }

  /** `pd.merge(hospital, cases, how="outer", on=["Date", "Municipality_code"])`. */
  function OuterMerge(hospital: seq<HospitalRow>, cases: seq<CaseRow>): seq<MergedRow>
  {
    HospitalSide(hospital, cases) + CaseSide(hospital, cases)
  }

  predicate Complete(r: MergedRow)
  {
    r.name.Some? && r.admission.Some? && r.province.Some? && r.totalReported.Some?
    && r.deceased.Some? && r.year.Some? && r.month.Some?
  }

  function Filled(r: MergedRow): CovidRow
    requires Complete(r)
  {
    CovidRow(r.date, r.code, r.name.value, r.admission.value, r.province.value,
             r.totalReported.value, r.deceased.value, r.year.value, r.month.value)
  }

  /** `dropna()`: keep the rows without a missing cell, in order. */
  function DropNa(rows: seq<MergedRow>): (r: seq<CovidRow>)
    ensures |r| <= |rows|
  {
    if |rows| == 0 then []
    else
      var last := rows[|rows| - 1];
      DropNa(rows[..|rows| - 1]) + (if Complete(last) then [Filled(last)] else [])
  }

  /** `combine_cases_and_hospital_data`. */
  function Combine(hospital: seq<HospitalRow>, cases: seq<CaseRow>): seq<CovidRow>
  {
    DropNa(OuterMerge(hospital, cases))
  }

  // ---------------------------------------------------------------- the inner join

  /** A combined row from a hospital row and a case row of the same key. */
  function Join(h: HospitalRow, c: CaseRow): (r: CovidRow)
    ensures r.date == h.date && r.code == h.code && r.name == h.name && r.admission == h.admission
    ensures r.province == c.province && r.totalReported == c.totalReported && r.deceased == c.deceased
    ensures r.year == c.year && r.month == c.month
  {
    CovidRow(h.date, h.code, h.name, h.admission, c.province, c.totalReported, c.deceased, c.year, c.month)
  }

  function JoinRows(h: HospitalRow, m: seq<CaseRow>): (r: seq<CovidRow>)
    ensures |r| == |m|
    ensures forall x :: x in r <==> exists c :: c in m && x == Join(h, c)
  {
    if |m| == 0 then []
    else
      var rest := JoinRows(h, m[..|m| - 1]);
      assert m == m[..|m| - 1] + [m[|m| - 1]];
      rest + [Join(h, m[|m| - 1])]
  }

  /** The reference: for each hospital row in order, one row per case row of the same key. */
  function InnerJoin(hospital: seq<HospitalRow>, cases: seq<CaseRow>): seq<CovidRow>
  {
    if |hospital| == 0 then []
    else
      var h := hospital[|hospital| - 1];
      InnerJoin(hospital[..|hospital| - 1], cases) + JoinRows(h, Partners(h, cases))
  }

  lemma {:induction false} DropNaAppend(a: seq<MergedRow>, b: seq<MergedRow>)
    ensures DropNa(a + b) == DropNa(a) + DropNa(b)
  {
    if |b| > 0 {
      var b0, x := b[..|b| - 1], b[|b| - 1];
      var tail := if Complete(x) then [Filled(x)] else [];
      assert (a + b)[..|a + b| - 1] == a + b0;
      assert (a + b)[|a + b| - 1] == x;
      assert DropNa(a + b) == DropNa(a + b0) + tail;
      assert DropNa(b) == DropNa(b0) + tail;
      DropNaAppend(a, b0);
    } else {
      assert a + b == a;
    }
  }

  lemma {:induction false} DropNaPairs(h: HospitalRow, m: seq<CaseRow>)
    ensures DropNa(PairRows(h, m)) == JoinRows(h, m)
  {
    if |m| > 0 {
      var m0 := m[..|m| - 1];
      DropNaPairs(h, m0);
      DropNaAppend(PairRows(h, m0), [BothSides(h, m[|m| - 1])]);
      assert DropNa([BothSides(h, m[|m| - 1])]) == [Join(h, m[|m| - 1])] by {
        assert [BothSides(h, m[|m| - 1])][..0] == [];
      }
    }
  }

  lemma {:induction false} DropNaHospitalSide(hospital: seq<HospitalRow>, cases: seq<CaseRow>)
    ensures DropNa(HospitalSide(hospital, cases)) == InnerJoin(hospital, cases)
  {
    if |hospital| > 0 {
      var h0, h := hospital[..|hospital| - 1], hospital[|hospital| - 1];
      DropNaHospitalSide(h0, cases);
      DropNaAppend(HospitalSide(h0, cases), RowsOf(h, cases));
      var m := Partners(h, cases);
      if |m| == 0 {
        assert DropNa([HospitalOnly(h)]) == [] by {
          assert [HospitalOnly(h)][..0] == [];
        }
      } else {
        DropNaPairs(h, m);
      }
    }
  }

  lemma {:induction false} DropNaCaseSide(hospital: seq<HospitalRow>, cases: seq<CaseRow>)
    ensures DropNa(CaseSide(hospital, cases)) == []
  {
    if |cases| > 0 {
      var c0, c := cases[..|cases| - 1], cases[|cases| - 1];
      DropNaCaseSide(hospital, c0);
      var tail := if exists h :: h in hospital && SameKey(h, c) then [] else [CasesOnly(c)];
      DropNaAppend(CaseSide(hospital, c0), tail);
      assert DropNa(tail) == [] by {
        if tail != [] {
          assert tail[..0] == [];
        }
      }
    }
  }

  /**
   * The outer merge followed by `dropna` is an inner join: the rows a side without a
   * partner contributes always hold a missing cell.
   */
  lemma CombineIsInnerJoin(hospital: seq<HospitalRow>, cases: seq<CaseRow>)
    ensures Combine(hospital, cases) == InnerJoin(hospital, cases)
  {
    DropNaAppend(HospitalSide(hospital, cases), CaseSide(hospital, cases));
    DropNaHospitalSide(hospital, cases);
    DropNaCaseSide(hospital, cases);
  }

  /**
   * A combined row is exactly a hospital row and a case row of the same (Date, code),
   * with the name and admissions taken from the hospital row and the rest from the case row.
   */
  lemma {:induction false} InnerJoinMembers(hospital: seq<HospitalRow>, cases: seq<CaseRow>, r: CovidRow)
    ensures r in InnerJoin(hospital, cases)
        <==> exists h, c :: h in hospital && c in cases && SameKey(h, c) && r == Join(h, c)
  {
    if |hospital| > 0 {
      var h0, h := hospital[..|hospital| - 1], hospital[|hospital| - 1];
      assert hospital == h0 + [h];
      InnerJoinMembers(h0, cases, r);
      if r in JoinRows(h, Partners(h, cases)) {
        var c :| c in Partners(h, cases) && r == Join(h, c);
        assert h in hospital && c in cases && SameKey(h, c);
      }
      if exists h', c :: h' in hospital && c in cases && SameKey(h', c) && r == Join(h', c) {
        var h', c :| h' in hospital && c in cases && SameKey(h', c) && r == Join(h', c);
        if h' != h {
          assert h' in h0;
        } else {
          assert c in Partners(h, cases);
        }
      }
    }
  }

  lemma CombineMembers(hospital: seq<HospitalRow>, cases: seq<CaseRow>, r: CovidRow)
    ensures r in Combine(hospital, cases)
        <==> exists h, c :: h in hospital && c in cases && SameKey(h, c) && r == Join(h, c)
  {
    CombineIsInnerJoin(hospital, cases);
    InnerJoinMembers(hospital, cases, r);
  }

  // ---------------------------------------------------------------- uniqueness

  ghost predicate UniqueHospital(hospital: seq<HospitalRow>)
  {
    forall i, j | 0 <= i < j < |hospital| :: !(hospital[i].date == hospital[j].date && hospital[i].code == hospital[j].code)
  }

  ghost predicate UniqueCases(cases: seq<CaseRow>)
  {
    forall i, j | 0 <= i < j < |cases| :: !(cases[i].date == cases[j].date && cases[i].code == cases[j].code)
  }

  ghost predicate UniqueCovid(rows: seq<CovidRow>)
  {
    forall i, j | 0 <= i < j < |rows| :: !(rows[i].date == rows[j].date && rows[i].code == rows[j].code)
  }

  lemma {:induction false} PartnersOfUnique(h: HospitalRow, cases: seq<CaseRow>)
    requires UniqueCases(cases)
    ensures |Partners(h, cases)| <= 1
  {
    if |cases| > 0 {
      var c0, last := cases[..|cases| - 1], cases[|cases| - 1];
      assert UniqueCases(c0);
      PartnersOfUnique(h, c0);
      if SameKey(h, last) {
        forall i | 0 <= i < |c0| ensures !SameKey(h, c0[i]) {
          assert c0[i] == cases[i];
        }
        NoPartners(h, c0);
      }
    }
  }

  lemma NoPartners(h: HospitalRow, cases: seq<CaseRow>)
    requires forall i | 0 <= i < |cases| :: !SameKey(h, cases[i])
    ensures Partners(h, cases) == []
  {
  }

  /** If each input holds one row per (Date, code), so does the combined table. */
  lemma {:induction false} CombinedUnique(hospital: seq<HospitalRow>, cases: seq<CaseRow>)
    requires UniqueHospital(hospital) && UniqueCases(cases)
    ensures UniqueCovid(Combine(hospital, cases))
  {
    CombineIsInnerJoin(hospital, cases);
    InnerJoinUnique(hospital, cases);
  }

  lemma {:induction false} InnerJoinUnique(hospital: seq<HospitalRow>, cases: seq<CaseRow>)
    requires UniqueHospital(hospital) && UniqueCases(cases)
    ensures UniqueCovid(InnerJoin(hospital, cases))
  {
    if |hospital| > 0 {
      var h0, h := hospital[..|hospital| - 1], hospital[|hospital| - 1];
      assert UniqueHospital(h0);
      InnerJoinUnique(h0, cases);
      var a, b := InnerJoin(h0, cases), JoinRows(h, Partners(h, cases));
      PartnersOfUnique(h, cases);
      forall i | 0 <= i < |a| ensures !(a[i].date == h.date && a[i].code == h.code) {
        assert a[i] in a;
        InnerJoinMembers(h0, cases, a[i]);
        var h', c :| h' in h0 && c in cases && SameKey(h', c) && a[i] == Join(h', c);
        var k :| 0 <= k < |h0| && h0[k] == h';
        assert hospital[k] == h';
      }
      forall x | x in b ensures x.date == h.date && x.code == h.code {
      }
      var ab := a + b;
      forall i, j | 0 <= i < j < |ab| ensures !(ab[i].date == ab[j].date && ab[i].code == ab[j].code) {
        if j >= |a| {
          assert ab[j] == b[j - |a|] && ab[j] in b;
        }
      }
    }
  }

  // ---------------------------------------------------------------- population and rates

  /** A row of the final table, its fields in the order of the thirteen output columns. */
  datatype FinalRow = FinalRow(
    date: Date,
    month: Month,
    year: int,
    code: string,
    name: string,
    province: string,
    population: Option<real>,
    admission: real,
    totalReported: real,
    deceased: real,
    hospitalRate: Option<real>,
    caseRate: Option<real>,
    deathRate: Option<real>)

  /**
   * `metric / Population * 100_000`. Missing when the population is missing; also missing
   * when it is zero, where pandas' floats give infinity or NaN.
   */
  function Rate(metric: real, population: Option<real>): (r: Option<real>)
    ensures r.None? <==> population.None? || population.value == 0.0
  {
    if population.None? || population.value == 0.0 then None
    else Some(metric / population.value * 100000.0)
  }

  /** A rate is the metric per 100,000 inhabitants: rate * population == metric * 100000. */
  lemma RatePerHundredThousand(metric: real, population: real)
    requires population != 0.0
    ensures Rate(metric, Some(population)).value * population == metric * 100000.0
  {
  }

  /** The final row for a combined row and the population found for it (or none). */
  function WithPopulation(r: CovidRow, population: Option<real>): FinalRow
  {
    FinalRow(r.date, r.month, r.year, r.code, r.name, r.province, population, r.admission,
             r.totalReported, r.deceased,
             Rate(r.admission, population), Rate(r.totalReported, population), Rate(r.deceased, population))
  }

  /** The population rows of the same (code, Year). */
  function PopulationPartners(r: CovidRow, population: seq<PopulationRow>): (m: seq<PopulationRow>)
    ensures forall p :: p in m <==> p in population && p.code == r.code && p.year == r.year
  {
    if |population| == 0 then []
    else
      var rest := PopulationPartners(r, population[..|population| - 1]);
      var last := population[|population| - 1];
      assert population == population[..|population| - 1] + [last];
      if last.code == r.code && last.year == r.year then rest + [last] else rest
  }

  function PopulatedRows(r: CovidRow, m: seq<PopulationRow>): (out: seq<FinalRow>)
    ensures |out| == |m|
    ensures forall i | 0 <= i < |m| :: out[i] == WithPopulation(r, Some(m[i].population))
  {
    if |m| == 0 then [] else PopulatedRows(r, m[..|m| - 1]) + [WithPopulation(r, Some(m[|m| - 1].population))]
  }

  /** The rows of the left join that come from one combined row: at least one. */
  function RowsFor(r: CovidRow, population: seq<PopulationRow>): (out: seq<FinalRow>)
    ensures |out| >= 1
  {
    var m := PopulationPartners(r, population);
    if |m| == 0 then [WithPopulation(r, None)] else PopulatedRows(r, m)
  }

  /** `add_population_and_calculate_incidence`. */
  function AddPopulation(covid: seq<CovidRow>, population: seq<PopulationRow>): (out: seq<FinalRow>)
    ensures |out| >= |covid|
  {
    if |covid| == 0 then []
    else AddPopulation(covid[..|covid| - 1], population) + RowsFor(covid[|covid| - 1], population)
  }

  /** The population of a (code, Year), when the table has a row for it. */
  function PopulationOf(population: seq<PopulationRow>, code: string, year: int): Option<real>
  {
    if |population| == 0 then None
    else
      var last := population[|population| - 1];
      if last.code == code && last.year == year then Some(last.population)
      else PopulationOf(population[..|population| - 1], code, year)
  }

  /** The look-up finds nothing exactly when no row has the key, and otherwise a row's population. */
  lemma {:induction false} PopulationOfSpec(population: seq<PopulationRow>, code: string, year: int)
    ensures PopulationOf(population, code, year).None?
        <==> forall q | q in population :: !(q.code == code && q.year == year)
    ensures PopulationOf(population, code, year).Some? ==>
              exists q :: q in population && q.code == code && q.year == year
                          && q.population == PopulationOf(population, code, year).value
  {
    if |population| > 0 {
      var p0, last := population[..|population| - 1], population[|population| - 1];
      assert population == p0 + [last];
      PopulationOfSpec(p0, code, year);
    }
  }

  ghost predicate UniquePopulation(population: seq<PopulationRow>)
  {
    forall i, j | 0 <= i < j < |population| :: !(population[i].code == population[j].code && population[i].year == population[j].year)
  }

  lemma {:induction false} PopulationPartnersOfUnique(r: CovidRow, population: seq<PopulationRow>)
    requires UniquePopulation(population)
    ensures |PopulationPartners(r, population)| <= 1
    ensures |PopulationPartners(r, population)| == 1 ==>
              PopulationOf(population, r.code, r.year) == Some(PopulationPartners(r, population)[0].population)
    ensures |PopulationPartners(r, population)| == 0 ==> PopulationOf(population, r.code, r.year).None?
  {
    if |population| > 0 {
      var p0 := population[..|population| - 1];
      assert UniquePopulation(p0);
      PopulationPartnersOfUnique(r, p0);
      var last := population[|population| - 1];
      if !(last.code == r.code && last.year == r.year) && |PopulationPartners(r, p0)| == 0 {
        assert PopulationPartners(r, population) == [];
      }
    }
  }

  /** The final row the left join gives a combined row when the look-up is unambiguous. */
  function Looked(r: CovidRow, population: seq<PopulationRow>): FinalRow
  {
    WithPopulation(r, PopulationOf(population, r.code, r.year))
  }

  /** One looked-up final row per combined row, in order. */
  function LookedUp(covid: seq<CovidRow>, population: seq<PopulationRow>): (out: seq<FinalRow>)
    ensures |out| == |covid|
  {
    if |covid| == 0 then []
    else LookedUp(covid[..|covid| - 1], population) + [Looked(covid[|covid| - 1], population)]
  }

  lemma {:induction false} LookedUpIndex(covid: seq<CovidRow>, population: seq<PopulationRow>)
    ensures forall i | 0 <= i < |covid| :: LookedUp(covid, population)[i] == Looked(covid[i], population)
  {
    if |covid| > 0 {
      var c0 := covid[..|covid| - 1];
      LookedUpIndex(c0, population);
      forall i | 0 <= i < |c0| ensures covid[i] == c0[i] {
      }
    }
  }

  lemma {:induction false} AddPopulationIsLookedUp(covid: seq<CovidRow>, population: seq<PopulationRow>)
    requires UniquePopulation(population)
    ensures AddPopulation(covid, population) == LookedUp(covid, population)
  {
    if |covid| > 0 {
      AddPopulationIsLookedUp(covid[..|covid| - 1], population);
      RowsForUnique(covid[|covid| - 1], population);
    }
  }

  /**
   * With one population row per (code, Year), the left join keeps the rows one for one:
   * same count, same order, the combined fields unchanged, the population looked up (or
   * missing) and the three rates computed from it.
   */
  lemma AddPopulationOneToOne(covid: seq<CovidRow>, population: seq<PopulationRow>)
    requires UniquePopulation(population)
    ensures |AddPopulation(covid, population)| == |covid|
    ensures forall i | 0 <= i < |covid| ::
              AddPopulation(covid, population)[i]
              == WithPopulation(covid[i], PopulationOf(population, covid[i].code, covid[i].year))
  {
    AddPopulationIsLookedUp(covid, population);
    LookedUpIndex(covid, population);
  }

  lemma RowsForUnique(r: CovidRow, population: seq<PopulationRow>)
    requires UniquePopulation(population)
    ensures RowsFor(r, population) == [WithPopulation(r, PopulationOf(population, r.code, r.year))]
  {
    PopulationPartnersOfUnique(r, population);
  }

  /**
   * Every combined row is kept (a left join drops nothing): each one is the source of at
   * least one final row, whatever the population table holds.
   */
  lemma {:induction false} AddPopulationKeeps(covid: seq<CovidRow>, population: seq<PopulationRow>, r: CovidRow)
    requires r in covid
    ensures exists f :: f in AddPopulation(covid, population) && f == WithPopulation(r, f.population)
  {
    var c0, last := covid[..|covid| - 1], covid[|covid| - 1];
    assert covid == c0 + [last];
    var out := AddPopulation(covid, population);
    if r == last {
      var f := RowsFor(last, population)[0];
      assert f in out;
      var m := PopulationPartners(last, population);
      if |m| > 0 {
        assert f == WithPopulation(r, Some(m[0].population));
      }
    } else {
      AddPopulationKeeps(c0, population, r);
      var f :| f in AddPopulation(c0, population) && f == WithPopulation(r, f.population);
      assert f in out;
    }
  }

  /** A matched population row for a combined row. */
  ghost predicate PopulatedFrom(f: FinalRow, r: CovidRow, population: seq<PopulationRow>)
  {
    exists q :: q in population && q.code == r.code && q.year == r.year && f == WithPopulation(r, Some(q.population))
  }

  /** A final row made from `r`: populated from a matching row, or without population when none matches. */
  ghost predicate MadeFrom(f: FinalRow, r: CovidRow, population: seq<PopulationRow>)
  {
    (f == WithPopulation(r, None) && PopulationOf(population, r.code, r.year).None?)
    || PopulatedFrom(f, r, population)
  }

  lemma RowsForMembers(r: CovidRow, population: seq<PopulationRow>, f: FinalRow)
    requires f in RowsFor(r, population)
    ensures MadeFrom(f, r, population)
  {
    var m := PopulationPartners(r, population);
    if |m| > 0 {
      var i :| 0 <= i < |m| && PopulatedRows(r, m)[i] == f;
      assert m[i] in m;
    } else {
      PopulationOfSpec(population, r.code, r.year);
    }
  }

  /** A final row comes from the rows before the last combined row, or from the last one. */
  lemma AddPopulationLast(covid: seq<CovidRow>, population: seq<PopulationRow>, f: FinalRow)
    requires f in AddPopulation(covid, population)
    ensures |covid| > 0
    ensures f in AddPopulation(covid[..|covid| - 1], population) || f in RowsFor(covid[|covid| - 1], population)
  {
  }

  /** The combined row a final row was made from. */
  lemma {:induction false} SourceOf(covid: seq<CovidRow>, population: seq<PopulationRow>, f: FinalRow)
    returns (r: CovidRow)
    requires f in AddPopulation(covid, population)
    ensures r in covid && MadeFrom(f, r, population)
  {
    var c0, last := covid[..|covid| - 1], covid[|covid| - 1];
    AddPopulationLast(covid, population, f);
    if f in AddPopulation(c0, population) {
      r := SourceOf(c0, population, f);
    } else {
      RowsForMembers(last, population, f);
      r := last;
    }
  }

  /**
   * Every final row comes from a combined row: with the population of a row of the same
   * (code, Year), or with a missing population when there is none.
   */
  lemma AddPopulationMembers(covid: seq<CovidRow>, population: seq<PopulationRow>, f: FinalRow)
    requires f in AddPopulation(covid, population)
    ensures exists r :: r in covid && MadeFrom(f, r, population)
  {
    var r := SourceOf(covid, population, f);
  }

  /** A final row without a population has no rates; one with a nonzero population has all three. */
  lemma RatesOf(r: CovidRow, population: Option<real>)
    ensures var f := WithPopulation(r, population);
            && (population.None? ==> f.hospitalRate.None? && f.caseRate.None? && f.deathRate.None?)
            && (population.Some? && population.value != 0.0 ==>
                  && f.hospitalRate == Some(r.admission / population.value * 100000.0)
                  && f.caseRate == Some(r.totalReported / population.value * 100000.0)
                  && f.deathRate == Some(r.deceased / population.value * 100000.0))
  {
  }
}
