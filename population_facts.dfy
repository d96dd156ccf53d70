/**
 * What the Haaren redistribution does to the population table: the effect of one credit
 * step and of the whole plan on each (code, year) and on the table's total, and the
 * conservation of population through `clean_population_df`.
 */
module PopulationFacts {
  import opened Wrappers
  import opened Grouping
  import opened PopulationCleaner
  import RecordCleaner

  // ---------------------------------------------------------------- measures of a table

  /** How many rows the table has for this code and year. */
  function RowCount(df: seq<PopRow>, code: string, year: int): nat
  {
    if |df| == 0 then 0
    else RowCount(df[..|df| - 1], code, year) + (if Matches(df[|df| - 1], code, year) then 1 else 0)
  }

  /** How many of them hold a population value. */
  function NonNullCount(df: seq<PopRow>, code: string, year: int): nat
  {
    if |df| == 0 then 0
    else NonNullCount(df[..|df| - 1], code, year)
         + (if Matches(df[|df| - 1], code, year) && df[|df| - 1].population.Some? then 1 else 0)
  }

  /** The table's total population, missing values as zero. */
  function Total(df: seq<PopRow>): real
  {
    if |df| == 0 then 0.0 else Total(df[..|df| - 1]) + OrZero(df[|df| - 1].population)
  }

  /** Every row has a key, so the group sums see the whole total. */
  lemma {:induction false} TotalIsKeyedSum(df: seq<PopRow>)
    ensures Total(df) == SumKeyed(PopKeys(df), PopValues(df))
  {
    if |df| > 0 {
      var d0 := df[..|df| - 1];
      TotalIsKeyedSum(d0);
      assert PopKeys(df)[..|df| - 1] == PopKeys(d0);
      assert PopValues(df)[..|df| - 1] == PopValues(d0);
    }
  }

  /** The population recorded under Haaren's code. */
  function HaarenTotal(df: seq<PopRow>): real
  {
    if |df| == 0 then 0.0
    else HaarenTotal(df[..|df| - 1])
         + (if df[|df| - 1].code == HaarenCode then OrZero(df[|df| - 1].population) else 0.0)
  }

  /** `n` times the amount, as a sum (it keeps the proofs free of non-linear arithmetic). */
  function Times(n: nat, a: real): real
  {
    if n == 0 then 0.0 else Times(n - 1, a) + a
  }

  /**
   * What one credit step adds to its successor's population: the share in a new row when
   * there is no row for the year, otherwise the share once per row with a value (a row
   * without a value stays without one).
   */
  function Gain(df: seq<PopRow>, t: Transfer): real
  {
    if !HasRow(df, t.code, t.year) then t.amount else Times(NonNullCount(df, t.code, t.year), t.amount)
  }

  // ---------------------------------------------------------------- appending one row

  lemma PopOfSnoc(df: seq<PopRow>, r: PopRow, code: string, year: int)
    ensures PopOf(df + [r], code, year)
         == PopOf(df, code, year) + (if Matches(r, code, year) then OrZero(r.population) else 0.0)
    ensures Total(df + [r]) == Total(df) + OrZero(r.population)
  {
    assert (df + [r])[..|df|] == df;
  }

  lemma CountsSnoc(df: seq<PopRow>, r: PopRow, code: string, year: int)
    ensures RowCount(df + [r], code, year) == RowCount(df, code, year) + (if Matches(r, code, year) then 1 else 0)
    ensures NonNullCount(df + [r], code, year)
         == NonNullCount(df, code, year) + (if Matches(r, code, year) && r.population.Some? then 1 else 0)
    ensures HaarenTotal(df + [r]) == HaarenTotal(df) + (if r.code == HaarenCode then OrZero(r.population) else 0.0)
  {
    assert (df + [r])[..|df|] == df;
  }

  lemma {:induction false} HasRowCount(df: seq<PopRow>, code: string, year: int)
    ensures HasRow(df, code, year) <==> RowCount(df, code, year) > 0
    ensures NonNullCount(df, code, year) <= RowCount(df, code, year)
  {
    if |df| > 0 {
      var d0, r := df[..|df| - 1], df[|df| - 1];
      assert df == d0 + [r];
      HasRowCount(d0, code, year);
      CountsSnoc(d0, r, code, year);
      assert HasRow(df, code, year) <==> HasRow(d0, code, year) || Matches(r, code, year);
    }
  }

  // ---------------------------------------------------------------- one credit step

  lemma CreditedSnoc(df: seq<PopRow>, r: PopRow, t: Transfer)
    ensures Credited(df + [r], t) == Credited(df, t) + [CreditRow(r, t)]
  {
  }

  /** Adding the share in place changes no count of rows, with or without a value. */
  lemma {:induction false} CreditedCounts(df: seq<PopRow>, t: Transfer, code: string, year: int)
    ensures RowCount(Credited(df, t), code, year) == RowCount(df, code, year)
    ensures NonNullCount(Credited(df, t), code, year) == NonNullCount(df, code, year)
  {
    if |df| == 0 {
      assert Credited(df, t) == [];
    } else {
      var d0, r := df[..|df| - 1], df[|df| - 1];
      assert df == d0 + [r];
      CreditedCounts(d0, t, code, year);
      CreditedSnoc(d0, r, t);
      CountsSnoc(d0, r, code, year);
      CountsSnoc(Credited(d0, t), CreditRow(r, t), code, year);
    }
  }

  /** The value one row contributes after the share is added in place. */
  lemma CreditRowValue(r: PopRow, t: Transfer)
    ensures OrZero(CreditRow(r, t).population)
         == OrZero(r.population) + (if Matches(r, t.code, t.year) && r.population.Some? then t.amount else 0.0)
  {
  }

  /** Adding the share in place adds it once per row of the successor that has a value. */
  lemma {:induction false} CreditedPopOf(df: seq<PopRow>, t: Transfer, code: string, year: int)
    ensures PopOf(Credited(df, t), code, year) == PopOf(df, code, year)
              + (if code == t.code && year == t.year then Times(NonNullCount(df, code, year), t.amount) else 0.0)
  {
    if |df| == 0 {
      assert Credited(df, t) == [];
    } else {
      var d0, r := df[..|df| - 1], df[|df| - 1];
      assert df == d0 + [r];
      CreditedPopOf(d0, t, code, year);
      CreditedSnoc(d0, r, t);
      PopOfSnoc(d0, r, code, year);
      PopOfSnoc(Credited(d0, t), CreditRow(r, t), code, year);
      CountsSnoc(d0, r, code, year);
      CreditRowValue(r, t);
    }
  }

  /** The same on the table's total. */
  lemma {:induction false} CreditedTotal(df: seq<PopRow>, t: Transfer)
    ensures Total(Credited(df, t)) == Total(df) + Times(NonNullCount(df, t.code, t.year), t.amount)
  {
    if |df| == 0 {
      assert Credited(df, t) == [];
    } else {
      var d0, r := df[..|df| - 1], df[|df| - 1];
      assert df == d0 + [r];
      CreditedTotal(d0, t);
      CreditedSnoc(d0, r, t);
      PopOfSnoc(d0, r, t.code, t.year);
      PopOfSnoc(Credited(d0, t), CreditRow(r, t), t.code, t.year);
      CountsSnoc(d0, r, t.code, t.year);
      CreditRowValue(r, t);
    }
  }

  /** Crediting a successor other than Haaren leaves Haaren's rows alone. */
  lemma {:induction false} CreditedHaarenTotal(df: seq<PopRow>, t: Transfer)
    requires t.code != HaarenCode
    ensures HaarenTotal(Credited(df, t)) == HaarenTotal(df)
  {
    if |df| == 0 {
      assert Credited(df, t) == [];
    } else {
      var d0, r := df[..|df| - 1], df[|df| - 1];
      assert df == d0 + [r];
      CreditedHaarenTotal(d0, t);
      CreditedSnoc(d0, r, t);
      CountsSnoc(d0, r, t.code, t.year);
      CountsSnoc(Credited(d0, t), CreditRow(r, t), t.code, t.year);
    }
  }

  /** A credit step leaves every other (code, year) as it was. */
  lemma CreditOthers(df: seq<PopRow>, t: Transfer, code: string, year: int)
    requires !(code == t.code && year == t.year)
    ensures RowCount(Credit(df, t), code, year) == RowCount(df, code, year)
    ensures NonNullCount(Credit(df, t), code, year) == NonNullCount(df, code, year)
    ensures PopOf(Credit(df, t), code, year) == PopOf(df, code, year)
    ensures HasRow(Credit(df, t), code, year) <==> HasRow(df, code, year)
  {
    var r := PopRow(t.code, t.year, Some(t.amount));
    if !HasRow(df, t.code, t.year) {
      CountsSnoc(df, r, code, year);
      PopOfSnoc(df, r, code, year);
    } else {
      CreditedCounts(df, t, code, year);
      CreditedPopOf(df, t, code, year);
    }
    HasRowCount(df, code, year);
    HasRowCount(Credit(df, t), code, year);
  }

  /** A credit step adds its gain to its own (code, year), which then has a row. */
  lemma CreditOwn(df: seq<PopRow>, t: Transfer)
    ensures PopOf(Credit(df, t), t.code, t.year) == PopOf(df, t.code, t.year) + Gain(df, t)
    ensures Total(Credit(df, t)) == Total(df) + Gain(df, t)
    ensures t.code != HaarenCode ==> HaarenTotal(Credit(df, t)) == HaarenTotal(df)
    ensures HasRow(Credit(df, t), t.code, t.year)
  {
    var r := PopRow(t.code, t.year, Some(t.amount));
    if !HasRow(df, t.code, t.year) {
      CountsSnoc(df, r, t.code, t.year);
      PopOfSnoc(df, r, t.code, t.year);
      assert r in Credit(df, t);
    } else {
      CreditedCounts(df, t, t.code, t.year);
      CreditedPopOf(df, t, t.code, t.year);
      CreditedTotal(df, t);
      if t.code != HaarenCode {
        CreditedHaarenTotal(df, t);
      }
      HasRowCount(df, t.code, t.year);
      HasRowCount(Credit(df, t), t.code, t.year);
    }
  }

  // ---------------------------------------------------------------- a sequence of steps

  /** No two steps credit the same (code, year). */
  ghost predicate KeysDistinct(plan: seq<Transfer>)
  {
    forall i, j | 0 <= i < j < |plan| :: !(plan[i].code == plan[j].code && plan[i].year == plan[j].year)
  }

  /** No step credits this (code, year). */
  ghost predicate Avoids(plan: seq<Transfer>, code: string, year: int)
  {
    forall i | 0 <= i < |plan| :: !(plan[i].code == code && plan[i].year == year)
  }

  /** The gains of the steps, each measured on the table the plan starts from. */
  function Gains(df: seq<PopRow>, plan: seq<Transfer>): real
  {
    if |plan| == 0 then 0.0 else Gains(df, plan[..|plan| - 1]) + Gain(df, plan[|plan| - 1])
  }

  /** The amounts the steps hand out. */
  function Amounts(plan: seq<Transfer>): real
  {
    if |plan| == 0 then 0.0 else Amounts(plan[..|plan| - 1]) + plan[|plan| - 1].amount
  }

  /** Steps on other keys leave a (code, year) as it was. */
  lemma {:induction false} ApplyOthers(df: seq<PopRow>, plan: seq<Transfer>, code: string, year: int)
    requires Avoids(plan, code, year)
    ensures RowCount(Apply(df, plan), code, year) == RowCount(df, code, year)
    ensures NonNullCount(Apply(df, plan), code, year) == NonNullCount(df, code, year)
    ensures PopOf(Apply(df, plan), code, year) == PopOf(df, code, year)
    ensures HasRow(Apply(df, plan), code, year) <==> HasRow(df, code, year)
  {
    if |plan| > 0 {
      var p0 := plan[..|plan| - 1];
      assert Avoids(p0, code, year);
      ApplyOthers(df, p0, code, year);
      CreditOthers(Apply(df, p0), plan[|plan| - 1], code, year);
    }
  }

  /** Hence a step's gain is the same whether measured before or after the other steps. */
  lemma GainUnaffected(df: seq<PopRow>, plan: seq<Transfer>, t: Transfer)
    requires Avoids(plan, t.code, t.year)
    ensures Gain(Apply(df, plan), t) == Gain(df, t)
  {
    ApplyOthers(df, plan, t.code, t.year);
  }

  /** The steps add their gains to the total. */
  lemma {:induction false} ApplyTotal(df: seq<PopRow>, plan: seq<Transfer>)
    requires KeysDistinct(plan)
    ensures Total(Apply(df, plan)) == Total(df) + Gains(df, plan)
  {
    if |plan| > 0 {
      var p0, t := plan[..|plan| - 1], plan[|plan| - 1];
      assert KeysDistinct(p0);
      assert Avoids(p0, t.code, t.year);
      ApplyTotal(df, p0);
      CreditOwn(Apply(df, p0), t);
      GainUnaffected(df, p0, t);
    }
  }

  /** Steps that credit other municipalities leave Haaren's rows alone. */
  lemma {:induction false} ApplyHaarenTotal(df: seq<PopRow>, plan: seq<Transfer>)
    requires forall i | 0 <= i < |plan| :: plan[i].code != HaarenCode
    ensures HaarenTotal(Apply(df, plan)) == HaarenTotal(df)
  {
    if |plan| > 0 {
      var p0 := plan[..|plan| - 1];
      ApplyHaarenTotal(df, p0);
      CreditOwn(Apply(df, p0), plan[|plan| - 1]);
    }
  }

  /** Each step's (code, year) ends up with its gain added, and with a row. */
  lemma {:induction false} ApplyOwn(df: seq<PopRow>, plan: seq<Transfer>, i: nat)
    requires KeysDistinct(plan)
    requires i < |plan|
    ensures PopOf(Apply(df, plan), plan[i].code, plan[i].year) == PopOf(df, plan[i].code, plan[i].year) + Gain(df, plan[i])
    ensures HasRow(Apply(df, plan), plan[i].code, plan[i].year)
  {
    var p0, t := plan[..|plan| - 1], plan[|plan| - 1];
    assert KeysDistinct(p0);
    if i == |plan| - 1 {
      assert Avoids(p0, t.code, t.year);
      CreditOwn(Apply(df, p0), t);
      ApplyOthers(df, p0, t.code, t.year);
    } else {
      assert p0[i] == plan[i];
      ApplyOwn(df, p0, i);
      CreditOthers(Apply(df, p0), t, plan[i].code, plan[i].year);
    }
  }

  /**
   * The plan is settled when every successor has, for every Haaren year, either no row
   * or exactly one row with a value: then each step gains exactly its amount.
   */
  ghost predicate Settled(df: seq<PopRow>, plan: seq<Transfer>)
  {
    forall i | 0 <= i < |plan| ::
      !HasRow(df, plan[i].code, plan[i].year) || NonNullCount(df, plan[i].code, plan[i].year) == 1
  }

  lemma {:induction false} SettledGains(df: seq<PopRow>, plan: seq<Transfer>)
    requires Settled(df, plan)
    ensures Gains(df, plan) == Amounts(plan)
  {
    if |plan| > 0 {
      var p0 := plan[..|plan| - 1];
      assert Settled(df, p0) by {
        forall i | 0 <= i < |p0| ensures !HasRow(df, p0[i].code, p0[i].year) || NonNullCount(df, p0[i].code, p0[i].year) == 1 {
          assert p0[i] == plan[i];
        }
      }
      SettledGains(df, p0);
      var t := plan[|plan| - 1];
      assert Times(1, t.amount) == t.amount;
    }
  }

  // ---------------------------------------------------------------- the Haaren plan

  /** The plan credits four distinct successors for each of distinct years. */
  lemma PlanKeysDistinct(df: seq<PopRow>)
    ensures KeysDistinct(Plan(df))
  {
    var plan, years := Plan(df), HaarenYears(df);
    forall i, j | 0 <= i < j < |plan|
      ensures !(plan[i].code == plan[j].code && plan[i].year == plan[j].year)
    {
      assert i == 4 * (i / 4) + i % 4 && j == 4 * (j / 4) + j % 4;
      if i / 4 != j / 4 {
        assert years[i / 4] != years[j / 4];
      } else {
        assert i % 4 != j % 4;
      }
    }
  }

  /** Every step credits a receiving municipality for a Haaren year. */
  lemma PlanSteps(df: seq<PopRow>)
    ensures forall i | 0 <= i < |Plan(df)| ::
              Plan(df)[i].code in ReceivingCodes && Plan(df)[i].code != HaarenCode
              && Plan(df)[i].year in HaarenYears(df)
  {
  }

  /** Step 4 * yi + ci credits the ci-th receiving municipality for the yi-th Haaren year. */
  lemma PlanStep(df: seq<PopRow>, yi: nat, ci: nat)
    requires yi < |HaarenYears(df)| && ci < 4
    ensures 4 * yi + ci < |Plan(df)|
    ensures Plan(df)[4 * yi + ci]
         == Transfer(ReceivingCodes[ci], HaarenYears(df)[yi],
                     FirstPopulation(ValidHaarenRows(df), HaarenYears(df)[yi]) / 4.0)
  {
    PlanIndex(yi, ci);
  }

  /** The populations of the given years, as the plan reads them. */
  function YearsTotal(valid: seq<PopRow>, years: seq<int>): real
  {
    if |years| == 0 then 0.0 else YearsTotal(valid, years[..|years| - 1]) + FirstPopulation(valid, years[|years| - 1])
  }

  lemma AmountsPrefix(plan: seq<Transfer>, k: nat)
    requires k < |plan|
    ensures Amounts(plan[..k + 1]) == Amounts(plan[..k]) + plan[k].amount
  {
    assert plan[..k + 1][..k] == plan[..k];
  }

  lemma YearsTotalPrefix(valid: seq<PopRow>, years: seq<int>, k: nat)
    requires k < |years|
    ensures YearsTotal(valid, years[..k + 1]) == YearsTotal(valid, years[..k]) + FirstPopulation(valid, years[k])
  {
    assert years[..k + 1][..k] == years[..k];
  }

  /** Four steps of one amount hand out four times that amount. */
  lemma QuarterBlock(plan: seq<Transfer>, b: nat, q: real)
    requires b + 4 <= |plan|
    requires plan[b].amount == q && plan[b + 1].amount == q
    requires plan[b + 2].amount == q && plan[b + 3].amount == q
    ensures Amounts(plan[..b + 4]) == Amounts(plan[..b]) + 4.0 * q
  {
    AmountsPrefix(plan, b);
    AmountsPrefix(plan, b + 1);
    AmountsPrefix(plan, b + 2);
    AmountsPrefix(plan, b + 3);
  }

  /** Steps handing out a quarter of each year's value hand out the sum of those values. */
  lemma {:induction false} QuartersTotal(plan: seq<Transfer>, valid: seq<PopRow>, years: seq<int>, m: nat)
    requires m <= |years| && |plan| == 4 * |years|
    requires forall k | 0 <= k < |plan| :: plan[k].amount == FirstPopulation(valid, years[k / 4]) / 4.0
    ensures Amounts(plan[..4 * m]) == YearsTotal(valid, years[..m])
  {
    if m == 0 {
      assert plan[..0] == [] && years[..0] == [];
    } else {
      var y := m - 1;
      QuartersTotal(plan, valid, years, y);
      PlanIndex(y, 0);
      PlanIndex(y, 1);
      PlanIndex(y, 2);
      PlanIndex(y, 3);
      QuarterBlock(plan, 4 * y, FirstPopulation(valid, years[y]) / 4.0);
      YearsTotalPrefix(valid, years, y);
    }
  }

  /** The four quarters of every year add up to that year's population: nothing is lost. */
  lemma PlanAmounts(df: seq<PopRow>)
    ensures Amounts(Plan(df)) == YearsTotal(ValidHaarenRows(df), HaarenYears(df))
  {
    var years := HaarenYears(df);
    QuartersTotal(Plan(df), ValidHaarenRows(df), years, |years|);
    assert Plan(df)[..4 * |years|] == Plan(df) && years[..|years|] == years;
  }

  /** Haaren reports at most one population per year. */
  ghost predicate OneValidRowPerYear(df: seq<PopRow>)
  {
    var v := ValidHaarenRows(df);
    forall i, j | 0 <= i < j < |v| :: v[i].year != v[j].year
  }

  lemma {:induction false} FirstPopulationOfRow(v: seq<PopRow>, i: nat)
    requires i < |v|
    requires forall j | 0 <= j < |v| :: v[j].population.Some?
    requires forall j, k | 0 <= j < k < |v| :: v[j].year != v[k].year
    ensures FirstPopulation(v, v[i].year) == v[i].population.value
  {
    if i > 0 {
      assert v[0].year != v[i].year;
      assert v[1..][i - 1] == v[i];
      FirstPopulationOfRow(v[1..], i - 1);
    }
  }

  lemma {:induction false} HaarenTotalIsValidTotal(df: seq<PopRow>)
    ensures HaarenTotal(df) == Total(ValidHaarenRows(df))
  {
    if |df| > 0 {
      var d0, r := df[..|df| - 1], df[|df| - 1];
      HaarenTotalIsValidTotal(d0);
      if r.code == HaarenCode && r.population.Some? {
        PopOfSnoc(ValidHaarenRows(d0), r, r.code, r.year);
      }
    }
  }

  /** With one value per year, the plan reads exactly Haaren's total population. */
  lemma HaarenYearsTotal(df: seq<PopRow>)
    requires OneValidRowPerYear(df)
    ensures YearsTotal(ValidHaarenRows(df), HaarenYears(df)) == HaarenTotal(df)
  {
    var v := ValidHaarenRows(df);
    ValidYears(v);
    YearsTotalUpTo(v, HaarenYears(df), |v|);
    assert HaarenYears(df)[..|v|] == HaarenYears(df) && v[..|v|] == v;
    HaarenTotalIsValidTotal(df);
  }

  /** The Haaren years are the years of the valid rows, one each. */
  lemma ValidYears(v: seq<PopRow>)
    requires forall i, j | 0 <= i < j < |v| :: v[i].year != v[j].year
    ensures GroupKeys(YearKeys(v)) == seq(|v|, i requires 0 <= i < |v| => v[i].year)
  {
    GroupKeysOfDistinct(YearKeys(v));
  }

  lemma {:induction false} YearsTotalUpTo(v: seq<PopRow>, years: seq<int>, m: nat)
    requires m <= |v| == |years|
    requires forall i | 0 <= i < |v| :: years[i] == v[i].year && v[i].population.Some?
    requires forall j, k | 0 <= j < k < |v| :: v[j].year != v[k].year
    ensures YearsTotal(v, years[..m]) == Total(v[..m])
  {
    if m > 0 {
      YearsTotalUpTo(v, years, m - 1);
      YearsTotalPrefix(v, years, m - 1);
      FirstPopulationOfRow(v, m - 1);
      assert v[..m][..m - 1] == v[..m - 1];
    }
  }

  // ---------------------------------------------------------------- dropping Haaren

  /** Dropping the Haaren rows removes exactly Haaren's population from the total. */
  lemma {:induction false} DropHaarenTotal(df: seq<PopRow>)
    ensures Total(DropHaaren(df)) == Total(df) - HaarenTotal(df)
  {
    if |df| > 0 {
      var d0, r := df[..|df| - 1], df[|df| - 1];
      DropHaarenTotal(d0);
      if r.code != HaarenCode {
        PopOfSnoc(DropHaaren(d0), r, r.code, r.year);
      }
    }
  }

  /** Dropping the Haaren rows leaves every other municipality as it was. */
  lemma {:induction false} DropHaarenOthers(df: seq<PopRow>, code: string, year: int)
    requires code != HaarenCode
    ensures PopOf(DropHaaren(df), code, year) == PopOf(df, code, year)
    ensures HasRow(DropHaaren(df), code, year) <==> HasRow(df, code, year)
  {
    if |df| > 0 {
      var d0, r := df[..|df| - 1], df[|df| - 1];
      DropHaarenOthers(d0, code, year);
      if r.code != HaarenCode {
        PopOfSnoc(DropHaaren(d0), r, code, year);
      }
    }
  }

  /** Without Haaren rows, the redistribution changes nothing. */
  lemma {:induction false} NoHaarenNoChange(df: seq<PopRow>)
    requires forall i | 0 <= i < |df| :: df[i].code != HaarenCode
    ensures Redistributed(df) == df
  {
    assert Apply(df, Plan(df)) == df;
    DropNothing(df);
  }

  /** Running the redistribution twice is running it once: its output holds no Haaren row. */
  lemma RedistributedIdempotent(df: seq<PopRow>)
    ensures Redistributed(Redistributed(df)) == Redistributed(df)
  {
    var out := Redistributed(df);
    forall i | 0 <= i < |out| ensures out[i].code != HaarenCode {
      assert out[i] in out;
    }
    NoHaarenNoChange(out);
  }

  lemma {:induction false} DropNothing(df: seq<PopRow>)
    requires forall i | 0 <= i < |df| :: df[i].code != HaarenCode
    ensures DropHaaren(df) == df
  {
    if |df| > 0 {
      DropNothing(df[..|df| - 1]);
    }
  }

  // ---------------------------------------------------------------- clean_population_df

  /** The Population column of a cleaned table. */
  function Populations(out: seq<PopulationRow>): (vs: seq<real>)
    ensures |vs| == |out| && forall i | 0 <= i < |out| :: vs[i] == out[i].population
  {
    seq(|out|, i requires 0 <= i < |out| => out[i].population)
  }

  /** The final aggregation conserves the total. */
  lemma GroupPopulationTotal(df: seq<PopRow>)
    ensures Sum(Populations(GroupPopulation(df))) == Total(df)
  {
    var ks, vs := PopKeys(df), PopValues(df);
    var g := GroupKeys(ks);
    var out := GroupPopulation(df);
    assert Populations(out) == GroupSums(ks, vs, g);
    GroupConservation(ks, vs);
    TotalIsKeyedSum(df);
  }

  /**
   * The population ledger of the cleaning: the cleaned total is the harmonized total,
   * less Haaren's population, plus what the redistribution credited.
   */
  lemma PopulationLedger(df: seq<PopRow>)
    ensures Sum(Populations(GroupPopulation(Redistributed(df))))
         == Total(df) - HaarenTotal(df) + Gains(df, Plan(df))
  {
    var a := Apply(df, Plan(df));
    PlanKeysDistinct(df);
    PlanSteps(df);
    ApplyTotal(df, Plan(df));
    ApplyHaarenTotal(df, Plan(df));
    DropHaarenTotal(a);
    GroupPopulationTotal(DropHaaren(a));
  }

  /**
   * Conservation: when Haaren reports one population per year and every successor has, in
   * those years, no row or exactly one row with a value, cleaning neither loses nor adds
   * population.
   */
  lemma PopulationConservation(df: seq<PopRow>)
    requires OneValidRowPerYear(df)
    requires Settled(df, Plan(df))
    ensures Sum(Populations(GroupPopulation(Redistributed(df)))) == Total(df)
  {
    PopulationLedger(df);
    SettledGains(df, Plan(df));
    PlanAmounts(df);
    HaarenYearsTotal(df);
  }

  /**
   * Each receiving municipality gains its quarter of Haaren's population in every year
   * Haaren reports one: in a new row when it has none, added into its rows otherwise.
   */
  lemma HaarenShare(df: seq<PopRow>, ci: nat, yi: nat)
    requires ci < 4 && yi < |HaarenYears(df)|
    ensures HasRow(Redistributed(df), ReceivingCodes[ci], HaarenYears(df)[yi])
    ensures PopOf(Redistributed(df), ReceivingCodes[ci], HaarenYears(df)[yi])
         == PopOf(df, ReceivingCodes[ci], HaarenYears(df)[yi]) + Gain(df, Plan(df)[4 * yi + ci])
  {
    var plan, c, y := Plan(df), ReceivingCodes[ci], HaarenYears(df)[yi];
    PlanStep(df, yi, ci);
    PlanKeysDistinct(df);
    ApplyOwn(df, plan, 4 * yi + ci);
    assert c != HaarenCode;
    DropHaarenOthers(Apply(df, plan), c, y);
    assert Redistributed(df) == DropHaaren(Apply(df, plan));
  }

  /** In a settled key the gain is exactly the quarter. */
  lemma HaarenQuarter(df: seq<PopRow>, ci: nat, yi: nat)
    requires ci < 4 && yi < |HaarenYears(df)|
    requires var c, y := ReceivingCodes[ci], HaarenYears(df)[yi];
             !HasRow(df, c, y) || NonNullCount(df, c, y) == 1
    ensures PopOf(Redistributed(df), ReceivingCodes[ci], HaarenYears(df)[yi])
         == PopOf(df, ReceivingCodes[ci], HaarenYears(df)[yi])
            + FirstPopulation(ValidHaarenRows(df), HaarenYears(df)[yi]) / 4.0
  {
    HaarenShare(df, ci, yi);
    PlanStep(df, yi, ci);
    assert Times(1, Plan(df)[4 * yi + ci].amount) == Plan(df)[4 * yi + ci].amount;
  }

  /**
   * Every other (code, year) keeps its population: codes that do not receive, and years in
   * which Haaren has no population value (those are not redistributed).
   */
  lemma OtherPopulationsUnchanged(df: seq<PopRow>, code: string, year: int)
    requires code != HaarenCode
    requires code !in ReceivingCodes || year !in HaarenYears(df)
    ensures PopOf(Redistributed(df), code, year) == PopOf(df, code, year)
    ensures HasRow(Redistributed(df), code, year) <==> HasRow(df, code, year)
  {
    PlanSteps(df);
    ApplyOthers(df, Plan(df), code, year);
    DropHaarenOthers(Apply(df, Plan(df)), code, year);
  }

  // ---------------------------------------------------------------- keys of the result

  /** A (code, year) of a credited table comes from the table or from a step of the plan. */
  lemma {:induction false} ApplyKeys(df: seq<PopRow>, plan: seq<Transfer>, code: string, year: int)
    requires HasRow(Apply(df, plan), code, year)
    ensures HasRow(df, code, year) || exists i | 0 <= i < |plan| :: plan[i].code == code && plan[i].year == year
  {
    if |plan| > 0 {
      var p0, t := plan[..|plan| - 1], plan[|plan| - 1];
      if t.code == code && t.year == year {
      } else {
        CreditOthers(Apply(df, p0), t, code, year);
        ApplyKeys(df, p0, code, year);
        if !HasRow(df, code, year) {
          var i :| 0 <= i < |p0| && p0[i].code == code && p0[i].year == year;
          assert plan[i] == p0[i];
        }
      }
    }
  }

  /** The codes the redistribution may add. */
  lemma ReceivingCodesShape()
    ensures forall c | c in ReceivingCodes :: c != HaarenCode && c !in FusedMunicipalityMap && IsMunicipal(c)
  {
  }

  /** A (code, year) left after the redistribution is not Haaren's, and is old or a successor's. */
  lemma RedistributedKeys(df: seq<PopRow>, code: string, year: int)
    requires HasRow(Redistributed(df), code, year)
    ensures code != HaarenCode
    ensures HasRow(df, code, year) || (code in ReceivingCodes && year in HaarenYears(df))
  {
    var a := Apply(df, Plan(df));
    var r :| r in DropHaaren(a) && Matches(r, code, year);
    assert HasRow(a, code, year);
    ApplyKeys(df, Plan(df), code, year);
    PlanSteps(df);
  }

  /** The cleaned table names only municipalities, neither a merged one nor Haaren. */
  lemma CleanedCodes(raw: seq<RawPopulation>)
    requires Prepared(raw).Ok?
    ensures var out := GroupPopulation(Redistributed(Prepared(raw).value));
            forall i | 0 <= i < |out| ::
              out[i].code != HaarenCode && out[i].code !in FusedMunicipalityMap && IsMunicipal(out[i].code)
  {
    var df := Prepared(raw).value;
    var out := GroupPopulation(Redistributed(df));
    forall i | 0 <= i < |out|
      ensures out[i].code != HaarenCode && out[i].code !in FusedMunicipalityMap && IsMunicipal(out[i].code)
    {
      var c, y := out[i].code, out[i].year;
      assert out[i] in out;
      assert InTable(out, c, y);
      RedistributedKeys(df, c, y);
      ReceivingCodesShape();
      if HasRow(df, c, y) {
        PreparedCodes(raw, c, y);
      }
    }
  }

  /** The harmonized codes are resolved municipality codes. */
  lemma PreparedCodes(raw: seq<RawPopulation>, code: string, year: int)
    requires Prepared(raw).Ok? && HasRow(Prepared(raw).value, code, year)
    ensures code !in FusedMunicipalityMap && IsMunicipal(code)
  {
    var df := Prepared(raw).value;
    var x :| x in df && Matches(x, code, year);
    var j :| 0 <= j < |df| && df[j] == x;
    var m := MunicipalRows(raw)[j];
    assert m in MunicipalRows(raw);
    assert x.code == Resolve(m.regio);
    SuccessorsMunicipal();
  }

  lemma SuccessorsMunicipal()
    ensures forall c | c in Successors :: IsMunicipal(c)
  {
  }

  /**
   * The two remap tables agree: the three codes the case cleaner merges map to the same
   * successor in the population table, so the joined tables use one code for the merger.
   */
  lemma RemapTablesAgree()
    ensures forall c | c in RecordCleaner.MergedCodes ::
              c in FusedMunicipalityMap && FusedMunicipalityMap[c] == RecordCleaner.VoorneCode
              && RecordCleaner.MergeCode(c) == Resolve(c)
  {
  }

  // ---------------------------------------------------------------- an example

  /** A statistics table holding only Haaren, 4000 inhabitants in 2020. */
  const HaarenAlone: seq<RawPopulation> := [RawPopulation("GM0788", "2020JJ00", Some(4000.0))]

  lemma HaarenAloneMunicipal()
    ensures MunicipalRows(HaarenAlone) == HaarenAlone
  {
    assert HaarenAlone[..0] == [];
  }

  lemma HaarenAlonePrepared()
    ensures Prepared(HaarenAlone) == Ok([PopRow("GM0788", 2020, Some(4000.0))])
  {
    var raw := HaarenAlone;
    ExtractYearOfPeriod();
    assert raw[..0] == [];
    HaarenAloneMunicipal();
    assert "GM0788" !in FusedMunicipalityMap;
    assert Harmonize(raw[..0]) == Ok([]);
    assert Resolve(raw[0].regio) == "GM0788";
    assert ExtractYear(raw[0].period) == Some(2020);
    assert Harmonize(raw) == Ok([] + [PopRow("GM0788", 2020, Some(4000.0))]);
    assert [] + [PopRow("GM0788", 2020, Some(4000.0))] == [PopRow("GM0788", 2020, Some(4000.0))];
    assert Prepared(raw) == Harmonize(raw);
  }

  /** The prepared table of the example: Haaren's one row. */
  const HaarenAloneRows: seq<PopRow> := [PopRow("GM0788", 2020, Some(4000.0))]

  lemma HaarenAloneValid()
    ensures ValidHaarenRows(HaarenAloneRows) == HaarenAloneRows
  {
    assert HaarenAloneRows[..0] == [];
  }

  lemma HaarenAlonePlan()
    ensures var df := [PopRow("GM0788", 2020, Some(4000.0))];
            HaarenYears(df) == [2020] && FirstPopulation(ValidHaarenRows(df), 2020) == 4000.0
  {
    var df := HaarenAloneRows;
    HaarenAloneValid();
    var keys := YearKeys(df);
    assert keys == [Some(2020)];
    GroupKeysOfDistinct(keys);
    assert HaarenYears(df) == GroupKeys(keys);
  }

  /** Each successor gets a quarter. */
  lemma HaarenAloneShares(ci: nat)
    requires ci < 4
    ensures var df := [PopRow("GM0788", 2020, Some(4000.0))];
            HasRow(Redistributed(df), ReceivingCodes[ci], 2020)
            && PopOf(Redistributed(df), ReceivingCodes[ci], 2020) == 1000.0
  {
    HaarenAlonePlan();
    var df := [PopRow("GM0788", 2020, Some(4000.0))];
    assert PopOf(df[..0], ReceivingCodes[ci], 2020) == 0.0;
    assert !HasRow(df, ReceivingCodes[ci], 2020);
    HaarenShare(df, ci, 0);
    HaarenQuarter(df, ci, 0);
  }

  /** And nothing else is left. */
  lemma HaarenAloneKeys(code: string, year: int)
    requires HasRow(Redistributed([PopRow("GM0788", 2020, Some(4000.0))]), code, year)
    ensures year == 2020 && code in ReceivingCodes
  {
    HaarenAlonePlan();
    RedistributedKeys([PopRow("GM0788", 2020, Some(4000.0))], code, year);
  }

  /** Haaren alone, 4000 inhabitants in 2020: four successors with 1000 each. */
  lemma HaarenScenario()
    ensures Prepared(HaarenAlone).Ok?
    ensures var out := GroupPopulation(Redistributed(Prepared(HaarenAlone).value));
            && (forall i | 0 <= i < |out| :: out[i].year == 2020 && out[i].code in ReceivingCodes
                                             && out[i].population == 1000.0)
            && (forall c | c in ReceivingCodes :: InTable(out, c, 2020))
  {
    HaarenAlonePrepared();
    var rd := Redistributed([PopRow("GM0788", 2020, Some(4000.0))]);
    var out := GroupPopulation(rd);
    forall c | c in ReceivingCodes ensures InTable(out, c, 2020) {
      var ci :| 0 <= ci < 4 && ReceivingCodes[ci] == c;
      HaarenAloneShares(ci);
    }
    forall i | 0 <= i < |out|
      ensures out[i].year == 2020 && out[i].code in ReceivingCodes && out[i].population == 1000.0
    {
      assert out[i] in out;
      assert InTable(out, out[i].code, out[i].year);
      HaarenAloneKeys(out[i].code, out[i].year);
      var ci :| 0 <= ci < 4 && ReceivingCodes[ci] == out[i].code;
      HaarenAloneShares(ci);
    }
  }
}
