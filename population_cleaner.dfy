/**
 * `clean_population_df` of dataframe_cleaner.py: keep municipality rows, read the year from
 * the period string, replace the codes of merged municipalities, redistribute Haaren
 * (GM0788) over its four successors, drop Haaren and aggregate by (code, year).
 */
module PopulationCleaner {
  import opened Wrappers
  import opened Grouping
  import opened Records

  /** A raw row of the statistics table: region code, period string, population. */
  datatype RawPopulation = RawPopulation(regio: string, period: string, population: Option<real>)

  /** A row of the table while it is being harmonized. */
  datatype PopRow = PopRow(code: string, year: int, population: Option<real>)

  /** The group-by key of the population table. */
  datatype PopKey = PopKey(code: string, year: int)

  /** A row of the cleaned population table. */
  datatype PopulationRow = PopulationRow(code: string, year: int, population: real)

  // ---------------------------------------------------------------- municipality rows

  /** `RegioS.str.startswith("GM")`. */
  predicate IsMunicipal(code: string)
  {
    |code| >= 2 && code[..2] == "GM"
  }

  /** The rows whose region is a municipality, in their original order. */
  function MunicipalRows(raw: seq<RawPopulation>): (r: seq<RawPopulation>)
    ensures forall x :: x in r <==> x in raw && IsMunicipal(x.regio)
    ensures forall x :: multiset(r)[x] == if IsMunicipal(x.regio) then multiset(raw)[x] else 0
  {
    if |raw| == 0 then []
    else
      var rest := MunicipalRows(raw[..|raw| - 1]);
      var last := raw[|raw| - 1];
      assert raw == raw[..|raw| - 1] + [last];
      if IsMunicipal(last.regio) then rest + [last] else rest
  }

  // ---------------------------------------------------------------- the year

  /** Four consecutive decimal digits start at index `i`. */
  predicate FourDigitsAt(s: string, i: int)
  {
    0 <= i && i + 4 <= |s| && IsDigit(s[i]) && IsDigit(s[i + 1]) && IsDigit(s[i + 2]) && IsDigit(s[i + 3])
  }

  function DigitValue(c: char): (d: nat)
    requires IsDigit(c)
    ensures d <= 9
  {
    c as int - '0' as int
  }

  /** The number written by the four digits at `i`. */
  function FourDigitValue(s: string, i: int): (v: nat)
    requires FourDigitsAt(s, i)
    ensures v <= 9999
  {
    1000 * DigitValue(s[i]) + 100 * DigitValue(s[i + 1]) + 10 * DigitValue(s[i + 2]) + DigitValue(s[i + 3])
  }

  /** The leftmost start, at or after `from`, of four consecutive digits. */
  function FirstRunFrom(s: string, from: nat): (r: Option<nat>)
    requires from <= |s|
    ensures r.Some? ==> from <= r.value && FourDigitsAt(s, r.value)
    decreases |s| - from
  {
    if from + 4 > |s| then None
    else if FourDigitsAt(s, from) then Some(from)
    else FirstRunFrom(s, from + 1)
  }

  lemma {:induction false} FirstRunFromSpec(s: string, from: nat)
    requires from <= |s|
    ensures var r := FirstRunFrom(s, from);
            && (r.Some? ==> forall j | from <= j < r.value :: !FourDigitsAt(s, j))
            && (r.None? ==> forall j | from <= j :: !FourDigitsAt(s, j))
    decreases |s| - from
  {
    if from + 4 <= |s| && !FourDigitsAt(s, from) {
      FirstRunFromSpec(s, from + 1);
    }
  }

  /**
   * `Year.str.extract(r"(\d{4})")`: the value of the leftmost run of four digits, or None
   * when the string holds no such run (pandas then has NaN, which `astype(int)` refuses).
   */
  function ExtractYear(s: string): Option<int>
  {
    match FirstRunFrom(s, 0)
    case None => None
    case Some(i) => Some(FourDigitValue(s, i))
  }

  /** The year is found exactly when a four-digit run exists, and it is the leftmost one's value. */
  lemma ExtractYearSpec(s: string)
    ensures ExtractYear(s).None? <==> forall j :: !FourDigitsAt(s, j)
    ensures ExtractYear(s).Some? ==>
              exists i :: FourDigitsAt(s, i) && (forall j | 0 <= j < i :: !FourDigitsAt(s, j))
                          && ExtractYear(s).value == FourDigitValue(s, i)
    ensures ExtractYear(s).Some? ==> 0 <= ExtractYear(s).value <= 9999
  {
    FirstRunFromSpec(s, 0);
  }

  /** The period strings of the statistics table, e.g. "2020JJ00", give their year. */
  lemma ExtractYearOfPeriod()
    ensures ExtractYear("2020JJ00") == Some(2020)
    ensures ExtractYear("JJ") == None
  {
    assert FourDigitsAt("2020JJ00", 0);
    assert !FourDigitsAt("JJ", 0);
  }

  // ---------------------------------------------------------------- merged municipalities

  /** `fused_municipality_map`: the codes of merged municipalities and their successors. */
  const FusedMunicipalityMap: map<string, string> := map[
    "GM0370" := "GM0439",  // Beemster -> Purmerend
    "GM0398" := "GM1980",  // Heerhugowaard -> Dijk en Waard
    "GM0416" := "GM1980",  // Langedijk -> Dijk en Waard
    "GM0457" := "GM0363",  // Weesp -> Amsterdam
    "GM0501" := "GM1992",  // Brielle -> Voorne aan Zee
    "GM0530" := "GM1992",  // Hellevoetsluis -> Voorne aan Zee
    "GM0614" := "GM1992",  // Westvoorne -> Voorne aan Zee
    "GM0756" := "GM1982",  // Boxmeer -> Land van Cuijk
    "GM0786" := "GM1982",  // Grave -> Land van Cuijk
    "GM0815" := "GM1982",  // Mill en Sint Hubert -> Land van Cuijk
    "GM0856" := "GM1991",  // Uden -> Maashorst
    "GM1684" := "GM1982",  // Cuijk -> Land van Cuijk
    "GM1685" := "GM1991",  // Landerd -> Maashorst
    "GM1702" := "GM1982",  // Sint Anthonis -> Land van Cuijk
    "GM0003" := "GM1979",  // Appingedam -> Eemsdelta
    "GM0010" := "GM1979",  // Delfzijl -> Eemsdelta
    "GM0024" := "GM1979"   // Loppersum -> Eemsdelta
  ]

  /** The successor codes; none of them is itself a merged code. */
  const Successors: set<string> := {"GM0439", "GM1980", "GM0363", "GM1992", "GM1982", "GM1991", "GM1979"}

  /** Every merged code maps to a successor, and no successor is itself merged. */
  lemma FusedMapShape()
    ensures forall k | k in FusedMunicipalityMap :: FusedMunicipalityMap[k] in Successors
    ensures forall s | s in Successors :: s !in FusedMunicipalityMap
  {
  }

  /** `Municipality_code.replace(fused_municipality_map)`: one pass of replacement. */
  function Resolve(code: string): (r: string)
    ensures r !in FusedMunicipalityMap
    ensures code in FusedMunicipalityMap ==> r == FusedMunicipalityMap[code] && r in Successors
    ensures code !in FusedMunicipalityMap ==> r == code
  {
    if code in FusedMunicipalityMap then
      FusedMapShape();
      FusedMunicipalityMap[code]
    else code
  }

  /**
   * The rows as the redistribution sees them: municipality rows only, year extracted,
   * codes resolved. Fails when some municipality row's period holds no four-digit year.
   */
  function Harmonize(rows: seq<RawPopulation>): (r: Result<seq<PopRow>>)
    ensures r.Ok? <==> forall i | 0 <= i < |rows| :: ExtractYear(rows[i].period).Some?
    ensures r.Ok? ==> |r.value| == |rows| && forall i | 0 <= i < |rows| ::
              r.value[i] == PopRow(Resolve(rows[i].regio), ExtractYear(rows[i].period).value, rows[i].population)
  {
    if |rows| == 0 then Ok([])
    else
      var n := |rows| - 1;
      var prev := Harmonize(rows[..n]);
      assert forall i | 0 <= i < n :: rows[..n][i] == rows[i];
      var year := ExtractYear(rows[n].period);
      if prev.Err? then
        assert !ExtractYear(rows[..n][0].period).Some? || exists i | 0 <= i < n :: !ExtractYear(rows[i].period).Some?;
        Err(prev.message)
      else if year.None? then
        Err("cannot convert the Year column to int: a period holds no four-digit year")
      else
        Ok(prev.value + [PopRow(Resolve(rows[n].regio), year.value, rows[n].population)])
  }

  // ---------------------------------------------------------------- Haaren

  const HaarenCode: string := "GM0788"

  /** Oisterwijk, Vught, Boxtel and Tilburg, in the order the source visits them. */
  const ReceivingCodes: seq<string> := ["GM0824", "GM0865", "GM0757", "GM0855"]

  /** One quarter of Haaren's population for one year, credited to one successor. */
  datatype Transfer = Transfer(code: string, year: int, amount: real)

  predicate Matches(r: PopRow, code: string, year: int)
  {
    r.code == code && r.year == year
  }

  /** Haaren's rows with a population value (`haaren_valid_rows`). */
  function ValidHaarenRows(df: seq<PopRow>): (v: seq<PopRow>)
    ensures forall r :: r in v <==> r in df && r.code == HaarenCode && r.population.Some?
  {
    if |df| == 0 then []
    else
      var rest := ValidHaarenRows(df[..|df| - 1]);
      var last := df[|df| - 1];
      assert df == df[..|df| - 1] + [last];
      if last.code == HaarenCode && last.population.Some? then rest + [last] else rest
  }

  function YearKeys(rows: seq<PopRow>): (ks: seq<Option<int>>)
    ensures |ks| == |rows| && forall i | 0 <= i < |rows| :: ks[i] == Some(rows[i].year)
  {
    seq(|rows|, i requires 0 <= i < |rows| => Some(rows[i].year))
  }

  /** `haaren_valid_rows["Year"].unique()`: distinct years in order of first appearance. */
  function HaarenYears(df: seq<PopRow>): (ys: seq<int>)
    ensures Distinct(ys)
    ensures forall y :: y in ys <==> exists r :: r in df && r.code == HaarenCode && r.population.Some? && r.year == y
  {
    var valid := ValidHaarenRows(df);
    var ys := GroupKeys(YearKeys(valid));
    assert forall y :: Some(y) in YearKeys(valid) <==> exists r :: r in valid && r.year == y by {
      forall y | Some(y) in YearKeys(valid) ensures exists r :: r in valid && r.year == y {
        var i :| 0 <= i < |valid| && YearKeys(valid)[i] == Some(y);
        assert valid[i] in valid;
      }
    }
    ys
  }

  /** The population of the first row of the given year (`.values[0]`). */
  function FirstPopulation(valid: seq<PopRow>, year: int): real
  {
    if |valid| == 0 then 0.0
    else if valid[0].year == year && valid[0].population.Some? then valid[0].population.value
    else FirstPopulation(valid[1..], year)
  }

  /**
   * The transfers the nested loop performs, in order: for every Haaren year, a quarter of
   * that year's population to each receiving municipality.
   */
  function Plan(df: seq<PopRow>): (p: seq<Transfer>)
    ensures |p| == 4 * |HaarenYears(df)|
    ensures forall k | 0 <= k < |p| ::
              p[k] == Transfer(ReceivingCodes[k % 4], HaarenYears(df)[k / 4],
                               FirstPopulation(ValidHaarenRows(df), HaarenYears(df)[k / 4]) / 4.0)
  {
    var years := HaarenYears(df);
    var valid := ValidHaarenRows(df);
    seq(4 * |years|, k requires 0 <= k < 4 * |years| =>
      Transfer(ReceivingCodes[k % 4], years[k / 4], FirstPopulation(valid, years[k / 4]) / 4.0))
  }

  /** The table holds a row for this code and year (`not df[mask].empty`). */
  predicate HasRow(df: seq<PopRow>, code: string, year: int)
  {
    exists r :: r in df && Matches(r, code, year)
  }

  /** `Population += share` on one cell: NaN plus a number stays NaN. */
  function AddTo(p: Option<real>, share: real): Option<real>
  {
    if p.Some? then Some(p.value + share) else None
  }

  /** The row after `df.loc[mask, "Population"] += share`. */
  function CreditRow(r: PopRow, t: Transfer): PopRow
  {
    if Matches(r, t.code, t.year) then r.(population := AddTo(r.population, t.amount)) else r
  }

  /** The table after `df.loc[mask, "Population"] += share`. */
  function Credited(df: seq<PopRow>, t: Transfer): (r: seq<PopRow>)
    ensures |r| == |df| && forall i | 0 <= i < |df| :: r[i] == CreditRow(df[i], t)
  {
    seq(|df|, i requires 0 <= i < |df| => CreditRow(df[i], t))
  }

  /**
   * One inner iteration: append a row holding the share when the successor has no row
   * for the year, otherwise add the share into every row it has for that year.
   */
  function Credit(df: seq<PopRow>, t: Transfer): seq<PopRow>
  {
    if !HasRow(df, t.code, t.year) then df + [PopRow(t.code, t.year, Some(t.amount))]
    else Credited(df, t)
  }

  /** The transfers performed one after another. */
  function Apply(df: seq<PopRow>, plan: seq<Transfer>): seq<PopRow>
  {
    if |plan| == 0 then df else Credit(Apply(df, plan[..|plan| - 1]), plan[|plan| - 1])
  }

  /** `df.loc[mask, "Population"] += share`, row by row. */
  method AddShare(df0: seq<PopRow>, t: Transfer) returns (df: seq<PopRow>)
    ensures |df| == |df0| && forall j | 0 <= j < |df0| :: df[j] == CreditRow(df0[j], t)
  {
    df := df0;
    for i := 0 to |df|
      invariant |df| == |df0|
      invariant forall j | 0 <= j < i :: df[j] == CreditRow(df0[j], t)
      invariant forall j | i <= j < |df| :: df[j] == df0[j]
    {
      if Matches(df[i], t.code, t.year) {
        df := df[i := df[i].(population := AddTo(df[i].population, t.amount))];
      }
    }
  }

  /** One iteration of the inner loop: append a row, or add the share in place. */
  method CreditStep(df0: seq<PopRow>, t: Transfer) returns (df: seq<PopRow>)
    ensures df == Credit(df0, t)
  {
    if !HasRow(df0, t.code, t.year) {
      df := df0 + [PopRow(t.code, t.year, Some(t.amount))];
    } else {
      df := AddShare(df0, t);
    }
  }

  lemma ApplyStep(df: seq<PopRow>, plan: seq<Transfer>, m: nat)
    requires m < |plan|
    ensures Apply(df, plan[..m + 1]) == Credit(Apply(df, plan[..m]), plan[m])
  {
    assert plan[..m + 1][..m] == plan[..m];
  }

  lemma PlanIndex(yi: nat, ci: nat)
    requires ci < 4
    ensures (4 * yi + ci) / 4 == yi && (4 * yi + ci) % 4 == ci
  {
  }

  /**
   * The Haaren redistribution loop: for every Haaren year, for every receiving
   * municipality, one credit step on the table (a local the steps grow or update).
   */
  method RedistributeHaaren(df0: seq<PopRow>) returns (df: seq<PopRow>)
    ensures df == Apply(df0, Plan(df0))
  {
    var valid := ValidHaarenRows(df0);
    var years := HaarenYears(df0);
    ghost var plan := Plan(df0);
    df := df0;
    assert plan[..0] == [];
    for yi := 0 to |years|
      invariant df == Apply(df0, plan[..4 * yi])
    {
      var year := years[yi];
      var split := FirstPopulation(valid, year) / 4.0;
      for ci := 0 to |ReceivingCodes|
        invariant df == Apply(df0, plan[..4 * yi + ci])
      {
        var t := Transfer(ReceivingCodes[ci], year, split);
        PlanIndex(yi, ci);
        assert plan[4 * yi + ci] == t;
        ApplyStep(df0, plan, 4 * yi + ci);
        df := CreditStep(df, t);
      }
    }
    assert plan[..4 * |years|] == plan;
  }

  /** `df[df["Municipality_code"] != haaren_code]`. */
  function DropHaaren(df: seq<PopRow>): (r: seq<PopRow>)
    ensures forall x :: x in r <==> x in df && x.code != HaarenCode
  {
    if |df| == 0 then []
    else
      var rest := DropHaaren(df[..|df| - 1]);
      var last := df[|df| - 1];
      assert df == df[..|df| - 1] + [last];
      if last.code != HaarenCode then rest + [last] else rest
  }

  /** Dropping Haaren keeps every other row as many times as the table holds it. */
  lemma {:induction false} DropHaarenMultiplicity(df: seq<PopRow>)
    ensures forall x :: multiset(DropHaaren(df))[x] == if x.code != HaarenCode then multiset(df)[x] else 0
  {
    if |df| > 0 {
      var d0, last := df[..|df| - 1], df[|df| - 1];
      DropHaarenMultiplicity(d0);
      assert df == d0 + [last];
    }
  }

  // ---------------------------------------------------------------- aggregation

  function PopKeys(df: seq<PopRow>): (ks: seq<Option<PopKey>>)
    ensures |ks| == |df| && forall i | 0 <= i < |df| :: ks[i] == Some(PopKey(df[i].code, df[i].year))
  {
    seq(|df|, i requires 0 <= i < |df| => Some(PopKey(df[i].code, df[i].year)))
  }

  function PopValues(df: seq<PopRow>): (vs: seq<real>)
    ensures |vs| == |df| && forall i | 0 <= i < |df| :: vs[i] == OrZero(df[i].population)
  {
    seq(|df|, i requires 0 <= i < |df| => OrZero(df[i].population))
  }

  /** The sum of the populations of the rows for one (code, year), missing values as zero. */
  function PopOf(df: seq<PopRow>, code: string, year: int): real
  {
    if |df| == 0 then 0.0
    else PopOf(df[..|df| - 1], code, year)
         + (if Matches(df[|df| - 1], code, year) then OrZero(df[|df| - 1].population) else 0.0)
  }

  /** PopOf is what pandas' group sum reports for that key. */
  lemma {:induction false} PopOfIsGroupSum(df: seq<PopRow>, code: string, year: int)
    ensures PopOf(df, code, year) == SumFor(PopKeys(df), PopValues(df), PopKey(code, year))
  {
    if |df| > 0 {
      var d0 := df[..|df| - 1];
      PopOfIsGroupSum(d0, code, year);
      assert PopKeys(df)[..|df| - 1] == PopKeys(d0);
      assert PopValues(df)[..|df| - 1] == PopValues(d0);
    }
  }

  /** The cleaned table has a row for this code and year. */
  predicate InTable(out: seq<PopulationRow>, code: string, year: int)
  {
    exists o :: o in out && o.code == code && o.year == year
  }

  /** `groupby(["Municipality_code", "Year"]).agg({"Population": "sum"})`. */
  function GroupPopulation(df: seq<PopRow>): (out: seq<PopulationRow>)
    ensures forall i, j | 0 <= i < j < |out| :: (out[i].code, out[i].year) != (out[j].code, out[j].year)
    ensures forall c, y :: InTable(out, c, y) <==> HasRow(df, c, y)
    ensures forall i | 0 <= i < |out| :: out[i].population == PopOf(df, out[i].code, out[i].year)
  {
    var ks := PopKeys(df);
    var g := GroupKeys(ks);
    var out := seq(|g|, i requires 0 <= i < |g| =>
      PopulationRow(g[i].code, g[i].year, SumFor(ks, PopValues(df), g[i])));
    forall i | 0 <= i < |g| ensures out[i].population == PopOf(df, out[i].code, out[i].year) {
      PopOfIsGroupSum(df, g[i].code, g[i].year);
    }
    assert forall i | 0 <= i < |g| :: PopKey(out[i].code, out[i].year) == g[i];
    assert forall c, y :: Some(PopKey(c, y)) in ks <==> (exists r :: r in df && Matches(r, c, y)) by {
      forall c, y | Some(PopKey(c, y)) in ks ensures exists r :: r in df && Matches(r, c, y) {
        var i :| 0 <= i < |ks| && ks[i] == Some(PopKey(c, y));
        assert df[i] in df;
      }
      forall c, y | exists r :: r in df && Matches(r, c, y) ensures Some(PopKey(c, y)) in ks {
        var r :| r in df && Matches(r, c, y);
        var i :| 0 <= i < |df| && df[i] == r;
        assert ks[i] == Some(PopKey(c, y));
      }
    }
    out
  }

  /** The table the nested loop starts from, or the error `astype(int)` raises. */
  function Prepared(raw: seq<RawPopulation>): Result<seq<PopRow>>
  {
    Harmonize(MunicipalRows(raw))
  }

  /** The table after redistribution and the removal of Haaren, before aggregation. */
  function Redistributed(df: seq<PopRow>): seq<PopRow>
  {
    DropHaaren(Apply(df, Plan(df)))
  }

  /** `clean_population_df`. */
  method CleanPopulation(raw: seq<RawPopulation>) returns (res: Result<seq<PopulationRow>>)
    ensures res.Err? <==> Prepared(raw).Err?
    ensures res.Ok? ==> res.value == GroupPopulation(Redistributed(Prepared(raw).value))
  {
    match Prepared(raw)
    case Err(m) =>
      res := Err(m);
    case Ok(df0) =>
      var df := RedistributeHaaren(df0);
      df := DropHaaren(df);
      res := Ok(GroupPopulation(df));
  }
}
