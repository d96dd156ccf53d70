/**
 * The case and hospital record cleaners of dataframe_cleaner.py: drop non-municipal rows,
 * merge the three municipalities of Voorne aan Zee (cases only), re-aggregate by key and
 * derive Year and Month.
 */
module RecordCleaner {
  import opened Wrappers
  import opened Records
  import opened Grouping

  /** A raw case row: only the columns the cleaner reads. */
  datatype RawCase = RawCase(
    date: Option<Date>,
    code: Option<string>,
    name: Option<string>,
    province: Option<string>,
    totalReported: Option<real>,
    deceased: Option<real>)

  /** The group-by key of the case table. */
  datatype CaseKey = CaseKey(date: Date, code: string, name: string, province: string)

  /** A cleaned case row. */
  datatype CaseRow = CaseRow(
    date: Date,
    code: string,
    name: string,
    province: string,
    totalReported: real,
    deceased: real,
    year: int,
    month: Month)

  /** A raw hospital admission row. */
  datatype RawHospital = RawHospital(
    date: Option<Date>,
    code: Option<string>,
    name: Option<string>,
    admission: Option<real>)

  /** The group-by key of the hospital table. */
  datatype HospitalKey = HospitalKey(date: Date, code: string, name: string)

  /** A cleaned hospital row. */
  datatype HospitalRow = HospitalRow(
    date: Date,
    code: string,
    name: string,
    admission: real,
    year: int,
    month: Month)

  /** Brielle, Hellevoetsluis and Westvoorne, merged into Voorne aan Zee. */
  const MergedCodes: seq<string> := ["GM0501", "GM0530", "GM0614"]
  const MergedNames: seq<string> := ["Brielle", "Hellevoetsluis", "Westvoorne"]
  const VoorneCode: string := "GM1992"
  const VoorneName: string := "Voorne aan Zee"

  /** `Municipality_code.replace(old_codes, new_code)`. */
  function MergeCode(c: string): (r: string)
    ensures r !in MergedCodes
    ensures c in MergedCodes ==> r == VoorneCode
    ensures c !in MergedCodes ==> r == c
  {
    if c in MergedCodes then VoorneCode else c
  }

  /** `Municipality_name.replace({...: new_name})`. */
  function MergeName(n: string): (r: string)
    ensures r !in MergedNames
    ensures n in MergedNames ==> r == VoorneName
    ensures n !in MergedNames ==> r == n
  {
    if n in MergedNames then VoorneName else n
  }

  /**
   * The key a raw case row is grouped under, or None when the row does not reach the
   * output: code or name missing (dropna), or date (unparseable) or province missing
   * (groupby drops null keys). The merge replaces code and name independently.
   */
  function CaseKeyOf(r: RawCase): Option<CaseKey>
  {
    if r.code.None? || r.name.None? || r.date.None? || r.province.None? then None
    else Some(CaseKey(r.date.value, MergeCode(r.code.value), MergeName(r.name.value), r.province.value))
  }

  function CaseKeys(raw: seq<RawCase>): (ks: seq<Option<CaseKey>>)
    ensures |ks| == |raw| && forall i | 0 <= i < |raw| :: ks[i] == CaseKeyOf(raw[i])
  {
    seq(|raw|, i requires 0 <= i < |raw| => CaseKeyOf(raw[i]))
  }

  function TotalsColumn(raw: seq<RawCase>): (vs: seq<real>)
    ensures |vs| == |raw| && forall i | 0 <= i < |raw| :: vs[i] == OrZero(raw[i].totalReported)
  {
    seq(|raw|, i requires 0 <= i < |raw| => OrZero(raw[i].totalReported))
  }

  function DeceasedColumn(raw: seq<RawCase>): (vs: seq<real>)
    ensures |vs| == |raw| && forall i | 0 <= i < |raw| :: vs[i] == OrZero(raw[i].deceased)
  {
    seq(|raw|, i requires 0 <= i < |raw| => OrZero(raw[i].deceased))
  }

  function KeyOfCase(r: CaseRow): CaseKey
  {
    CaseKey(r.date, r.code, r.name, r.province)
  }

  /** The output row of one group. */
  function CaseGroup(raw: seq<RawCase>, k: CaseKey): CaseRow
  {
    CaseRow(k.date, k.code, k.name, k.province,
            SumFor(CaseKeys(raw), TotalsColumn(raw), k),
            SumFor(CaseKeys(raw), DeceasedColumn(raw), k),
            k.date.year, MonthOf(k.date))
  }

  /** `clean_cases_df`. */
  function CleanCases(raw: seq<RawCase>): (out: seq<CaseRow>)
    // exactly one row per key ...
    ensures forall i, j | 0 <= i < j < |out| :: KeyOfCase(out[i]) != KeyOfCase(out[j])
    // ... and the keys are exactly those of the surviving input rows
    ensures forall k :: (exists i | 0 <= i < |out| :: KeyOfCase(out[i]) == k)
                    <==> (exists i | 0 <= i < |raw| :: CaseKeyOf(raw[i]) == Some(k))
    // the metrics are the sums over the input rows mapped to the key
    ensures forall i | 0 <= i < |out| ::
              out[i].totalReported == SumFor(CaseKeys(raw), TotalsColumn(raw), KeyOfCase(out[i]))
              && out[i].deceased == SumFor(CaseKeys(raw), DeceasedColumn(raw), KeyOfCase(out[i]))
    // Year and Month come from the date
    ensures forall i | 0 <= i < |out| :: out[i].year == out[i].date.year && out[i].month == MonthOf(out[i].date)
    // no merged municipality survives
    ensures forall i | 0 <= i < |out| :: out[i].code !in MergedCodes && out[i].name !in MergedNames
  {
    var g := GroupKeys(CaseKeys(raw));
    var out := seq(|g|, i requires 0 <= i < |g| => CaseGroup(raw, g[i]));
    assert forall i | 0 <= i < |out| :: KeyOfCase(out[i]) == g[i];
    assert forall k :: Some(k) in CaseKeys(raw) <==> (exists i | 0 <= i < |raw| :: CaseKeyOf(raw[i]) == Some(k));
    out
  }

  /** The key a raw hospital row is grouped under; no code or name is remapped. */
  function HospitalKeyOf(r: RawHospital): Option<HospitalKey>
  {
    if r.code.None? || r.name.None? || r.date.None? then None
    else Some(HospitalKey(r.date.value, r.code.value, r.name.value))
  }

  function HospitalKeys(raw: seq<RawHospital>): (ks: seq<Option<HospitalKey>>)
    ensures |ks| == |raw| && forall i | 0 <= i < |raw| :: ks[i] == HospitalKeyOf(raw[i])
  {
    seq(|raw|, i requires 0 <= i < |raw| => HospitalKeyOf(raw[i]))
  }

  function AdmissionColumn(raw: seq<RawHospital>): (vs: seq<real>)
    ensures |vs| == |raw| && forall i | 0 <= i < |raw| :: vs[i] == OrZero(raw[i].admission)
  {
    seq(|raw|, i requires 0 <= i < |raw| => OrZero(raw[i].admission))
  }

  function KeyOfHospital(r: HospitalRow): HospitalKey
  {
    HospitalKey(r.date, r.code, r.name)
  }

  function HospitalGroup(raw: seq<RawHospital>, k: HospitalKey): HospitalRow
  {
    HospitalRow(k.date, k.code, k.name, SumFor(HospitalKeys(raw), AdmissionColumn(raw), k),
                k.date.year, MonthOf(k.date))
  }

  /** `clean_hospital_df`. */
  function CleanHospital(raw: seq<RawHospital>): (out: seq<HospitalRow>)
    ensures forall i, j | 0 <= i < j < |out| :: KeyOfHospital(out[i]) != KeyOfHospital(out[j])
    ensures forall k :: (exists i | 0 <= i < |out| :: KeyOfHospital(out[i]) == k)
                    <==> (exists i | 0 <= i < |raw| :: HospitalKeyOf(raw[i]) == Some(k))
    ensures forall i | 0 <= i < |out| ::
              out[i].admission == SumFor(HospitalKeys(raw), AdmissionColumn(raw), KeyOfHospital(out[i]))
    ensures forall i | 0 <= i < |out| :: out[i].year == out[i].date.year && out[i].month == MonthOf(out[i].date)
  {
    var g := GroupKeys(HospitalKeys(raw));
    var out := seq(|g|, i requires 0 <= i < |g| => HospitalGroup(raw, g[i]));
    assert forall i | 0 <= i < |out| :: KeyOfHospital(out[i]) == g[i];
    assert forall k :: Some(k) in HospitalKeys(raw) <==> (exists i | 0 <= i < |raw| :: HospitalKeyOf(raw[i]) == Some(k));
    out
  }
}

/** Properties of the record cleaners. */
module RecordCleanerFacts {
  import opened Wrappers
  import opened Records
  import opened Grouping
  import opened RecordCleaner

  /**
   * Every cleaned case row comes from a raw row with a code, a name, a parsed date and a
   * province; its code and name are that row's after the Voorne aan Zee merge, so every
   * other code and name passes through unchanged. Conversely every such raw row is
   * represented in the output.
   */
  ghost predicate CaseFrom(o: CaseRow, r: RawCase)
  {
    && r.code.Some? && r.name.Some? && r.date.Some? && r.province.Some?
    && o.code == MergeCode(r.code.value) && o.name == MergeName(r.name.value)
    && o.date == r.date.value && o.province == r.province.value
  }

  lemma CleanCasesProvenance(raw: seq<RawCase>)
    ensures forall i | 0 <= i < |CleanCases(raw)| :: exists j | 0 <= j < |raw| :: CaseFrom(CleanCases(raw)[i], raw[j])
    ensures forall j | 0 <= j < |raw| ::
              raw[j].code.Some? && raw[j].name.Some? && raw[j].date.Some? && raw[j].province.Some? ==>
              exists i | 0 <= i < |CleanCases(raw)| :: KeyOfCase(CleanCases(raw)[i]) == CaseKeyOf(raw[j]).value
  {
    var out := CleanCases(raw);
    forall i | 0 <= i < |out|
      ensures exists j | 0 <= j < |raw| :: CaseFrom(out[i], raw[j])
    {
      var k := KeyOfCase(out[i]);
      var j :| 0 <= j < |raw| && CaseKeyOf(raw[j]) == Some(k);
      assert CaseFrom(out[i], raw[j]);
    }
    forall j | 0 <= j < |raw| && raw[j].code.Some? && raw[j].name.Some? && raw[j].date.Some? && raw[j].province.Some?
      ensures exists i | 0 <= i < |out| :: KeyOfCase(out[i]) == CaseKeyOf(raw[j]).value
    {
      var k := CaseKeyOf(raw[j]).value;
      assert CaseKeyOf(raw[j]) == Some(k);
    }
  }

  /** The Total_reported column of a cleaned case table. */
  function TotalReported(out: seq<CaseRow>): (vs: seq<real>)
    ensures |vs| == |out| && forall i | 0 <= i < |out| :: vs[i] == out[i].totalReported
  {
    seq(|out|, i requires 0 <= i < |out| => out[i].totalReported)
  }

  /**
   * Merging and re-aggregating conserve the reported cases: the cleaned table's total
   * equals the total over the raw rows that survive the cleaning.
   */
  lemma CleanCasesConservesTotals(raw: seq<RawCase>)
    ensures Sum(TotalReported(CleanCases(raw))) == SumKeyed(CaseKeys(raw), TotalsColumn(raw))
  {
    var ks, vs := CaseKeys(raw), TotalsColumn(raw);
    var g := GroupKeys(ks);
    var out := CleanCases(raw);
    assert |out| == |g| && forall i | 0 <= i < |g| :: KeyOfCase(out[i]) == g[i];
    assert TotalReported(out) == GroupSums(ks, vs, g);
    GroupConservation(ks, vs);
  }

  /** The Hospital_admission column of a cleaned hospital table. */
  function Admissions(out: seq<HospitalRow>): (vs: seq<real>)
    ensures |vs| == |out| && forall i | 0 <= i < |out| :: vs[i] == out[i].admission
  {
    seq(|out|, i requires 0 <= i < |out| => out[i].admission)
  }

  /** Re-aggregating the hospital table conserves the admissions of the surviving rows. */
  lemma CleanHospitalConservesAdmissions(raw: seq<RawHospital>)
    ensures Sum(Admissions(CleanHospital(raw))) == SumKeyed(HospitalKeys(raw), AdmissionColumn(raw))
  {
    var ks, vs := HospitalKeys(raw), AdmissionColumn(raw);
    var g := GroupKeys(ks);
    var out := CleanHospital(raw);
    assert |out| == |g| && forall i | 0 <= i < |g| :: KeyOfHospital(out[i]) == g[i];
    assert Admissions(out) == GroupSums(ks, vs, g);
    GroupConservation(ks, vs);
  }

  /**
   * The hospital cleaner remaps nothing: every output row carries the date, code and name
   * of one raw row exactly as they were read (Brielle stays GM0501), and every raw row with
   * a date, code and name is represented.
   */
  lemma CleanHospitalNoRemap(raw: seq<RawHospital>)
    ensures forall i | 0 <= i < |CleanHospital(raw)| :: exists j | 0 <= j < |raw| ::
              raw[j].date == Some(CleanHospital(raw)[i].date)
              && raw[j].code == Some(CleanHospital(raw)[i].code)
              && raw[j].name == Some(CleanHospital(raw)[i].name)
    ensures forall j | 0 <= j < |raw| ::
              raw[j].code.Some? && raw[j].name.Some? && raw[j].date.Some? ==>
              exists i | 0 <= i < |CleanHospital(raw)| ::
                KeyOfHospital(CleanHospital(raw)[i]) == HospitalKey(raw[j].date.value, raw[j].code.value, raw[j].name.value)
  {
    var out := CleanHospital(raw);
    forall i | 0 <= i < |out|
      ensures exists j | 0 <= j < |raw| ::
              raw[j].date == Some(out[i].date) && raw[j].code == Some(out[i].code) && raw[j].name == Some(out[i].name)
    {
      var j :| 0 <= j < |raw| && HospitalKeyOf(raw[j]) == Some(KeyOfHospital(out[i]));
    }
    forall j | 0 <= j < |raw| && raw[j].code.Some? && raw[j].name.Some? && raw[j].date.Some?
      ensures exists i | 0 <= i < |out| ::
                KeyOfHospital(out[i]) == HospitalKey(raw[j].date.value, raw[j].code.value, raw[j].name.value)
    {
      assert HospitalKeyOf(raw[j]) == Some(HospitalKey(raw[j].date.value, raw[j].code.value, raw[j].name.value));
    }
  }

  /**
   * Brielle, Hellevoetsluis and Westvoorne reporting 10, 5 and 3 cases on one day in one
   * province become a single Voorne aan Zee row with 18 cases.
   */
  lemma VoorneAanZeeScenario(d: Date, province: string)
    ensures CleanCases([
              RawCase(Some(d), Some("GM0501"), Some("Brielle"), Some(province), Some(10.0), Some(1.0)),
              RawCase(Some(d), Some("GM0530"), Some("Hellevoetsluis"), Some(province), Some(5.0), Some(0.0)),
              RawCase(Some(d), Some("GM0614"), Some("Westvoorne"), Some(province), Some(3.0), None)])
         == [CaseRow(d, "GM1992", "Voorne aan Zee", province, 18.0, 1.0, d.year, MonthOf(d))]
  {
    var raw := [
      RawCase(Some(d), Some("GM0501"), Some("Brielle"), Some(province), Some(10.0), Some(1.0)),
      RawCase(Some(d), Some("GM0530"), Some("Hellevoetsluis"), Some(province), Some(5.0), Some(0.0)),
      RawCase(Some(d), Some("GM0614"), Some("Westvoorne"), Some(province), Some(3.0), None)];
    var k := CaseKey(d, "GM1992", "Voorne aan Zee", province);
    var ks := CaseKeys(raw);
    assert ks == [Some(k), Some(k), Some(k)];
    assert ks[..2] == [Some(k), Some(k)] && ks[..1] == [Some(k)] && ks[..0] == [];
    assert GroupKeys(ks[..1]) == [k];
    assert GroupKeys(ks[..2]) == [k];
    assert GroupKeys(ks) == [k];
    var ts := TotalsColumn(raw);
    assert ts == [10.0, 5.0, 3.0];
    assert ts[..2] == [10.0, 5.0] && ts[..1] == [10.0];
    assert SumFor(ks[..1], ts[..1], k) == 10.0;
    assert SumFor(ks[..2], ts[..2], k) == 15.0;
    assert SumFor(ks, ts, k) == 18.0;
    var ds := DeceasedColumn(raw);
    assert ds == [1.0, 0.0, 0.0];
    assert ds[..2] == [1.0, 0.0] && ds[..1] == [1.0];
    assert SumFor(ks[..1], ds[..1], k) == 1.0;
    assert SumFor(ks[..2], ds[..2], k) == 1.0;
    assert SumFor(ks, ds, k) == 1.0;
  }
}
