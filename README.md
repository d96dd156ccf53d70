# COVID-19 table reconciliation, modelled in Dafny

This project models the table-reconciliation core of a Dutch COVID-19 dashboard. The
pipeline works like this:

- Two cleaners tidy the case and hospital-admission reports. They drop rows without a
  municipality, merge Brielle, Hellevoetsluis and Westvoorne into Voorne aan Zee (cases
  only), re-aggregate by key and derive Year and Month.
- A third cleaner builds the population table from the statistics bureau's data. It keeps
  municipality rows, reads the year out of the period string, and replaces the codes of
  merged municipalities. It then splits the population of the dissolved municipality
  Haaren (GM0788) over its four successors, in a nested loop, drops Haaren and aggregates
  by (code, year).
- A caster turns the count columns into integers.
- A joiner keeps the (date, municipality) pairs that both the hospital and the case
  tables report. It then attaches the population and computes three incidence rates per
  100,000 inhabitants.
- A filter selects rows by year, province and municipality.

Tables are sequences of row datatypes. A cell that can be missing is an `Option`. Counts,
populations and rates are `real`. pandas' `groupby(...).agg("sum")` has its own module,
`Grouping`, which captures three facts: rows with a missing key are dropped, there is one
group per key, and missing values count as zero.

Modules, by file:

- `wrappers.dfy` (`Wrappers`): `Option` and `Result`.
- `records.dfy` (`Records`): dates and monthly periods.
- `grouping.dfy` (`Grouping`): group-by-and-sum, with conservation of the sum.
- `record_cleaner.dfy` (`RecordCleaner`, `RecordCleanerFacts`): `clean_cases_df` and
  `clean_hospital_df`.
- `population_cleaner.dfy` (`PopulationCleaner`): `clean_population_df`. The Haaren loop is
  an imperative method, `RedistributeHaaren`, with nested `for` loops over the table. It is
  proved equal to a fold (`Apply`) of one credit step per (year, successor) over `Plan`.
- `population_facts.dfy` (`PopulationFacts`): what the redistribution does to every
  (code, year) and to the table's total.
- `column_caster.dfy` (`ColumnCaster`): `cast_column_types`, over a frame with a dynamic
  schema.
- `combiner.dfy` (`Combiner`): `combine_cases_and_hospital_data` and
  `add_population_and_calculate_incidence`.
- `preprocessing.dfy` (`Preprocessing`): `filter_by_criteria`.

The hospital cleaner applies no code or name remapping (dataframe_cleaner.py:80-98);
`RecordCleanerFacts.CleanHospitalNoRemap` states it.

## Model

| member | source | states |
|---|---|---|
| RecordCleaner.MergeCode | dataframe_cleaner.py:38-42 | GM0501, GM0530 and GM0614 become GM1992 and every other code is kept; no merged code comes out |
| RecordCleaner.MergeName | dataframe_cleaner.py:40-45 | Brielle, Hellevoetsluis and Westvoorne become "Voorne aan Zee" and every other name is kept; no merged name comes out |
| RecordCleaner.CleanCases | dataframe_cleaner.py:26-56 | one row per (Date, code, name, Province); the keys are exactly those of the input rows with code, name, date and province present; Total_reported and Deceased are the sums over the input rows mapped to the key; Year and Month come from the date; no merged code or name remains |
| RecordCleaner.CleanHospital | dataframe_cleaner.py:80-98 | one row per (Date, code, name); the keys are exactly those of the input rows with code, name and date present; Hospital_admission is the sum over the rows of the key; Year and Month come from the date |
| RecordCleanerFacts.CleanCasesProvenance | dataframe_cleaner.py:29-50 | every output row comes from an input row with code, name, a parsed date and a province; every such input row reaches an output row under its merged key |
| RecordCleanerFacts.CleanCasesConservesTotals | dataframe_cleaner.py:48-50 | the output's Total_reported adds up to the input's total over the rows that survive, so merging and re-aggregating neither loses nor double-counts a case |
| RecordCleanerFacts.CleanHospitalConservesAdmissions | dataframe_cleaner.py:90-92 | the output's admissions add up to the total over the surviving input rows |
| RecordCleanerFacts.CleanHospitalNoRemap | dataframe_cleaner.py:83-92 | every output row has the code and name of an input row, unchanged, and every input row with code, name and date keeps them in the output |
| RecordCleanerFacts.VoorneAanZeeScenario | dataframe_cleaner.py:38-50 | GM0501, GM0530 and GM0614 on one date and province with totals 10, 5 and 3 give one GM1992 "Voorne aan Zee" row with 18 |
| Grouping.GroupKeys | dataframe_cleaner.py:48-50 | the group keys are distinct, and a key is a group exactly when some row carries it (rows with a missing key form no group) |
| Grouping.GroupConservation | dataframe_cleaner.py:48-50 | the group sums add up to the sum of all rows whose key is present |
| Grouping.GroupKeysOfDistinct | dataframe_cleaner.py:178 | when no key is missing and none repeats, `unique()` returns the keys in their order |
| PopulationCleaner.MunicipalRows | dataframe_cleaner.py:128 | a row is kept exactly when its region code starts with "GM", and as many times as the input holds it; every other row is dropped |
| PopulationCleaner.ExtractYearSpec | dataframe_cleaner.py:140 | a year is found exactly when the period holds four consecutive digits; it is the value of the leftmost such run and lies in 0..9999 |
| PopulationCleaner.ExtractYearOfPeriod | dataframe_cleaner.py:140 | "2020JJ00" gives 2020 and "JJ" gives no year |
| PopulationCleaner.FusedMapShape | dataframe_cleaner.py:145-163 | every merged code maps to one of the seven successors, and no successor is itself a merged code |
| PopulationCleaner.Resolve | dataframe_cleaner.py:145-164 | a merged code becomes its successor, any other code is kept, and the result is never a merged code |
| PopulationCleaner.Harmonize | dataframe_cleaner.py:139-164 | succeeds exactly when every period holds a four-digit year; then row i has the resolved code, the extracted year and the population of input row i |
| PopulationCleaner.HaarenYears | dataframe_cleaner.py:175-178 | the distinct years in which GM0788 has a population value, no others |
| PopulationCleaner.Plan | dataframe_cleaner.py:180-186 | four transfers per Haaren year, in loop order: a quarter of that year's first Haaren population to GM0824, GM0865, GM0757 and GM0855 |
| PopulationCleaner.Credited | dataframe_cleaner.py:203 | the share is added to every row of the successor and year, and every other row is left as it was |
| PopulationCleaner.AddShare | dataframe_cleaner.py:203 | the in-place loop over the rows yields exactly the credited table |
| PopulationCleaner.CreditStep | dataframe_cleaner.py:187-203 | one inner iteration appends a row holding the share when the successor has no row for the year, and otherwise adds the share into its rows |
| PopulationCleaner.RedistributeHaaren | dataframe_cleaner.py:175-203 | the nested loop leaves the table that the plan's credit steps produce one after another |
| PopulationCleaner.DropHaaren | dataframe_cleaner.py:206 | a row is kept exactly when its code is not GM0788 |
| PopulationCleaner.DropHaarenMultiplicity | dataframe_cleaner.py:206 | every row whose code is not GM0788 is kept as many times as the table holds it, and no GM0788 row is kept |
| PopulationCleaner.GroupPopulation | dataframe_cleaner.py:209-211 | one row per (code, Year); a (code, Year) has a row exactly when the input has one; its Population is the sum over the input rows of that key |
| PopulationCleaner.CleanPopulation | dataframe_cleaner.py:125-213 | fails exactly when some municipality period holds no year; otherwise the result is the grouped table after redistribution and the removal of Haaren |
| PopulationFacts.CreditedPopOf | dataframe_cleaner.py:203 | adding in place raises the credited key's sum by the share once per row that has a value, and leaves other keys unchanged |
| PopulationFacts.CreditOwn | dataframe_cleaner.py:187-203 | one step gives the successor's key a row and raises its sum, and the table's total, by the step's gain |
| PopulationFacts.CreditOthers | dataframe_cleaner.py:187-203 | one step leaves every other (code, year) with the same rows, values and sum |
| PopulationFacts.ApplyOwn | dataframe_cleaner.py:180-203 | when no two steps credit the same key, each step's key ends with its gain added, and with a row |
| PopulationFacts.ApplyTotal | dataframe_cleaner.py:180-203 | the steps raise the table's total by the sum of their gains |
| PopulationFacts.SettledGains | dataframe_cleaner.py:187-203 | when each credited key has no row, or exactly one row with a value, every step gains exactly its amount |
| PopulationFacts.PlanKeysDistinct | dataframe_cleaner.py:178-186 | no two steps of the plan credit the same (code, year) |
| PopulationFacts.PlanSteps | dataframe_cleaner.py:168-186 | every step credits a receiving municipality, never Haaren, for a Haaren year |
| PopulationFacts.PlanAmounts | dataframe_cleaner.py:181-186 | the four quarters of every year add up to that year's Haaren population |
| PopulationFacts.HaarenYearsTotal | dataframe_cleaner.py:175-183 | with one Haaren value per year, the populations the loop reads add up to Haaren's total |
| PopulationFacts.DropHaarenTotal | dataframe_cleaner.py:206 | dropping Haaren lowers the total by exactly Haaren's population |
| PopulationFacts.DropHaarenOthers | dataframe_cleaner.py:206 | dropping Haaren leaves every other municipality's rows and sums as they were |
| PopulationFacts.NoHaarenNoChange | dataframe_cleaner.py:175-206 | on a table without Haaren the redistribution changes nothing |
| PopulationFacts.RedistributedIdempotent | dataframe_cleaner.py:175-206 | running the redistribution twice is running it once |
| PopulationFacts.GroupPopulationTotal | dataframe_cleaner.py:209-211 | the final aggregation conserves the total population |
| PopulationFacts.PopulationLedger | dataframe_cleaner.py:175-211 | cleaned total = harmonized total - Haaren's population + the credited gains |
| PopulationFacts.PopulationConservation | dataframe_cleaner.py:175-211 | with one Haaren value per year and settled successor keys, cleaning neither loses nor adds population |
| PopulationFacts.HaarenShare | dataframe_cleaner.py:186-203 | in every Haaren year each successor ends with a row, and its population is raised by the step's gain |
| PopulationFacts.HaarenQuarter | dataframe_cleaner.py:184-203 | a successor with no row, or one row with a value, gains exactly a quarter of Haaren's population for the year |
| PopulationFacts.OtherPopulationsUnchanged | dataframe_cleaner.py:175-206 | other codes, and years without a Haaren value, keep their rows and population |
| PopulationFacts.RedistributedKeys | dataframe_cleaner.py:186-206 | a (code, year) left after the redistribution is not Haaren's, and was in the table or is a successor's in a Haaren year |
| PopulationFacts.CleanedCodes | dataframe_cleaner.py:128-211 | every code of the cleaned table starts with "GM", is not a merged code and is not GM0788 |
| PopulationFacts.PreparedCodes | dataframe_cleaner.py:128-164 | every harmonized code is a municipality code that is not a merged code |
| PopulationFacts.RemapTablesAgree | dataframe_cleaner.py:38-42 | the three codes merged in the case cleaner map to the same successor, GM1992, in the population remap table |
| PopulationFacts.HaarenScenario | dataframe_cleaner.py:180-211 | Haaren alone with 4000 inhabitants in 2020 gives rows for the four successors in 2020, each with 1000, and no other rows |
| ColumnCaster.Truncate | dataframe_cleaner.py:233 | `astype(int)` on a float truncates toward zero |
| ColumnCaster.TruncateInteger | dataframe_cleaner.py:233 | `astype(int)` keeps an integral float |
| ColumnCaster.ParseShow | dataframe_cleaner.py:233 | a text holding the decimal writing of an integer is read back as that integer |
| ColumnCaster.ToIntCell | dataframe_cleaner.py:233 | an integer is kept, a float becomes its truncation toward zero and a numeric text its parsed value; a missing value, a non-numeric text or a date is refused |
| ColumnCaster.FillToIntCell | dataframe_cleaner.py:240 | a missing count becomes 0; anything else converts as `astype(int)` does |
| ColumnCaster.ToPeriodCell | dataframe_cleaner.py:236 | missing stays missing, a date becomes its month, a text the date parser reads becomes the month of the parsed date; anything else is refused |
| ColumnCaster.ConversionOf | dataframe_cleaner.py:232-240 | Year is cast to int, Month to a period unless it already holds only periods, the four count columns are filled and cast; other columns are left alone |
| ColumnCaster.CastColumnTypes | dataframe_cleaner.py:230-242 | fails exactly when some present column has a cell it cannot convert; otherwise column j is column j cast |
| ColumnCaster.CastKeepsShape | dataframe_cleaner.py:230-242 | same columns in the same order, none added, the same number of rows, and other columns untouched |
| ColumnCaster.CastTypes | dataframe_cleaner.py:232-240 | afterwards Year and the counts hold integers and Month holds months or missing values |
| ColumnCaster.CastCounts | dataframe_cleaner.py:238-240 | a missing count becomes 0, an integer is kept and a float is truncated |
| ColumnCaster.YearRefusesNull | dataframe_cleaner.py:233 | a missing Year makes the cast fail |
| ColumnCaster.CastOtherColumns | dataframe_cleaner.py:230-242 | a frame with none of the six columns is returned as it is |
| ColumnCaster.CastIdempotent | dataframe_cleaner.py:230-242 | casting a cast frame changes nothing |
| Combiner.OuterMerge | dataframe_combiner.py:26-43 | no ensures; the hospital rows with their case partners (or none), then the case rows that have no hospital partner. `Combiner.CombineIsInnerJoin` describes what survives `dropna` |
| Combiner.DropNa | dataframe_combiner.py:44 | keeps at most as many rows as it is given; `Combiner.DropNaAppend` states that it works row by row, distributing over concatenation |
| Combiner.Combine | dataframe_combiner.py:26-46 | no ensures; `Combiner.CombineIsInnerJoin`, `Combiner.CombineMembers` and `Combiner.CombinedUnique` describe it |
| Combiner.InnerJoin | dataframe_combiner.py:26-44 | no ensures; the independent reference, for each hospital row in order, one joined row per case row of the same (Date, code) |
| Combiner.CombineIsInnerJoin | dataframe_combiner.py:26-44 | the outer merge followed by `dropna` is an inner join on (Date, code) |
| Combiner.CombineMembers | dataframe_combiner.py:26-44 | a row is in the combined table exactly when a hospital row and a case row share its (Date, code); name and admissions come from the hospital row, Province, counts, Year and Month from the case row |
| Combiner.Join | dataframe_combiner.py:27-40 | which side each combined column is taken from |
| Combiner.CombinedUnique | dataframe_combiner.py:26-44 | if both inputs have one row per (Date, code), so does the combined table |
| Combiner.Rate | dataframe_combiner.py:76-80 | a rate is missing exactly when the population is missing or zero |
| Combiner.RatePerHundredThousand | dataframe_combiner.py:76-80 | a rate times the population is the metric times 100,000, so the rate counts per 100,000 inhabitants |
| Combiner.WithPopulation | dataframe_combiner.py:76-99 | no ensures; the final row in the output column order. `Combiner.RatesOf` gives its rates |
| Combiner.AddPopulation | dataframe_combiner.py:73-99 | keeps at least one output row per combined row; `Combiner.AddPopulationOneToOne`, `Combiner.AddPopulationKeeps` and `Combiner.AddPopulationMembers` describe it |
| Combiner.PopulationOf | dataframe_combiner.py:73 | no ensures; `Combiner.PopulationOfSpec` describes the look-up |
| Combiner.AddPopulationOneToOne | dataframe_combiner.py:73-99 | with one population row per (code, Year), the output has one row per input row, in order, its fields unchanged, the population looked up (or missing) and the three rates computed from it |
| Combiner.AddPopulationKeeps | dataframe_combiner.py:73 | the left join drops no combined row |
| Combiner.AddPopulationMembers | dataframe_combiner.py:73-80 | every output row comes from a combined row, with the population of a row of the same (code, Year), or with a missing population when there is none |
| Combiner.PopulationOfSpec | dataframe_combiner.py:73 | the look-up finds nothing exactly when no population row has the (code, Year), and otherwise the population of such a row |
| Combiner.RatesOf | dataframe_combiner.py:73-80 | without a population all three rates are missing; with a nonzero one each rate is its metric / population * 100000 |
| Preprocessing.FilterByCriteria | src/data/preprocessing.py:21-27 | no ensures; `Preprocessing.FilterIsMeeting`, `Preprocessing.FilterMembers` and `Preprocessing.FilterIsSubsequence` describe it |
| Preprocessing.Meeting | src/data/preprocessing.py:21-27 | the independent reference: a row is in it exactly when it is in the table and meets all three criteria |
| Preprocessing.FilterIsMeeting | src/data/preprocessing.py:21-27 | the three successive filters equal one filter by all three criteria |
| Preprocessing.FilterAllIsIdentity | src/data/preprocessing.py:21-27 | with every criterion 'All' the table is returned unchanged |
| Preprocessing.FilterMembers | src/data/preprocessing.py:21-26 | a row is kept exactly when it is in the table and equals every criterion that is not 'All' on its column |
| Preprocessing.FilterIsSubsequence | src/data/preprocessing.py:21-26 | the result is an order-preserving subsequence of the input |
| Preprocessing.FilterIdempotent | src/data/preprocessing.py:21-26 | filtering twice with the same criteria is filtering once |
| Preprocessing.TextYearMatchesNothing | src/data/preprocessing.py:21-22 | a year given as a text other than 'All' matches no row of the integer Year column |

The thirteen output columns of `add_population_and_calculate_incidence`
(dataframe_combiner.py:83-99) are the fields of `Combiner.FinalRow`, in order.

## Left out

- Downloading, CSV reading, main-program orchestration and all dashboard, map and widget
  code: these are I/O and UI, not table logic.
- Date parsing (`pd.to_datetime(..., errors="coerce")`, dataframe_cleaner.py:29-31, 83): a
  raw date arrives already parsed, or as None when parsing failed. In `ColumnCaster` the
  parser is a function parameter.
- `pd.to_numeric(..., errors="coerce")` on Population (dataframe_cleaner.py:141): a raw
  population arrives as a number or as None.
- IEEE floating point: values are exact `real`s. The quarter P/4 is exact, and rounding is
  not modelled.
- Combiner.Rate: a zero population gives a missing rate. pandas gives infinity or NaN
  there, and the model does not tell them apart.
- Order of group-by output: pandas sorts the groups by key. The model lists groups in order
  of first appearance and proves only which keys there are, their uniqueness and their
  sums. The outer merge's row order is not modelled either: the model puts hospital rows
  first and unmatched case rows after them. Only the membership and multiplicity of the
  combined rows are claimed, independent of order.
- Combiner.CombineIsInnerJoin: the inputs are cleaned tables, whose cells are never
  missing. A missing cell in an input, and pandas' matching of NaN keys with each other,
  are not modelled.
- ColumnCaster.ToIntCell: `int()` on text is modelled as an optional sign followed by
  decimal digits. Surrounding whitespace and underscores, which Python also accepts, are
  not modelled. `astype(int)` on dates or periods, which pandas may turn into nanosecond
  integers, is modelled as a failure. Digits are the ASCII digits 0-9; Python's `int()`
  also reads other Unicode decimal digits, and the model refuses those. The result is an
  unbounded integer, while `astype(int)` converts to int64: it raises on a text outside
  -2^63..2^63-1 and casts an out-of-range float to an unspecified value (commonly -2^63).
- ColumnCaster.ToPeriodCell: numbers in a Month column, which `pd.to_datetime` reads as
  epoch offsets, are modelled as a failure. So is a period inside a Month column that also
  holds other values.
- `\d` in the year pattern is modelled as the ASCII digits 0-9. Python also matches other
  Unicode decimal digits.
- Duplicate column names in a frame are not modelled.
- Missing `RegioS` or `Perioden` cells in the statistics table are not modelled:
  `RawPopulation.regio` and `RawPopulation.period` are always present. pandas raises on
  them: a missing `RegioS` gives a NaN in the `startswith` mask (dataframe_cleaner.py:128),
  and a missing `Perioden` gives a NaN year that `astype(int)` refuses (:140).
- PopulationFacts.PopulationConservation: it needs one Haaren value per year, and each
  successor key must have no row or exactly one row with a value. Otherwise the code does
  not conserve. A second Haaren value for a year is ignored (`values[0]`). A successor with
  several rows receives the quarter once per row that has a value. A successor row with a
  missing population absorbs its quarter, since NaN plus a number is NaN.
  `PopulationFacts.PopulationLedger` states the exact balance in every case.
