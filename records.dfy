/** Calendar values shared by every table of the pipeline. */
module Records {

  /**
   * A parsed calendar date. Parsing itself (`pd.to_datetime`) is not modelled: a raw date
   * arrives already parsed, or as None when it failed to parse.
   */
  datatype Date = Date(year: int, month: int, day: int)

  /** A monthly period: the year and the month of a date (`to_period("M")`). */
  datatype Month = Month(year: int, month: int)

  /** The monthly period a date falls in. */
  function MonthOf(d: Date): (m: Month)
    ensures m.year == d.year && m.month == d.month
  {
    Month(d.year, d.month)
  }

  /** An ASCII decimal digit, as the cleaners' year pattern and integer casts read them. */
  predicate IsDigit(c: char)
  {
    '0' <= c <= '9'
  }
}
