/**
 * `cast_column_types` of dataframe_cleaner.py. The frame is seen column by column, with a
 * dynamic schema: whatever columns it has, in order, each a name and its cells. Only the
 * columns Year, Month and the four count columns are converted; a conversion that pandas
 * would refuse makes the whole call fail.
 */
module ColumnCaster {
  import opened Wrappers
  import opened Records

  /** One cell as pandas may hold it before the cast. */
  datatype Cell =
    | Null                  // NaN / NaT / None
    | IntCell(i: int)
    | RealCell(r: real)
    | TextCell(t: string)
    | DateCell(d: Date)
    | PeriodCell(m: Month)

  datatype Column = Column(name: string, cells: seq<Cell>)

  /** The columns the cast fills with 0 and turns into integers. */
  const CountColumns: seq<string> := ["Total_reported", "Deceased", "Hospital_admission", "Population"]

  /** What the cast does to one column. */
  datatype Conversion = Untouched | ToInt | ToPeriod | FillToInt

  // ---------------------------------------------------------------- numbers

  /** `astype(int)` on a float: truncation toward zero. */
  function Truncate(r: real): (n: int)
    ensures r >= 0.0 ==> 0 <= n && n as real <= r < n as real + 1.0
    ensures r < 0.0 ==> n <= 0 && n as real - 1.0 < r <= n as real
  {
    if r >= 0.0 then r.Floor else -((-r).Floor)
  }

  lemma TruncateInteger(n: int)
    ensures Truncate(n as real) == n
  {
  }

  predicate AllDigits(s: string)
  {
    forall i | 0 <= i < |s| :: IsDigit(s[i])
  }

  /** The value of a string of decimal digits. */
  function DigitsValue(s: string): (n: nat)
    requires AllDigits(s)
  {
    if |s| == 0 then 0 else 10 * DigitsValue(s[..|s| - 1]) + (s[|s| - 1] as int - '0' as int)
  }

  /** `int(text)`: an optional sign and at least one decimal digit. */
  function ParseInt(s: string): (r: Option<int>)
    ensures r.Some? <==> (|s| > 0 && AllDigits(s))
                         || (|s| > 1 && (s[0] == '-' || s[0] == '+') && AllDigits(s[1..]))
  {
    if |s| > 0 && AllDigits(s) then Some(DigitsValue(s))
    else if |s| > 1 && s[0] == '-' && AllDigits(s[1..]) then Some(-(DigitsValue(s[1..]) as int))
    else if |s| > 1 && s[0] == '+' && AllDigits(s[1..]) then Some(DigitsValue(s[1..]))
    else None
  }

  /** The decimal writing of a natural number, without leading zeros. */
  function ShowNat(n: nat): (s: string)
    ensures |s| > 0 && AllDigits(s)
  {
    var d := ['0' + (n % 10) as char];
    if n < 10 then d else ShowNat(n / 10) + d
  }

  /** Reading back the writing of a number gives the number. */
  lemma {:induction false} DigitsOfShow(n: nat)
    ensures DigitsValue(ShowNat(n)) == n
  {
    var s := ShowNat(n);
    if n >= 10 {
      DigitsOfShow(n / 10);
      assert s[..|s| - 1] == ShowNat(n / 10);
    }
  }

  lemma ParseShow(n: nat)
    ensures ParseInt(ShowNat(n)) == Some(n)
    ensures n > 0 ==> ParseInt("-" + ShowNat(n)) == Some(-(n as int))
  {
    DigitsOfShow(n);
    var s := ShowNat(n);
    assert ("-" + s)[1..] == s;
    assert !AllDigits("-" + s) by { assert !IsDigit(("-" + s)[0]); }
  }

  // ---------------------------------------------------------------- cells

  /** `astype(int)` on one cell: NaN and values that are no number are refused. */
  function ToIntCell(c: Cell): (r: Result<Cell>)
    ensures r.Ok? ==> r.value.IntCell?
    ensures r.Ok? <==> c.IntCell? || c.RealCell? || (c.TextCell? && ParseInt(c.t).Some?)
    ensures c.IntCell? ==> r == Ok(c)
    ensures c.RealCell? ==> r == Ok(IntCell(Truncate(c.r)))
    ensures c.TextCell? && ParseInt(c.t).Some? ==> r == Ok(IntCell(ParseInt(c.t).value))
  {
    match c
    case IntCell(i) => Ok(c)
    case RealCell(r) => Ok(IntCell(Truncate(r)))
    case TextCell(t) =>
      if ParseInt(t).Some? then Ok(IntCell(ParseInt(t).value))
      else Err("invalid literal for int()")
    case Null => Err("cannot convert NaN to integer")
    case _ => Err("cannot convert to integer")
  }

  /** `fillna(0).astype(int)` on one cell. */
  function FillToIntCell(c: Cell): (r: Result<Cell>)
    ensures c.Null? ==> r == Ok(IntCell(0))
    ensures !c.Null? ==> r == ToIntCell(c)
  {
    if c.Null? then Ok(IntCell(0)) else ToIntCell(c)
  }

  /**
   * `pd.to_datetime(...).dt.to_period("M")` on one cell: a missing value stays missing, a
   * date becomes its month and a text is parsed by `parse`, which stands for the date
   * parser; a text it cannot read, or a cell of another kind, makes the conversion fail.
   */
  function ToPeriodCell(c: Cell, parse: string -> Option<Date>): (r: Result<Cell>)
    ensures r.Ok? ==> r.value.PeriodCell? || r.value.Null?
    ensures r.Ok? && c.DateCell? ==> r.value == PeriodCell(MonthOf(c.d))
    ensures c.TextCell? && parse(c.t).Some? ==> r == Ok(PeriodCell(MonthOf(parse(c.t).value)))
    ensures c.Null? ==> r == Ok(Null)
    ensures r.Ok? <==> c.Null? || c.DateCell? || (c.TextCell? && parse(c.t).Some?)
  {
    match c
    case Null => Ok(Null)
    case DateCell(d) => Ok(PeriodCell(MonthOf(d)))
    case TextCell(t) =>
      if parse(t).Some? then Ok(PeriodCell(MonthOf(parse(t).value)))
      else Err("cannot parse as a date")
    case _ => Err("cannot convert to a date")
  }

  function ConvertCell(conv: Conversion, c: Cell, parse: string -> Option<Date>): Result<Cell>
  {
    match conv
    case Untouched => Ok(c)
    case ToInt => ToIntCell(c)
    case ToPeriod => ToPeriodCell(c, parse)
    case FillToInt => FillToIntCell(c)
  }

  // ---------------------------------------------------------------- columns

  /** The column already has dtype `period[M]`: it holds months and missing values only. */
  predicate IsPeriodColumn(cells: seq<Cell>)
  {
    forall i | 0 <= i < |cells| :: cells[i].PeriodCell? || cells[i].Null?
  }

  /** The conversion the source applies to a column, chosen by its name (and Month's dtype). */
  function ConversionOf(col: Column): (conv: Conversion)
    ensures col.name == "Year" <==> conv == ToInt
    ensures conv == ToPeriod <==> col.name == "Month" && !IsPeriodColumn(col.cells)
    ensures conv == FillToInt <==> col.name in CountColumns
  {
    if col.name == "Year" then ToInt
    else if col.name == "Month" then (if IsPeriodColumn(col.cells) then Untouched else ToPeriod)
    else if col.name in CountColumns then FillToInt
    else Untouched
  }

  /** Convert every cell of a column; the first refused cell fails the whole column. */
  function ConvertCells(conv: Conversion, cells: seq<Cell>, parse: string -> Option<Date>): (r: Result<seq<Cell>>)
    ensures r.Ok? <==> forall i | 0 <= i < |cells| :: ConvertCell(conv, cells[i], parse).Ok?
    ensures r.Ok? ==> |r.value| == |cells|
                      && forall i | 0 <= i < |cells| :: r.value[i] == ConvertCell(conv, cells[i], parse).value
  {
    if |cells| == 0 then Ok([])
    else
      var n := |cells| - 1;
      var prev := ConvertCells(conv, cells[..n], parse);
      var last := ConvertCell(conv, cells[n], parse);
      assert forall i | 0 <= i < n :: cells[..n][i] == cells[i];
      if prev.Err? then prev
      else if last.Err? then Err(last.message)
      else Ok(prev.value + [last.value])
  }

  function CastColumn(col: Column, parse: string -> Option<Date>): (r: Result<Column>)
    ensures r.Ok? ==> r.value.name == col.name && |r.value.cells| == |col.cells|
  {
    var cells := ConvertCells(ConversionOf(col), col.cells, parse);
    if cells.Err? then Err(cells.message) else Ok(Column(col.name, cells.value))
  }

  /** `cast_column_types`: cast every column, keeping the columns and their order. */
  function CastColumnTypes(frame: seq<Column>, parse: string -> Option<Date>): (r: Result<seq<Column>>)
    ensures r.Ok? <==> forall j | 0 <= j < |frame| :: CastColumn(frame[j], parse).Ok?
    ensures r.Ok? ==> |r.value| == |frame|
                      && forall j | 0 <= j < |frame| :: r.value[j] == CastColumn(frame[j], parse).value
  {
    if |frame| == 0 then Ok([])
    else
      var n := |frame| - 1;
      var prev := CastColumnTypes(frame[..n], parse);
      var last := CastColumn(frame[n], parse);
      assert forall j | 0 <= j < n :: frame[..n][j] == frame[j];
      if prev.Err? then prev
      else if last.Err? then Err(last.message)
      else Ok(prev.value + [last.value])
  }

  // ---------------------------------------------------------------- properties

  /**
   * The cast keeps the columns (same names, same order, none added) and the number of
   * rows; columns other than Year, Month and the counts keep their cells.
   */
  lemma CastKeepsShape(frame: seq<Column>, parse: string -> Option<Date>)
    requires CastColumnTypes(frame, parse).Ok?
    ensures var out := CastColumnTypes(frame, parse).value;
            && |out| == |frame|
            && (forall j | 0 <= j < |frame| :: out[j].name == frame[j].name && |out[j].cells| == |frame[j].cells|)
            && (forall j | 0 <= j < |frame| && frame[j].name != "Year" && frame[j].name != "Month"
                  && frame[j].name !in CountColumns :: out[j] == frame[j])
  {
    var out := CastColumnTypes(frame, parse).value;
    forall j | 0 <= j < |frame| && frame[j].name != "Year" && frame[j].name != "Month" && frame[j].name !in CountColumns
      ensures out[j] == frame[j]
    {
      assert out[j].cells == frame[j].cells;
    }
  }

  /** After the cast, Year and the counts hold integers and Month holds months or missing values. */
  lemma CastTypes(frame: seq<Column>, parse: string -> Option<Date>, j: nat, i: nat)
    requires CastColumnTypes(frame, parse).Ok?
    requires j < |frame| && i < |frame[j].cells|
    ensures var c := CastColumnTypes(frame, parse).value[j].cells[i];
            && (frame[j].name == "Year" || frame[j].name in CountColumns ==> c.IntCell?)
            && (frame[j].name == "Month" ==> c.PeriodCell? || c.Null?)
  {
    var col := frame[j];
    assert ConvertCells(ConversionOf(col), col.cells, parse).Ok?;
    assert ConvertCell(ConversionOf(col), col.cells[i], parse).Ok?;
  }

  /** A missing count becomes 0, an integer stays and a float is truncated toward zero. */
  lemma CastCounts(frame: seq<Column>, parse: string -> Option<Date>, j: nat, i: nat)
    requires CastColumnTypes(frame, parse).Ok?
    requires j < |frame| && i < |frame[j].cells| && frame[j].name in CountColumns
    ensures var c, o := frame[j].cells[i], CastColumnTypes(frame, parse).value[j].cells[i];
            && (c.Null? ==> o == IntCell(0))
            && (c.IntCell? ==> o == c)
            && (c.RealCell? ==> o == IntCell(Truncate(c.r)))
  {
    var col := frame[j];
    assert ConvertCells(ConversionOf(col), col.cells, parse).Ok?;
  }

  /** Year refuses missing values: a Year column with a missing cell makes the cast fail. */
  lemma YearRefusesNull(frame: seq<Column>, parse: string -> Option<Date>, j: nat, i: nat)
    requires j < |frame| && frame[j].name == "Year"
    requires i < |frame[j].cells| && frame[j].cells[i].Null?
    ensures CastColumnTypes(frame, parse).Err?
  {
    assert !ConvertCell(ToInt, frame[j].cells[i], parse).Ok?;
    assert CastColumn(frame[j], parse).Err?;
  }

  /** A column the cast does not convert is kept as it is. */
  lemma UntouchedColumn(col: Column, parse: string -> Option<Date>)
    requires ConversionOf(col) == Untouched
    ensures CastColumn(col, parse) == Ok(col)
  {
    assert ConvertCells(Untouched, col.cells, parse).value == col.cells;
  }

  /** A frame that holds none of the six columns is returned as it is. */
  lemma CastOtherColumns(frame: seq<Column>, parse: string -> Option<Date>)
    requires forall j | 0 <= j < |frame| :: frame[j].name != "Year" && frame[j].name != "Month" && frame[j].name !in CountColumns
    ensures CastColumnTypes(frame, parse) == Ok(frame)
  {
    forall j | 0 <= j < |frame| ensures CastColumn(frame[j], parse) == Ok(frame[j]) {
      UntouchedColumn(frame[j], parse);
    }
    assert CastColumnTypes(frame, parse).value == frame;
  }

  /** A second cast changes nothing: the cast is idempotent. */
  lemma CastIdempotent(frame: seq<Column>, parse: string -> Option<Date>)
    requires CastColumnTypes(frame, parse).Ok?
    ensures CastColumnTypes(CastColumnTypes(frame, parse).value, parse) == CastColumnTypes(frame, parse)
  {
    var out := CastColumnTypes(frame, parse).value;
    forall j | 0 <= j < |out| ensures CastColumn(out[j], parse) == Ok(out[j]) {
      CastColumnIdempotent(frame[j], parse);
    }
    assert CastColumnTypes(out, parse).value == out;
  }

  lemma CastColumnIdempotent(col: Column, parse: string -> Option<Date>)
    requires CastColumn(col, parse).Ok?
    ensures CastColumn(CastColumn(col, parse).value, parse) == CastColumn(col, parse)
  {
    var out := CastColumn(col, parse).value;
    var conv := ConversionOf(col);
    assert forall i | 0 <= i < |col.cells| :: ConvertCell(conv, col.cells[i], parse).Ok?;
    var conv2 := ConversionOf(out);
    assert conv2 == Untouched || conv2 == ToInt || conv2 == FillToInt;
    forall i | 0 <= i < |out.cells| ensures ConvertCell(conv2, out.cells[i], parse) == Ok(out.cells[i]) {
      assert ConvertCell(conv, col.cells[i], parse).Ok?;
    }
    assert ConvertCells(conv2, out.cells, parse).value == out.cells;
  }
}
