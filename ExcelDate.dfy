/**
 * The spreadsheet date normaliser (src/utils/excelToDate.js) and, beside it, the variant
 * the dashboard page defines for itself (src/App.jsx). Both read a cell that is either an
 * Excel serial day number, counted from 1899-12-30, or a date written as text, and give
 * `null` (here `None`) or a `Date`.
 */
module ExcelDate {
  import opened Wrappers
  import opened Js
  import opened Text

  /** 1899-12-30, day 0 of the Excel serial count, as days since 1970-01-01. */
  const SerialEpochDay: int := -25569

  /** `Date.UTC(1899, 11, 30)` */
  function UtcSerialBase(): (ms: int)
    ensures ms == SerialEpochDay * DayMs
  {
    CivilEpoch();
    DateUtc(1899, 11, 30)
  }

  /** `base + v * 86400000` for a serial `v` */
  function SerialTime(baseMs: int, v: Number): (t: Number)
    ensures t.Finite? <==> v.Finite?
  {
    if v.Finite? then Finite(baseMs as real + v.x * DayMs as real) else NaN
  }

  /** The cells both variants map to `null` before looking at the type. */
  predicate IsBlank(v: Value) {
    v.Null? || v.Undefined? || v == Str("")
  }

  /** `String(v)` for the cells that reach the text branch. */
  function CellText(v: Value): string
    requires !IsBlank(v) && !v.Num?
  {
    match v
    case Bool(b) => if b then "true" else "false"
    case Str(s) => s
  }

  /**
   * The shared shape of both variants: blank cells give `None`; numbers give the Date at
   * `baseMs` plus that many days (an Invalid Date for NaN or out of range); other cells give
   * the parsed text before the first space, with `suffix` appended, or `None` when it does
   * not parse.
   */
  function ExcelToDateWith(v: Value, baseMs: int, suffix: string, parse: string -> Option<int>): (r: Option<Date>)
    ensures IsBlank(v) ==> r == None
    ensures v.Num? ==> r.Some? && (r.value.Valid? <==> SerialTime(baseMs, v.n).Finite? && -MaxTime as real <= SerialTime(baseMs, v.n).x <= MaxTime as real)
    ensures !v.Num? && r.Some? ==> r.value.Valid?
  {
    if IsBlank(v) then None
    else if v.Num? then Some(TimeClip(SerialTime(baseMs, v.n)))
    else
      var d := ParseDate(FirstField(CellText(v), ' ') + suffix, parse);
      if d.Invalid? then None else Some(d)
  }

  /** `excelToDate(v)` of src/utils/excelToDate.js: serials count from UTC midnight, text is read at local midnight. */
  function ExcelToDate(v: Value, parse: string -> Option<int>): Option<Date> {
    ExcelToDateWith(v, UtcSerialBase(), "T00:00:00", parse)
  }

  /** A serial whose time value a `Date` can hold. */
  predicate InRange(baseMs: int, x: real) {
    -MaxTime as real <= baseMs as real + x * DayMs as real <= MaxTime as real
  }

  /** A whole serial `n` lands exactly on midnight `n` days after the base. */
  lemma WholeSerial(n: int, baseMs: int, suffix: string, parse: string -> Option<int>)
    requires InRange(baseMs, n as real)
    ensures ExcelToDateWith(Num(Finite(n as real)), baseMs, suffix, parse) == Some(Valid(baseMs + n * DayMs))
  {
    assert baseMs as real + (n as real) * DayMs as real == (baseMs + n * DayMs) as real;
    TruncOfInt(baseMs + n * DayMs);
  }

  /** The UTC calendar day of a whole serial `n` is day `n - 25569` since 1970-01-01, at midnight. */
  lemma ExcelSerialDay(n: int, parse: string -> Option<int>)
    requires InRange(UtcSerialBase(), n as real)
    ensures ExcelToDate(Num(Finite(n as real)), parse) == Some(Valid((n + SerialEpochDay) * DayMs))
    ensures UtcDay((n + SerialEpochDay) * DayMs) == n + SerialEpochDay
  {
    WholeSerial(n, UtcSerialBase(), "T00:00:00", parse);
  }

  /** The unit-test case: serial 45239 is 2023-11-09 in UTC. */
  lemma ExcelSerialExample(parse: string -> Option<int>)
    ensures var d := ExcelToDate(Num(Finite(45239.0)), parse);
      d.Some? && d.value.Valid? && UtcDay(d.value.ms) == DaysFromCivil(2023, 11, 9)
  {
    assert DaysFromCivil(2023, 11, 9) == 45239 + SerialEpochDay;
    ExcelSerialDay(45239, parse);
  }

  /** From 1970 on, the fraction of a serial is a time of day: the UTC calendar day is that of the whole part. */
  lemma FractionSameDay(n: int, f: real, parse: string -> Option<int>)
    requires 0.0 <= f < 1.0 && n + SerialEpochDay >= 0 && InRange(UtcSerialBase(), n as real + f)
    ensures var d := ExcelToDate(Num(Finite(n as real + f)), parse);
      d.Some? && d.value.Valid? && UtcDay(d.value.ms) == n + SerialEpochDay
  {
    var k := n + SerialEpochDay;
    var t := UtcSerialBase() as real + (n as real + f) * DayMs as real;
    assert t == (k * DayMs) as real + f * DayMs as real;
    assert 0.0 <= f * DayMs as real < DayMs as real;
    var ms := Trunc(t);
    assert k * DayMs <= ms < k * DayMs + DayMs;
    var rem := ms - k * DayMs;
    assert ms == k * DayMs + rem && 0 <= rem < DayMs;
    assert ms / DayMs == k;
  }

  /** A later serial never gives an earlier time. */
  lemma SerialMonotone(x: real, y: real, baseMs: int, suffix: string, parse: string -> Option<int>)
    requires x <= y && InRange(baseMs, x) && InRange(baseMs, y)
    ensures var dx, dy := ExcelToDateWith(Num(Finite(x)), baseMs, suffix, parse), ExcelToDateWith(Num(Finite(y)), baseMs, suffix, parse);
      dx.Some? && dy.Some? && dx.value.Valid? && dy.value.Valid? && dx.value.ms <= dy.value.ms
  {
    assert x * DayMs as real <= y * DayMs as real;
    TruncMonotone(baseMs as real + x * DayMs as real, baseMs as real + y * DayMs as real);
  }

  /**
   * Not strictly monotone: `new Date` keeps whole milliseconds, so two serials less than a
   * millisecond apart give the same Date.
   */
  lemma SubMillisecondSerials(parse: string -> Option<int>)
    ensures var x, y := 1.0 / 864000000.0, 2.0 / 864000000.0;
      && x < y
      && ExcelToDate(Num(Finite(x)), parse) == Some(Valid(UtcSerialBase() + 1))
      && ExcelToDate(Num(Finite(y)), parse) == Some(Valid(UtcSerialBase() + 1))
  {
    var b := UtcSerialBase();
    assert b == -2209161600000;
    assert (1.0 / 864000000.0) * DayMs as real == 0.1;
    assert (2.0 / 864000000.0) * DayMs as real == 0.2;
    assert Trunc(b as real + 0.1) == b + 1;
    assert Trunc(b as real + 0.2) == b + 1;
  }

  /** Between whole serials the order is strict: each day is 86400000 ms after the one before. */
  lemma WholeSerialStrict(m: int, n: int, baseMs: int, suffix: string, parse: string -> Option<int>)
    requires m < n && InRange(baseMs, m as real) && InRange(baseMs, n as real)
    ensures var dm, dn := ExcelToDateWith(Num(Finite(m as real)), baseMs, suffix, parse), ExcelToDateWith(Num(Finite(n as real)), baseMs, suffix, parse);
      dm.Some? && dn.Some? && Before(dm.value, dn.value)
      && dn.value.ms - dm.value.ms == (n - m) * DayMs
  {
    WholeSerial(m, baseMs, suffix, parse);
    WholeSerial(n, baseMs, suffix, parse);
  }

  /** NaN is a number, so it gives an Invalid Date rather than `None`. */
  lemma NaNSerial(baseMs: int, suffix: string, parse: string -> Option<int>)
    ensures ExcelToDateWith(Num(NaN), baseMs, suffix, parse) == Some(Invalid)
  {
  }

  /** Text after the first space (a time of day) is ignored. */
  lemma TimeOfDayIgnored(d: string, t: string, baseMs: int, suffix: string, parse: string -> Option<int>)
    requires d != "" && ' ' !in d
    ensures ExcelToDateWith(Str(d + " " + t), baseMs, suffix, parse) == ExcelToDateWith(Str(d), baseMs, suffix, parse)
  {
    assert d + " " + t == d + [' '] + t;
    FirstFieldOf(d, t, ' ');
  }

  /** Text without a space is parsed whole, and gives `None` exactly when it does not parse. */
  lemma TextWithoutSpace(s: string, baseMs: int, suffix: string, parse: string -> Option<int>)
    requires s != "" && ' ' !in s
    ensures ExcelToDateWith(Str(s), baseMs, suffix, parse) == if parse(s + suffix).Some? then Some(Valid(parse(s + suffix).value)) else None
  {
    FirstFieldOf(s, [], ' ');
  }

  lemma DateText(x: string, y: string, parse: string -> Option<int>)
    requires x == "2023-11-09 13:45" && y == "2023-11-09"
    ensures ExcelToDate(Str(x), parse) == ExcelToDate(Str(y), parse)
  {
    assert x == y + " " + "13:45";
    TimeOfDayIgnored(y, "13:45", UtcSerialBase(), "T00:00:00", parse);
  }

  /** The unit-test cases on text: a time after the date changes nothing. */
  lemma DateTextExample(parse: string -> Option<int>)
    ensures ExcelToDate(Str("2023-11-09 13:45"), parse) == ExcelToDate(Str("2023-11-09"), parse)
  {
    DateText("2023-11-09 13:45", "2023-11-09", parse);
  }

  lemma NotADateText(x: string, parse: string -> Option<int>)
    requires x == "not-a-date" && parse("not-a-dateT00:00:00").None?
    ensures ExcelToDate(Str(x), parse) == None
  {
    assert x + "T00:00:00" == "not-a-dateT00:00:00";
    TextWithoutSpace(x, UtcSerialBase(), "T00:00:00", parse);
  }

  /** The unit-test cases of `null`: blank cells, and text the runtime cannot read as a date. */
  lemma NullExamples(parse: string -> Option<int>)
    requires parse("not-a-dateT00:00:00").None?
    ensures ExcelToDate(Str(""), parse) == None
    ensures ExcelToDate(Null, parse) == None
    ensures ExcelToDate(Str("not-a-date"), parse) == None
  {
    NotADateText("not-a-date", parse);
  }

  /**
   * The variant on the dashboard page (src/App.jsx): serials count from `new Date(1899, 11, 30)`,
   * local midnight, whose time value `localBaseMs` depends on the time zone; text is given
   * to `new Date` as it stands.
   */
  function AppExcelToDate(v: Value, localBaseMs: int, parse: string -> Option<int>): Option<Date> {
    ExcelToDateWith(v, localBaseMs, "", parse)
  }
}
