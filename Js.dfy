/**
 * The few pieces of JavaScript's value semantics that the dashboard's helpers rely on:
 * numbers with NaN, loosely typed spreadsheet cells, truthiness, the `??` and `||`
 * fallbacks, `Number(...)`, `String(...)`, `Math.round` and the `Date` time value.
 * Conversions the language runtime performs on strings (parsing a number or a date,
 * printing a number) are not defined here; the routines that need them take them
 * as parameters.
 */
module Js {
  import opened Wrappers

  /** A JavaScript number: a finite value or NaN. */
  datatype Number = Finite(x: real) | NaN

  /** `a + b` on numbers: NaN absorbs. */
  function Add(a: Number, b: Number): (r: Number)
    ensures r.Finite? <==> a.Finite? && b.Finite?
  {
    if a.Finite? && b.Finite? then Finite(a.x + b.x) else NaN
  }

  /** A cell of a spreadsheet row, or any other loosely typed JavaScript value. */
  datatype Value = Undefined | Null | Bool(b: bool) | Num(n: Number) | Str(s: string)

  /** A record read from a spreadsheet: a missing column reads as `undefined`. */
  type Row = map<string, Value>

  function Get(row: Row, column: string): Value {
    if column in row then row[column] else Undefined
  }

  /** JavaScript truthiness: `undefined`, `null`, `false`, `0`, NaN and `""` are falsy. */
  predicate Truthy(v: Value) {
    match v
    case Undefined => false
    case Null => false
    case Bool(b) => b
    case Num(n) => n.Finite? && n.x != 0.0
    case Str(s) => s != ""
  }

  /** `v == null`, the loose comparison: true of both `null` and `undefined`. */
  predicate Nullish(v: Value) {
    v.Undefined? || v.Null?
  }

  /** `a ?? b` */
  function Coalesce(a: Value, b: Value): (r: Value)
    ensures !Nullish(a) ==> r == a
    ensures Nullish(a) ==> r == b
  {
    if Nullish(a) then b else a
  }

  /** `a || b` */
  function OrElse(a: Value, b: Value): (r: Value)
    ensures Truthy(a) ==> r == a
    ensures !Truthy(a) ==> r == b
  {
    if Truthy(a) then a else b
  }

  /** `n || 0` on a number: NaN and zero both give zero. */
  function OrZero(n: Number): (r: real)
    ensures n.Finite? ==> r == n.x
    ensures n.NaN? ==> r == 0.0
  {
    if n.Finite? then n.x else 0.0
  }

  /**
   * `Number(v)`. How a string is read as a number is the runtime's `stringToNumber`
   * (for instance `""` gives 0 and `"abc"` gives NaN).
   */
  function ToNumber(v: Value, stringToNumber: string -> Number): Number {
    match v
    case Undefined => NaN
    case Null => Finite(0.0)
    case Bool(b) => Finite(if b then 1.0 else 0.0)
    case Num(n) => n
    case Str(s) => stringToNumber(s)
  }

  /** `String(v)`. How a number is printed is the runtime's `numberToString`. */
  function ToJsString(v: Value, numberToString: Number -> string): string {
    match v
    case Undefined => "undefined"
    case Null => "null"
    case Bool(b) => if b then "true" else "false"
    case Num(n) => numberToString(n)
    case Str(s) => s
  }

  /** Truncation toward zero (ECMAScript ToIntegerOrInfinity on a finite value). */
  function Trunc(x: real): (r: int)
    ensures x >= 0.0 ==> r as real <= x < r as real + 1.0
    ensures x < 0.0 ==> r as real - 1.0 < x <= r as real
  {
    if x >= 0.0 then x.Floor else -((-x).Floor)
  }

  lemma TruncMonotone(x: real, y: real)
    requires x <= y
    ensures Trunc(x) <= Trunc(y)
  {
  }

  lemma TruncOfInt(n: int)
    ensures Trunc(n as real) == n
  {
  }

  /** `Math.round` on a finite value: the nearest integer, halves rounded up. */
  function Round(x: real): (r: int)
    ensures x - 0.5 < r as real <= x + 0.5
  {
    (x + 0.5).Floor
  }

  lemma {:induction false} RoundMonotone(x: real, y: real)
    requires x <= y
    ensures Round(x) <= Round(y)
  {
    assert (x + 0.5).Floor as real <= x + 0.5 <= y + 0.5;
  }

  /** Milliseconds in a day. */
  const DayMs: int := 86_400_000

  /** The largest absolute time value a `Date` can hold. */
  const MaxTime: int := 8_640_000_000_000_000

  /** A `Date` object: a time value in milliseconds since 1970-01-01 UTC, or an Invalid Date. */
  datatype Date = Valid(ms: int) | Invalid

  /** `new Date(t)` for a number `t` (ECMAScript TimeClip). */
  function TimeClip(t: Number): (d: Date)
    ensures d.Valid? <==> t.Finite? && -MaxTime as real <= t.x <= MaxTime as real
    ensures d.Valid? ==> -MaxTime <= d.ms <= MaxTime
  {
    if t.Finite? && -MaxTime as real <= t.x <= MaxTime as real then Valid(Trunc(t.x)) else Invalid
  }

  /** `new Date(s)` for a string `s`, given the runtime's parser (`None` is NaN). */
  function ParseDate(s: string, parse: string -> Option<int>): (d: Date)
    ensures d.Valid? <==> parse(s).Some?
  {
    match parse(s)
    case Some(ms) => Valid(ms)
    case None => Invalid
  }

  /** `a < b` on two dates: compares time values; false when either is invalid. */
  predicate Before(a: Date, b: Date) {
    a.Valid? && b.Valid? && a.ms < b.ms
  }

  /** Days since 1970-01-01 of a proleptic Gregorian calendar date (month 1..12). */
  function DaysFromCivil(year: int, month: int, day: int): int
    requires 1 <= month <= 12
  {
    var y := if month <= 2 then year - 1 else year;
    var era := y / 400;
    var yoe := y - era * 400;
    var mp := if month > 2 then month - 3 else month + 9;
    var doy := (153 * mp + 2) / 5 + day - 1;
    var doe := yoe * 365 + yoe / 4 - yoe / 100 + doy;
    era * 146097 + doe - 719468
  }

  /** `Date.UTC(year, monthIndex, day)`, where January is month 0. */
  function DateUtc(year: int, monthIndex: int, day: int): int
    requires 0 <= monthIndex < 12
  {
    DaysFromCivil(year, monthIndex + 1, day) * DayMs
  }

  /** Of a time value, the UTC calendar date as days since 1970-01-01: what `toISOString().slice(0, 10)` names. */
  function UtcDay(ms: int): int {
    ms / DayMs
  }

  lemma CivilEpoch()
    ensures DaysFromCivil(1970, 1, 1) == 0
    ensures DateUtc(1899, 11, 30) == -25569 * DayMs
  {
  }
}
