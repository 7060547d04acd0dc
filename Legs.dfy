/**
 * The dashboard's `legs` memo and its key figures (src/App.jsx): the spreadsheet rows of
 * the selected drivers that are not cancelled and whose basis date falls in the chosen
 * range, turned into legs and ordered by date; then the load count, miles, revenue,
 * revenue per mile, on-time share and deadhead share of those legs.
 */
module Legs {
  import opened Wrappers
  import opened Js
  import opened Seqs
  import opened ExcelDate
  import opened Dashboard

  /** The date basis: `basis === "pickup"` reads the ship date, any other setting the delivery date. */
  datatype Basis = Pickup | Delivery

  /** What the runtime supplies: local midnight of 1899-12-30 and its string conversions. */
  datatype Runtime = Runtime(
    localBaseMs: int,
    parse: string -> Option<int>,
    stringToNumber: string -> Number,
    numberToString: Number -> string)

  /** The page's filter state. `dateFrom` and `dateTo` are the date inputs' text, `""` when empty. */
  datatype Selection = Selection(selDrivers: seq<string>, dateFrom: string, dateTo: string, basis: Basis)

  /** A leg: a kept row with its dates read and its numbers converted. */
  datatype Leg = Leg(
    driver: string,
    shipDate: Option<Date>,
    delDate: Option<Date>,
    loadedMiles: Number,
    emptyMiles: Number,
    miles: Number,
    fee: Number,
    onTime: bool)

  /** `dateFrom ? new Date(dateFrom + "T00:00:00") : null` */
  function FromBound(dateFrom: string, parse: string -> Option<int>): Option<Date> {
    if dateFrom != "" then Some(ParseDate(dateFrom + "T00:00:00", parse)) else None
  }

  /** `dateTo ? new Date(dateTo + "T23:59:59") : null` */
  function ToBound(dateTo: string, parse: string -> Option<int>): Option<Date> {
    if dateTo != "" then Some(ParseDate(dateTo + "T23:59:59", parse)) else None
  }

  /** The range `(f, t)`, swapped when both are given and `f > t`. */
  function Bounds(sel: Selection, parse: string -> Option<int>): (Option<Date>, Option<Date>) {
    var f, t := FromBound(sel.dateFrom, parse), ToBound(sel.dateTo, parse);
    if f.Some? && t.Some? && Before(t.value, f.value) then (t, f) else (f, t)
  }

  /**
   * After the swap two valid bounds are in order; the pair is the two inputs, swapped only
   * when both are valid and given backwards.
   */
  lemma BoundsOrdered(sel: Selection, parse: string -> Option<int>)
    ensures var (f, t) := Bounds(sel, parse);
      f.Some? && t.Some? && f.value.Valid? && t.value.Valid? ==> f.value.ms <= t.value.ms
    ensures var f, t := FromBound(sel.dateFrom, parse), ToBound(sel.dateTo, parse);
      Bounds(sel, parse) == if f.Some? && t.Some? && f.value.Valid? && t.value.Valid? && t.value.ms < f.value.ms then (t, f) else (f, t)
  {
  }

  /** `(r[COLS.driver] ?? "").toString().trim()`, shared with the driver list. */
  function DriverName(row: Row, rt: Runtime): string {
    DriverOf(row, rt.numberToString)
  }

  /** The driver filter: every row when no driver is selected, else the rows of the selected drivers. */
  predicate DriverKept(row: Row, sel: Selection, rt: Runtime) {
    |sel.selDrivers| == 0 || DriverName(row, rt) in sel.selDrivers
  }

  /** The cancel filter: the load status is not cancelled. */
  predicate StatusKept(row: Row, rt: Runtime) {
    !IsCanceled(Get(row, "Load Status"), rt.numberToString)
  }

  /** The page's `excelToDate` of a column. */
  function DateCell(row: Row, column: string, rt: Runtime): Option<Date> {
    AppExcelToDate(Get(row, column), rt.localBaseMs, rt.parse)
  }

  function BasisDate(row: Row, basis: Basis, rt: Runtime): Option<Date> {
    DateCell(row, if basis == Pickup then "Ship Date" else "Del. Date", rt)
  }

  /**
   * The date filter on `baseD`. A `Date` is truthy even when invalid, and a comparison with
   * an Invalid Date is false, so an invalid bound or date excludes nothing.
   */
  predicate InWindow(base: Option<Date>, f: Option<Date>, t: Option<Date>) {
    if f.None? && t.None? then base.Some?
    else if base.None? then false
    else if f.Some? && Before(base.value, f.value) then false
    else if t.Some? && Before(t.value, base.value) then false
    else true
  }

  predicate DateKept(row: Row, sel: Selection, rt: Runtime) {
    var (f, t) := Bounds(sel, rt.parse);
    InWindow(BasisDate(row, sel.basis, rt), f, t)
  }

  /** All three filters. */
  predicate Kept(row: Row, sel: Selection, rt: Runtime) {
    DriverKept(row, sel, rt) && StatusKept(row, rt) && DateKept(row, sel, rt)
  }

  /** With valid dates, the window is the closed interval between the bounds that are given. */
  lemma InWindowValid(base: Option<Date>, f: Option<Date>, t: Option<Date>)
    requires base.Some? ==> base.value.Valid?
    requires f.Some? ==> f.value.Valid?
    requires t.Some? ==> t.value.Valid?
    ensures InWindow(base, f, t) <==>
      && base.Some?
      && (f.Some? ==> f.value.ms <= base.value.ms)
      && (t.Some? ==> base.value.ms <= t.value.ms)
  {
  }

  /** A row whose basis date does not read as a date is never kept; an invalid bound keeps every dated row. */
  lemma InWindowInvalid(base: Option<Date>, f: Option<Date>, t: Option<Date>)
    ensures base.None? ==> !InWindow(base, f, t)
    ensures base.Some? && (f.None? || f.value.Invalid?) && (t.None? || t.value.Invalid?) ==> InWindow(base, f, t)
    ensures base == Some(Invalid) ==> InWindow(base, f, t)
  {
  }

  function DriverFilter(sel: Selection, rt: Runtime): Row -> bool {
    row => DriverKept(row, sel, rt)
  }

  function StatusFilter(rt: Runtime): Row -> bool {
    row => StatusKept(row, rt)
  }

  function DateFilter(sel: Selection, rt: Runtime): Row -> bool {
    row => DateKept(row, sel, rt)
  }

  function KeptBy(sel: Selection, rt: Runtime): Row -> bool {
    row => Kept(row, sel, rt)
  }

  /** `Number(r[col] || 0)` */
  function NumberCell(row: Row, column: string, rt: Runtime): Number {
    ToNumber(OrElse(Get(row, column), Num(Finite(0.0))), rt.stringToNumber)
  }

  /** The `map` callback: a leg of a row. */
  function LegOf(row: Row, rt: Runtime): Leg {
    var loaded := NumberCell(row, "Miles", rt);
    var empty := NumberCell(row, "Empty Miles", rt);
    Leg(
      DriverName(row, rt),
      DateCell(row, "Ship Date", rt),
      DateCell(row, "Del. Date", rt),
      loaded,
      empty,
      Add(loaded, empty),
      NumberCell(row, "Hauling Fee", rt),
      !(IsLate(Get(row, "Shipper Arrival Status"), rt.numberToString) || IsLate(Get(row, "Receiver Arrival Status"), rt.numberToString)))
  }

  function LegOfBy(rt: Runtime): Row -> Leg {
    row => LegOf(row, rt)
  }

  /** A leg's miles are its loaded plus its empty miles, NaN when either is; a blank cell counts as 0. */
  lemma LegMiles(row: Row, rt: Runtime)
    ensures var l := LegOf(row, rt);
      && (l.miles.Finite? <==> l.loadedMiles.Finite? && l.emptyMiles.Finite?)
      && (l.miles.Finite? ==> l.miles.x == l.loadedMiles.x + l.emptyMiles.x)
      && (!Truthy(Get(row, "Miles")) ==> l.loadedMiles == Finite(0.0))
      && (!Truthy(Get(row, "Empty Miles")) ==> l.emptyMiles == Finite(0.0))
      && (!Truthy(Get(row, "Hauling Fee")) ==> l.fee == Finite(0.0))
  {
    var loaded, empty := NumberCell(row, "Miles", rt), NumberCell(row, "Empty Miles", rt);
    assert LegOf(row, rt).loadedMiles == loaded && LegOf(row, rt).emptyMiles == empty;
    assert LegOf(row, rt).miles == Add(loaded, empty);
    assert LegOf(row, rt).fee == NumberCell(row, "Hauling Fee", rt);
  }

  /** `(date)?.getTime?.() ?? 0`: no date is 0, an Invalid Date is NaN. */
  function TimeKey(d: Option<Date>): Number {
    match d
    case None => Finite(0.0)
    case Some(Valid(ms)) => Finite(ms as real)
    case Some(Invalid) => NaN
  }

  /** `a - b` on numbers. */
  function Sub(a: Number, b: Number): (r: Number)
    ensures r.Finite? <==> a.Finite? && b.Finite?
  {
    if a.Finite? && b.Finite? then Finite(a.x - b.x) else NaN
  }

  function BaseOf(l: Leg, basis: Basis): Option<Date> {
    if basis == Pickup then l.shipDate else l.delDate
  }

  function OtherOf(l: Leg, basis: Basis): Option<Date> {
    if basis == Pickup then l.delDate else l.shipDate
  }

  /** The comparator: the basis dates if they differ (`!==`, so also when either is NaN), else the other dates. */
  function Compare(a: Leg, b: Leg, basis: Basis): Number {
    var ab, bb := TimeKey(BaseOf(a, basis)), TimeKey(BaseOf(b, basis));
    if ab.NaN? || ab != bb then Sub(ab, bb)
    else Sub(TimeKey(OtherOf(a, basis)), TimeKey(OtherOf(b, basis)))
  }

  /** `a` may stay before `b`: the comparator is not positive, a NaN result counting as 0. */
  predicate LegLe(basis: Basis, a: Leg, b: Leg) {
    var c := Compare(a, b, basis);
    c.NaN? || c.x <= 0.0
  }

  function Order(basis: Basis): (Leg, Leg) -> bool {
    (a, b) => LegLe(basis, a, b)
  }

  /** `legs`: filter by driver, by status and by date, map to legs, sort. */
  function LegsOf(rows: seq<Row>, sel: Selection, rt: Runtime): seq<Leg> {
    var kept := Filter(Filter(Filter(rows, DriverFilter(sel, rt)), StatusFilter(rt)), DateFilter(sel, rt));
    Sort(Map(kept, LegOfBy(rt)), Order(sel.basis))
  }

  /** The three filters in a row keep exactly the rows that pass all three, in their order. */
  lemma KeptRows(rows: seq<Row>, sel: Selection, rt: Runtime)
    ensures Filter(Filter(Filter(rows, DriverFilter(sel, rt)), StatusFilter(rt)), DateFilter(sel, rt)) == Filter(rows, KeptBy(sel, rt))
  {
    var both: Row -> bool := row => DriverKept(row, sel, rt) && StatusKept(row, rt);
    FilterFilter(rows, DriverFilter(sel, rt), StatusFilter(rt), both);
    FilterFilter(rows, both, DateFilter(sel, rt), KeptBy(sel, rt));
  }

  lemma LegsOfShape(rows: seq<Row>, sel: Selection, rt: Runtime)
    ensures LegsOf(rows, sel, rt) == Sort(Map(Filter(rows, KeptBy(sel, rt)), LegOfBy(rt)), Order(sel.basis))
  {
    KeptRows(rows, sel, rt);
  }

  /** The legs are the legs of the kept rows, each once per row, in some order. */
  lemma LegsAreKeptRows(rows: seq<Row>, sel: Selection, rt: Runtime)
    ensures multiset(LegsOf(rows, sel, rt)) == multiset(Map(Filter(rows, KeptBy(sel, rt)), LegOfBy(rt)))
    ensures |LegsOf(rows, sel, rt)| == |Filter(rows, KeptBy(sel, rt))|
  {
    LegsOfShape(rows, sel, rt);
  }

  /** A leg without an Invalid Date, on which the comparator is consistent. */
  predicate Dated(l: Leg) {
    (l.shipDate.Some? ==> l.shipDate.value.Valid?) && (l.delDate.Some? ==> l.delDate.value.Valid?)
  }

  /** The time a sort key stands for: a missing date counts as 1970-01-01T00:00:00Z. */
  function Key(d: Option<Date>): real {
    OrZero(TimeKey(d))
  }

  /** On dated legs the comparator is the order of basis keys, then of other keys. */
  lemma LegLeDated(basis: Basis, a: Leg, b: Leg)
    requires Dated(a) && Dated(b)
    ensures LegLe(basis, a, b) <==>
      Key(BaseOf(a, basis)) < Key(BaseOf(b, basis))
      || (Key(BaseOf(a, basis)) == Key(BaseOf(b, basis)) && Key(OtherOf(a, basis)) <= Key(OtherOf(b, basis)))
  {
  }

  lemma DatedPreorder(s: seq<Leg>, basis: Basis)
    requires forall l :: l in s ==> Dated(l)
    ensures PreorderOn(s, Order(basis))
  {
    forall a, b | a in s && b in s ensures Order(basis)(a, b) || Order(basis)(b, a) {
      LegLeDated(basis, a, b);
      LegLeDated(basis, b, a);
    }
    forall a, b, c | a in s && b in s && c in s && Order(basis)(a, b) && Order(basis)(b, c) ensures Order(basis)(a, c) {
      LegLeDated(basis, a, b);
      LegLeDated(basis, b, c);
      LegLeDated(basis, a, c);
    }
  }

  /**
   * When no date reads as an Invalid Date, the legs are ordered by basis date, then by the
   * other date, a missing date counting as time 0.
   */
  lemma LegsOrdered(rows: seq<Row>, sel: Selection, rt: Runtime)
    requires forall i :: 0 <= i < |rows| ==> Dated(LegOf(rows[i], rt))
    ensures var legs := LegsOf(rows, sel, rt);
      forall i, j :: 0 <= i < j < |legs| ==>
        Key(BaseOf(legs[i], sel.basis)) < Key(BaseOf(legs[j], sel.basis))
        || (Key(BaseOf(legs[i], sel.basis)) == Key(BaseOf(legs[j], sel.basis)) && Key(OtherOf(legs[i], sel.basis)) <= Key(OtherOf(legs[j], sel.basis)))
  {
    KeptRows(rows, sel, rt);
    var mapped := Map(Filter(rows, KeptBy(sel, rt)), LegOfBy(rt));
    var legs := LegsOf(rows, sel, rt);
    forall l | l in mapped ensures Dated(l) {
      var k :| 0 <= k < |mapped| && mapped[k] == l;
      var kept := Filter(rows, KeptBy(sel, rt));
      assert kept[k] in kept;
      var i :| 0 <= i < |rows| && rows[i] == kept[k];
      assert l == LegOf(rows[i], rt);
    }
    DatedPreorder(mapped, sel.basis);
    SortSorted(mapped, Order(sel.basis));
    forall i, j | 0 <= i < j < |legs| ensures
        Key(BaseOf(legs[i], sel.basis)) < Key(BaseOf(legs[j], sel.basis))
        || (Key(BaseOf(legs[i], sel.basis)) == Key(BaseOf(legs[j], sel.basis)) && Key(OtherOf(legs[i], sel.basis)) <= Key(OtherOf(legs[j], sel.basis))) {
      assert legs[i] in multiset(mapped) && legs[j] in multiset(mapped);
      assert Order(sel.basis)(legs[i], legs[j]);
      LegLeDated(sel.basis, legs[i], legs[j]);
    }
  }

  /** The key figures; `fleetRpm` is the number `toFixed(2)` formats. */
  datatype Kpi = Kpi(loads: nat, miles: int, revenue: real, fleetRpm: real, onTime: int, deadheadPct: int)

  function MilesOrZero(l: Leg): real { OrZero(l.miles) }

  function FeeOrZero(l: Leg): real { OrZero(l.fee) }

  function EmptyOrZero(l: Leg): real { OrZero(l.emptyMiles) }

  predicate OnTime(l: Leg) { l.onTime }

  /** `Math.round(100 * count / total)`, or 0 without a total. */
  function Percent(count: nat, total: nat): int {
    if total > 0 then Round(100.0 * count as real / total as real) else 0
  }

  /**
   * `kpi`: the sums of `reduce` that read a NaN as 0, with the zero-denominator rules. The
   * `onTime !== null` filter keeps every leg, because `onTime` is always a boolean.
   */
  function KpiOf(legs: seq<Leg>): (k: Kpi)
    ensures k.loads == |legs|
    ensures k.miles <= 0 ==> k.fleetRpm == 0.0 && k.deadheadPct == 0
    ensures legs == [] ==> k.onTime == 0
  {
    var miles := Round(SumOf(legs, MilesOrZero));
    var revenue := SumOf(legs, FeeOrZero);
    var empty := Round(SumOf(legs, EmptyOrZero));
    Kpi(
      |legs|,
      miles,
      revenue,
      if miles > 0 then revenue / miles as real else 0.0,
      Percent(|Filter(legs, OnTime)|, |legs|),
      if miles > 0 then Round(empty as real / miles as real * 100.0) else 0)
  }

  /** Without legs every figure is 0. */
  lemma KpiOfNothing()
    ensures KpiOf([]) == Kpi(0, 0, 0.0, 0.0, 0, 0)
  {
  }

  /** A count out of a total is a percentage: 100 when it is the whole, 0 when it is nothing. */
  lemma PercentBounded(count: nat, total: nat)
    requires count <= total
    ensures 0 <= Percent(count, total) <= 100
    ensures total > 0 && count == total ==> Percent(count, total) == 100
    ensures Percent(0, total) == 0
  {
    if total > 0 {
      var q := 100.0 * count as real / total as real;
      QuotientBounded(100.0 * count as real, total as real, 100.0);
      RoundMonotone(0.0, q);
      RoundMonotone(q, 100.0);
      assert Round(0.0) == 0 && Round(100.0) == 100;
      assert 100.0 * 0 as real / total as real == 0.0;
      if count == total {
        QuotientWhole(total as real);
      }
    }
  }

  lemma QuotientWhole(d: real)
    requires d > 0.0
    ensures 100.0 * d / d == 100.0
  {
  }

  lemma QuotientBounded(a: real, d: real, k: real)
    requires 0.0 <= a <= k * d && d > 0.0
    ensures 0.0 <= a / d <= k
  {
  }

  /** The on-time share is a percentage: 100 when every leg is on time, 0 when none is. */
  lemma OnTimeBounded(legs: seq<Leg>)
    ensures 0 <= KpiOf(legs).onTime <= 100
    ensures legs != [] && (forall i :: 0 <= i < |legs| ==> legs[i].onTime) ==> KpiOf(legs).onTime == 100
    ensures (forall i :: 0 <= i < |legs| ==> !legs[i].onTime) ==> KpiOf(legs).onTime == 0
  {
    var c := |Filter(legs, OnTime)|;
    PercentBounded(c, |legs|);
    if forall i :: 0 <= i < |legs| ==> legs[i].onTime {
      FilterAll(legs, OnTime);
    }
    if forall i :: 0 <= i < |legs| ==> !legs[i].onTime {
      FilterNone(legs, OnTime);
      PercentBounded(0, |legs|);
    }
  }

  /** Legs with finite, non-negative miles: both sums count only real miles. */
  predicate MilesCounted(l: Leg) {
    l.loadedMiles.Finite? && l.emptyMiles.Finite? && l.loadedMiles.x >= 0.0 && l.emptyMiles.x >= 0.0
    && l.miles == Add(l.loadedMiles, l.emptyMiles)
  }

  lemma {:induction false} EmptyWithinMiles(legs: seq<Leg>)
    requires forall i :: 0 <= i < |legs| ==> MilesCounted(legs[i])
    ensures 0.0 <= SumOf(legs, EmptyOrZero) <= SumOf(legs, MilesOrZero)
  {
    if legs != [] {
      var init := legs[..|legs| - 1];
      assert forall i :: 0 <= i < |init| ==> init[i] == legs[i];
      EmptyWithinMiles(init);
    }
  }

  /** The deadhead share is a percentage when every leg's miles are finite and non-negative. */
  lemma DeadheadBounded(legs: seq<Leg>)
    requires forall i :: 0 <= i < |legs| ==> MilesCounted(legs[i])
    ensures 0 <= KpiOf(legs).deadheadPct <= 100
  {
    EmptyWithinMiles(legs);
    var miles := Round(SumOf(legs, MilesOrZero));
    var empty := Round(SumOf(legs, EmptyOrZero));
    RoundMonotone(SumOf(legs, EmptyOrZero), SumOf(legs, MilesOrZero));
    RoundMonotone(0.0, SumOf(legs, EmptyOrZero));
    assert Round(0.0) == 0;
    if miles > 0 {
      QuotientBounded(empty as real, miles as real, 1.0);
      RoundMonotone(0.0, empty as real / miles as real * 100.0);
      RoundMonotone(empty as real / miles as real * 100.0, 100.0);
      assert Round(100.0) == 100;
    }
  }

  /** Reordering the legs changes no figure: the order of the sort does not matter to `kpi`. */
  lemma KpiOrderFree(s: seq<Leg>, le: (Leg, Leg) -> bool)
    ensures KpiOf(Sort(s, le)) == KpiOf(s)
  {
    SumOfSort(s, le, MilesOrZero);
    SumOfSort(s, le, FeeOrZero);
    SumOfSort(s, le, EmptyOrZero);
    FilterPermutation(Sort(s, le), s, OnTime);
  }

  /** The dashboard's figures are those of the kept rows' legs, and there are as many loads as kept rows. */
  lemma KpiOfKeptRows(rows: seq<Row>, sel: Selection, rt: Runtime)
    ensures KpiOf(LegsOf(rows, sel, rt)) == KpiOf(Map(Filter(rows, KeptBy(sel, rt)), LegOfBy(rt)))
    ensures KpiOf(LegsOf(rows, sel, rt)).loads == |Filter(rows, KeptBy(sel, rt))|
  {
    KeptRows(rows, sel, rt);
    KpiOrderFree(Map(Filter(rows, KeptBy(sel, rt)), LegOfBy(rt)), Order(sel.basis));
  }
}
