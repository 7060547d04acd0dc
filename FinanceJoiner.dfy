/**
 * Load normalisation and the revenue total of the financials view
 * (src/utils/financeJoiner.ts). A spreadsheet row names the same datum under one of
 * several column titles; `normalizeLoads` resolves each to a single value and drops the
 * rows that have no truck or whose status says cancelled, and `buildFinance` adds up the
 * revenue of the loads that are not cancelled.
 */
module FinanceJoiner {
  import opened Wrappers
  import opened Js
  import opened Text
  import opened Seqs

  /** The status columns, in the order they are consulted. */
  const StatusColumns: seq<string> := ["Load Status", "Status", "Receiver Arrival Status"]

  /** The truck columns, in the order the `||` chain consults them. */
  const TruckColumns: seq<string> := ["Truck", "Truck #", "Truck Number"]

  /** The revenue columns, in the order the `??` chain consults them. */
  const RevenueColumns: seq<string> := ["Revenue", "Carrier Revenue", "Carrier Line Haul"]

  /** A normalised load. `revenue` is optional in the record type, so `buildFinance` reads it with `?? 0`. */
  datatype LoadRow = LoadRow(truck: Value, revenue: Option<Number>, status: string)

  /** The test `find` applies to a status value: `v != null && v !== ''`. */
  predicate Present(v: Value) {
    !Nullish(v) && v != Str("")
  }

  /** What `??` lets through. */
  predicate NotNullish(v: Value) {
    !Nullish(v)
  }

  /** The first of `values` that satisfies `p`, or `default` when none does. */
  function FirstWhere(values: seq<Value>, p: Value -> bool, default: Value): (r: Value)
    ensures (forall i :: 0 <= i < |values| ==> !p(values[i])) ==> r == default
    ensures (exists i :: 0 <= i < |values| && p(values[i])) ==>
      exists i :: 0 <= i < |values| && values[i] == r && p(r) && forall j :: 0 <= j < i ==> !p(values[j])
  {
    if values == [] then default
    else if p(values[0]) then values[0]
    else
      var r := FirstWhere(values[1..], p, default);
      assert forall i :: 0 < i < |values| ==> values[i] == values[1..][i - 1];
      assert (exists i :: 0 <= i < |values| && p(values[i])) ==>
        exists i :: 0 <= i < |values| && values[i] == r && p(r) && forall j :: 0 <= j < i ==> !p(values[j]) by {
        if exists i :: 0 <= i < |values| && p(values[i]) {
          var k :| 0 <= k < |values| && p(values[k]);
          assert values[1..][k - 1] == values[k];
          var i :| 0 <= i < |values[1..]| && values[1..][i] == r && p(r)
                   && forall j :: 0 <= j < i ==> !p(values[1..][j]);
          assert values[i + 1] == r;
        }
      }
      r
  }

  /** The row's values under the given columns, in order. */
  function Columns(row: Row, columns: seq<string>): (r: seq<Value>)
    ensures |r| == |columns| && forall i :: 0 <= i < |columns| ==> r[i] == Get(row, columns[i])
  {
    Map(columns, (c: string) => Get(row, c))
  }

  /** `String(STATUS_COLUMNS.map(col => row[col]).find(v => v != null && v !== '') ?? '')` */
  function StatusOf(row: Row, numberToString: Number -> string): string {
    ToJsString(FirstWhere(Columns(row, StatusColumns), Present, Str("")), numberToString)
  }

  /** `row['Truck'] || row['Truck #'] || row['Truck Number'] || ''` */
  function TruckOf(row: Row): Value {
    OrElse(OrElse(OrElse(Get(row, "Truck"), Get(row, "Truck #")), Get(row, "Truck Number")), Str(""))
  }

  /** `row['Revenue'] ?? row['Carrier Revenue'] ?? row['Carrier Line Haul'] ?? 0`, before `Number(...)`. */
  function RevenueCell(row: Row): Value {
    Coalesce(Coalesce(Coalesce(Get(row, "Revenue"), Get(row, "Carrier Revenue")), Get(row, "Carrier Line Haul")), Num(Finite(0.0)))
  }

  /** A `FirstWhere` over three values, spelled out. */
  lemma FirstOfThree(a: Value, b: Value, c: Value, p: Value -> bool, default: Value)
    ensures FirstWhere([a, b, c], p, default) == if p(a) then a else if p(b) then b else if p(c) then c else default
  {
    assert [c][1..] == [];
    assert FirstWhere([c], p, default) == if p(c) then c else default;
    assert [b, c][1..] == [c];
    assert FirstWhere([b, c], p, default) == if p(b) then b else FirstWhere([c], p, default);
    assert [a, b, c][1..] == [b, c];
  }

  /** The `||` chain picks the first truthy truck column, else `''`. */
  lemma TruckIsFirstTruthy(row: Row)
    ensures TruckOf(row) == FirstWhere(Columns(row, TruckColumns), Truthy, Str(""))
  {
    assert Columns(row, TruckColumns) == [Get(row, "Truck"), Get(row, "Truck #"), Get(row, "Truck Number")];
    FirstOfThree(Get(row, "Truck"), Get(row, "Truck #"), Get(row, "Truck Number"), Truthy, Str(""));
  }

  /** The `??` chain picks the first revenue column that is neither `null` nor `undefined`, else 0. */
  lemma RevenueIsFirstNotNullish(row: Row)
    ensures RevenueCell(row) == FirstWhere(Columns(row, RevenueColumns), NotNullish, Num(Finite(0.0)))
  {
    assert Columns(row, RevenueColumns) == [Get(row, "Revenue"), Get(row, "Carrier Revenue"), Get(row, "Carrier Line Haul")];
    FirstOfThree(Get(row, "Revenue"), Get(row, "Carrier Revenue"), Get(row, "Carrier Line Haul"), NotNullish, Num(Finite(0.0)));
  }

  /**
   * The status is the first of 'Load Status', 'Status' and 'Receiver Arrival Status' that is
   * neither null, undefined nor `''`, as text; `''` when there is none.
   */
  lemma StatusIsFirstPresent(row: Row, numberToString: Number -> string)
    ensures var a, b, c := Get(row, "Load Status"), Get(row, "Status"), Get(row, "Receiver Arrival Status");
      StatusOf(row, numberToString) ==
        if Present(a) then ToJsString(a, numberToString)
        else if Present(b) then ToJsString(b, numberToString)
        else if Present(c) then ToJsString(c, numberToString)
        else ""
  {
    var a, b, c := Get(row, "Load Status"), Get(row, "Status"), Get(row, "Receiver Arrival Status");
    assert Columns(row, StatusColumns) == [a, b, c];
    FirstOfThree(a, b, c, Present, Str(""));
  }

  /** The `map` callback of `normalizeLoads`. */
  function Normalize(row: Row, stringToNumber: string -> Number, numberToString: Number -> string): LoadRow {
    LoadRow(TruckOf(row), Some(ToNumber(RevenueCell(row), stringToNumber)), StatusOf(row, numberToString))
  }

  /** `/cancel/i.test(status)` */
  predicate Cancelled(status: string) {
    ContainsIgnoreCase(status, "cancel")
  }

  /** The `filter` callback of `normalizeLoads`: a truthy truck and a status that is not cancelled. */
  predicate Kept(l: LoadRow) {
    Truthy(l.truck) && !Cancelled(l.status)
  }

  /** `normalizeLoads(rows)` */
  function NormalizeLoads(rows: seq<Row>, stringToNumber: string -> Number, numberToString: Number -> string): (r: seq<LoadRow>)
    ensures |r| <= |rows|
    ensures forall l :: l in r <==> l in Map(rows, row => Normalize(row, stringToNumber, numberToString)) && Kept(l)
  {
    Filter(Map(rows, row => Normalize(row, stringToNumber, numberToString)), Kept)
  }

  /** `load.revenue ?? 0` */
  function RevenueOrZero(l: LoadRow): Number {
    match l.revenue
    case Some(n) => n
    case None => Finite(0.0)
  }

  /** `buildFinance(loads)`: a left fold that skips cancelled loads. */
  function BuildFinance(loads: seq<LoadRow>): Number {
    if loads == [] then Finite(0.0)
    else
      var total := BuildFinance(loads[..|loads| - 1]);
      var load := loads[|loads| - 1];
      if Cancelled(load.status) then total else Add(total, RevenueOrZero(load))
  }

  /** A load whose revenue `buildFinance` adds. */
  predicate Billable(l: LoadRow) {
    !Cancelled(l.status)
  }

  function RevenueValue(l: LoadRow): real {
    OrZero(RevenueOrZero(l))
  }

  /** `??` stops at an empty string: a blank 'Revenue' cell gives `Number('')` even when another column has a value. */
  lemma EmptyRevenueSelected(row: Row, stringToNumber: string -> Number, numberToString: Number -> string)
    requires Get(row, "Revenue") == Str("")
    ensures Normalize(row, stringToNumber, numberToString).revenue == Some(stringToNumber(""))
  {
  }

  /** With all three revenue columns missing the revenue is 0. */
  lemma MissingRevenueIsZero(row: Row, stringToNumber: string -> Number, numberToString: Number -> string)
    requires Nullish(Get(row, "Revenue")) && Nullish(Get(row, "Carrier Revenue")) && Nullish(Get(row, "Carrier Line Haul"))
    ensures Normalize(row, stringToNumber, numberToString).revenue == Some(Finite(0.0))
  {
  }

  /** Every normalised load has a truck and a status that is not cancelled; they come in input order. */
  lemma NormalizedLoadsKept(rows: seq<Row>, stringToNumber: string -> Number, numberToString: Number -> string)
    ensures var r := NormalizeLoads(rows, stringToNumber, numberToString);
      forall i :: 0 <= i < |r| ==> Truthy(r[i].truck) && !Cancelled(r[i].status)
    ensures Subsequence(NormalizeLoads(rows, stringToNumber, numberToString), Map(rows, row => Normalize(row, stringToNumber, numberToString)))
  {
    var r := NormalizeLoads(rows, stringToNumber, numberToString);
    forall i | 0 <= i < |r| ensures Truthy(r[i].truck) && !Cancelled(r[i].status) {
      assert r[i] in r;
    }
    FilterSubsequence(Map(rows, row => Normalize(row, stringToNumber, numberToString)), Kept);
  }

  /** One more load: `buildFinance` adds its revenue unless it is cancelled. */
  lemma BuildFinanceSnoc(init: seq<LoadRow>, last: LoadRow)
    ensures BuildFinance(init + [last]) == if Billable(last) then Add(BuildFinance(init), RevenueOrZero(last)) else BuildFinance(init)
    ensures Filter(init + [last], Billable) == Filter(init, Billable) + if Billable(last) then [last] else []
  {
    assert (init + [last])[..|init|] == init;
    FilterAppend(init, [last], Billable);
    assert Filter([last], Billable) == if Billable(last) then [last] else [];
  }

  /** `buildFinance` is NaN exactly when some billable load's revenue is NaN. */
  lemma {:induction false} BuildFinanceFinite(loads: seq<LoadRow>)
    ensures BuildFinance(loads).Finite? <==> forall i :: 0 <= i < |loads| && Billable(loads[i]) ==> RevenueOrZero(loads[i]).Finite?
  {
    if loads != [] {
      var init, last := loads[..|loads| - 1], loads[|loads| - 1];
      assert loads == init + [last];
      BuildFinanceFinite(init);
      BuildFinanceSnoc(init, last);
      assert forall i :: 0 <= i < |init| ==> loads[i] == init[i];
    }
  }

  /** Otherwise it is the sum of `revenue ?? 0` over the billable loads, in particular 0 for an empty list. */
  lemma {:induction false} BuildFinanceSum(loads: seq<LoadRow>)
    ensures BuildFinance(loads).Finite? ==> BuildFinance(loads).x == SumOf(Filter(loads, Billable), RevenueValue)
  {
    if loads != [] {
      var init, last := loads[..|loads| - 1], loads[|loads| - 1];
      assert loads == init + [last];
      BuildFinanceSum(init);
      BuildFinanceSnoc(init, last);
      SumOfAppend(Filter(init, Billable), if Billable(last) then [last] else [], RevenueValue);
      if Billable(last) {
        assert SumOf([last], RevenueValue) == RevenueValue(last) by {
          assert [last][..0] == [];
        }
      } else {
        assert Filter(init, Billable) + [] == Filter(init, Billable);
      }
    }
  }

  /** No cancelled load survives `normalizeLoads`, so `buildFinance` of its output adds up every revenue. */
  lemma BuildFinanceOfNormalized(rows: seq<Row>, stringToNumber: string -> Number, numberToString: Number -> string)
    ensures var loads := NormalizeLoads(rows, stringToNumber, numberToString);
      BuildFinance(loads).Finite? ==> BuildFinance(loads).x == SumOf(loads, RevenueValue)
  {
    var loads := NormalizeLoads(rows, stringToNumber, numberToString);
    NormalizedLoadsKept(rows, stringToNumber, numberToString);
    FilterAll(loads, Billable);
    BuildFinanceSum(loads);
  }
}
