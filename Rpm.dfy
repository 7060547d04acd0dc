/**
 * The server's average revenue per mile (server/utils/rpm.ts): a ratio of sums over
 * the loads that have positive miles, or 0 when there are none.
 */
module Rpm {
  import opened Seqs

  datatype Load = Load(miles: real, revenue: real)

  /** Only a load with positive miles enters either running sum. */
  predicate HasMiles(l: Load) {
    l.miles > 0.0
  }

  function MilesOf(l: Load): real { l.miles }

  function RevenueOf(l: Load): real { l.revenue }

  /** The loads that contribute, in input order. */
  function Counted(loads: seq<Load>): (r: seq<Load>)
    ensures forall l :: l in r <==> l in loads && l.miles > 0.0
  {
    Filter(loads, HasMiles)
  }

  function TotalMiles(loads: seq<Load>): real {
    SumOf(Counted(loads), MilesOf)
  }

  function TotalRevenue(loads: seq<Load>): real {
    SumOf(Counted(loads), RevenueOf)
  }

  /** What `avgRpm` returns: total revenue over total miles of the counted loads, else 0. */
  function AvgRpmOf(loads: seq<Load>): real {
    if TotalMiles(loads) > 0.0 then TotalRevenue(loads) / TotalMiles(loads) else 0.0
  }

  /** Appending one load adds its miles and revenue to the totals when, and only when, its miles are positive. */
  lemma TotalsSnoc(init: seq<Load>, last: Load)
    ensures TotalMiles(init + [last]) == TotalMiles(init) + if last.miles > 0.0 then last.miles else 0.0
    ensures TotalRevenue(init + [last]) == TotalRevenue(init) + if last.miles > 0.0 then last.revenue else 0.0
  {
    FilterAppend(init, [last], HasMiles);
    SumOfAppend(Counted(init), Counted([last]), MilesOf);
    SumOfAppend(Counted(init), Counted([last]), RevenueOf);
    assert Counted([last]) == if last.miles > 0.0 then [last] else [];
  }

  /** `avgRpm(loads)`: one pass that adds up miles and revenue of the loads with positive miles. */
  method AvgRpm(loads: seq<Load>) returns (r: real)
    ensures r == AvgRpmOf(loads)
  {
    var miles, revenue := 0.0, 0.0;
    var i := 0;
    while i < |loads|
      invariant 0 <= i <= |loads|
      invariant miles == TotalMiles(loads[..i])
      invariant revenue == TotalRevenue(loads[..i])
    {
      var load := loads[i];
      assert loads[..i + 1] == loads[..i] + [load];
      TotalsSnoc(loads[..i], load);
      if load.miles > 0.0 {
        miles := miles + load.miles;
        revenue := revenue + load.revenue;
      }
      i := i + 1;
    }
    assert loads[..i] == loads;
    r := if miles > 0.0 then revenue / miles else 0.0;
  }

  /** The miles that are added up are positive, so their total is positive exactly when some load has miles. */
  lemma {:induction false} TotalMilesPositive(loads: seq<Load>)
    ensures TotalMiles(loads) > 0.0 <==> exists i :: 0 <= i < |loads| && loads[i].miles > 0.0
    ensures TotalMiles(loads) >= 0.0
  {
    if loads != [] {
      var init, last := loads[..|loads| - 1], loads[|loads| - 1];
      assert loads == init + [last];
      TotalMilesPositive(init);
      TotalsSnoc(init, last);
      if exists i :: 0 <= i < |init| && init[i].miles > 0.0 {
        var i :| 0 <= i < |init| && init[i].miles > 0.0;
        assert loads[i] == init[i];
      }
      if exists i :: 0 <= i < |loads| && loads[i].miles > 0.0 {
        var i :| 0 <= i < |loads| && loads[i].miles > 0.0;
        assert i < |init| ==> init[i] == loads[i];
      }
    }
  }

  /** No load with positive miles (all zero, or none at all): the result is 0. */
  lemma AvgRpmNoMiles(loads: seq<Load>)
    requires forall i :: 0 <= i < |loads| ==> loads[i].miles <= 0.0
    ensures AvgRpmOf(loads) == 0.0
  {
    TotalMilesPositive(loads);
  }

  /** Inserting a load without positive miles anywhere does not change the result. */
  lemma AvgRpmIgnoresNoMiles(a: seq<Load>, b: seq<Load>, x: Load)
    requires x.miles <= 0.0
    ensures AvgRpmOf(a + [x] + b) == AvgRpmOf(a + b)
  {
    FilterAppend(a + [x], b, HasMiles);
    FilterAppend(a, [x], HasMiles);
    FilterAppend(a, b, HasMiles);
    assert Counted([x]) == [];
    assert Counted(a) + [] == Counted(a);
  }

  /** With no negative revenue the result is not negative. */
  lemma AvgRpmNonNegative(loads: seq<Load>)
    requires forall i :: 0 <= i < |loads| ==> loads[i].revenue >= 0.0
    ensures AvgRpmOf(loads) >= 0.0
  {
    var c := Counted(loads);
    forall i | 0 <= i < |c| ensures RevenueOf(c[i]) >= 0.0 {
      assert c[i] in loads;
    }
    SumOfNonNegative(c, RevenueOf);
  }

  /** The unit-test case: 200 + 600 dollars over 100 + 300 miles; the zero-mile load is skipped. */
  lemma AvgRpmExample()
    ensures AvgRpmOf([Load(100.0, 200.0), Load(0.0, 100.0), Load(300.0, 600.0)]) == 2.0
  {
    var a, b, c := Load(100.0, 200.0), Load(0.0, 100.0), Load(300.0, 600.0);
    assert [a] == [] + [a] && [a, b] == [a] + [b] && [a, b, c] == [a, b] + [c];
    TotalsSnoc([], a);
    TotalsSnoc([a], b);
    TotalsSnoc([a, b], c);
  }
}
