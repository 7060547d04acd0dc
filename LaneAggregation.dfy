/**
 * The client's lane report (src/utils/lanes.ts): completed loads in a date range, for
 * some drivers, grouped by lane (origin city and state to destination city and state),
 * ranked by revenue, with per-lane averages and each lane's share of the fleet's revenue.
 *
 * The `Map` of accumulators is modelled by what a JavaScript `Map` is, a sequence of
 * entries in insertion order with distinct keys; `Array.from(map.values())` is that
 * sequence itself.
 */
module LaneAggregation {
  import opened Wrappers
  import opened Js
  import opened Text
  import opened Seqs

  /** `normalizeCity(s)`: trimmed and upper-cased. */
  function NormalizeCity(s: string): string {
    TrimUpperCase(s)
  }

  /** `laneKey(oCity, oState, dCity, dState)`: `CITY, ST → CITY, ST`; the states are used as given. */
  function LaneKey(oCity: string, oState: string, dCity: string, dState: string): string {
    (NormalizeCity(oCity) + ", " + oState) + " → " + (NormalizeCity(dCity) + ", " + dState)
  }

  lemma NormalizeCityIdempotent(s: string)
    ensures NormalizeCity(NormalizeCity(s)) == NormalizeCity(s)
  {
    TrimUpperCaseIdempotent(s);
  }

  /** The key's text with its three separator characters picked out. */
  lemma KeySeparators(a: string, b: string, c: string, d: string)
    ensures (a + ", " + b) + " → " + (c + ", " + d)
         == (a + [','] + (" " + b + " ")) + ['→'] + ((" " + c) + [','] + (" " + d))
  {
    assert ", " == [','] + " ";
    assert " → " == " " + ['→'] + " ";
    assert a + ", " + b == a + [','] + (" " + b);
    assert c + ", " + d == c + [','] + (" " + d);
    var x, y := a + [','] + (" " + b), c + [','] + (" " + d);
    assert x + " → " + y == (x + " ") + ['→'] + (" " + y);
    assert x + " " == a + [','] + (" " + b + " ");
    assert " " + y == (" " + c) + [','] + (" " + d);
  }

  /** The key's text determines its four parts when the parts hold no separator of their own. */
  lemma KeyTextInjective(a: string, b: string, c: string, d: string, a': string, b': string, c': string, d': string)
    requires ',' !in a && ',' !in a' && ',' !in c && ',' !in c' && '→' !in b && '→' !in b'
    requires (a + ", " + b) + " → " + (c + ", " + d) == (a' + ", " + b') + " → " + (c' + ", " + d')
    ensures a == a' && b == b' && c == c' && d == d'
  {
    KeySeparators(a, b, c, d);
    KeySeparators(a', b', c', d');
    var m, m' := " " + b + " ", " " + b' + " ";
    SplitFour(a, m, " " + c, " " + d, a', m', " " + c', " " + d', ',', '→', ',');
    assert m[1..|m| - 1] == b && m'[1..|m'| - 1] == b';
    assert (" " + c)[1..] == c && (" " + c')[1..] == c';
    assert (" " + d)[1..] == d && (" " + d')[1..] == d';
  }

  /**
   * When no normalised city contains a ',' and no origin state an '→', the key determines the
   * normalised cities and the states: two loads share a lane exactly when their normalised
   * origins and destinations agree, in that order.
   */
  lemma LaneKeyInjective(
    oCity: string, oState: string, dCity: string, dState: string,
    oCity': string, oState': string, dCity': string, dState': string)
    requires ',' !in NormalizeCity(oCity) && ',' !in NormalizeCity(oCity') && ',' !in NormalizeCity(dCity) && ',' !in NormalizeCity(dCity')
    requires '→' !in oState && '→' !in oState'
    ensures LaneKey(oCity, oState, dCity, dState) == LaneKey(oCity', oState', dCity', dState') <==>
      && NormalizeCity(oCity) == NormalizeCity(oCity') && oState == oState'
      && NormalizeCity(dCity) == NormalizeCity(dCity') && dState == dState'
  {
    if LaneKey(oCity, oState, dCity, dState) == LaneKey(oCity', oState', dCity', dState') {
      KeyTextInjective(NormalizeCity(oCity), oState, NormalizeCity(dCity), dState,
                       NormalizeCity(oCity'), oState', NormalizeCity(dCity'), dState');
    }
  }

  /** The key has a direction: a lane and its return share a key only when both ends are the same place. */
  lemma LaneKeyDirected(oCity: string, oState: string, dCity: string, dState: string)
    requires ',' !in NormalizeCity(oCity) && ',' !in NormalizeCity(dCity)
    requires '→' !in oState && '→' !in dState
    ensures LaneKey(oCity, oState, dCity, dState) == LaneKey(dCity, dState, oCity, oState) <==>
      NormalizeCity(oCity) == NormalizeCity(dCity) && oState == dState
  {
    LaneKeyInjective(oCity, oState, dCity, dState, dCity, dState, oCity, oState);
  }

  datatype Basis = Pickup | Delivery

  /** A load as the report reads it; dates are time values in milliseconds. */
  datatype LoadRow = LoadRow(
    pickupCity: string, pickupState: string,
    deliveryCity: string, deliveryState: string,
    pickedUpAt: int, deliveredAt: int,
    driverId: string, status: string,
    haulingFee: Number, milesLoaded: Number, milesEmpty: Number)

  datatype Options = Options(start: int, end: int, basis: Basis, driverIds: seq<string>)

  /** Per-lane running totals, the values of the `Map`. */
  datatype Acc = Acc(
    lane: string, loads: nat, totalRevenue: real, milesSum: real,
    rpmSum: real, rpmCount: nat, lastMoved: Option<int>)

  datatype LaneRow = LaneRow(
    lane: string, loads: nat, totalRevenue: real,
    avgRevenuePerLoad: real, avgTotalMilesPerLoad: real, avgRpm: real,
    pctOfFleetRevenue: real, cumPctOfFleetRevenue: real, lastMoved: int)

  /** `inRange(r)`: completed, basis date within `[start, end]`, and one of the drivers asked for (all when none are). */
  predicate InRange(r: LoadRow, opts: Options) {
    var dt := if opts.basis == Pickup then r.pickedUpAt else r.deliveredAt;
    && r.status == "Completed"
    && opts.start <= dt <= opts.end
    && (|opts.driverIds| == 0 || r.driverId in opts.driverIds)
  }

  function InRangeOf(opts: Options): LoadRow -> bool {
    r => InRange(r, opts)
  }

  /** The lane of a load. */
  function KeyOf(r: LoadRow): string {
    LaneKey(r.pickupCity, r.pickupState, r.deliveryCity, r.deliveryState)
  }

  /** The loads the report is about, in input order. */
  function Included(rows: seq<LoadRow>, opts: Options): seq<LoadRow> {
    Filter(rows, InRangeOf(opts))
  }

  /**
   * The grouping below is written for any key function `keyOf`; the report groups by
   * `KeyOf`. A lane's loads are the included loads with that key, in input order.
   */
  function OnLane(keyOf: LoadRow -> string, key: string): LoadRow -> bool {
    r => keyOf(r) == key
  }

  function LaneLoads(included: seq<LoadRow>, keyOf: LoadRow -> string, key: string): seq<LoadRow> {
    Filter(included, OnLane(keyOf, key))
  }

  /** `Number(r.hauling_fee || 0)` */
  function Fee(r: LoadRow): real {
    OrZero(r.haulingFee)
  }

  /** `(r.miles_loaded || 0) + (r.miles_empty || 0)` */
  function MilesTotal(r: LoadRow): real {
    OrZero(r.milesLoaded) + OrZero(r.milesEmpty)
  }

  predicate HasMiles(r: LoadRow) {
    MilesTotal(r) > 0.0
  }

  /** The load's revenue per mile, where it has miles. */
  function Ratio(r: LoadRow): real {
    if MilesTotal(r) > 0.0 then Fee(r) / MilesTotal(r) else 0.0
  }

  /** The latest delivery date of some loads, `None` for none. */
  function LastDelivered(s: seq<LoadRow>): (m: Option<int>)
    ensures m.None? <==> s == []
    ensures m.Some? ==> (exists i :: 0 <= i < |s| && s[i].deliveredAt == m.value)
                        && forall i :: 0 <= i < |s| ==> s[i].deliveredAt <= m.value
  {
    if s == [] then None
    else
      var m := LastDelivered(s[..|s| - 1]);
      var d := s[|s| - 1].deliveredAt;
      assert forall i :: 0 <= i < |s| - 1 ==> s[i] == s[..|s| - 1][i];
      if m.None? || d > m.value then Some(d) else m
  }

  /** No two entries share a lane. */
  predicate DistinctLanes(accs: seq<Acc>) {
    forall i, j :: 0 <= i < j < |accs| ==> accs[i].lane != accs[j].lane
  }

  /** `map.get(key)`: the position of the entry for `key`. */
  function Find(accs: seq<Acc>, key: string): (r: Option<nat>)
    ensures r.Some? ==> r.value < |accs| && accs[r.value].lane == key
    ensures r.None? ==> forall i :: 0 <= i < |accs| ==> accs[i].lane != key
  {
    if accs == [] then None
    else if accs[|accs| - 1].lane == key then Some(|accs| - 1)
    else Find(accs[..|accs| - 1], key)
  }

  /** The empty accumulator `map.get(key) || {...}` starts from. */
  function Fresh(key: string): Acc {
    Acc(key, 0, 0.0, 0.0, 0.0, 0, None)
  }

  /** The body of the loop for one included load: its counts, revenue, miles, rate and date. */
  function Update(a: Acc, r: LoadRow): (a': Acc)
    ensures a'.lane == a.lane && a'.loads >= 1 && a'.lastMoved.Some?
  {
    var miles := MilesTotal(r);
    a.(loads := a.loads + 1,
       totalRevenue := a.totalRevenue + Fee(r),
       milesSum := a.milesSum + miles,
       rpmSum := if miles > 0.0 then a.rpmSum + Fee(r) / miles else a.rpmSum,
       rpmCount := if miles > 0.0 then a.rpmCount + 1 else a.rpmCount,
       lastMoved := if a.lastMoved.None? || r.deliveredAt > a.lastMoved.value then Some(r.deliveredAt) else a.lastMoved)
  }

  /** Distinct lanes, and every entry has seen a load. */
  predicate WellFormed(accs: seq<Acc>) {
    DistinctLanes(accs) && forall i :: 0 <= i < |accs| ==> accs[i].loads >= 1 && accs[i].lastMoved.Some?
  }

  /** `map.set(key, L)`: an existing entry keeps its place, a new one goes last. */
  function Record(accs: seq<Acc>, key: string, r: LoadRow): (accs': seq<Acc>)
    requires WellFormed(accs)
    ensures WellFormed(accs')
  {
    match Find(accs, key)
    case Some(i) => UpdateAt(accs, i, r)
    case None => AppendNew(accs, key, r)
  }

  function UpdateAt(accs: seq<Acc>, i: nat, r: LoadRow): (accs': seq<Acc>)
    requires WellFormed(accs) && i < |accs|
    ensures WellFormed(accs')
    ensures accs' == accs[i := Update(accs[i], r)]
  {
    var accs' := accs[i := Update(accs[i], r)];
    assert forall j :: 0 <= j < |accs| ==> accs'[j].lane == accs[j].lane;
    accs'
  }

  function AppendNew(accs: seq<Acc>, key: string, r: LoadRow): (accs': seq<Acc>)
    requires WellFormed(accs) && forall j :: 0 <= j < |accs| ==> accs[j].lane != key
    ensures WellFormed(accs')
    ensures accs' == accs + [Update(Fresh(key), r)]
  {
    var accs' := accs + [Update(Fresh(key), r)];
    assert forall j :: 0 <= j < |accs| ==> accs'[j] == accs[j];
    accs'
  }

  /** The `Map` after the loop has seen `rows`, grouping by `keyOf`. */
  function Accumulated(rows: seq<LoadRow>, opts: Options, keyOf: LoadRow -> string): (accs: seq<Acc>)
    ensures WellFormed(accs)
  {
    if rows == [] then []
    else
      var accs := Accumulated(rows[..|rows| - 1], opts, keyOf);
      var r := rows[|rows| - 1];
      if InRange(r, opts) then Record(accs, keyOf(r), r) else accs
  }

  /** The `for` loop of `buildLaneRows` that fills the `Map`. */
  method Accumulate(rows: seq<LoadRow>, opts: Options) returns (accs: seq<Acc>)
    ensures accs == Accumulated(rows, opts, KeyOf)
  {
    accs := [];
    var i := 0;
    while i < |rows|
      invariant 0 <= i <= |rows|
      invariant accs == Accumulated(rows[..i], opts, KeyOf)
    {
      var r := rows[i];
      assert rows[..i + 1][..i] == rows[..i];
      if InRange(r, opts) {
        var key := KeyOf(r);
        var found := Find(accs, key);
        var entry := if found.Some? then accs[found.value] else Fresh(key);
        entry := Update(entry, r);
        if found.Some? {
          accs := accs[found.value := entry];
        } else {
          accs := accs + [entry];
        }
      }
      i := i + 1;
    }
    assert rows[..i] == rows;
  }

  /** What an entry holds for a lane whose loads are `ls`: the reference definition of the totals. */
  function LaneStats(ls: seq<LoadRow>, lane: string): Acc {
    var withMiles := Filter(ls, HasMiles);
    Acc(lane, |ls|, SumOf(ls, Fee), SumOf(ls, MilesTotal), SumOf(withMiles, Ratio), |withMiles|, LastDelivered(ls))
  }

  /** One more load on the lane is one `Update` of its entry. */
  lemma StatsSnoc(ls: seq<LoadRow>, lane: string, r: LoadRow)
    ensures LaneStats(ls + [r], lane) == Update(LaneStats(ls, lane), r)
  {
    assert (ls + [r])[..|ls|] == ls;
    WithMilesSnoc(ls, r);
  }

  /** One more load joins the loads with miles when it has some. */
  lemma WithMilesSnoc(ls: seq<LoadRow>, r: LoadRow)
    ensures var w, w' := Filter(ls, HasMiles), Filter(ls + [r], HasMiles);
      && |w'| == (if HasMiles(r) then |w| + 1 else |w|)
      && SumOf(w', Ratio) == (if HasMiles(r) then SumOf(w, Ratio) + Fee(r) / MilesTotal(r) else SumOf(w, Ratio))
  {
    FilterAppend(ls, [r], HasMiles);
    var f := Filter([r], HasMiles);
    assert f == if HasMiles(r) then [r] else [];
    var w := Filter(ls, HasMiles);
    if HasMiles(r) {
      assert (w + f)[..|w|] == w;
    } else {
      assert w + f == w;
    }
  }

  lemma FreshStats(lane: string)
    ensures Fresh(lane) == LaneStats([], lane)
  {
  }

  /** Appending a load adds it to its own lane's loads and to no other. */
  lemma LaneLoadsSnoc(included: seq<LoadRow>, keyOf: LoadRow -> string, key: string, r: LoadRow)
    ensures LaneLoads(included + [r], keyOf, key) == LaneLoads(included, keyOf, key) + if keyOf(r) == key then [r] else []
  {
    FilterAppend(included, [r], OnLane(keyOf, key));
    assert Filter([r], OnLane(keyOf, key)) == if keyOf(r) == key then [r] else [];
  }

  /**
   * The loop invariant of the grouping: each entry holds the totals of its lane's loads,
   * and every included load has an entry for its key.
   */
  ghost predicate Summarises(accs: seq<Acc>, included: seq<LoadRow>, keyOf: LoadRow -> string) {
    && (forall i :: 0 <= i < |accs| ==> accs[i] == LaneStats(LaneLoads(included, keyOf, accs[i].lane), accs[i].lane))
    && Covers(accs, included, keyOf)
  }

  ghost predicate Covers(accs: seq<Acc>, included: seq<LoadRow>, keyOf: LoadRow -> string) {
    forall j :: 0 <= j < |included| ==> exists i :: 0 <= i < |accs| && accs[i].lane == keyOf(included[j])
  }

  /** Entries that keep their lanes, and one for the new load's key, cover one more load. */
  lemma CoversSnoc(accs: seq<Acc>, accs': seq<Acc>, included: seq<LoadRow>, keyOf: LoadRow -> string, r: LoadRow, i: nat)
    requires Covers(accs, included, keyOf)
    requires |accs| <= |accs'| && forall j :: 0 <= j < |accs| ==> accs'[j].lane == accs[j].lane
    requires i < |accs'| && accs'[i].lane == keyOf(r)
    ensures Covers(accs', included + [r], keyOf)
  {
    var inc' := included + [r];
    forall k | 0 <= k < |inc'| ensures exists j :: 0 <= j < |accs'| && accs'[j].lane == keyOf(inc'[k]) {
      if k < |included| {
        assert inc'[k] == included[k];
        var j :| 0 <= j < |accs| && accs[j].lane == keyOf(included[k]);
        assert accs'[j].lane == accs[j].lane;
      } else {
        assert accs'[i].lane == keyOf(inc'[k]);
      }
    }
  }

  lemma RecordUpdates(accs: seq<Acc>, included: seq<LoadRow>, keyOf: LoadRow -> string, r: LoadRow, i: nat)
    requires WellFormed(accs) && Summarises(accs, included, keyOf)
    requires i < |accs| && accs[i].lane == keyOf(r)
    ensures Summarises(UpdateAt(accs, i, r), included + [r], keyOf)
  {
    var accs', inc' := UpdateAt(accs, i, r), included + [r];
    forall j | 0 <= j < |accs'|
      ensures accs'[j] == LaneStats(LaneLoads(inc', keyOf, accs'[j].lane), accs'[j].lane)
    {
      var lane := accs[j].lane;
      LaneLoadsSnoc(included, keyOf, lane, r);
      if j == i {
        StatsSnoc(LaneLoads(included, keyOf, lane), lane, r);
      } else {
        assert lane != keyOf(r);
        assert LaneLoads(included, keyOf, lane) + [] == LaneLoads(included, keyOf, lane);
      }
    }
    CoversSnoc(accs, accs', included, keyOf, r, i);
  }

  lemma RecordAppends(accs: seq<Acc>, included: seq<LoadRow>, keyOf: LoadRow -> string, r: LoadRow)
    requires WellFormed(accs) && Summarises(accs, included, keyOf)
    requires forall j :: 0 <= j < |accs| ==> accs[j].lane != keyOf(r)
    ensures Summarises(AppendNew(accs, keyOf(r), r), included + [r], keyOf)
  {
    var key := keyOf(r);
    var accs', inc' := AppendNew(accs, key, r), included + [r];
    forall j | 0 <= j < |accs'|
      ensures accs'[j] == LaneStats(LaneLoads(inc', keyOf, accs'[j].lane), accs'[j].lane)
    {
      var lane := accs'[j].lane;
      LaneLoadsSnoc(included, keyOf, lane, r);
      if j == |accs| {
        assert forall k :: 0 <= k < |included| ==> keyOf(included[k]) != key;
        FilterNone(included, OnLane(keyOf, key));
        assert [] + [r] == [r];
        StatsSnoc([], key, r);
      } else {
        assert accs'[j] == accs[j];
        assert LaneLoads(included, keyOf, lane) + [] == LaneLoads(included, keyOf, lane);
      }
    }
    CoversSnoc(accs, accs', included, keyOf, r, |accs|);
  }

  /** Recording an included load keeps the invariant. */
  lemma RecordSummarises(accs: seq<Acc>, included: seq<LoadRow>, keyOf: LoadRow -> string, r: LoadRow)
    requires WellFormed(accs) && Summarises(accs, included, keyOf)
    ensures Summarises(Record(accs, keyOf(r), r), included + [r], keyOf)
  {
    match Find(accs, keyOf(r))
    case Some(i) => RecordUpdates(accs, included, keyOf, r, i);
    case None => RecordAppends(accs, included, keyOf, r);
  }

  /** The last row: included or skipped, recorded or not. */
  lemma AccumulatedSnoc(rows: seq<LoadRow>, opts: Options, keyOf: LoadRow -> string)
    requires rows != []
    ensures var init, r := rows[..|rows| - 1], rows[|rows| - 1];
      && Included(rows, opts) == (if InRange(r, opts) then Included(init, opts) + [r] else Included(init, opts))
      && Accumulated(rows, opts, keyOf) == (if InRange(r, opts) then Record(Accumulated(init, opts, keyOf), keyOf(r), r) else Accumulated(init, opts, keyOf))
  {
    var init, r := rows[..|rows| - 1], rows[|rows| - 1];
    assert rows == init + [r];
    FilterAppend(init, [r], InRangeOf(opts));
    if InRange(r, opts) {
      assert Filter([r], InRangeOf(opts)) == [r];
    } else {
      assert Filter([r], InRangeOf(opts)) == [];
      assert Included(init, opts) + [] == Included(init, opts);
    }
  }

  /** After the loop, each entry holds the totals of its lane's included loads, and every included load has an entry. */
  lemma {:induction false} AccumulatedSummarises(rows: seq<LoadRow>, opts: Options, keyOf: LoadRow -> string)
    ensures Summarises(Accumulated(rows, opts, keyOf), Included(rows, opts), keyOf)
  {
    if rows != [] {
      var init, r := rows[..|rows| - 1], rows[|rows| - 1];
      AccumulatedSummarises(init, opts, keyOf);
      AccumulatedSnoc(rows, opts, keyOf);
      if InRange(r, opts) {
        RecordSummarises(Accumulated(init, opts, keyOf), Included(init, opts), keyOf, r);
      }
    }
  }

  function TotalRevenueOf(a: Acc): real { a.totalRevenue }

  function LoadsOf(a: Acc): real { a.loads as real }

  /** Recording a load adds one load and its fee to the totals over all entries. */
  lemma RecordTotals(accs: seq<Acc>, key: string, r: LoadRow)
    requires WellFormed(accs)
    ensures SumOf(Record(accs, key, r), TotalRevenueOf) == SumOf(accs, TotalRevenueOf) + Fee(r)
    ensures SumOf(Record(accs, key, r), LoadsOf) == SumOf(accs, LoadsOf) + 1.0
  {
    match Find(accs, key)
    case Some(i) =>
      SumOfUpdate(accs, i, Update(accs[i], r), TotalRevenueOf);
      SumOfUpdate(accs, i, Update(accs[i], r), LoadsOf);
    case None =>
      assert (accs + [Update(Fresh(key), r)])[..|accs|] == accs;
  }

  /** Over all entries the `Map` holds every included load once: its load count and its revenue. */
  lemma {:induction false} AccumulatedTotals(rows: seq<LoadRow>, opts: Options, keyOf: LoadRow -> string)
    ensures SumOf(Accumulated(rows, opts, keyOf), TotalRevenueOf) == SumOf(Included(rows, opts), Fee)
    ensures SumOf(Accumulated(rows, opts, keyOf), LoadsOf) == |Included(rows, opts)| as real
  {
    if rows != [] {
      var init, r := rows[..|rows| - 1], rows[|rows| - 1];
      AccumulatedTotals(init, opts, keyOf);
      AccumulatedSnoc(rows, opts, keyOf);
      if InRange(r, opts) {
        var inc := Included(init, opts);
        assert (inc + [r])[..|inc|] == inc;
        RecordTotals(Accumulated(init, opts, keyOf), keyOf(r), r);
      }
    }
  }

  /** The comparator `(a, b) => b.total_revenue - a.total_revenue`, as "`a` may come first". */
  predicate ByRevenue(a: Acc, b: Acc) {
    b.totalRevenue - a.totalRevenue <= 0.0
  }

  lemma ByRevenueConsistent()
    ensures TotalPreorder(ByRevenue)
  {
  }

  /** `fleet_revenue ? (a.total_revenue / fleet_revenue) * 100 : 0` */
  function Pct(a: Acc, fleet: real): real {
    if fleet != 0.0 then a.totalRevenue / fleet * 100.0 else 0.0
  }

  function PctOf(fleet: real): Acc -> real {
    a => Pct(a, fleet)
  }

  /** The value of `cum` after the entries `s`. */
  function CumPct(s: seq<Acc>, fleet: real): real {
    SumOf(s, PctOf(fleet))
  }

  /** The row the `map` callback returns for entry `a`, with `cum` already increased. */
  function LaneRowOf(a: Acc, fleet: real, cum: real): LaneRow
    requires a.lastMoved.Some?
  {
    LaneRow(a.lane, a.loads, a.totalRevenue,
      if a.loads != 0 then a.totalRevenue / a.loads as real else 0.0,
      if a.loads != 0 then a.milesSum / a.loads as real else 0.0,
      if a.rpmCount != 0 then a.rpmSum / a.rpmCount as real else 0.0,
      Pct(a, fleet), cum, a.lastMoved.value)
  }

  /** `arr.map(...)` with the running `cum`. */
  function RankedRows(arr: seq<Acc>, fleet: real): seq<LaneRow>
    requires forall i :: 0 <= i < |arr| ==> arr[i].lastMoved.Some?
  {
    seq(|arr|, i requires 0 <= i < |arr| => LaneRowOf(arr[i], fleet, CumPct(arr[..i + 1], fleet)))
  }

  /** The `map` pass of `buildLaneRows`, whose callback adds each lane's share to `cum`. */
  method Rank(arr: seq<Acc>, fleet: real) returns (out: seq<LaneRow>)
    requires forall i :: 0 <= i < |arr| ==> arr[i].lastMoved.Some?
    ensures out == RankedRows(arr, fleet)
  {
    var cum := 0.0;
    out := [];
    var i := 0;
    while i < |arr|
      invariant 0 <= i <= |arr|
      invariant cum == CumPct(arr[..i], fleet)
      invariant |out| == i
      invariant forall k :: 0 <= k < i ==> out[k] == LaneRowOf(arr[k], fleet, CumPct(arr[..k + 1], fleet))
    {
      var a := arr[i];
      var pct := if fleet != 0.0 then a.totalRevenue / fleet * 100.0 else 0.0;
      assert arr[..i + 1][..i] == arr[..i];
      cum := cum + pct;
      out := out + [LaneRowOf(a, fleet, cum)];
      i := i + 1;
    }
  }

  /** What `buildLaneRows` returns. */
  datatype LaneReport = LaneReport(rows: seq<LaneRow>, fleetRevenue: real)

  /** The entries in the order of the report. */
  function Ranking(rows: seq<LoadRow>, opts: Options, keyOf: LoadRow -> string): (arr: seq<Acc>)
    ensures WellFormed(arr)
  {
    var accs := Accumulated(rows, opts, keyOf);
    var arr := Sort(accs, ByRevenue);
    assert forall i :: 0 <= i < |arr| ==> arr[i] in multiset(accs);
    SortDistinct(accs, ByRevenue, LaneOf);
    arr
  }

  function LaneOf(a: Acc): string { a.lane }

  /**
   * The reference definition of the report: group by `keyOf`, total, sort by revenue, rank.
   * `buildLaneRows` groups by `KeyOf`; the properties below hold for any key function.
   */
  function LaneRows(rows: seq<LoadRow>, opts: Options, keyOf: LoadRow -> string): LaneReport {
    var accs := Accumulated(rows, opts, keyOf);
    var fleet := SumOf(accs, TotalRevenueOf);
    LaneReport(RankedRows(Ranking(rows, opts, keyOf), fleet), fleet)
  }

  /** `buildLaneRows(rows, opts, keyOf)` */
  method BuildLaneRows(rows: seq<LoadRow>, opts: Options) returns (report: LaneReport)
    ensures report == LaneRows(rows, opts, KeyOf)
  {
    var arr := Accumulate(rows, opts);
    var fleet := SumOf(arr, TotalRevenueOf);
    arr := Sort(arr, ByRevenue);
    assert arr == Ranking(rows, opts, KeyOf);
    var out := Rank(arr, fleet);
    report := LaneReport(out, fleet);
  }

  /** The revenue of the report is that of the included loads. */
  lemma FleetRevenueOfIncluded(rows: seq<LoadRow>, opts: Options, keyOf: LoadRow -> string)
    ensures LaneRows(rows, opts, keyOf).fleetRevenue == SumOf(Included(rows, opts), Fee)
  {
    AccumulatedTotals(rows, opts, keyOf);
  }

  /** Reordering the entries keeps the grouping invariant. */
  lemma SummarisesReordered(accs: seq<Acc>, arr: seq<Acc>, inc: seq<LoadRow>, keyOf: LoadRow -> string)
    requires Summarises(accs, inc, keyOf) && multiset(arr) == multiset(accs)
    ensures Summarises(arr, inc, keyOf)
  {
    forall i | 0 <= i < |arr| ensures arr[i] == LaneStats(LaneLoads(inc, keyOf, arr[i].lane), arr[i].lane) {
      assert arr[i] in multiset(accs);
      var k :| 0 <= k < |accs| && accs[k] == arr[i];
    }
    CoversReordered(accs, arr, inc, keyOf);
  }

  lemma CoversReordered(accs: seq<Acc>, arr: seq<Acc>, inc: seq<LoadRow>, keyOf: LoadRow -> string)
    requires Covers(accs, inc, keyOf) && multiset(arr) == multiset(accs)
    ensures Covers(arr, inc, keyOf)
  {
    forall j | 0 <= j < |inc| ensures exists i :: 0 <= i < |arr| && arr[i].lane == keyOf(inc[j]) {
      var k :| 0 <= k < |accs| && accs[k].lane == keyOf(inc[j]);
      assert accs[k] in multiset(arr);
      assert accs[k] in arr;
      var i :| 0 <= i < |arr| && arr[i] == accs[k];
      assert arr[i].lane == keyOf(inc[j]);
    }
    assert forall j :: 0 <= j < |inc| ==> exists i :: 0 <= i < |arr| && arr[i].lane == keyOf(inc[j]);
  }

  /** Sorting keeps the grouping invariant. */
  lemma RankingSummarises(rows: seq<LoadRow>, opts: Options, keyOf: LoadRow -> string)
    ensures Summarises(Ranking(rows, opts, keyOf), Included(rows, opts), keyOf)
  {
    AccumulatedSummarises(rows, opts, keyOf);
    SummarisesReordered(Accumulated(rows, opts, keyOf), Ranking(rows, opts, keyOf), Included(rows, opts), keyOf);
  }

  /** A row keeps its entry's lane and totals. */
  lemma RankedFields(arr: seq<Acc>, fleet: real)
    requires forall i :: 0 <= i < |arr| ==> arr[i].lastMoved.Some?
    ensures var out := RankedRows(arr, fleet);
      |out| == |arr| && forall i :: 0 <= i < |arr| ==> out[i].lane == arr[i].lane && out[i].totalRevenue == arr[i].totalRevenue
  {
  }

  function RowLoadsOf(row: LaneRow): real { row.loads as real }

  function RowRevenueOf(row: LaneRow): real { row.totalRevenue }

  /**
   * Over the report's rows the loads add up to the number of included loads, and the
   * revenues to the fleet revenue.
   */
  lemma LaneRowsTotals(rows: seq<LoadRow>, opts: Options, keyOf: LoadRow -> string)
    ensures var report := LaneRows(rows, opts, keyOf);
      && SumOf(report.rows, RowLoadsOf) == |Included(rows, opts)| as real
      && SumOf(report.rows, RowRevenueOf) == report.fleetRevenue
  {
    var accs := Accumulated(rows, opts, keyOf);
    var arr := Ranking(rows, opts, keyOf);
    var fleet := SumOf(accs, TotalRevenueOf);
    var out := RankedRows(arr, fleet);
    SumOfPointwise(out, arr, RowLoadsOf, LoadsOf);
    SumOfPointwise(out, arr, RowRevenueOf, TotalRevenueOf);
    SumOfSort(accs, ByRevenue, LoadsOf);
    SumOfSort(accs, ByRevenue, TotalRevenueOf);
    AccumulatedTotals(rows, opts, keyOf);
  }

  /**
   * Each row of the report describes one lane from its included loads: how many there are,
   * their revenue, the averages of revenue and miles per load, the average rate over the
   * loads with miles, and the latest delivery.
   */
  lemma LaneRowsDescribeLanes(rows: seq<LoadRow>, opts: Options, keyOf: LoadRow -> string, i: nat)
    requires i < |LaneRows(rows, opts, keyOf).rows|
    ensures var row := LaneRows(rows, opts, keyOf).rows[i];
      var ls := LaneLoads(Included(rows, opts), keyOf, row.lane);
      var withMiles := Filter(ls, HasMiles);
      && ls != []
      && row.loads == |ls|
      && row.totalRevenue == SumOf(ls, Fee)
      && row.avgRevenuePerLoad == SumOf(ls, Fee) / |ls| as real
      && row.avgTotalMilesPerLoad == SumOf(ls, MilesTotal) / |ls| as real
      && row.avgRpm == (if withMiles == [] then 0.0 else SumOf(withMiles, Ratio) / |withMiles| as real)
      && LastDelivered(ls) == Some(row.lastMoved)
  {
    RankingSummarises(rows, opts, keyOf);
    var arr := Ranking(rows, opts, keyOf);
    assert arr[i].loads >= 1;
  }

  /** Every included load is counted on the row of its own lane. */
  lemma LaneRowsCover(rows: seq<LoadRow>, opts: Options, keyOf: LoadRow -> string)
    ensures var out, inc := LaneRows(rows, opts, keyOf).rows, Included(rows, opts);
      forall j :: 0 <= j < |inc| ==> exists i :: 0 <= i < |out| && out[i].lane == keyOf(inc[j])
  {
    var out, inc, arr := LaneRows(rows, opts, keyOf).rows, Included(rows, opts), Ranking(rows, opts, keyOf);
    AccumulatedSummarises(rows, opts, keyOf);
    CoversReordered(Accumulated(rows, opts, keyOf), arr, inc, keyOf);
    RankedFields(arr, LaneRows(rows, opts, keyOf).fleetRevenue);
    forall j | 0 <= j < |inc| ensures exists i :: 0 <= i < |out| && out[i].lane == keyOf(inc[j]) {
      var i :| 0 <= i < |arr| && arr[i].lane == keyOf(inc[j]);
      assert out[i].lane == arr[i].lane;
    }
  }

  /** No lane has two rows. */
  lemma LaneRowsDistinct(rows: seq<LoadRow>, opts: Options, keyOf: LoadRow -> string)
    ensures var out := LaneRows(rows, opts, keyOf).rows;
      forall i, j :: 0 <= i < j < |out| ==> out[i].lane != out[j].lane
  {
    var arr := Ranking(rows, opts, keyOf);
    assert DistinctLanes(arr);
    RankedFields(arr, LaneRows(rows, opts, keyOf).fleetRevenue);
  }

  /** The rows come in order of revenue, highest first. */
  lemma LaneRowsByRevenue(rows: seq<LoadRow>, opts: Options, keyOf: LoadRow -> string)
    ensures var out := LaneRows(rows, opts, keyOf).rows;
      forall i, j :: 0 <= i < j < |out| ==> out[i].totalRevenue >= out[j].totalRevenue
  {
    var arr := Ranking(rows, opts, keyOf);
    ByRevenueConsistent();
    PreorderOnAll(Accumulated(rows, opts, keyOf), ByRevenue);
    SortSorted(Accumulated(rows, opts, keyOf), ByRevenue);
    assert SortedBy(arr, ByRevenue);
    RankedFields(arr, LaneRows(rows, opts, keyOf).fleetRevenue);
  }

  /** The cumulative share is the running sum of the shares, in order. */
  lemma RankedRunningShare(arr: seq<Acc>, fleet: real)
    requires forall i :: 0 <= i < |arr| ==> arr[i].lastMoved.Some?
    ensures var out := RankedRows(arr, fleet);
      && (|out| > 0 ==> out[0].cumPctOfFleetRevenue == out[0].pctOfFleetRevenue)
      && forall i :: 0 < i < |out| ==>
           out[i].cumPctOfFleetRevenue == out[i - 1].cumPctOfFleetRevenue + out[i].pctOfFleetRevenue
  {
    forall i | 0 <= i < |arr| ensures CumPct(arr[..i + 1], fleet) == CumPct(arr[..i], fleet) + Pct(arr[i], fleet) {
      assert arr[..i + 1][..i] == arr[..i];
    }
    if |arr| > 0 {
      assert arr[..0] == [];
    }
  }

  lemma LaneRowsRunningShare(rows: seq<LoadRow>, opts: Options, keyOf: LoadRow -> string)
    ensures var out := LaneRows(rows, opts, keyOf).rows;
      && (|out| > 0 ==> out[0].cumPctOfFleetRevenue == out[0].pctOfFleetRevenue)
      && forall i :: 0 < i < |out| ==>
           out[i].cumPctOfFleetRevenue == out[i - 1].cumPctOfFleetRevenue + out[i].pctOfFleetRevenue
  {
    RankedRunningShare(Ranking(rows, opts, keyOf), LaneRows(rows, opts, keyOf).fleetRevenue);
  }

  lemma ShareArithmetic(t: real, fleet: real)
    requires fleet != 0.0
    ensures t / fleet * 100.0 == t * (100.0 / fleet)
    ensures fleet * (100.0 / fleet) == 100.0
  {
  }

  /** In order, the cumulative share is the running revenue times `100 / fleet`, or 0 without a fleet revenue. */
  lemma CumPctScaled(arr: seq<Acc>, fleet: real, k: nat)
    requires k <= |arr|
    ensures fleet != 0.0 ==> CumPct(arr[..k], fleet) == SumOf(arr[..k], TotalRevenueOf) * (100.0 / fleet)
    ensures fleet == 0.0 ==> CumPct(arr[..k], fleet) == 0.0
  {
    var c := if fleet != 0.0 then 100.0 / fleet else 0.0;
    forall i | 0 <= i < |arr[..k]| ensures Pct(arr[..k][i], fleet) == TotalRevenueOf(arr[..k][i]) * c {
      if fleet != 0.0 {
        ShareArithmetic(arr[..k][i].totalRevenue, fleet);
      }
    }
    SumOfScaled(arr[..k], PctOf(fleet), TotalRevenueOf, c);
  }

  /** Without a fleet revenue every share and every cumulative share is 0. */
  lemma RankedNoRevenue(arr: seq<Acc>)
    requires forall i :: 0 <= i < |arr| ==> arr[i].lastMoved.Some?
    ensures var out := RankedRows(arr, 0.0);
      forall i :: 0 <= i < |out| ==> out[i].pctOfFleetRevenue == 0.0 && out[i].cumPctOfFleetRevenue == 0.0
  {
    var out := RankedRows(arr, 0.0);
    forall i | 0 <= i < |arr| ensures out[i].cumPctOfFleetRevenue == 0.0 {
      CumPctScaled(arr, 0.0, i + 1);
    }
  }

  /** Ranked entries whose revenues add up to a non-zero `fleet`: the cumulative shares end at exactly 100. */
  lemma RankedSharesTotal(arr: seq<Acc>, fleet: real)
    requires forall i :: 0 <= i < |arr| ==> arr[i].lastMoved.Some?
    requires fleet == SumOf(arr, TotalRevenueOf) && fleet != 0.0
    ensures var out := RankedRows(arr, fleet);
      && |out| > 0
      && out[|out| - 1].cumPctOfFleetRevenue == 100.0
      && forall i :: 0 <= i < |out| ==> out[i].pctOfFleetRevenue == out[i].totalRevenue / fleet * 100.0
  {
    assert |arr| > 0;
    CumPctScaled(arr, fleet, |arr|);
    assert arr[..|arr|] == arr;
    ShareArithmetic(fleet, fleet);
  }

  /**
   * The shares add up: with a fleet revenue the last cumulative share is exactly 100 and
   * each share is the lane's revenue over the fleet's; without one every share and every
   * cumulative share is 0.
   */
  lemma LaneRowsShares(rows: seq<LoadRow>, opts: Options, keyOf: LoadRow -> string)
    ensures var report := LaneRows(rows, opts, keyOf); var out, fleet := report.rows, report.fleetRevenue;
      && (fleet != 0.0 ==>
            && |out| > 0
            && out[|out| - 1].cumPctOfFleetRevenue == 100.0
            && forall i :: 0 <= i < |out| ==> out[i].pctOfFleetRevenue == out[i].totalRevenue / fleet * 100.0)
      && (fleet == 0.0 ==>
            forall i :: 0 <= i < |out| ==> out[i].pctOfFleetRevenue == 0.0 && out[i].cumPctOfFleetRevenue == 0.0)
  {
    var arr, fleet := Ranking(rows, opts, keyOf), LaneRows(rows, opts, keyOf).fleetRevenue;
    SumOfSort(Accumulated(rows, opts, keyOf), ByRevenue, TotalRevenueOf);
    if fleet == 0.0 {
      RankedNoRevenue(arr);
    } else {
      RankedSharesTotal(arr, fleet);
    }
  }

  /** Ranked entries with no negative revenue: shares are not negative, so the cumulative share never decreases. */
  lemma RankedSharesMonotone(arr: seq<Acc>, fleet: real)
    requires forall i :: 0 <= i < |arr| ==> arr[i].lastMoved.Some? && arr[i].totalRevenue >= 0.0
    requires fleet >= 0.0
    ensures var out := RankedRows(arr, fleet);
      && (forall i :: 0 <= i < |out| ==> out[i].pctOfFleetRevenue >= 0.0)
      && (forall i :: 0 < i < |out| ==> out[i - 1].cumPctOfFleetRevenue <= out[i].cumPctOfFleetRevenue)
  {
    forall i | 0 <= i < |arr| ensures Pct(arr[i], fleet) >= 0.0 {
      if fleet != 0.0 {
        ShareArithmetic(arr[i].totalRevenue, fleet);
      }
    }
    RankedRunningShare(arr, fleet);
  }

  /** And none exceeds the last, which is 100. */
  lemma RankedSharesAtMost100(arr: seq<Acc>, fleet: real)
    requires forall i :: 0 <= i < |arr| ==> arr[i].lastMoved.Some? && arr[i].totalRevenue >= 0.0
    requires fleet == SumOf(arr, TotalRevenueOf) && fleet != 0.0
    ensures var out := RankedRows(arr, fleet);
      forall i :: 0 <= i < |out| ==> out[i].cumPctOfFleetRevenue <= 100.0
  {
    SumOfNonNegative(arr, TotalRevenueOf);
    forall i | 0 <= i < |arr| ensures PctOf(fleet)(arr[i]) >= 0.0 {
      ShareArithmetic(arr[i].totalRevenue, fleet);
    }
    RankedSharesTotal(arr, fleet);
    assert arr[..|arr|] == arr;
    var out := RankedRows(arr, fleet);
    forall i | 0 <= i < |arr| ensures out[i].cumPctOfFleetRevenue <= 100.0 {
      SumOfPrefix(arr, i + 1, PctOf(fleet));
    }
  }

  /**
   * With no negative fee, shares are not negative, the cumulative share never decreases,
   * and with a fleet revenue it never exceeds 100.
   */
  lemma LaneRowsSharesBounded(rows: seq<LoadRow>, opts: Options, keyOf: LoadRow -> string)
    requires forall i :: 0 <= i < |rows| ==> Fee(rows[i]) >= 0.0
    ensures var report := LaneRows(rows, opts, keyOf); var out, fleet := report.rows, report.fleetRevenue;
      && (forall i :: 0 <= i < |out| ==> out[i].pctOfFleetRevenue >= 0.0)
      && (forall i :: 0 < i < |out| ==> out[i - 1].cumPctOfFleetRevenue <= out[i].cumPctOfFleetRevenue)
      && (fleet != 0.0 ==> forall i :: 0 <= i < |out| ==> out[i].cumPctOfFleetRevenue <= 100.0)
  {
    var arr, inc := Ranking(rows, opts, keyOf), Included(rows, opts);
    RankingSummarises(rows, opts, keyOf);
    forall i | 0 <= i < |arr| ensures arr[i].totalRevenue >= 0.0 {
      var ls := LaneLoads(inc, keyOf, arr[i].lane);
      forall j | 0 <= j < |ls| ensures Fee(ls[j]) >= 0.0 {
        assert ls[j] in inc;
        assert ls[j] in rows;
      }
      SumOfNonNegative(ls, Fee);
    }
    var fleet := LaneRows(rows, opts, keyOf).fleetRevenue;
    SumOfSort(Accumulated(rows, opts, keyOf), ByRevenue, TotalRevenueOf);
    SumOfNonNegative(arr, TotalRevenueOf);
    RankedSharesMonotone(arr, fleet);
    if fleet != 0.0 {
      RankedSharesAtMost100(arr, fleet);
    }
  }
}
