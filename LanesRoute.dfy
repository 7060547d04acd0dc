/**
 * The parameter checks and response shaping of the lanes endpoint (server/routes/lanes.ts):
 * `GET /` either answers 400 with an error message or turns its query into the filters and
 * the positional parameters of the lane query; the rows the database returns are passed on
 * without their `fleet_revenue` column, which is reported once beside them.
 */
module LanesRoute {
  import opened Wrappers
  import opened Js

  /** A query-string parameter as the request parser gives it: absent, given once, or repeated. */
  datatype Param = Absent | One(s: string) | Many(items: seq<string>)

  /** The parameters the handler reads. `None` is a parameter that was not sent. */
  datatype Query = Query(basis: Option<string>, start: Option<string>, end: Option<string>, driversBracket: Param, drivers: Param)

  datatype Basis = Revenue | Loads

  const StartEndRequired: string := "start and end are required"
  const BasisInvalid: string := "basis must be revenue or loads"
  const DateInvalid: string := "invalid start or end date"
  const DriversNotNumeric: string := "drivers must be numeric"

  /** A positional parameter of the query: `$1` and `$2` are text, `$3` an array of ids. */
  datatype SqlValue = Text(s: string) | Ids(ids: seq<real>)

  /** The filters echoed in the response. */
  datatype Filters = Filters(basis: Basis, start: string, end: string, drivers: seq<real>)

  /** What the checks hand to the database: the filters, the parameter list and the driver clause. */
  datatype Plan = Plan(filters: Filters, values: seq<SqlValue>, driverClause: string)

  /** A query parameter is truthy unless absent or empty; a repeated one is an array, always truthy. */
  predicate ParamTruthy(p: Param) {
    match p
    case Absent => false
    case One(s) => s != ""
    case Many(_) => true
  }

  /** `req.query['drivers[]'] || req.query.drivers` */
  function DriversParam(q: Query): Param {
    if ParamTruthy(q.driversBracket) then q.driversBracket else q.drivers
  }

  /** The list the loop walks: nothing for a falsy value, a single value wrapped in an array. */
  function DriverItems(p: Param): (items: seq<string>)
    ensures !ParamTruthy(p) ==> items == []
    ensures p.One? && p.s != "" ==> items == [p.s]
    ensures p.Many? ==> items == p.items
  {
    if !ParamTruthy(p) then []
    else match p
      case One(s) => [s]
      case Many(items) => items
  }

  /** `start` and `end` are truthy strings. */
  predicate Given(o: Option<string>) {
    o.Some? && o.value != ""
  }

  /** `basis` after its default. */
  function BasisText(q: Query): string {
    q.basis.GetOr("revenue")
  }

  function BasisOf(text: string): Option<Basis> {
    if text == "revenue" then Some(Revenue) else if text == "loads" then Some(Loads) else None
  }

  /** The decimal digits of `n`, for the `$n` placeholder. */
  function Digits(n: nat): (r: string)
    ensures |r| >= 1 && forall k :: 0 <= k < |r| ==> '0' <= r[k] <= '9'
  {
    var d := ['0' + (n % 10) as char];
    if n < 10 then d else Digits(n / 10) + d
  }

  /** `AND driver_id = ANY($n)` */
  function DriverClause(n: nat): string {
    "AND driver_id = ANY($" + Digits(n) + ")"
  }

  /** The checks before the driver list pass. */
  predicate HeaderValid(q: Query, parse: string -> Option<int>) {
    && Given(q.start) && Given(q.end)
    && BasisOf(BasisText(q)).Some?
    && parse(q.start.value).Some? && parse(q.end.value).Some?
  }

  /**
   * The handler's checks, in the order it makes them: `start` and `end`, `basis`, the two
   * dates, each driver. `parse` is `new Date(s)` (`None` for NaN) and `stringToNumber` is
   * `Number(s)`.
   */
  method Validate(q: Query, parse: string -> Option<int>, stringToNumber: string -> Number) returns (r: Result<Plan, string>)
    ensures r == Err(StartEndRequired) <==> !Given(q.start) || !Given(q.end)
    ensures r == Err(BasisInvalid) <==> Given(q.start) && Given(q.end) && BasisOf(BasisText(q)).None?
    ensures r == Err(DateInvalid) <==>
      Given(q.start) && Given(q.end) && BasisOf(BasisText(q)).Some? && (parse(q.start.value).None? || parse(q.end.value).None?)
    ensures r == Err(DriversNotNumeric) <==>
      HeaderValid(q, parse) && exists i :: 0 <= i < |DriverItems(DriversParam(q))| && stringToNumber(DriverItems(DriversParam(q))[i]).NaN?
    ensures r.Ok? <==>
      HeaderValid(q, parse) && forall i :: 0 <= i < |DriverItems(DriversParam(q))| ==> stringToNumber(DriverItems(DriversParam(q))[i]).Finite?
    ensures r.Ok? ==>
      var items, f := DriverItems(DriversParam(q)), r.value.filters;
      && f.basis == BasisOf(BasisText(q)).value && f.start == q.start.value && f.end == q.end.value
      && |f.drivers| == |items|
      && (forall i :: 0 <= i < |items| ==> stringToNumber(items[i]) == Finite(f.drivers[i]))
      && r.value.values == [Text(f.start), Text(f.end)] + (if f.drivers != [] then [Ids(f.drivers)] else [])
      && r.value.driverClause == (if f.drivers != [] then DriverClause(3) else "")
  {
    if !Given(q.start) || !Given(q.end) {
      return Err(StartEndRequired);
    }
    var basis := BasisOf(BasisText(q));
    if basis.None? {
      return Err(BasisInvalid);
    }
    var start, end := q.start.value, q.end.value;
    if parse(start).None? || parse(end).None? {
      return Err(DateInvalid);
    }
    var items := DriverItems(DriversParam(q));
    var ids: seq<real> := [];
    var i := 0;
    while i < |items|
      invariant 0 <= i <= |items| && |ids| == i
      invariant forall k :: 0 <= k < i ==> stringToNumber(items[k]) == Finite(ids[k])
    {
      var id := stringToNumber(items[i]);
      if id.NaN? {
        return Err(DriversNotNumeric);
      }
      ids := ids + [id.x];
      i := i + 1;
    }
    var values := [Text(start), Text(end)];
    var clause := "";
    if |ids| > 0 {
      values := values + [Ids(ids)];
      clause := DriverClause(|values|);
    }
    return Ok(Plan(Filters(basis.value, start, end, ids), values, clause));
  }

  /** The driver clause names the third parameter. */
  lemma DriverClauseText()
    ensures DriverClause(3) == "AND driver_id = ANY($3)"
  {
  }

  /** An absent or empty `basis` differ: the default applies only to an absent one. */
  lemma BasisDefault(q: Query)
    ensures q.basis.None? ==> BasisOf(BasisText(q)) == Some(Revenue)
    ensures q.basis == Some("") ==> BasisOf(BasisText(q)).None?
  {
  }

  /** `drivers[]` wins when it is given; a single `drivers` value is a one-element list. */
  lemma DriversPrecedence(q: Query)
    ensures ParamTruthy(q.driversBracket) ==> DriverItems(DriversParam(q)) == DriverItems(q.driversBracket)
    ensures !ParamTruthy(q.driversBracket) && q.drivers.One? && q.drivers.s != "" ==> DriverItems(DriversParam(q)) == [q.drivers.s]
  {
  }

  /** The response body. */
  datatype Response = Response(filters: Filters, rows: seq<Row>, fleetRevenue: Value)

  const FleetRevenue: string := "fleet_revenue"

  /** `({ fleet_revenue, ...row }) => row` */
  function Strip(row: Row): (r: Row)
    ensures FleetRevenue !in r
    ensures forall k :: k != FleetRevenue ==> (k in r <==> k in row) && (k in row ==> r[k] == row[k])
  {
    row - {FleetRevenue}
  }

  /** The first row's `fleet_revenue`, or 0 without rows; every row without that column. */
  function Respond(filters: Filters, result: seq<Row>): (resp: Response)
    ensures resp.filters == filters && |resp.rows| == |result|
    ensures forall i :: 0 <= i < |result| ==> resp.rows[i] == Strip(result[i])
    ensures result == [] ==> resp.fleetRevenue == Num(Finite(0.0))
    ensures result != [] ==> resp.fleetRevenue == Get(result[0], FleetRevenue)
  {
    var rows := seq(|result|, i requires 0 <= i < |result| => Strip(result[i]));
    Response(filters, rows, if |result| > 0 then Get(result[0], FleetRevenue) else Num(Finite(0.0)))
  }

  /** Shaping a response's rows again changes nothing, and then finds no fleet revenue in them. */
  lemma RespondStripped(filters: Filters, result: seq<Row>)
    ensures var rows := Respond(filters, result).rows;
      Respond(filters, rows).rows == rows && (rows != [] ==> Respond(filters, rows).fleetRevenue == Undefined)
  {
    var rows := Respond(filters, result).rows;
    forall i | 0 <= i < |rows| ensures Strip(rows[i]) == rows[i] {
      assert FleetRevenue !in rows[i];
    }
  }
}
