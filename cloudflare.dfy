/**
 * The Cloudflare analytics store: recognising a GraphQL-shaped dashboard
 * body, flattening its adaptive groups into a REST-style timeseries with
 * totals, the getters that read the totals and the chart series, and the
 * store state after `fetchDashboard` has received its response.
 */
module Cloudflare {
  import opened Wrappers
  import opened Text
  import opened Js

  /** `raw?.data?.viewer?.zones`. */
  function Zones(raw: Json): Json {
    Get(Get(Get(raw, "data"), "viewer"), "zones")
  }

  /** `isGraphQLResponse(raw)`. */
  predicate IsGraphQLResponse(raw: Json) {
    Zones(raw).Arr?
  }

  /** `zones?.[0]?.httpRequestsAdaptiveGroups ?? []`: only the first zone is read. */
  function Groups(raw: Json): Json {
    var zones := Zones(raw);
    var first := if zones.Arr? && |zones.elems| > 0 then zones.elems[0] else Null;
    Get(first, "httpRequestsAdaptiveGroups").Or(Arr([]))
  }

  /**
   * Whether `xs.map(x => x.k ...)` runs without a TypeError: `xs` is an array
   * and none of its elements is null or undefined.
   */
  predicate Mappable(xs: Json) {
    xs.Arr? && forall i :: 0 <= i < |xs.elems| ==> !xs.elems[i].Null?
  }

  /** `g.dimensions?.datetimeHour ?? ''`. */
  function Hour(g: Json): Json {
    Get(Get(g, "dimensions"), "datetimeHour").Or(Str(""))
  }

  /** `g.count ?? 0`. */
  function Count(g: Json): Json {
    Get(g, "count").Or(Num(0))
  }

  /** `g.sum?.edgeResponseBytes ?? 0`. */
  function Bytes(g: Json): Json {
    Get(Get(g, "sum"), "edgeResponseBytes").Or(Num(0))
  }

  /** `g.sum?.visits ?? 0`. */
  function Visits(g: Json): Json {
    Get(Get(g, "sum"), "visits").Or(Num(0))
  }

  /** `{ all: v }`. */
  function Measure(v: Json): Json {
    Obj(map["all" := v])
  }

  /** The timeseries point one adaptive group becomes. */
  function GroupPoint(g: Json): Json {
    Obj(map[
      "since" := Hour(g),
      "until" := Hour(g),
      "requests" := Measure(Count(g)),
      "bandwidth" := Measure(Bytes(g)),
      "threats" := Measure(Num(0)),
      "pageviews" := Measure(Count(g)),
      "uniques" := Measure(Visits(g))])
  }

  function Points(gs: seq<Json>): (r: seq<Json>)
    ensures |r| == |gs|
  {
    seq(|gs|, i requires 0 <= i < |gs| => GroupPoint(gs[i]))
  }

  /** A value `acc + v` adds to a numeric running total as a number: a number or a boolean. */
  predicate Summable(v: Json) {
    v.Num? || v.Bool?
  }

  /** What `acc + v` adds to a numeric running total; strings, arrays and objects are not summed here. */
  function Addend(v: Json): int {
    match v
    case Num(n) => n
    case Bool(b) => if b then 1 else 0
    case _ => 0
  }

  /** `gs.reduce((acc, g) => acc + f(g), acc)`. */
  function Reduce(gs: seq<Json>, f: Json -> Json, acc: int): int {
    if gs == [] then acc else Reduce(gs[1..], f, acc + Addend(f(gs[0])))
  }

  /** The totals point: the per-group counts, bytes and visits summed, no threats. */
  function Totals(gs: seq<Json>): Json {
    var requests := Measure(Num(Reduce(gs, Count, 0)));
    Obj(map[
      "since" := Str(""),
      "until" := Str(""),
      "requests" := requests,
      "bandwidth" := Measure(Num(Reduce(gs, Bytes, 0))),
      "threats" := Measure(Num(0)),
      "pageviews" := requests,
      "uniques" := Measure(Num(Reduce(gs, Visits, 0)))])
  }

  /** `{ result: { timeseries, totals } }`. */
  function Dashboard(timeseries: seq<Json>, totals: Json): Json {
    Obj(map["result" := Obj(map["timeseries" := Arr(timeseries), "totals" := totals])])
  }

  /**
   * `normalizeGraphQLResponse(raw)`, or `None` for the TypeError `groups.map`
   * throws when the groups are not an array or one of them is null.
   */
  function NormalizeGraphQLResponse(raw: Json): Option<Json> {
    var groups := Groups(raw);
    if Mappable(groups) then Some(Dashboard(Points(groups.elems), Totals(groups.elems))) else None
  }

  /** The five measures a point carries. */
  datatype Metric = Requests | Bandwidth | Threats | Pageviews | Uniques

  function MetricKey(m: Metric): string {
    match m
    case Requests => "requests"
    case Bandwidth => "bandwidth"
    case Threats => "threats"
    case Pageviews => "pageviews"
    case Uniques => "uniques"
  }

  /**
   * `getRequestsTotal(point)` and its four siblings: 0 when the point or its
   * measure is absent (or falsy), the measure's `all` when that is a number,
   * `Number(all) || 0` when the measure merely has an `all` member, else 0.
   */
  function MetricTotal(point: Json, m: Metric): int {
    var r := Get(point, MetricKey(m));
    if !Truthy(r) then 0
    else if Get(r, "all").Num? then Get(r, "all").n
    else if HasField(r, "all") then NumberOrZero(r.fields["all"])
    else 0
  }

  /** Absent measures count 0, numeric `all` values count as themselves, and `all` written as a decimal string counts its value. */
  lemma MetricTotalCases(point: Json, m: Metric, n: int)
    ensures Get(point, MetricKey(m)).Null? ==> MetricTotal(point, m) == 0
    ensures !HasField(Get(point, MetricKey(m)), "all") ==> MetricTotal(point, m) == 0
    ensures Get(Get(point, MetricKey(m)), "all") == Num(n) ==> MetricTotal(point, m) == n
    ensures Get(Get(point, MetricKey(m)), "all") == Str(IntToString(n)) ==> MetricTotal(point, m) == n
  {
    NumberOfIntString(n);
  }

  /** `state.data?.result?.timeseries ?? []`. */
  function Timeseries(data: Json): Json {
    Get(Get(data, "result"), "timeseries").Or(Arr([]))
  }

  /** `state.data?.result?.totals`. */
  function TotalsOf(data: Json): Json {
    Get(Get(data, "result"), "totals")
  }

  /** One entry of the chart series. */
  datatype ChartPoint = ChartPoint(date: Json, requests: int, bandwidth: int)

  /** The chart entry for a timeseries point: dated `until`, else `since`, else `''`. */
  function ChartPointOf(p: Json): ChartPoint {
    ChartPoint(Get(p, "until").Or(Get(p, "since")).Or(Str("")), MetricTotal(p, Requests), MetricTotal(p, Bandwidth))
  }

  /** `ts.map(...)` over the points. */
  function ChartOf(ps: seq<Json>): (r: seq<ChartPoint>)
    ensures |r| == |ps|
  {
    seq(|ps|, i requires 0 <= i < |ps| => ChartPointOf(ps[i]))
  }

  /**
   * The `chartData` getter, or `None` for the TypeError `ts.map` throws when the
   * stored timeseries is not an array or holds a null point.
   */
  function ChartData(data: Json): Option<seq<ChartPoint>> {
    var ts := Timeseries(data);
    if Mappable(ts) then Some(ChartOf(ts.elems)) else None
  }

  /** The requests of a chart series, added up. */
  function ChartRequests(cs: seq<ChartPoint>): int {
    if cs == [] then 0 else cs[0].requests + ChartRequests(cs[1..])
  }

  /** The bandwidth of a chart series, added up. */
  function ChartBandwidth(cs: seq<ChartPoint>): int {
    if cs == [] then 0 else cs[0].bandwidth + ChartBandwidth(cs[1..])
  }

  /** The chart has one entry per timeseries point, in order, dated and measured as the point says. */
  lemma ChartFollowsTimeseries(data: Json)
    requires Mappable(Timeseries(data))
    ensures ChartData(data).Some? && |ChartData(data).value| == |Timeseries(data).elems|
    ensures forall i :: 0 <= i < |Timeseries(data).elems| ==>
      var p := Timeseries(data).elems[i];
      && ChartData(data).value[i].requests == MetricTotal(p, Requests)
      && ChartData(data).value[i].bandwidth == MetricTotal(p, Bandwidth)
      && (!Get(p, "until").Null? ==> ChartData(data).value[i].date == Get(p, "until"))
      && (Get(p, "until").Null? && !Get(p, "since").Null? ==> ChartData(data).value[i].date == Get(p, "since"))
      && (Get(p, "until").Null? && Get(p, "since").Null? ==> ChartData(data).value[i].date == Str(""))
  {
  }

  /** A GraphQL-shaped body is an object, so the `raw &&` guard in front of the shape test never decides anything. */
  lemma GraphQLBodyIsObject(raw: Json)
    requires IsGraphQLResponse(raw)
    ensures raw.Obj? && Truthy(raw)
  {
  }

  /** The body of a GraphQL response holding the given zones. */
  function ZonesBody(zones: seq<Json>): Json {
    Obj(map["data" := Obj(map["viewer" := Obj(map["zones" := Arr(zones)])])])
  }

  /** Zones after the first one are ignored. */
  lemma FirstZoneOnly(z: Json, rest: seq<Json>)
    ensures NormalizeGraphQLResponse(ZonesBody([z] + rest)) == NormalizeGraphQLResponse(ZonesBody([z]))
  {
    assert Zones(ZonesBody([z] + rest)).elems[0] == z;
  }

  /** Without zones, or without groups, there is nothing to report: no points and zero totals. */
  lemma NoGroupsNoTraffic(raw: Json, m: Metric)
    requires Zones(raw).Arr?
    requires |Zones(raw).elems| > 0 ==>
      Get(Zones(raw).elems[0], "httpRequestsAdaptiveGroups").Null? || Get(Zones(raw).elems[0], "httpRequestsAdaptiveGroups") == Arr([])
    ensures NormalizeGraphQLResponse(raw).Some?
    ensures Timeseries(NormalizeGraphQLResponse(raw).value) == Arr([])
    ensures MetricTotal(TotalsOf(NormalizeGraphQLResponse(raw).value), m) == 0
  {
    assert Groups(raw) == Arr([]);
  }

  /** The sum of one measure over a list of points. */
  function PointsSum(ps: seq<Json>, m: Metric): int {
    if ps == [] then 0 else MetricTotal(ps[0], m) + PointsSum(ps[1..], m)
  }

  /** `g => ({ all: 0 })`'s member: threats are never reported. */
  function NoThreats(g: Json): Json {
    Num(0)
  }

  /** The group member a point's measure is taken from. */
  function SourceOf(m: Metric): Json -> Json {
    match m
    case Requests => Count
    case Pageviews => Count
    case Bandwidth => Bytes
    case Uniques => Visits
    case Threats => NoThreats
  }

  function Source(m: Metric, g: Json): Json {
    SourceOf(m)(g)
  }

  /** A group whose count, bytes and visits are numbers (or booleans, or absent). */
  predicate SummableGroup(g: Json) {
    Summable(Count(g)) && Summable(Bytes(g)) && Summable(Visits(g))
  }

  /** A point read back through its getter gives the group member it was built from. */
  lemma GroupPointTotal(g: Json, m: Metric)
    requires SummableGroup(g)
    ensures MetricTotal(GroupPoint(g), m) == Addend(Source(m, g))
  {
    var p := GroupPoint(g);
    assert Get(p, MetricKey(m)) == Measure(Source(m, g));
    if Source(m, g).Bool? {
      assert NumberOrZero(Source(m, g)) == Addend(Source(m, g));
    }
  }

  /** A point is dated by its group's hour, both at `since` and at `until`. */
  lemma GroupPointDates(g: Json)
    ensures Get(GroupPoint(g), "since") == Hour(g) && Get(GroupPoint(g), "until") == Hour(g)
  {
  }

  /** Folding a member over the groups from `acc` adds the measures of their points to `acc`. */
  lemma {:induction false} ReduceIsPointsSum(gs: seq<Json>, ps: seq<Json>, m: Metric, f: Json -> Json, acc: int)
    requires |ps| == |gs|
    requires forall i :: 0 <= i < |gs| ==> MetricTotal(ps[i], m) == Addend(f(gs[i]))
    ensures Reduce(gs, f, acc) == acc + PointsSum(ps, m)
  {
    if gs != [] {
      ReduceIsPointsSum(gs[1..], ps[1..], m, f, acc + Addend(f(gs[0])));
    }
  }

  /** The groups of a response that normalises without error and whose members all sum as numbers. */
  predicate SummableGroups(raw: Json) {
    Mappable(Groups(raw)) && forall i :: 0 <= i < |Groups(raw).elems| ==> SummableGroup(Groups(raw).elems[i])
  }

  /**
   * A normalised response has one point per group of the first zone, in
   * order; each has `since == until ==` the group's hour, and each of its
   * measures is the group member it is taken from.
   */
  lemma PointsFollowGroups(raw: Json)
    requires SummableGroups(raw)
    ensures NormalizeGraphQLResponse(raw).Some?
    ensures Timeseries(NormalizeGraphQLResponse(raw).value) == Arr(Points(Groups(raw).elems))
    ensures forall i :: 0 <= i < |Groups(raw).elems| ==>
      && Get(Points(Groups(raw).elems)[i], "since") == Hour(Groups(raw).elems[i])
      && Get(Points(Groups(raw).elems)[i], "until") == Hour(Groups(raw).elems[i])
    ensures forall i, m :: 0 <= i < |Groups(raw).elems| ==>
      MetricTotal(Points(Groups(raw).elems)[i], m) == Addend(Source(m, Groups(raw).elems[i]))
  {
    var gs := Groups(raw).elems;
    forall i, m | 0 <= i < |gs| ensures MetricTotal(Points(gs)[i], m) == Addend(Source(m, gs[i])) {
      GroupPointTotal(gs[i], m);
    }
    forall i | 0 <= i < |gs|
      ensures Get(Points(gs)[i], "since") == Hour(gs[i]) && Get(Points(gs)[i], "until") == Hour(gs[i])
    {
      GroupPointDates(gs[i]);
    }
  }

  /** A point carries the same `requests` and `pageviews` measure and a zero `threats` one, whatever the group holds. */
  lemma GroupPointMirrors(g: Json)
    ensures MetricTotal(GroupPoint(g), Pageviews) == MetricTotal(GroupPoint(g), Requests)
    ensures MetricTotal(GroupPoint(g), Threats) == 0
  {
    var p := GroupPoint(g);
    assert Get(p, "pageviews") == Get(p, "requests") == Measure(Count(g));
    assert Get(p, "threats") == Measure(Num(0));
  }

  lemma TotalsMirror(gs: seq<Json>)
    ensures MetricTotal(Totals(gs), Pageviews) == MetricTotal(Totals(gs), Requests)
    ensures MetricTotal(Totals(gs), Threats) == 0
  {
    TotalsMeasure(gs, Pageviews);
    TotalsMeasure(gs, Requests);
    TotalsMeasure(gs, Threats);
  }

  /** Page views mirror requests and threats are zero, in every point and in the totals. */
  lemma PageviewsMirrorRequests(raw: Json)
    requires Mappable(Groups(raw))
    ensures NormalizeGraphQLResponse(raw).Some?
    ensures forall i :: 0 <= i < |Groups(raw).elems| ==>
      && MetricTotal(Points(Groups(raw).elems)[i], Pageviews) == MetricTotal(Points(Groups(raw).elems)[i], Requests)
      && MetricTotal(Points(Groups(raw).elems)[i], Threats) == 0
    ensures MetricTotal(TotalsOf(NormalizeGraphQLResponse(raw).value), Pageviews)
         == MetricTotal(TotalsOf(NormalizeGraphQLResponse(raw).value), Requests)
    ensures MetricTotal(TotalsOf(NormalizeGraphQLResponse(raw).value), Threats) == 0
  {
    var gs := Groups(raw).elems;
    forall i | 0 <= i < |gs|
      ensures MetricTotal(Points(gs)[i], Pageviews) == MetricTotal(Points(gs)[i], Requests)
      ensures MetricTotal(Points(gs)[i], Threats) == 0
    {
      GroupPointMirrors(gs[i]);
    }
    assert TotalsOf(NormalizeGraphQLResponse(raw).value) == Totals(gs);
    TotalsMirror(gs);
  }

  /** Folding the zero member gives zero. */
  lemma {:induction false} ReduceNoThreats(gs: seq<Json>, acc: int)
    ensures Reduce(gs, NoThreats, acc) == acc
  {
    if gs != [] {
      ReduceNoThreats(gs[1..], acc);
    }
  }

  /** The totals point reports, for each measure, the fold of its member over the groups. */
  lemma TotalsMeasure(gs: seq<Json>, m: Metric)
    ensures MetricTotal(Totals(gs), m) == Reduce(gs, SourceOf(m), 0)
  {
    var t := Totals(gs);
    match m {
      case Requests =>
        assert Get(t, "requests") == Measure(Num(Reduce(gs, Count, 0)));
      case Pageviews =>
        assert Get(t, "pageviews") == Measure(Num(Reduce(gs, Count, 0)));
      case Bandwidth =>
        assert Get(t, "bandwidth") == Measure(Num(Reduce(gs, Bytes, 0)));
      case Uniques =>
        assert Get(t, "uniques") == Measure(Num(Reduce(gs, Visits, 0)));
      case Threats =>
        ReduceNoThreats(gs, 0);
        assert Get(t, "threats") == Measure(Num(0));
    }
  }

  /**
   * Every total of a normalised response is the sum of that measure over its
   * points: requests and page views the summed counts, bandwidth the summed
   * bytes, uniques the summed visits, threats zero.
   */
  lemma TotalsAreSums(raw: Json, m: Metric)
    requires SummableGroups(raw)
    ensures NormalizeGraphQLResponse(raw).Some?
    ensures MetricTotal(TotalsOf(NormalizeGraphQLResponse(raw).value), m)
         == PointsSum(Timeseries(NormalizeGraphQLResponse(raw).value).elems, m)
  {
    var gs := Groups(raw).elems;
    var ps := Points(gs);
    var d := NormalizeGraphQLResponse(raw).value;
    assert Timeseries(d).elems == ps && TotalsOf(d) == Totals(gs);
    forall i | 0 <= i < |gs| ensures MetricTotal(ps[i], m) == Addend(SourceOf(m)(gs[i])) {
      GroupPointTotal(gs[i], m);
    }
    ReduceIsPointsSum(gs, ps, m, SourceOf(m), 0);
    TotalsMeasure(gs, m);
  }
  /** The chart's requests and bandwidth, added up, are the points' sums of those measures. */
  lemma {:induction false} ChartSumsArePointsSums(ps: seq<Json>)
    ensures ChartRequests(ChartOf(ps)) == PointsSum(ps, Requests)
    ensures ChartBandwidth(ChartOf(ps)) == PointsSum(ps, Bandwidth)
  {
    if ps != [] {
      assert ChartOf(ps)[1..] == ChartOf(ps[1..]);
      ChartSumsArePointsSums(ps[1..]);
    }
  }

  /**
   * The chart agrees with the totals: for a normalised response, the chart
   * entries' requests add up to the requests total and their bandwidth to
   * the bandwidth total.
   */
  lemma ChartAddsUpToTotals(raw: Json)
    requires SummableGroups(raw)
    ensures NormalizeGraphQLResponse(raw).Some?
    ensures ChartData(NormalizeGraphQLResponse(raw).value).Some?
    ensures ChartRequests(ChartData(NormalizeGraphQLResponse(raw).value).value)
         == MetricTotal(TotalsOf(NormalizeGraphQLResponse(raw).value), Requests)
    ensures ChartBandwidth(ChartData(NormalizeGraphQLResponse(raw).value).value)
         == MetricTotal(TotalsOf(NormalizeGraphQLResponse(raw).value), Bandwidth)
  {
    var d := NormalizeGraphQLResponse(raw).value;
    var ps := Points(Groups(raw).elems);
    assert Timeseries(d) == Arr(ps);
    assert Mappable(Timeseries(d));
    ChartSumsArePointsSums(ps);
    TotalsAreSums(raw, Requests);
    TotalsAreSums(raw, Bandwidth);
  }


  /** What `axios.get` settled with: the parsed body, or a rejection with the response body (if any) and the error's message. */
  datatype AxiosOutcome =
    | Received(body: Json)
    | Rejected(responseData: Json, message: Option<string>)

  const DashboardFailed: string := "Failed to load Cloudflare analytics"

  /**
   * The error `fetchDashboard` keeps for a rejection: a string response body
   * itself, else the body's `message`, else the error's own message, else a
   * fixed text.
   */
  function DashboardError(responseData: Json, message: Option<string>): string {
    if responseData.Str? then responseData.s
    else if !Get(responseData, "message").Null? then ToJsString(Get(responseData, "message"))
    else message.GetOr(DashboardFailed)
  }

  lemma DashboardErrorPrecedence(responseData: Json, message: Option<string>)
    ensures responseData.Str? ==> DashboardError(responseData, message) == responseData.s
    ensures responseData.Obj? && "message" in responseData.fields && responseData.fields["message"].Str? ==>
      DashboardError(responseData, message) == responseData.fields["message"].s
    ensures Get(responseData, "message").Null? && !responseData.Str? && message.Some? ==>
      DashboardError(responseData, message) == message.value
    ensures responseData.Null? && message.None? ==> DashboardError(responseData, message) == DashboardFailed
  {
  }

  /**
   * What `fetchDashboard` stores for a received body: the normalised form of a
   * GraphQL-shaped body, any other body as it is (`raw ?? null`), or `None`
   * when normalising throws.
   */
  function StoredDashboard(raw: Json): Option<Json> {
    if Truthy(raw) && IsGraphQLResponse(raw) then NormalizeGraphQLResponse(raw) else Some(raw)
  }

  /** A stored dashboard is never GraphQL-shaped, so storing it again changes nothing. */
  lemma StoredDashboardIdempotent(raw: Json)
    requires StoredDashboard(raw).Some?
    ensures StoredDashboard(StoredDashboard(raw).value) == StoredDashboard(raw)
  {
    if Truthy(raw) && IsGraphQLResponse(raw) {
      var d := StoredDashboard(raw).value;
      assert Get(d, "data").Null?;
    }
  }

  /** The analytics store's state. */
  class CloudflareStore {
    var data: Json
    var loading: bool
    var error: Option<string>

    constructor()
      ensures data.Null? && !loading && error.None?
    {
      data := Null;
      loading := false;
      error := None;
    }

    /**
     * `fetchDashboard(params)` once the request has settled with `o`. When
     * normalising a GraphQL body throws, the TypeError's message is
     * `typeErrorMessage`. A failure keeps the dashboard loaded before.
     */
    method FetchDashboard(o: AxiosOutcome, typeErrorMessage: string)
      modifies this
      ensures !loading
      ensures o.Received? && StoredDashboard(o.body).Some? ==> data == StoredDashboard(o.body).value && error.None?
      ensures o.Received? && StoredDashboard(o.body).None? ==> data == old(data) && error == Some(typeErrorMessage)
      ensures o.Rejected? ==> data == old(data) && error == Some(DashboardError(o.responseData, o.message))
    {
      loading := true;
      error := None;
      match o {
        case Received(body) =>
          match StoredDashboard(body) {
            case Some(d) => data := d;
            case None => error := Some(typeErrorMessage);
          }
        case Rejected(responseData, message) =>
          error := Some(DashboardError(responseData, message));
      }
      loading := false;
    }
  }
}
