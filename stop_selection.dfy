/**
 * What the stop list shows: the first four edges of the stops-near-a-point
 * answer, in the server's order, and for each stop its first listed stop
 * time and the seconds left until that arrival.
 */
module StopSelection {
  import opened Wrappers
  import opened HslApi
  import opened Countdown

  /** How many of the server's stops the list shows. */
  const MAX_STOPS := 4

  /**
   * A `slice` bound resolved against an array of length `len`: a negative
   * bound counts from the end, and both are clamped to `0..len`.
   */
  function SliceBound(k: int, len: nat): (r: nat)
    ensures r <= len
    ensures 0 <= k <= len ==> r == k
    ensures k > len ==> r == len
    ensures k < 0 ==> r == Max(len + k, 0)
  {
    if k < 0 then (if len + k < 0 then 0 else len + k) else if k < len then k else len
  }

  /** JavaScript's `Array.prototype.slice(start, end)`. */
  function Slice<T>(s: seq<T>, start: int, end: int): (r: seq<T>)
    ensures var from, to := SliceBound(start, |s|), SliceBound(end, |s|);
      && |r| == (if from < to then to - from else 0)
      && forall i :: 0 <= i < |r| ==> r[i] == s[from + i]
  {
    var from, to := SliceBound(start, |s|), SliceBound(end, |s|);
    if from < to then s[from..to] else []
  }

  /**
   * `edges.slice(0, 4)`: the shown stops are the first `min(4, |edges|)`
   * edges, in the server's order.
   */
  function VisibleStops(edges: seq<Edge>): (r: seq<Edge>)
    ensures |r| == if |edges| < MAX_STOPS then |edges| else MAX_STOPS
    ensures forall i :: 0 <= i < |r| ==> r[i] == edges[i]
  {
    Slice(edges, 0, MAX_STOPS)
  }

  /** What each list item hands to its stop-details component. */
  datatype StopItem = StopItem(stopId: string, distance: int)

  /** One item per shown edge, carrying that edge's stop id and distance. */
  function StopItems(data: StopsByRadius): (r: seq<StopItem>)
    ensures var edges := data.stopsByRadius.edges;
      && |r| == (if |edges| < MAX_STOPS then |edges| else MAX_STOPS)
      && forall i :: 0 <= i < |r| ==>
           r[i] == StopItem(edges[i].node.stop.gtfsId, edges[i].node.distance)
  {
    var shown := VisibleStops(data.stopsByRadius.edges);
    var items := seq(|shown|, i requires 0 <= i < |shown| => StopItem(shown[i].node.stop.gtfsId, shown[i].node.distance));
    items
  }

  /** The arrivals query of hslapi.ts, built from each shown item's id, names exactly that item's stop. */
  lemma StopItemQueries(data: StopsByRadius)
    ensures var items := StopItems(data);
      forall i :: 0 <= i < |items| ==>
        ParseStopDetailsQuery(StopDetailsQuery(items[i].stopId)) == Some(data.stopsByRadius.edges[i].node.stop.gtfsId)
  {
    var items := StopItems(data);
    forall i | 0 <= i < |items|
      ensures ParseStopDetailsQuery(StopDetailsQuery(items[i].stopId)) == Some(data.stopsByRadius.edges[i].node.stop.gtfsId)
    {
      var id := data.stopsByRadius.edges[i].node.stop.gtfsId;
      assert items[i].stopId == id;
      StopDetailsQueryRoundTrip(id);
    }
  }

  /**
   * `stoptimesWithoutPatterns[0]`. The list may be empty; the source then
   * reads a field of `undefined` and fails, which is `None` here.
   */
  function FirstArrival(response: ArrivalQueryResponse): (r: Option<StopTimeWithoutPatterns>)
    ensures r.Some? <==> |response.stop.stoptimesWithoutPatterns| > 0
    ensures r.Some? ==> r.value == response.stop.stoptimesWithoutPatterns[0]
  {
    var times := response.stop.stoptimesWithoutPatterns;
    if |times| == 0 then None else Some(times[0])
  }

  /** Seconds from `now` until the real-time arrival, which is an offset from the service day. */
  function WaitTime(stopTime: StopTimeWithoutPatterns, now: int): int {
    stopTime.realtimeArrival + stopTime.serviceDay - now
  }

  /** What one stop's details show: name, distance, route and the countdown's start time. */
  datatype StopView = StopView(name: string, distance: int, routeShortName: string, startTime: int)

  /**
   * The stop's view is built from its first listed stop time: its route, and
   * a start time that reaches zero exactly at the real-time arrival
   * `serviceDay + realtimeArrival` (an epoch second). No view exists when no
   * stop time is listed.
   */
  function StopDetailsView(response: ArrivalQueryResponse, distance: int, now: int): (r: Option<StopView>)
    ensures var times := response.stop.stoptimesWithoutPatterns;
      && (r.Some? <==> |times| > 0)
      && (r.Some? ==>
            && r.value.name == response.stop.name
            && r.value.distance == distance
            && r.value.routeShortName == times[0].trip.routeShortName
            && now + r.value.startTime == times[0].serviceDay + times[0].realtimeArrival)
  {
    match FirstArrival(response)
    case None => None
    case Some(first) => Some(StopView(response.stop.name, distance, first.trip.routeShortName, WaitTime(first, now)))
  }

  /**
   * Ticking locally between polls keeps the countdown where a fresh poll
   * would put it: `k` ticks from the wait time computed at `now` give the
   * wait time computed at `now + k`, floored at zero (for a wait time that
   * starts negative, from the first tick on).
   */
  lemma TicksTrackWaitTime(stopTime: StopTimeWithoutPatterns, now: int, k: nat)
    requires WaitTime(stopTime, now) >= 0 || k > 0
    ensures Ticks(WaitTime(stopTime, now), k) == Max(WaitTime(stopTime, now + k), 0)
  {
    TicksClosedForm(WaitTime(stopTime, now), k);
  }
}
