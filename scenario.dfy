/**
 * One pass through the screen: six stops come back, four are shown, the
 * first shown stop's arrival is an hour into the service day, it is 100
 * seconds away, and one tick later the countdown reads one second less.
 */
module Scenario {
  import opened HslApi
  import opened TimeFormat
  import opened Countdown
  import opened StopSelection

  method NearbyStopCountdown(data: StopsByRadius, name: string, first: StopTimeWithoutPatterns, later: seq<StopTimeWithoutPatterns>)
    returns (shownStops: nat, before: string, after: string)
    requires |data.stopsByRadius.edges| == 6
    requires first.serviceDay == 1700000000 && first.realtimeArrival == 3600
    ensures shownStops == 4
    ensures before == "01:40" && after == "01:39"
  {
    var items := StopItems(data);
    shownStops := |items|;
    var response := ArrivalQueryResponse(ArrivalStop(name, [first] + later));
    var view := StopDetailsView(response, items[0].distance, 1700000000 + 3500);
    var timer := new Timer(view.value.startTime);
    before := timer.Display();
    timer.Tick();
    after := timer.Display();
    FormatTimeExamples();
  }
}
