/**
 * The records returned by the HSL routing API and the two GraphQL query
 * texts the screen sends to it, as they stand before the GraphQL client
 * parses them.
 */
module HslApi {
  import opened Wrappers
  import opened Text

  // ---------------------------------------------------------------------
  // Records (numbers of the wire format are whole seconds or metres)
  // ---------------------------------------------------------------------

  datatype Trip = Trip(routeShortName: string)

  /** One upcoming stop time; offsets are seconds from `serviceDay`. */
  datatype StopTimeWithoutPatterns = StopTimeWithoutPatterns(
    scheduledArrival: int,
    realtimeArrival: int,
    arrivalDelay: int,
    scheduledDeparture: int,
    realtimeDeparture: int,
    departureDelay: int,
    realtime: bool,
    realtimeState: string,
    serviceDay: int,
    headsign: string,
    trip: Trip)

  datatype ArrivalStop = ArrivalStop(name: string, stoptimesWithoutPatterns: seq<StopTimeWithoutPatterns>)

  datatype ArrivalQueryResponse = ArrivalQueryResponse(stop: ArrivalStop)

  datatype NodeStop = NodeStop(gtfsId: string, name: string)

  datatype Node = Node(stop: NodeStop, distance: int)

  datatype Edge = Edge(node: Node)

  datatype StopsByRadiusResult = StopsByRadiusResult(edges: seq<Edge>)

  datatype StopsByRadius = StopsByRadius(stopsByRadius: StopsByRadiusResult)

  // ---------------------------------------------------------------------
  // Stops near a point
  // ---------------------------------------------------------------------

  const RADIUS_FIELD := "\nquery { \n" + "  stopsByRadius"
  const RADIUS_OPEN := RADIUS_FIELD + "(" + "lat:"
  const RADIUS_SEPARATOR := ", " + "lon:"
  const RADIUS_CLOSE := ", " + "radius:500" + ")" + RADIUS_SELECTION
  const RADIUS_SELECTION :=
    " {\n"
    + "      edges {\n"
    + "        node {\n"
    + "          stop {\n"
    + "            gtfsId\n"
    + "            name\n"
    + "          }\n"
    + "          distance\n"
    + "        }\n"
    + "      }\n"
    + "  }\n"
    + "}"

  /**
   * The stops-near-a-point query. `latitude` and `longitude` are the texts
   * JavaScript renders for the two numbers; they are spliced in verbatim.
   */
  function StopsByRadiusQuery(latitude: string, longitude: string): string {
    RADIUS_OPEN + latitude + RADIUS_SEPARATOR + longitude + RADIUS_CLOSE
  }

  /**
   * Whatever the coordinates, the query's argument list is exactly
   * `(lat:<latitude>, lon:<longitude>, radius:500)`, followed by the same
   * selection of stop id, stop name and distance.
   */
  lemma StopsByRadiusQueryArguments(latitude: string, longitude: string)
    ensures var q := StopsByRadiusQuery(latitude, longitude);
      var lat := |RADIUS_FIELD| + 1;
      var lon := lat + 4 + |latitude| + 2;
      var radius := lon + 4 + |longitude| + 2;
      && OccursAt(q, "lat:" + latitude, lat)
      && OccursAt(q, "lon:" + longitude, lon)
      && OccursAt(q, "radius:500", radius)
  {
    var q := StopsByRadiusQuery(latitude, longitude);
    var a := RADIUS_FIELD + "(";
    var b := a + "lat:" + latitude + ", ";
    var c := b + "lon:" + longitude + ", ";
    var d := ")" + RADIUS_SELECTION;
    Associate(a, "lat:", latitude, ", ", "lon:", longitude, ", ", "radius:500", d);
    OccursAtMiddle(a, "lat:" + latitude, ", " + "lon:" + longitude + ", " + "radius:500" + d);
    OccursAtMiddle(b, "lon:" + longitude, ", " + "radius:500" + d);
    OccursAtMiddle(c, "radius:500", d);
  }

  /** The three ways the query text is cut up around its arguments. */
  lemma Associate(a: string, p: string, x: string, s: string, p': string, y: string, s': string, r: string, d: string)
    ensures var q := a + p + x + (s + p') + y + (s' + r + d);
      && q == a + (p + x) + (s + p' + y + s' + r + d)
      && q == (a + p + x + s) + (p' + y) + (s' + r + d)
      && q == (a + p + x + s + p' + y + s') + r + d
  {
  }

  /**
   * Reads the coordinates back out of a stops-near-a-point query text; it
   * accepts exactly the texts the builder produces from comma-free
   * coordinates (JavaScript never renders a number with a comma).
   */
  function ParseStopsByRadiusQuery(q: string): (r: Option<(string, string)>)
    ensures r.Some? ==> Lacks(r.value.0, ',') && Lacks(r.value.1, ',')
    ensures r.Some? ==> StopsByRadiusQuery(r.value.0, r.value.1) == q
  {
    if |q| < |RADIUS_OPEN| || q[..|RADIUS_OPEN|] != RADIUS_OPEN then None
    else
      var rest := q[|RADIUS_OPEN|..];
      var i := FirstIndexOf(rest, ',');
      var afterLatitude := rest[i..];
      if |afterLatitude| < |RADIUS_SEPARATOR| || afterLatitude[..|RADIUS_SEPARATOR|] != RADIUS_SEPARATOR then None
      else
        var rest' := afterLatitude[|RADIUS_SEPARATOR|..];
        var j := FirstIndexOf(rest', ',');
        if rest'[j..] != RADIUS_CLOSE then None
        else
          PrefixSplit(q, RADIUS_OPEN);
          PrefixSplit(afterLatitude, RADIUS_SEPARATOR);
          Reassemble(q, RADIUS_OPEN, rest, i, RADIUS_SEPARATOR, rest', j, RADIUS_CLOSE);
          Some((rest[..i], rest'[..j]))
  }

  /** Putting the pieces the parser cut apart back together gives its input. */
  lemma Reassemble(q: string, open: string, rest: string, i: nat, separator: string, rest': string, j: nat, close: string)
    requires q == open + rest && i <= |rest| && rest[i..] == separator + rest'
    requires j <= |rest'| && rest'[j..] == close
    ensures q == open + rest[..i] + separator + rest'[..j] + close
  {
    assert rest == rest[..i] + rest[i..];
    assert rest' == rest'[..j] + rest'[j..];
  }

  /** Comma-free coordinates survive the trip into the query text and back. */
  lemma StopsByRadiusQueryRoundTrip(latitude: string, longitude: string)
    requires Lacks(latitude, ',') && Lacks(longitude, ',')
    ensures ParseStopsByRadiusQuery(StopsByRadiusQuery(latitude, longitude)) == Some((latitude, longitude))
  {
    var q := StopsByRadiusQuery(latitude, longitude);
    assert q == RADIUS_OPEN + (latitude + (RADIUS_SEPARATOR + (longitude + RADIUS_CLOSE)));
    var rest := q[|RADIUS_OPEN|..];
    assert rest == latitude + (RADIUS_SEPARATOR + (longitude + RADIUS_CLOSE));
    assert RADIUS_SEPARATOR[0] == ',';
    FirstIndexOfAfter(latitude, RADIUS_SEPARATOR + (longitude + RADIUS_CLOSE), ',');
    var afterLatitude := rest[|latitude|..];
    assert afterLatitude == RADIUS_SEPARATOR + (longitude + RADIUS_CLOSE);
    var rest' := afterLatitude[|RADIUS_SEPARATOR|..];
    assert rest' == longitude + RADIUS_CLOSE;
    assert RADIUS_CLOSE[0] == ',';
    FirstIndexOfAfter(longitude, RADIUS_CLOSE, ',');
  }

  // ---------------------------------------------------------------------
  // Arrivals at one stop
  // ---------------------------------------------------------------------

  const DETAILS_FIELD := "\nquery {\n" + "    "
  const DETAILS_OPEN := DETAILS_FIELD + "stop(id: \""
  const DETAILS_CLOSE := "\")" + DETAILS_SELECTION
  const DETAILS_SELECTION :=
    " {\n"
    + ("        name\n"
    + ("        stoptimesWithoutPatterns {\n"
    + (STOP_TIME_LINES
    + ("          trip{\n"
    + ("            routeShortName\n"
    + ("          }\n"
    + ("        }\n"
    + ("    }  \n"
    + "}"))))))))

  /** The lines of the selection that ask for the scalar fields of a stop time. */
  const STOP_TIME_LINES :=
    FIELD_INDENT + "scheduledArrival" + "\n"
    + (FIELD_INDENT + "realtimeArrival" + "\n"
    + (FIELD_INDENT + "arrivalDelay" + "\n"
    + (FIELD_INDENT + "scheduledDeparture" + "\n"
    + (FIELD_INDENT + "realtimeDeparture" + "\n"
    + (FIELD_INDENT + "departureDelay" + "\n"
    + (FIELD_INDENT + "realtime" + "\n"
    + (FIELD_INDENT + "realtimeState" + "\n"
    + (FIELD_INDENT + "serviceDay" + "\n"
    + (FIELD_INDENT + "headsign" + "\n")))))))))

  /** The indent of the stop-time fields inside the selection. */
  const FIELD_INDENT := "          "

  /** The arrivals query for one stop; the id is spliced in unescaped. */
  function StopDetailsQuery(stopId: string): string {
    DETAILS_OPEN + stopId + DETAILS_CLOSE
  }

  /** The scalar fields of `StopTimeWithoutPatterns`, in declaration order. */
  const STOP_TIME_FIELDS := [
    "scheduledArrival", "realtimeArrival", "arrivalDelay",
    "scheduledDeparture", "realtimeDeparture", "departureDelay",
    "realtime", "realtimeState", "serviceDay", "headsign"]

  /** Each name on its own line behind `indent`. */
  function FieldLines(names: seq<string>, indent: string): string {
    if names == [] then "" else indent + names[0] + "\n" + FieldLines(names[1..], indent)
  }

  /** Whatever the stop id, the query contains `stop(id: "<id>")` with the id verbatim. */
  lemma StopDetailsQueryId(stopId: string)
    ensures OccursAt(StopDetailsQuery(stopId), "stop(id: \"" + stopId + "\")", |DETAILS_FIELD|)
  {
    Regroup(DETAILS_FIELD, "stop(id: \"", stopId, "\")", DETAILS_SELECTION);
    OccursAtMiddle(DETAILS_FIELD, "stop(id: \"" + stopId + "\")", DETAILS_SELECTION);
  }

  lemma Regroup(a: string, p: string, x: string, s: string, d: string)
    ensures a + p + x + (s + d) == a + (p + x + s) + d
  {
  }

  /** The stop-time lines of the selection start with the first field of `names`. */
  lemma FieldLinesStep(names: seq<string>, k: nat, indent: string, line: string, rest: string)
    requires k < |names| && indent + names[k] + "\n" == line
    requires FieldLines(names[k + 1..], indent) == rest
    ensures FieldLines(names[k..], indent) == line + rest
  {
    assert names[k..][1..] == names[k + 1..];
  }

  /**
   * The query asks, for every stop time, for exactly the scalar fields of
   * `StopTimeWithoutPatterns`, one per line in declaration order (the
   * trip's route short name follows them).
   */
  lemma StopTimeFieldsSelected()
    ensures FieldLines(STOP_TIME_FIELDS, FIELD_INDENT) == STOP_TIME_LINES
  {
    FieldLinesOfTen(STOP_TIME_FIELDS, FIELD_INDENT);
  }

  /** `FieldLines` of ten names, written out line by line. */
  lemma FieldLinesOfTen(f: seq<string>, indent: string)
    requires |f| == 10
    ensures FieldLines(f, indent)
      == indent + f[0] + "\n" + (indent + f[1] + "\n" + (indent + f[2] + "\n" + (indent + f[3] + "\n"
       + (indent + f[4] + "\n" + (indent + f[5] + "\n" + (indent + f[6] + "\n" + (indent + f[7] + "\n"
       + (indent + f[8] + "\n" + (indent + f[9] + "\n")))))))))
  {
    assert f[10..] == [];
    FieldLinesStep(f, 9, indent, indent + f[9] + "\n", FieldLines(f[10..], indent));
    FieldLinesStep(f, 8, indent, indent + f[8] + "\n", FieldLines(f[9..], indent));
    FieldLinesStep(f, 7, indent, indent + f[7] + "\n", FieldLines(f[8..], indent));
    FieldLinesStep(f, 6, indent, indent + f[6] + "\n", FieldLines(f[7..], indent));
    FieldLinesStep(f, 5, indent, indent + f[5] + "\n", FieldLines(f[6..], indent));
    FieldLinesStep(f, 4, indent, indent + f[4] + "\n", FieldLines(f[5..], indent));
    FieldLinesStep(f, 3, indent, indent + f[3] + "\n", FieldLines(f[4..], indent));
    FieldLinesStep(f, 2, indent, indent + f[2] + "\n", FieldLines(f[3..], indent));
    FieldLinesStep(f, 1, indent, indent + f[1] + "\n", FieldLines(f[2..], indent));
    FieldLinesStep(f, 0, indent, indent + f[0] + "\n", FieldLines(f[1..], indent));
    assert f[0..] == f;
  }

  /**
   * Reads the stop id back out of an arrivals query text; it accepts
   * exactly the texts the builder produces.
   */
  function ParseStopDetailsQuery(q: string): (r: Option<string>)
    ensures r.Some? ==> StopDetailsQuery(r.value) == q
  {
    Between(q, DETAILS_OPEN, DETAILS_CLOSE)
  }

  /** Any stop id survives the trip into the query text and back. */
  lemma StopDetailsQueryRoundTrip(stopId: string)
    ensures ParseStopDetailsQuery(StopDetailsQuery(stopId)) == Some(stopId)
  {
    BetweenEnclosed(DETAILS_OPEN, stopId, DETAILS_CLOSE);
  }

  /** Distinct stop ids give distinct query texts. */
  lemma StopDetailsQueryInjective(a: string, b: string)
    requires StopDetailsQuery(a) == StopDetailsQuery(b)
    ensures a == b
  {
    StopDetailsQueryRoundTrip(a);
    StopDetailsQueryRoundTrip(b);
  }
}
