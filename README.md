# Lähipysäkki countdown core, modelled in Dafny

Lähipysäkki ("nearby stop") is a small React Native screen for the Helsinki
region transit API (HSL). It asks the device for its position and queries the
API for the stops within 500 m. It shows the first four of them. For each one
it polls that stop's upcoming stop times and renders a live `MM:SS` countdown
to the first arrival.

This project models the screen's own logic and proves properties of it:

- `hsl_api.dfy` (module `HslApi`): the records of the API (`StopTimeWithoutPatterns`,
  `Trip`, `ArrivalStop`, `ArrivalQueryResponse`, `NodeStop`, `Node`, `Edge`,
  `StopsByRadius`). It also holds the two GraphQL query texts as they are built,
  character for character. The radius query embeds the coordinates; the
  arrivals query embeds the stop id. Inverse parsers show that each text
  determines the inputs it embeds.
- `time_format.dfy` (module `TimeFormat`): `zeroPad` and `formatTime`. This
  includes the JavaScript semantics of `String(n)` for whole numbers below 10^21, `padStart`, `Math.floor(t / 60)`
  and the truncating `%`.
- `countdown.dfy` (module `Countdown`): the `Timer` component's state as a
  class with one field `time`. It has a constructor (the initial state), `Tick`
  (one firing of the interval) and `Reset` (the effect that runs when the start
  time changes).
- `stop_selection.dfy` (module `StopSelection`): `slice(0, 4)` on the server's
  edges, the item props, the `stoptimesWithoutPatterns[0]` pick and the wait time
  `realtimeArrival + serviceDay - now`.
- `scenario.dfy` (module `Scenario`): one worked pass through the screen.
- `text.dfy` (module `Text`) and `wrappers.dfy` (module `Wrappers`): decimal
  digits, string search and `Option`.

Times are whole seconds (`int`). The current time `now` is a parameter. The
coordinates enter the radius query as the strings JavaScript renders for them.

When a poll arrives, the code sets the countdown to the raw wait time
(App.tsx:175-177). It does not clamp it to `max(0, …)`. So an arrival that has
already passed is shown once as a negative time (for example `-1:-5`, see
`TimeFormat.NegativeTimeExamples`) before the first tick turns it into `00:00`.

## Model

| member | source | states |
|---|---|---|
| `HslApi.StopsByRadiusQuery` | hslapi.ts:44-57 | the radius query text, character for character; its properties are stated by `StopsByRadiusQueryArguments`, `ParseStopsByRadiusQuery` and `StopsByRadiusQueryRoundTrip` |
| `HslApi.StopsByRadiusQueryArguments` | hslapi.ts:44-46 | for any coordinates the query holds `lat:<latitude>`, then `lon:<longitude>`, then `radius:500`, at fixed offsets in that order |
| `HslApi.ParseStopsByRadiusQuery` | hslapi.ts:44-57 | the inverse reader accepts only texts the builder produces, and only from comma-free coordinates |
| `HslApi.StopsByRadiusQueryRoundTrip` | hslapi.ts:44-57 | comma-free coordinates are read back unchanged from the query text |
| `HslApi.StopDetailsQuery` | hslapi.ts:59-79 | the arrivals query text, character for character; its properties are stated by `StopDetailsQueryId`, `StopTimeFieldsSelected`, `ParseStopDetailsQuery`, `StopDetailsQueryRoundTrip` and `StopDetailsQueryInjective` |
| `HslApi.StopDetailsQueryId` | hslapi.ts:59-61 | the arrivals query contains `stop(id: "` + id + `")` with the id inserted verbatim, unescaped, for every id |
| `HslApi.StopTimeFieldsSelected` | hslapi.ts:63-73 | the stop-time lines of the query name exactly the scalar fields of the stop-time record (hslapi.ts:4-14), one per line, in declaration order |
| `HslApi.ParseStopDetailsQuery` | hslapi.ts:59-79 | the inverse reader accepts only texts the builder produces |
| `HslApi.StopDetailsQueryRoundTrip` | hslapi.ts:59-79 | every stop id, with no restriction, is read back unchanged from the query text |
| `HslApi.StopDetailsQueryInjective` | hslapi.ts:59-61 | distinct stop ids give distinct query texts |
| `Text.NatToString` | App.tsx:183 | `String(n)` of a whole number: at least one digit, no leading zero, one digit below 10, at most two below 100 |
| `Text.IntToStringReadsBack` | App.tsx:183 | `String(n)` starts with `-` exactly when `n` is negative, and the digits after the sign read back as the magnitude of `n` |
| `Text.PadStart` | App.tsx:183 | `padStart`: length `max(width, length of s)`, ends with `s` untruncated, and all fill before it |
| `TimeFormat.ZeroPad` | App.tsx:183 | the result is the decimal text behind enough `'0'`s to reach length 2; a longer text is kept whole |
| `TimeFormat.ZeroPadNat` | App.tsx:183 | for `n >= 0` the padded text is all digits and reads back as `n`; it has exactly 2 characters below 100 and 3 or more, unpadded, from 100 on |
| `TimeFormat.JsRemainder` | App.tsx:185 | JavaScript `%`: in `0..b-1` for a non-negative dividend (equal to Dafny's `%`), in `-(b-1)..0` for a negative one |
| `TimeFormat.FormatTime` | App.tsx:182-188 | `formatTime`: zero-padded rounded-down minutes, `:`, zero-padded truncated remainder; its properties are stated by `FormatTimeFields`, `FormatTimeRoundTrip`, `FormatTimeExamples` and `NegativeTimeExamples` |
| `TimeFormat.FormatTimeFields` | App.tsx:182-188 | for `t >= 0` the text is `ZeroPad(t / 60) + ":" + ZeroPad(t % 60)`; the seconds field is exactly 2 digits worth 0..59; the text is 5 characters exactly when `t < 6000` |
| `TimeFormat.FormatTimeRoundTrip` | App.tsx:184-187 | for `t >= 0` reading the two fields back gives minutes `m` and seconds `s` with `m * 60 + s == t` and `s < 60` |
| `TimeFormat.FormatTimeExamples` | App.tsx:182-188 | 65 s gives `01:05`, 0 gives `00:00`, 5 gives `00:05`, 100 gives `01:40`, 99 gives `01:39` and 6000 gives `100:00` |
| `TimeFormat.NegativeTimeExamples` | App.tsx:184-187 | as written, -5 s renders as `-1:-5` and -65 s as `-2:-5` (rounded-down minutes, truncated remainder) |
| `Countdown.NextTime` | App.tsx:169 | the tick rule `time >= 1 ? time - 1 : 0` equals `max(time - 1, 0)` |
| `Countdown.Ticks` | App.tsx:168-173 | after at least one tick the time is never negative, and it never rises above a non-negative start; `TicksClosedForm` and `TicksStayAtZero` give its value |
| `Countdown.NextTimeBounds` | App.tsx:169 | a tick never gives a negative time and never raises a non-negative one; it lowers a positive time by exactly 1; anything below 1 becomes 0; 0 stays 0 |
| `Countdown.TicksClosedForm` | App.tsx:168-173 | `k >= 1` ticks from `t` give `max(t - k, 0)`, so a negative start becomes 0 at the first tick |
| `Countdown.TicksStayAtZero` | App.tsx:169 | any number of ticks from 0 leaves 0 |
| `Countdown.Timer.constructor` | App.tsx:166 | the initial state equals `startTime` |
| `Countdown.Timer.Tick` | App.tsx:169 | the new `time` is the tick rule applied to the old one |
| `Countdown.Timer.Reset` | App.tsx:175-177 | the new `time` is exactly the new `startTime`, whatever the old value was |
| `Countdown.Timer.Display` | App.tsx:179 | the rendered text is `formatTime` of the current state, whose properties `TimeFormat.FormatTimeFields` and `TimeFormat.FormatTimeRoundTrip` state |
| `Countdown.ResetAfterTicks` | App.tsx:165-177 | last write wins: after two ticks the state is `max(start - 2, 0)`, and a reset then installs the polled value whether it is above or below that |
| `StopSelection.SliceBound` | App.tsx:115 | a `slice` bound counts from the end when negative and is clamped to the array |
| `StopSelection.Slice` | App.tsx:115 | `slice(start, end)` has length `max(to - from, 0)` for the resolved bounds and holds the elements from `from` on, in order |
| `StopSelection.VisibleStops` | App.tsx:115 | the shown list has length `min(4, number of edges)` and is the prefix of the server's edges in server order |
| `StopSelection.StopItems` | App.tsx:115-117 | there is one item per shown edge, in order, with that edge's `gtfsId` and `distance` |
| `StopSelection.StopItemQueries` | App.tsx:116 | for each shown item, the arrivals query built from its `stopId` reads back as exactly that edge's `gtfsId` |
| `StopSelection.FirstArrival` | App.tsx:151 | an arrival exists exactly when `stoptimesWithoutPatterns` is non-empty, and it is element 0 |
| `StopSelection.WaitTime` | App.tsx:152 | the seconds from `now` to `serviceDay + realtimeArrival`; `StopDetailsView` states the start time it yields and `TicksTrackWaitTime` relates it to ticking |
| `StopSelection.StopDetailsView` | App.tsx:151-159 | a view exists exactly when a stop time is listed; it shows the stop's name, the distance handed in and the first stop time's route; its start time satisfies `now + startTime == serviceDay + realtimeArrival` |
| `StopSelection.TicksTrackWaitTime` | App.tsx:152 | `k` local ticks from the wait time at `now` equal the wait time at `now + k`, floored at 0: ticking between polls agrees with polling again |
| `Scenario.NearbyStopCountdown` | App.tsx:115-179 | six server stops show as four; an arrival at `serviceDay = 1700000000` plus `realtimeArrival = 3600`, seen at `now = 1700003500`, shows `01:40` and then `01:39` after one tick |

## Left out

- Rendering, layout, styles and the template boilerplate (`Section`, `App`,
  `styles`, the loading and error texts) are UI.
- The device position request (`GetLocation.getCurrentPosition`, its 15 s
  timeout and its error being only logged) is a sensor behind asynchronous I/O.
- The Apollo client, `useQuery`, the 60 s and 20 s poll intervals and the
  loading, error and data states come from a foreign library and the network.
  A poll result enters the model as an `ArrivalQueryResponse` or `StopsByRadius`
  value.
- `setInterval` and `clearInterval` are timer and concurrency plumbing. Only a
  single tick and a single reset are modelled, not when they fire or how they
  interleave.
- `Date.now() / 1000` is fractional; here `now` is a whole number. For a
  non-negative time, `Math.floor` in `formatTime` makes the display of the
  fractional value equal the display of its whole part, and the tick rule
  commutes with taking the whole part. For negative fractional times the two
  can differ in the seconds field. The display of negative times is not
  specified by the code.
- Times are unbounded integers. JavaScript numbers are doubles: `String`
  writes values from 10^21 up in exponent form (`1e+21`), and from 2^53 up
  `time - 1` is not exact. Neither exponent rendering nor double rounding is
  modelled.
- `StopSelection.FirstArrival` and `StopSelection.StopDetailsView` return
  `None` for an empty `stoptimesWithoutPatterns`. In the code this case reads
  `realtimeArrival` of `undefined` (App.tsx:151-152) and throws a TypeError
  during render. The `if (error)` branch (App.tsx:149) does not catch it, so
  rendering is aborted rather than one stop being left blank. The model does
  not capture that abort.
- Rendering latitude and longitude as text is JavaScript number formatting. The
  builders take the already-rendered strings.
- `gql` parsing the text into a document is a foreign library.
- `BusStops` and `StopDetails` build their own inline copies of the two queries
  (App.tsx:90-104, 123-144). Those copies differ from the hslapi.ts texts only
  in indentation and line layout; they ask for the same arguments and fields in
  the same order. Only the hslapi.ts texts are modelled character for character.
- Both builders are deterministic and cannot fail because they are Dafny
  functions with no precondition. No separate lemma states this.
- `StopSelection.FirstArrival`: the code takes element 0 without checking that
  the server lists stop times soonest first. The model takes element 0 too and
  makes no claim that it is the soonest arrival.
- The `keyExtractor` (App.tsx:117) assumes stop ids are unique among the shown
  stops; nothing in the code checks that, and it is not modelled.
