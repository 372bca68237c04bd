# mbtastatusline: a Dafny model of the status-line core

mbtastatusline prints one line for a shell prompt: the next arrivals at the MBTA stop configured
for the current Wi-Fi network, for example `Foo Station: arriving now, 3 minutes, over an hour; 2 alerts!`.
This project models the pure core of `lib/index.js` and proves what that line is:

- `formatArrival` (`Format.ArrivalText`): an arrival time seen from "now" falls into one of five
  relative texts;
- `formatOutput` (`Format.FormatOutput`): the line is built the way the program builds it, by
  appending to a string in a loop with its comma rule. It is proved equal to `Format.StatusLine`,
  the declarative statement of the line: the first stop's name, the shown arrival texts of the
  eligible predictions joined with ", " (or "No trains"), and the alert count;
- the selections `formatOutput` makes from the response (`Response`): the first stop, the trips
  that pass the optional headsign filter, their predictions in received order capped at three,
  and the alerts that are not for maintenance;
- the decisions taken around the I/O (`Guards`): whether the three-minute cache is stale, the
  network name parsed from the output of `networksetup -getairportnetwork en0`, the station
  preference looked up for that network in the configuration, and whether a response that
  reports an upstream error is logged instead of formatted (`printOutput`);
- the JavaScript primitives these rely on: `filter` and `slice(0, n)` on arrays (`Seqs`), and
  `${n}` for a natural number, joining with a separator, `trim` with ECMAScript's white-space
  set and `lastIndexOf` on strings (`Text`).

Files: `wrappers.dfy` (Option, Result), `seqs.dfy` (module `Seqs`), `text.dfy` (module `Text`), `response.dfy` (module
`Response`), `format.dfy` (module `Format`), `guards.dfy` (module `Guards`).

Times are whole seconds for the formatter and milliseconds for the cache check, as in the
program; the current time is a parameter. The parsed response is a datatype: `included` is a
sequence of `Stop(name)`, `Trip(id, headsign)`, `Alert(cause)` and other objects, `data` a
sequence of `Prediction(tripId, arrival)`.

Four behaviours of the code worth knowing:

- "No trains" is appended only when no prediction is eligible. When predictions are eligible
  but all of them are already past, nothing but the alert suffix follows "Stop: " (see
  `Format.AllPastShowsNothing`): the line is "Stop: " alone, or "Stop: ; N alerts!" when N
  alerts are counted (see `Format.AllPastAlertsExample`). "No trains" is not appended merely
  because no text was produced.
- The line is named after the first stop object of `included`, whatever else follows.
- The Wi-Fi output is accepted only when the prefix `Current Wi-Fi Network: ` occurs at
  position 0 and nowhere later (`lastIndexOf(...) === 0`). It is not enough that the output
  begins with the prefix (see `Guards.RepeatedPrefixRefused`).
- The cache age is measured from the cache file's status-change time (`ctime`) in milliseconds,
  and an age of exactly 180000 ms is still fresh.

## Model

| member | source | states |
|---|---|---|
| Format.ArrivalBands | lib/index.js:16-22 | each of the five texts, as an if-and-only-if over d = arr - now: "" exactly when d < 0, "arriving now" exactly when 0 <= d < 60, "1 minute" exactly when 60 <= d < 120, "N minutes" exactly when 120 <= d < 3600 and N = floor(d / 60), "over an hour" exactly when d >= 3600; N always lies between 2 and 59 |
| Format.ArrivalText | lib/index.js:16-22 | (definition of `formatArrival`, no contract of its own) the five branches on arr - now; its bands are stated by Format.ArrivalBands and its shape by Format.ArrivalTextShape |
| Format.ArrivalTextShape | lib/index.js:16-22 | a non-empty arrival text begins with "a", "o" or a digit and ends with a lower-case letter, never with the space that the comma rule tests for |
| Text.Decimal | lib/index.js:20 | the numeral of n is non-empty, all digits, and begins with "0" only when n = 0, in which case it is just "0" |
| Text.DecimalRoundTrip | lib/index.js:20 | reading back the numeral of n gives n |
| Text.DecimalInjective | lib/index.js:53 | different counts have different numerals |
| Response.FirstStopIndex | lib/index.js:27 | on a response with a stop object, the index of a stop object with no stop object before it |
| Response.FirstStopName | lib/index.js:27 | (definition, no contract of its own) the name of the stop at Response.FirstStopIndex; Format.StatusLineStartsWithStop states that the line begins with it |
| Format.StatusLineStartsWithStop | lib/index.js:27-28 | the line begins with the first stop's name followed by ": " |
| Response.TripIds | lib/index.js:31-37 | an id is collected exactly when some included trip object has it and passes the headsign filter (which applies only when the preference has a non-empty headsign) |
| Response.TripIdsCons | lib/index.js:31-37 | the ids of a sequence with a given first object are that object's id, if it is a selected trip, followed by the ids of the rest |
| Response.HeadsignFilterOn | lib/index.js:34 | (definition, no contract of its own) the truthiness of `config.headsign`: present and non-empty; used by Response.TripIds |
| Response.Selected | lib/index.js:32-35 | (definition, no contract of its own) the filter callback: a trip object whose headsign matches when the filter is on; Response.TripIds states what it selects |
| Seqs.Filter | lib/index.js:39-40 | the result is no longer than the input and holds exactly the elements that satisfy the predicate |
| Seqs.FilterPositions | lib/index.js:39-40 | the filtered sequence is the input read at increasing positions, and a position is among them exactly when its element satisfies the predicate |
| Seqs.FilterCons | lib/index.js:39-40 | filtering a sequence with a given head keeps the head exactly when it satisfies the predicate, followed by the filtered rest |
| Seqs.FilterAppend | lib/index.js:49-51 | filtering a concatenation is the concatenation of the filtered parts |
| Seqs.FilterMultiset | lib/index.js:49-51 | a value occurs in the filtered sequence as often as in the input if it satisfies the predicate, and not at all otherwise |
| Seqs.FilterConsLength | lib/index.js:49-52 | the number kept from a sequence with a given head is one more than from the rest exactly when the head passes |
| Seqs.Take | lib/index.js:41 | (definition of `slice(0, n)`, no contract of its own) the first n elements or all of a shorter sequence; stated by Seqs.TakeFilterPositions |
| Seqs.TakeFilterPositions | lib/index.js:39-41 | the first n elements that pass are the input read at increasing positions; no passing element is skipped before the last one taken, and when fewer than n were taken none is skipped at all |
| Response.KeepsTrip | lib/index.js:39-40 | (definition, no contract of its own) the predicate `trips.includes(tripId)` |
| Response.ForTrips | lib/index.js:39-40 | (definition, no contract of its own) the `filter` of the predictions by Response.KeepsTrip; stated by Response.EligibleSpec |
| Response.Eligible | lib/index.js:31-41 | (definition, no contract of its own) the first three predictions of selected trips; stated by Response.EligibleSpec |
| Response.EligibleSpec | lib/index.js:31-41 | the eligible predictions number at most three, appear in received order, each belongs to a selected trip, and no prediction of a selected trip before the last one shown (or at all, when fewer than three are shown) is left out |
| Format.ShownTextsAreArrivals | lib/index.js:42-44 | every shown text is the non-empty arrival text of one of the predictions |
| Format.ShownTextsAppend | lib/index.js:42-44 | the shown texts of two consecutive runs of predictions are the shown texts of each run, in order |
| Format.ShownTextsSingle | lib/index.js:43-44 | one prediction shows its arrival text, or nothing when that text is empty |
| Format.PastArrivalAddsNothing | lib/index.js:44 | inserting a past prediction anywhere leaves the arrival portion unchanged: no text and no separator |
| Format.CommaRuleJoins | lib/index.js:44 | the append rule (nothing for an empty text; the text alone while the line ends in ": "; otherwise ", " and the text) extends "stop: " plus the join of the texts so far to "stop: " plus the join with the new text, and the line still does not end in a space |
| Format.LastTwo | lib/index.js:44 | (definition of `result.slice(-2)`, no contract of its own) the last two characters, or all of a shorter string; used through Format.CommaRuleJoins |
| Format.CommaRule | lib/index.js:44 | (definition, no contract of its own) the right-hand side of line 44; Format.CommaRuleJoins states what it appends |
| Format.AppendStep | lib/index.js:42-45 | one pass of the loop turns "stop: " plus the arrival portion of the first i predictions into "stop: " plus that of the first i + 1 |
| Format.AppendArrivals | lib/index.js:28-45 | the loop leaves exactly "stop: " followed by the shown arrival texts joined with ", " |
| Format.FormatOutput | lib/index.js:25-57 | the string built by appending is exactly the status line: prefix, arrivals or "No trains", and alert suffix |
| Format.Prefix | lib/index.js:28 | (definition, no contract of its own) the first stop's name followed by ": "; Format.StatusLineStartsWithStop states that the line begins with it |
| Format.Texts | lib/index.js:42-43 | the arrival text of each prediction, in order: exactly one per prediction; Format.TextsAppend states that it distributes over concatenation |
| Format.ShownTexts | lib/index.js:44 | (definition, no contract of its own) the non-empty arrival texts in order, as the truthiness test `fromNow &&` keeps them; stated by Format.ShownTextsAreArrivals, Format.ShownTextsAppend and Format.ShownTextsSingle |
| Format.ArrivalPortion | lib/index.js:42-45 | (definition, no contract of its own) what the forEach appends: the shown texts joined with ", "; stated by Format.AppendArrivals, Format.AppendStep, Format.PastArrivalAddsNothing and Format.ArrivalPortionShape |
| Format.StatusLine | lib/index.js:25-57 | (definition, no contract of its own) prefix, then "No trains" or the arrival portion, then the alert suffix; Format.FormatOutput is proved equal to it and its properties are Format.StatusLineStartsWithStop, Format.NoTrainsIff, Format.AllPastShowsNothing and Format.AlertSuffixIff |
| Format.AlertSuffix | lib/index.js:52-54 | (definition, no contract of its own) "; N alerts!" for N > 0 and nothing otherwise; stated by Format.AlertSuffixIff |
| Format.ArrivalPortionShape | lib/index.js:42-45 | the arrival portion is empty, or begins with the first letter or digit of an arrival text and ends with a lower-case letter, so there is no leading or trailing comma |
| Format.NoTrainsIff | lib/index.js:46 | "No trains" follows the prefix exactly when no prediction is eligible |
| Format.AllPastShowsNothing | lib/index.js:42-46 | when predictions are eligible but all are past, the line is the prefix followed only by the alert suffix |
| Format.AtMostThreeTexts | lib/index.js:41-45 | at most three arrival texts appear |
| Response.AlertsSpec | lib/index.js:49-51 | each non-maintenance alert is counted as often as it appears in included; maintenance alerts and other objects are never counted |
| Response.NoAlertsIff | lib/index.js:49-52 | the count is zero exactly when included holds no non-maintenance alert |
| Response.AlertsAppend | lib/index.js:49-51 | the count for two runs of included objects is the sum of their counts |
| Response.Counted | lib/index.js:49-51 | (definition, no contract of its own) an alert whose cause is not "MAINTENANCE" |
| Response.Alerts | lib/index.js:49-51 | (definition, no contract of its own) the `filter` of included by Response.Counted; stated by Response.AlertsSpec, Response.NoAlertsIff and Response.AlertsAppend |
| Format.AlertSuffixIff | lib/index.js:52-54 | with N > 0 counted alerts the line ends in "; N alerts!"; the line ends in "!" exactly when N > 0 |
| Format.DropPrefix | lib/index.js:46 | dropping the prefix of the line leaves what follows it |
| Format.NotNoTrains | lib/index.js:46 | a text that is empty or begins with anything but "N" does not begin with "No trains" |
| Text.Join | lib/index.js:42-45 | (definition, no contract of its own) the parts with the separator between neighbours; stated by Text.JoinSnoc, Text.JoinEnds and Text.JoinEmptyIff |
| Text.JoinSnoc | lib/index.js:44 | appending a part extends the join by the separator and that part, or gives the part alone when there were none |
| Text.JoinEnds | lib/index.js:42-45 | a join of parts begins with the first part and ends with the last |
| Text.JoinEmptyIff | lib/index.js:42-45 | a join of non-empty texts is empty exactly when there are no texts |
| Format.OneMinuteExample | test/test.js:26-28 | an arrival 100 seconds away at Foo Station gives "Foo Station: 1 minute" |
| Format.FooAlertCount | lib/index.js:49-51 | of four alerts, one of them for maintenance, three are counted |
| Format.AlertsExample | test/test.js:30-36 | the same arrival with three counted alerts gives "Foo Station: 1 minute; 3 alerts!" |
| Format.PastArrivalExample | test/test.js:38-44 | a past arrival next to the coming one still gives "Foo Station: 1 minute", with no stray comma |
| Format.PastAfterComingExample | test/test.js:38-44 | the past arrival after the coming one, in the order the test lists them, gives "Foo Station: 1 minute" |
| Format.BandsShown | test/test.js:46-51 | arrivals 2, 200 and 3800 seconds away show "arriving now", "3 minutes" and "over an hour" |
| Format.BandsExample | test/test.js:46-56 | those three arrivals give "Foo Station: arriving now, 3 minutes, over an hour" |
| Format.AllPastExample | lib/index.js:42-46 | an eligible arrival 30 seconds in the past gives "Foo Station: " |
| Format.AllPastAlertsExample | lib/index.js:42-56 | an eligible arrival 30 seconds in the past with three counted alerts gives "Foo Station: ; 3 alerts!" |
| Format.NoTrainsExample | lib/index.js:39-46 | a prediction for a trip that was not included gives "Foo Station: No trains" |
| Guards.NextStep | lib/index.js:137-142 | the program fetches anew exactly when the cache file's status cannot be read or its ctime is more than 180000 ms old, and reads the cache otherwise |
| Guards.IsStale | lib/index.js:138-140 | (definition, no contract of its own) the stat failed or now - ctime > 180000; stated by Guards.NextStep, Guards.FreshnessBoundary and Guards.StaleStaysStale |
| Guards.FreshnessBoundary | lib/index.js:12 | a cache aged 0 or exactly 180000 ms is read; one aged 180001 ms is refreshed |
| Guards.StaleStaysStale | lib/index.js:140 | a stale cache stays stale as time goes on |
| Text.LastIndexOf | lib/index.js:124 | the result is -1 exactly when the pattern does not occur; otherwise the pattern occurs there and at no later position |
| Text.LastIndexFrom | lib/index.js:124 | the result is -1 or a position no later than the start; the pattern occurs there, and at no position after it up to the start |
| Text.SpaceRunEnd | lib/index.js:129 | the end of the run of white space starting at i: everything before it is white space and the character there is not |
| Text.IsJsSpace | lib/index.js:129 | (definition, no contract of its own) the WhiteSpace and LineTerminator code points of ECMAScript that `trim` removes |
| Text.SpaceRunStart | lib/index.js:129 | the start of the run of white space ending at i (no earlier than lo): everything from it on is white space and the character before it is not |
| Text.Trim | lib/index.js:129 | the trimmed text sits in the input with only white space before and after it, and neither begins nor ends with white space |
| Text.TrimUnique | lib/index.js:129 | any text that sits in the input with only white space around it and neither begins nor ends with white space is the trimmed text |
| Text.TrimIdempotent | lib/index.js:129 | trimming twice is trimming once |
| Guards.NetworkName | lib/index.js:124-129 | every failure is "no Wi-Fi access" |
| Guards.NetworkNameSpec | lib/index.js:124-129 | a name is produced exactly when the command succeeded, wrote nothing to standard error, its output begins with the prefix and holds it nowhere else; the name is then the output after the prefix, trimmed, and neither begins nor ends with white space |
| Guards.RepeatedPrefixRefused | lib/index.js:124 | output in which the prefix occurs again later is refused |
| Guards.PrefixColon | lib/index.js:124 | the prefix's only colon is at position 21 |
| Guards.NoLaterPrefix | lib/index.js:124 | the prefix cannot start at a later position whose character 21 places on is not a colon |
| Guards.PrefixInitial | lib/index.js:124 | the prefix's first letter "C" occurs nowhere else in it |
| Guards.NoSecondStart | lib/index.js:124 | in output that begins with the prefix, the prefix cannot start again at a position inside it |
| Guards.NetworkNameRoundTrip | lib/index.js:124-129 | the output printed for a name without surrounding white space, followed by any white space such as the final line feed, yields that name whenever the prefix does not occur again further on |
| Guards.NameWithoutColonRoundTrip | lib/index.js:124-129 | a name without a colon always comes back, since the prefix cannot then occur again |
| Guards.ColonNameRoundTrip | lib/index.js:124-129 | a name with a colon such as "Cafe: Guest" comes back as well |
| Guards.TrimSurrounded | lib/index.js:129 | trimming a name followed by white space gives back the name |
| Guards.StationFor | lib/index.js:74-84 | a missing or unparsable configuration file is reported as "no configuration file", and only then |
| Guards.StationForSpec | lib/index.js:81-84 | a preference is found exactly when the network has an entry with a non-empty stop, and it carries that entry's stop and headsign; every other failure names the network |
| Guards.RefreshStation | lib/index.js:122-131 | a failed network-name command stops before the configuration is consulted; otherwise the preference is the one for the parsed name |
| Guards.PrintOutput | lib/index.js:59-67 | a response with a truthy error or errors field is logged and exits with 1; any other is printed as its status line and exits with 0 |
| Guards.SignalsError | lib/index.js:61 | (definition, no contract of its own) a truthy `error` or `errors` field; Guards.PrintOutput states what follows from it |
| Guards.ExitCode | lib/index.js:63-66 | (definition, no contract of its own) 1 for a logged body, 0 for a printed line; Guards.PrintOutput states it is 1 exactly when the response signals an error |

## Left out

- Reading and writing the cache file, reading `~/.mbtastatusrc.json`, running `networksetup`,
  the HTTPS request and its chunked response: these are I/O. The model takes their outcomes as
  parameters: the file's ctime as an `Option<int>`, the command's `err`, stdout and stderr, the
  parsed configuration as an optional map, and the parsed body as a datatype.
- `JSON.parse`, `JSON.stringify` and `url.format` (the query with the API key, `include` and
  `filter[stop]`): library code that is not part of this model. The body and the configuration
  appear already parsed, and the cache's `{config, body}` round trip is not modelled.
- `Date.now() / 1000` and `new Date(arrival_time).valueOf() / 1000`: clock reads, ISO date
  parsing and floating-point division. `now` and the arrival times are whole seconds, so the
  fractional seconds the program would carry are not modelled.
- `console.log`, `process.exit` and the exceptions thrown as control flow. `Guards.PrintOutput`
  returns what would be logged or printed and `Guards.ExitCode` gives the exit status. The
  errors of the refresh path are `Guards.Error` values.
- Format.FormatOutput: requires a response with a stop object. On a response with none, the
  program fails on `[0].attributes` with a TypeError, and that crash is not modelled.
- Guards.StationFor: a configuration file holding JSON `null` makes the program fail on
  `rc[networkName]` with a TypeError, which the model does not represent. A number, string or
  boolean holds no entry, so the program reports no station preference, as the model does for
  an empty map; the model treats the parsed configuration as a map.
- Guards.StationFor: configuration values are either entries with optional string `stop` and
  `headsign` fields or something else. Non-string truthy values in those fields are not modelled.
- The JavaScript truthiness of `body.error` and `body.errors` is reduced to two booleans.
- Races between concurrent runs on the cache file are not modelled.
