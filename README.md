# CNC milling machine monitoring dashboard — verified model

This project models the core of a Streamlit dashboard that monitors a CNC
milling machine. The model is written in Dafny 4.11.

A publisher sends one JSON message per sensor reading over MQTT. The
dashboard's broker callback decodes each message and puts it on a queue. On
every refresh, `update_dashboard` does the following:

- drains the queue into a history table, in arrival order;
- evicts every row older than 60 minutes before the newest timestamp in the
  table (a sliding window);
- asks a trained classifier about the last row of the window;
- draws a segmented temperature bar;
- computes two metrics: total energy and failure risk.

A separate cleaning script repairs the JSON held in the cells of a CSV log
before parsing it (`fix_and_parse_json`).

Modules:

| file | module | what it holds |
|---|---|---|
| `telemetry.dfy` | `Telemetry` | Messages (`Payload`, where any key may be missing), history rows (`Record`), the window constant, and the message-to-row conversion. |
| `window.dfy` | `Window` | The newest timestamp and the eviction filter, with its properties. |
| `prediction.dfy` | `Prediction` | The classifier, given as its two calls; `predict_failure`; the warning banner. |
| `metrics.dfy` | `Metrics` | Energy, failure risk, and the window's minimum and maximum temperature. |
| `gauge.dfy` | `Gauge` | Normalisation, segment fill, the colour ramp, the caps and the title colour. The drawing loop is a method proved equal to a specification function. |
| `visualizer.dfy` | `Visualizer` | One refresh as a pure function `UpdateDashboard`, and the session state as class `Dashboard`. The class's `Cycle` method runs the drain loop and is proved to have exactly the effect of `UpdateDashboard`. |
| `dataparsing.dfy` | `DataParsing` | The JSON-repair normaliser. The two regular expressions and the JSON parser are parameters. |

Timestamps are whole seconds. The window is `WINDOW_SIZE = 60` minutes, which
is 3600 seconds. Sensor values are exact reals.

The model follows the code as written:

- Rows are never sorted. The "latest" row, used by the bar and the
  classifier, is the last row of the window after eviction, which is the last
  row appended whenever that row survives eviction. It can be older than the newest
  timestamp in the table (`Window.LatestRowMayBeOlder`,
  `Visualizer.LatestMeansLastArrived`).
- Energy is the sum of `power / 3600` over the rows. It does not integrate
  power over the time between readings (`Metrics.EnergyIgnoresSpacing`).
- The window is anchored on the largest timestamp in the table, not on the
  clock. Its lower bound is inclusive.
- A message that lacks a key raises inside the drain loop. The exception
  handler then ends the refresh: rows drained before that message stay in the
  table, nothing is evicted and nothing is rendered
  (`Visualizer.IncompleteMessageAborts`).

## Model

| member | source | states |
|---|---|---|
| Telemetry.ToRecord | mqtt_visualizer.py:352-361 | A row is built exactly when the message carries all seven keys, and the row holds the message's own values. |
| Telemetry.ToPayload | mqtt_visualizer.py:352-361 | The complete message for a row: every key is present and holds the row's own value, so it is the message `ToRecord` turns back into that row. |
| Telemetry.RecordRoundTrip | mqtt_visualizer.py:352-361 | The complete message for a row is read back as the very same row. |
| Telemetry.PublisherMessage | mqtt_publisher.py:50-58 | The publisher's message for a dataset row carries every key, and is read back as that row with its power replaced by motor current × 220. |
| Telemetry.PublisherRoundTrip | mqtt_publisher.py:56 | A dataset row comes back unchanged from the publisher if and only if its power already equals motor current × 220. |
| Window.MaxTimestamp | mqtt_visualizer.py:370 | The anchor is at least every timestamp in the table and is attained by some row. |
| Window.MaxTimestampAt | mqtt_visualizer.py:370 | A row at least as new as all the others holds the anchor. |
| Window.KeepFrom | mqtt_visualizer.py:372-374 | The filter never grows the table, and every row it keeps meets the bound. |
| Window.KeepFromCounts | mqtt_visualizer.py:372-374 | The filter keeps every copy of a row that meets the bound and drops every copy of one that does not (multiset equality). |
| Window.Evict | mqtt_visualizer.py:368-374 | An empty table stays empty. Otherwise each row is kept, with its full multiplicity, if and only if it is at most 3600 s older than the newest row, and is dropped entirely otherwise. |
| Window.EvictKeepsExactlyTheWindow | mqtt_visualizer.py:368-374 | A row survives eviction if and only if it is in the table and at most 3600 s older than the newest row; duplicates are kept with their multiplicity. |
| Window.KeepFromAppend | mqtt_visualizer.py:372-374 | The filter commutes with concatenation, so it never reorders rows. |
| Window.KeepFromAll | mqtt_visualizer.py:372-374 | A table whose rows all meet the bound is left exactly as it is. |
| Window.KeepFromTwice | mqtt_visualizer.py:372-374 | Filtering twice with the same bound equals filtering once. |
| Window.EvictKeepsNewest | mqtt_visualizer.py:368-374 | The rows with the newest timestamp always survive, so eviction of a non-empty table leaves it non-empty with the same anchor. |
| Window.EvictIdempotent | mqtt_visualizer.py:368-374 | Evicting an evicted table removes nothing. |
| Window.EvictWithinWindow | mqtt_visualizer.py:368-374 | After eviction every row is within 3600 s of the newest one. |
| Window.KeepFromSingleton | mqtt_visualizer.py:372-374 | A single row is kept exactly when it meets the bound. |
| Window.EvictKeepsLastAppendedLast | mqtt_visualizer.py:368-374 | If the last appended row is within the window, it is still the last row after eviction. |
| Window.KeepFromSorted | mqtt_visualizer.py:372-374 | Filtering keeps a time-ordered table time-ordered. |
| Window.LatestRowMayBeOlder | mqtt_visualizer.py:362-374 | Example: a 02:00 row followed by a 01:30 row both survive, in arrival order, so the table is not time-ordered. |
| Window.TenMinuteScenario | mqtt_visualizer.py:368-374 | Example: readings every 10 minutes from minute 0 to minute 70. Minute 0 is evicted and minute 10, exactly 60 minutes old, is kept (inclusive bound). |
| Prediction.LatestFeatures | mqtt_visualizer.py:335-336 | The classifier's input is the four sensor readings of the last row, or no row for an empty table. |
| Prediction.PredictFailure | mqtt_visualizer.py:329-345 | No model gives no verdict. Otherwise there is a verdict if and only if both calls answer, and it is their first label and their class-1 probability. |
| Prediction.VerdictDependsOnlyOnLatestReadings | mqtt_visualizer.py:335-336 | Two tables whose last rows have the same four readings get the same verdict. |
| Prediction.WarningFor | mqtt_visualizer.py:383-405 | There is no banner without a verdict. The high-risk banner shows if and only if the label is 1. Both banners show the probability times 100. |
| Metrics.Energy | mqtt_visualizer.py:436 | The energy metric times 3600 equals the sum of the power column. |
| Metrics.EnergyAppend | mqtt_visualizer.py:436 | Energy is additive over consecutive parts of the table. |
| Metrics.EnergyIgnoresSpacing | mqtt_visualizer.py:436 | Example: three 3600 W readings give 3 Wh whether they are 1 s or 1 h apart. |
| Metrics.FlagSumBounds | mqtt_visualizer.py:437 | With 0/1 failure flags, the flag sum lies between 0 and the number of rows. |
| Metrics.MeanFailure | mqtt_visualizer.py:437 | The flag mean times the number of rows is the flag sum, and with 0/1 flags the mean lies in [0, 1]. |
| Metrics.FailureRisk | mqtt_visualizer.py:437 | With a verdict the risk is probability × 100. Without one, risk × rows = flag sum × 100, i.e. the flag mean in percent. |
| Metrics.FailureRiskIsPercentage | mqtt_visualizer.py:437 | The risk lies in [0, 100] when the probability is in [0, 1], or, without a verdict, when the flags are 0/1. |
| Metrics.FallbackScenario | mqtt_visualizer.py:437 | Example: flags 0, 0, 1, 0 and no verdict give a 25 % risk. |
| Metrics.MinTemperature | mqtt_visualizer.py:413 | The bar's lower end is at most every temperature in the window and is attained by some row. |
| Metrics.MaxTemperature | mqtt_visualizer.py:414 | The bar's upper end is at least every temperature in the window and is attained by some row. |
| Gauge.Normalise | mqtt_visualizer.py:135 | The percentage times the width of the range equals the value's distance above the minimum times 100. |
| Gauge.NormaliseRange | mqtt_visualizer.py:135 | The percentage is ≥ 0 if and only if the value ≥ min; ≥ 100 if and only if the value ≥ max; ≤ 100 if and only if the value ≤ max. |
| Gauge.FilledIsPrefix | mqtt_visualizer.py:180-184 | If a segment is filled, every earlier segment is filled. |
| Gauge.ProgressRange | mqtt_visualizer.py:189 | A segment's ramp position lies in [0, 1]. |
| Gauge.ProgressMonotone | mqtt_visualizer.py:189 | The ramp position grows with the segment index. |
| Gauge.SegmentColour | mqtt_visualizer.py:189-197 | Blue is 0 and every channel is in [0, 255]. Green is 255 in the first half of the ramp and red is 255 in the second. |
| Gauge.ColourRamp | mqtt_visualizer.py:189-197 | Along the bar, red never decreases and green never increases. |
| Gauge.ColourRampEnds | mqtt_visualizer.py:189-197 | The first segment is pure green and the last is pure red. |
| Gauge.SegmentAt | mqtt_visualizer.py:180-236 | Segment i is filled if and only if the percentage reaches i × 100 / n. A filled segment has the ramp colour, a left cap if and only if it is the first, and a right cap if and only if it is the last and the percentage is at least 100. |
| Gauge.TitleColourFor | mqtt_visualizer.py:239-245 | The title is green if and only if below 50 %, orange if and only if in [50, 75) %, and red if and only if at least 75 %. |
| Gauge.Bar | mqtt_visualizer.py:133-245 | The bar carries the value it was drawn for, and its title colour is the one for the value's percentage. |
| Gauge.CreateTemperatureBar | mqtt_visualizer.py:133-245 | The drawing loop produces exactly one segment decision per index, in order, plus the title: the bar specified by `Bar`. |
| Gauge.BarSegments | mqtt_visualizer.py:180-236 | The bar has exactly n segments, and segment i is the decision `SegmentAt` makes for the percentage: filled if and only if the percentage reaches its left edge, then in the ramp colour of i with its caps. |
| Gauge.BarFilledPrefix | mqtt_visualizer.py:180-184 | Segment i is filled if and only if the percentage reaches i × 100 / n, and the filled segments form a prefix. |
| Gauge.LastEdgeBelowFull | mqtt_visualizer.py:138 | The last segment's left edge is below 100 %. |
| Gauge.BarCaps | mqtt_visualizer.py:202-236 | Only segment 0 has a left cap and only the last segment can have a right cap. The last segment has a right cap if and only if the value is at least the maximum. |
| Gauge.BarFirstSegment | mqtt_visualizer.py:184-212 | A value at or above the minimum always fills segment 0, in pure green, with the left cap. |
| Gauge.TitleThresholds | mqtt_visualizer.py:239-245 | With the 12-segment bar, the title is green if and only if the value is below the midpoint of the range, and red if and only if it is at least three quarters up. |
| Gauge.PercentCompare | mqtt_visualizer.py:135 | The percentage reaches a threshold c if and only if the value's distance above the minimum, times 100, reaches c times the width of the range. |
| Visualizer.FirstIncomplete | mqtt_visualizer.py:351-361 | The position of the first message that lacks a key: every message before it is complete, and it is not. |
| Visualizer.Records | mqtt_visualizer.py:352-362 | A run of complete messages becomes one row per message, in order, each with the message's values. |
| Visualizer.Messages | mqtt_visualizer.py:352-361 | One complete message per row, in row order, each holding that row's values. |
| Visualizer.MessagesDrainBack | mqtt_visualizer.py:351-363 | Complete messages all drain, back into exactly the rows they carry, in order. |
| Visualizer.DrainMessages | mqtt_visualizer.py:347-437 | A refresh that finds the complete messages for some rows queued empties the queue, keeps the evicted old-plus-new table, and renders it. |
| Visualizer.Published | mqtt_publisher.py:48-60 | One pass of the publisher over dataset rows sends one message per row, in row order, each the publisher's message for that row. |
| Visualizer.PublishedRowsDrainWithDerivedPower | mqtt_publisher.py:50-58 | The publisher's messages all drain. Each becomes its dataset row with power = motor current × 220, so the rows come back unchanged exactly when every row's power is already that product. |
| Visualizer.WindowBar | mqtt_visualizer.py:407-417 | A window has a bar if and only if its minimum temperature is below its maximum. The bar is the 12-segment bar for the last row's temperature over that range. |
| Visualizer.Render | mqtt_visualizer.py:376-437 | The snapshot shows the window itself, the classifier's verdict on it and that verdict's banner, and the window's bar. Its energy times 3600 is the total power. Its risk is the probability × 100 with a verdict; without one, risk × rows = flag sum × 100, i.e. the flag mean in percent. |
| Visualizer.UpdateDashboard | mqtt_visualizer.py:347-449 | A refresh is idle if and only if the queue is empty. It aborts if and only if some queued message lacks a key. Otherwise it renders, and then the queue is empty, the table is the eviction of the old table plus the drained rows, and the snapshot is the one `Render` gives for that table. A non-empty queue always shrinks. |
| Visualizer.DrainAppendsInArrivalOrder | mqtt_visualizer.py:351-374 | A full drain appends the new rows after the old ones in queue order, then filters both with one bound anchored on the newest timestamp overall. |
| Visualizer.IncompleteMessageAborts | mqtt_visualizer.py:351-366 | At the first message lacking a key, the rows drained before it stay appended, it is consumed and lost, later messages stay queued, and nothing is evicted. |
| Visualizer.MissingPressureIsLost | mqtt_visualizer.py:351-366 | A lone message without `pressure` (as the CSV streamer sends them) is dropped and leaves the table untouched. |
| Visualizer.RenderedTableIsWindow | mqtt_visualizer.py:368-378 | After a rendered refresh the table is non-empty, is its own eviction, and lies within 3600 s of its newest row. |
| Visualizer.IdleRefreshChangesNothing | mqtt_visualizer.py:365-366 | An empty queue leaves the table and the queue as they are. |
| Visualizer.RenderedSnapshot | mqtt_visualizer.py:376-437 | After a rendered refresh the snapshot shows the new table, the classifier's verdict on it and its banner. The bar shows the last row's temperature and exists if and only if min < max. There is no verdict if and only if there is no model or one of the classifier's calls raises, and then the risk is the flag mean in percent. Energy is total power / 3600. |
| Visualizer.RenderedBar | mqtt_visualizer.py:407-417 | A window's bar always fills segment 0 in green. It caps its last segment if and only if the last row's temperature is the window maximum. |
| Visualizer.LatestMeansLastArrived | mqtt_visualizer.py:362-414 | Example: after a 02:00 reading and then a 01:30 reading, the bar shows 40.0 and the verdict is the one for the 01:30 row. |
| Visualizer.TwoReadingsDrainInArrivalOrder | mqtt_visualizer.py:351-378 | Two queued readings within 3600 s of each other are both kept, in arrival order, and rendered. |
| Visualizer.EvictPairInWindow | mqtt_visualizer.py:368-374 | Two rows within 3600 s of each other both survive eviction, in order. |
| Visualizer.RenderSnapshot | mqtt_visualizer.py:378-437 | The rendering steps show the window and the classifier's verdict on it. They draw a bar if and only if min < max, and that bar shows the last row's temperature. The energy times 3600 is the total power. Altogether they give the snapshot `Render` specifies. |
| Visualizer.Dashboard.constructor | mqtt_visualizer.py:117-121 | A session starts with an empty queue, an empty table and the loaded model. |
| Visualizer.Dashboard.Enqueue | mqtt_visualizer.py:94-97 | The broker callback appends one message to the queue and does not touch the table. |
| Visualizer.Dashboard.Cycle | mqtt_visualizer.py:347-449 | The in-place refresh (drain loop, eviction, render) leaves the queue, the table and the outcome exactly as `UpdateDashboard` says. |
| DataParsing.StripOuterQuotes | dataparsing.py:14-15 | A cell that starts and ends with a quote loses exactly those two quotes; a lone quote becomes empty; any other cell is unchanged. |
| DataParsing.StripUndoesWrap | dataparsing.py:14-15 | Stripping undoes wrapping any text in quotes. |
| DataParsing.CollapseDoubledQuotes | dataparsing.py:18 | Collapsing never lengthens the text. |
| DataParsing.CollapseQuoteFree | dataparsing.py:18 | Text without quotes is unchanged. |
| DataParsing.CollapseRun | dataparsing.py:18 | A maximal run of k quotes becomes ⌈k/2⌉ quotes (the replacement scans left to right without overlaps). |
| DataParsing.CollapseKeepsOtherCharacters | dataparsing.py:18 | Every character other than a quote survives, in order. |
| DataParsing.CollapseUndoesDoubling | dataparsing.py:18 | Collapsing inverts doubling every quote. |
| DataParsing.StripAndCollapseUndoCsvQuoting | dataparsing.py:14-18 | A CSV-quoted cell (wrapped in quotes, inner quotes doubled) is restored exactly. |
| DataParsing.Normalise | dataparsing.py:11-24 | A cell without any quote skips the quote repairs and reaches the two key rewrites unchanged. |
| DataParsing.NormaliseShortensOrKeeps | dataparsing.py:11-24 | With key rewrites that never lengthen the text and leave quote-free text alone, normalising never lengthens a cell, and a cell without quotes reaches the parser unchanged. |
| DataParsing.FixAndParseJson | dataparsing.py:9-35 | A successful parse gives the parsed value. A decode error or any other error gives an empty object. |
| DataParsing.QuoteFreeCellParsedAsIs | dataparsing.py:9-35 | A cell without quotes gets exactly the parser's verdict on the raw text. |
| DataParsing.CsvQuotedCellParsedAsBody | dataparsing.py:9-35 | A CSV-quoted cell whose body the key rewrites leave alone is parsed as its body, or becomes an empty object when the body does not parse. |

## Left out

- MQTT transport, the broker thread, connection handling and the `on_connect` callback are left out. Decoding a message's bytes with `json.loads` is also left out: `Enqueue` receives an already decoded message.
- Concurrency is not modelled. The broker thread may add messages while a refresh drains. The model treats the queue as fixed during one refresh, as if messages added during the drain arrived just after it.
- All Streamlit and Plotly rendering is left out: CSS, containers, the line charts (`create_line_chart`), shape geometry, text formatting and rounding to one decimal. The model keeps only the decisions: what is filled, in which colour, which caps, which title colour, and which banner.
- Model loading (`load_model`) is a parameter. The classifier's two calls are functions returning `None` where the call raises; their internals are not modelled.
- `pd.to_datetime` is not modelled. A timestamp is an integer number of seconds, and one that `pd.to_datetime` raises on counts as a missing key.
- A null or empty timestamp is not modelled (`Telemetry.Payload` has no such value). `pd.to_datetime` turns it into NaT without raising (mqtt_visualizer.py:354), so the row is appended. NaT then fails the window comparison (lines 372-374), so the row is evicted. A table holding only such rows is emptied, and nothing is rendered (line 378). The model has no NaT value, so this fourth outcome of a refresh is not covered.
- Floating point is not modelled: values are exact reals. The NaN behaviour of missing cells is also left out.
- Visualizer.Render: when every temperature in the window is equal, the normalisation divides by zero. Depending on the column dtype, the source then either yields NaN or raises. The model shows no bar (`bar` is `None`) and renders the rest.
- Gauge.Bar: its own contract states only the value and the title colour. The segments it holds are stated by the lemma `BarSegments` (segment i is `SegmentAt` of the percentage, with the colour `SegmentColour`), and by `BarFilledPrefix`, `BarCaps` and `BarFirstSegment`.
- Gauge.Bar, Gauge.CreateTemperatureBar: require at least two segments, because the colour ramp divides by `n - 1`. The dashboard always uses 12.
- Visualizer.Published: models one pass over the dataset rows. The publisher's cursor wraps around to the first row after the last one (mqtt_publisher.py:61), and it sleeps one second between messages (line 62); neither is modelled.
- The re-created queue is not modelled: `data_queue` is a module global (mqtt_visualizer.py:88). Streamlit re-runs the whole script on every refresh, so each re-run creates a fresh queue and starts another broker thread (line 115), while the table and the model persist in the session state. Class `Dashboard` keeps one queue across cycles and does not model this re-creation.
- `SLIDE_STEP` and `last_slide` are set but never read by the refresh, so they are not modelled.
- The error messages printed by every exception handler are left out.
- The CSV reading and writing around `fix_and_parse_json` are left out: `pd.read_csv`, `apply` and the export. `str(raw)` on a non-string cell is left out too; cells are strings.
- DataParsing.CollapseDoubledQuotes: its own contract gives only the length bound. Its meaning is stated by the lemmas `CollapseRun`, `CollapseKeepsOtherCharacters` and `CollapseUndoesDoubling`.
- DataParsing.Normalise: the two key-quoting regular expressions are parameters. The model assumes only what `KeyQuoting` states: a rewrite never lengthens the text and leaves quote-free text alone. Their exact matching is not modelled.
- The JSON parser (`json.loads`) is a parameter returning a value, a decode error or another error. JSON syntax is not modelled.
