# Mission planner session model

A Dafny model of the session logic of the BeeBotix mission planner (`app.js`). That is a
single-page Leaflet tool. The operator:

- switches mission mode on;
- double-clicks the map to pick a position;
- fills in a side panel to create home, waypoint, special, hold and safety-dock nodes;
- closes the path by double-clicking an existing node;
- optionally draws a work-zone polygon that later positions must fall inside;
- exports the plan as JSON.

The model covers the state behind this page:

- the global flags;
- the pending position;
- the path line;
- the work-zone drawer;
- the mission metadata;
- the node lists.

It also covers every handler that changes that state, and the checks and parsers the handlers rely on.

Modules:

- `Text`: the form-field helpers.
  - `String.prototype.trim` with the ECMAScript white-space set.
  - The identifier pattern `^[A-Za-z0-9_-]+$`, written as a small automaton and proved equal to its character-class reading.
  - `parseInt(…, 10)`, covering leading white space, an optional sign, the longest digit prefix and `NaN`.
  - The `HH:MM:SS` converters, and `toISOString().split('T')[0]`.
- `Geometry`: integer coordinates and Leaflet's `LatLngBounds`. `isInsideWorkZone` is the bounding-box test the code performs.
- `WorkZone`: the work-zone button and the two `click` handlers, each as a function and the two composed.
- `Mission`: the session as a value (`Session`) and the pure transition for each handler.
  - The session invariant `Valid`:
    - ids are distinct across path and docks;
    - there is at most one home node, and `homeNode` tracks it;
    - nodes are well formed;
    - a recorded service location is the first node's position.
  - A proof that every sequence of events keeps the invariant.
- `Exporter`: the exported document, the file name, and the round trips between nodes and exported entries.
- `Planner`: the class `MissionPlanner`.
  - Its fields are the globals of the script.
  - Each method updates them statement by statement, as the corresponding handler does.
  - Each method's contract ties the new state (`Snapshot()`) to the `Mission` transition.
  - Every method that changes state keeps `Valid()`, except `Submit`: that is the body of `createNodeBtn.onclick` and is proved equal to `Mission.CreateNode`, and `CreateNode` wraps it and keeps `Valid()`.

Inputs from outside the page become parameters:

- `map.distance(a, b) < 20` becomes a total predicate `near`.
- `new Date().toISOString()` becomes the string `isoNow`.
- The form's field values become a `NodeForm`.

`missionPathLine` is modelled as the point list of the line shown on the map, or `None` when none is shown. `workZonePolygon` is its vertex list.

Behaviour of the code that a reader might not expect, and that the model follows:

- **Closure flags are not exclusive.** A double-click on a node after a loop has been detected still ends the mission at home, so `loopDetected` and `missionEnded` can both be true (`Mission.ClosureFlagsNotExclusive`).
- **The work zone closes with seven vertices, not three.** Leaflet runs both `click` handlers on every click. Each click is therefore stored twice, and the closing click is stored as well. Four clicks give a seven-vertex polygon (`WorkZone.ClicksStoreEachPointTwice`). The second handler alone keeps three (`WorkZone.CloseClickAloneKeepsThreePoints`).
- **The time fields are three separate strings.** A time is read from three fields (hours, minutes, seconds), each converted with `parseInt(v || "0", 10)`. There is no single `HH:MM:SS` string.
- **Node creation is not frozen after the mission ends.** Only the double-click handler checks `missionEnded`. A position picked before the mission ended can still be submitted (`Mission.EndedMissionIsFrozen` needs no pending position).

## Model

| member | source | states |
|---|---|---|
| Text.TrimStartSpec | app.js:282-284 | `TrimStart` drops exactly a white-space prefix: the result is a suffix that is empty or starts with a non-space, and everything dropped is white space |
| Text.TrimEndSpec | app.js:282-284 | `TrimEnd` drops exactly a white-space suffix: the result is a prefix that is empty or ends with a non-space, and everything dropped is white space |
| Text.TrimOfTrimmed | app.js:282-284 | a string with no white space at either end is its own trim |
| Text.TrimIdempotent | app.js:282-284 | trimming twice is trimming once |
| Text.FailedIsFinal | app.js:111-113 | once the pattern matcher fails, no further input makes it accept |
| Text.RunAccepts | app.js:111-113 | from a live state the matcher ends in its accepting state exactly when some character was read (or already had been) and every remaining character is in [A-Za-z0-9_-] |
| Text.ValidTextMeans | app.js:111-113 | `isValidText(v)` holds exactly for non-empty strings whose every character is in A-Z, a-z, 0-9, `_` or `-` |
| Text.ValidTextIsTrimmed | app.js:111-113 | a valid identifier is unchanged by `trim` |
| Text.DigitChar | app.js:122-134 | the digit character of a value below ten is a digit and has that value |
| Text.LeadingDigits | app.js:123-125 | the prefix `parseInt` reads consists of decimal digits only |
| Text.LeadingDigitsSpec | app.js:123-125 | the digits read are the longest all-digit prefix: a prefix of the input followed by end of input or a non-digit |
| Text.DecimalString | app.js:122-134 | the canonical numeral of a natural number is non-empty, all digits, and has no leading zero |
| Text.DecimalValue | app.js:122-134 | the value of the canonical numeral of n is n |
| Text.LeadingDigitsStopAt | app.js:123-125 | digit reading stops exactly where a non-digit follows the digits |
| Text.ParseIntUnsigned | app.js:123-125 | `parseInt` of text starting with a digit is the value of its leading digits |
| Text.ParseIntNegative | app.js:123-125 | after a minus sign, `parseInt` is the negated value of the leading digits |
| Text.ParseIntReadsNumeral | app.js:123-125 | `parseInt` reads back n from n's numeral followed by any text that does not start with a digit |
| Text.ParseIntReadsNegative | app.js:123-125 | `parseInt` reads back -n from "-" + n's numeral + such a tail |
| Text.ParseIntOfNumeral | app.js:123-125 | `parseInt` of n's numeral is n |
| Text.ParseIntFails | app.js:123-130 | `parseInt` is `NaN` exactly when, after leading white space and an optional sign, no digit follows |
| Text.Seconds | app.js:128-133 | a converted time is never negative |
| Text.ParseTime | app.js:122-148 | `parseHHMMSS` / `parseTaskDuration` never yields a negative number of seconds |
| Text.TimeOfNumerals | app.js:122-148 | fields holding the numerals of h, m ≤ 59, s ≤ 59 convert to h·3600 + m·60 + s |
| Text.TimeOfFields | app.js:122-148 | fields that read as h, m ≤ 59, s ≤ 59 convert to h·3600 + m·60 + s |
| Text.TimeDecomposes | app.js:122-148 | for an accepted time t the three fields read as t div 3600, (t mod 3600) div 60 and t mod 60 |
| Text.TimeRoundTrip | app.js:122-148 | writing any number of seconds as hours, minutes and seconds and converting back gives the same number |
| Text.EmptyTimeIsZero | app.js:123-125 | three empty fields convert to 0, an empty field standing for "0" |
| Text.TimeExample | app.js:122-134 | "1", "2", "3" converts to 3723 |
| Text.SixtyMinutesRefused | app.js:128-130 | a minutes field of 60 is refused |
| Text.NonNumericFieldRefused | app.js:128-130 | a field with no leading digit is refused |
| Text.DatePart | app.js:19 | the date is the longest prefix of the ISO timestamp without a 'T', stopping at the first 'T' |
| Geometry.BoundsOf | app.js:150-153 | the polygon's bounds contain every vertex |
| Geometry.BoundsAreLeast | app.js:150-153 | the bounds lie inside every box that contains all vertices |
| Geometry.InsideWorkZoneMeans | app.js:150-153 | with no work zone every point passes; with one, every vertex passes, and a point passes exactly when it lies in every box holding all vertices |
| Geometry.BoxIsNotPolygon | app.js:150-153 | the test is the bounding box: a point outside a triangle but inside its box passes |
| WorkZone.Toggle | app.js:494-510 | switching drawing on discards the points and the polygon; switching it off keeps both; the zone invariant is kept |
| WorkZone.PreviewClick | app.js:207-218 | while drawing the click is appended, otherwise nothing changes; the zone invariant is kept |
| WorkZone.CloseClick | app.js:512-546 | nothing happens when not drawing; the zone closes exactly when at least three points are stored and the click is near the first, the polygon being the stored points and drawing stopping; otherwise the click is appended; the zone invariant is kept |
| WorkZone.ClickEffect | app.js:512-546 | with the first handler (lines 207-218) running before this one two stored points already allow closing, the closing click becomes a vertex, and a click that does not close is stored twice |
| WorkZone.ClosedZoneIsFrozen | app.js:512-514 | once closed the zone ignores clicks until drawing is switched on again |
| WorkZone.CloseClickAloneKeepsThreePoints | app.js:512-546 | the second handler alone closes three clicks with a fourth near the first into a three-vertex polygon |
| WorkZone.ClicksStoreEachPointTwice | app.js:512-546 | with the first handler (lines 207-218) also running, the map closes the same four clicks into the polygon p0,p0,p1,p1,p2,p2,c |
| Mission.NodeTypeRoundTrip | app.js:329-337 | a category string survives conversion to a node type and back, and a well-typed node type survives the reverse |
| Mission.InitialSessionIsValid | app.js:4-27 | the state at page load satisfies the session invariant |
| Mission.ClearedSessionIsValid | app.js:383-419 | clearing gives a valid session from any session |
| Mission.AtMostOneHome | app.js:301-304 | in a valid session no two path nodes are home nodes and no dock is |
| Mission.InsertKeepsIdsUnique | app.js:115-117 | inserting an entry with a new id keeps ids distinct |
| Mission.AppendKeepsIdsUnique | app.js:344-353 | a node accepted by `isUniqueId` can be pushed to the path or the docks without an id clash |
| Mission.PathPoints | app.js:367-378 | no line with fewer than two nodes; otherwise the node positions in order, then the closing node's position when an index is given |
| Mission.FirstNearFrom | app.js:226-228 | `findIndex`: the result is the least index whose node is near the click, or none if no node is |
| Mission.DoubleClick | app.js:223-267 | ignored when mission mode is off or the mission ended; a click near the first near node ends the mission at home, closes at the last node, or flags a loop, with the path line closed at that node; otherwise a position outside the work zone is refused and one inside becomes pending |
| Mission.DoubleClickPreservesValid | app.js:223-267 | a double-click keeps the session invariant |
| Mission.ClosureFlagsNotExclusive | app.js:223-267 | `loopDetected` and then `missionEnded` can both be set |
| Mission.CheckSubmission | app.js:281-337 | a rejection names the first failing check in the handler's order; acceptance means every check passed and yields the trimmed, well-formed node with a fresh id at the pending position, with the hold time and task duration as converted |
| Mission.PassingSubmissionIsAccepted | app.js:281-325 | a submission passing every check is accepted |
| Mission.CreateNode | app.js:272-357 | the outcome is "no pending position" exactly when none is pending, and then nothing changes; otherwise the submission is rejected or added; metadata captured on the first attempt of a mission; a rejection changes nothing else; a safety dock is appended to the docks; any other node is appended to the path, becomes `homeNode` if it is a home, and redraws the line; the pending position is cleared after success |
| Mission.CreateNodePreservesValid | app.js:272-357 | node creation keeps ids distinct, at most one home node tracked by `homeNode`, and every node well formed |
| Mission.WithServiceLocation | app.js:425-431 | for an "infinity" mission with nodes the service location becomes the first node's position; otherwise the metadata is unchanged; the other metadata fields never change |
| Mission.ApplyPreservesValid | app.js:177-546 | every handler keeps the session invariant |
| Mission.ReplayPreservesValid | app.js:177-546 | every sequence of events keeps the session invariant |
| Mission.ReachableSessionsKeepIdsAndHome | app.js:115-117 | from page load, whatever the operator does, ids stay distinct across path and docks and there is at most one home node |
| Mission.EndedMissionIsFrozen | app.js:224 | once the mission has ended and no position is pending, double-clicks change nothing, and submissions change nothing either (line 273) |
| Mission.EndedMissionStaysFrozen | app.js:223-357 | once the mission has ended and no position is pending, any sequence of events without a clear keeps the mission ended, nothing pending, and the path, docks and home node unchanged |
| Exporter.PathEntryRoundTrip | app.js:452-468 | an exported path entry reads back as its node exactly when the node's task duration is not 0 (a zero duration is exported as `null`) |
| Exporter.BuildExport | app.js:433-478 | the document carries the metadata, the mission flags, the work-zone vertices (none without a polygon) and, entry by entry, each node's and dock's id, name, coordinates and hold time in seconds, each path entry's type string and task, and the task duration in seconds (null exactly when none or zero) |
| Exporter.ExportedServiceLocation | app.js:425-439 | in a valid session the exported service location is the first node's position for an "infinity" mission with nodes, and null otherwise |
| Exporter.ExportedPathReadsBack | app.js:452-468 | in a valid session every exported path entry with a nonzero task duration reads back as its node |
| Exporter.HoldNodeExport | app.js:452-468 | a hold node with a 90 s hold exports type "hold", hold time 90 seconds and its task duration |
| Exporter.ExportAfterClear | app.js:383-419 | an export right after clearing is the empty mission with default metadata and no work zone |
| Exporter.ExportFileName | app.js:486 | the file name is "mission-plan-" + the mission name, or "unnamed" when it is empty, + ".json" |
| Exporter.FileNameRoundTrip | app.js:486 | the mission name can be read back from the file name (an empty one reads as "unnamed") |
| Planner.MissionPlanner.constructor | app.js:4-27 | the globals (with the node lists of lines 85-87) start as the initial session, which is valid |
| Planner.MissionPlanner.ResetSidePanel | app.js:158-172 | only the pending position is cleared; the invariant is kept |
| Planner.MissionPlanner.ToggleMissionMode | app.js:177-187 | the mission-mode switch flips and nothing else changes; the invariant is kept |
| Planner.MissionPlanner.UpdateMissionPath | app.js:367-378 | the line becomes the path points for the given closing index and nothing else changes; the invariant is kept |
| Planner.MissionPlanner.DoubleClick | app.js:223-267 | the new state and outcome are those of `Mission.DoubleClick`; the invariant is kept |
| Planner.MissionPlanner.CheckForm | app.js:281-337 | the checks, run in order, give exactly `Mission.CheckSubmission`; nothing changes |
| Planner.MissionPlanner.Submit | app.js:272-357 | the new state and outcome are those of `Mission.CreateNode` |
| Planner.MissionPlanner.CreateNode | app.js:272-357 | as `Submit`, and the invariant is kept |
| Planner.MissionPlanner.Clear | app.js:383-419 | the new state is `Mission.Clear` of the old one and is valid |
| Planner.MissionPlanner.Export | app.js:424-489 | the service location is recorded as in `Mission.WithServiceLocation`, the document is `Exporter.BuildExport` of the new state, the file name is `Exporter.ExportFileName`; the invariant is kept |
| Planner.MissionPlanner.ToggleWorkZone | app.js:494-510 | the zone changes as in `WorkZone.Toggle`; the invariant is kept |
| Planner.MissionPlanner.WorkZonePreviewClick | app.js:207-218 | the zone changes as in `WorkZone.PreviewClick`, nothing else changes; the invariant is kept |
| Planner.MissionPlanner.WorkZoneCloseClick | app.js:512-546 | the zone and outcome are those of `WorkZone.CloseClick`, nothing else changes; the invariant is kept |
| Planner.MissionPlanner.MapClick | app.js:207-218 | this handler and then the one of lines 512-546, in registration order: the state is `Mission.MapClick` of the old one; the invariant is kept |
| Text.Trim | app.js:282-284 | `s.trim()`: its two halves are characterised by `TrimStartSpec` and `TrimEndSpec`; it is idempotent (`TrimIdempotent`) and leaves valid identifiers alone (`ValidTextIsTrimmed`) |
| Text.IsValidText | app.js:113 | `VALID_REGEX.test(v)`: holds exactly for non-empty strings over A-Z, a-z, 0-9, `_`, `-` (`ValidTextMeans`, `RunAccepts`) |
| Text.ParseInt | app.js:123-125 | `parseInt(s, 10)`: NaN exactly when no digit follows the white space and sign (`ParseIntFails`), otherwise the signed value of the leading digits (`ParseIntUnsigned`, `ParseIntNegative`, `ParseIntReadsNumeral`) |
| Text.ParseField | app.js:123-125 | one time field, an empty field reading as "0" (`EmptyTimeIsZero`, `TimeOfFields`, `TimeDecomposes`) |
| Geometry.InsideWorkZone | app.js:150-153 | `isInsideWorkZone`: everything passes without a zone; with one, exactly the points of the least box holding the vertices (`InsideWorkZoneMeans`, `BoundsAreLeast`, `BoxIsNotPolygon`) |
| WorkZone.Click | app.js:207-218 | one map click: this handler, then the one of lines 512-546 (`ClickEffect`, `ClicksStoreEachPointTwice`) |
| Mission.IsUniqueId | app.js:115-117 | `isUniqueId`: no path node and no dock has the id; a node passing it keeps ids distinct when pushed (`AppendKeepsIdsUnique`, `ReachableSessionsKeepIdsAndHome`) |
| Mission.DefaultMetadata | app.js:18-27 | the metadata at page load and after a clear: today's date, empty name and type, version "1.0", author "Unknown", no service location (`ExportAfterClear`) |
| Mission.InitialSession | app.js:4-27 | the globals at page load; valid (`InitialSessionIsValid`) |
| Mission.CaptureMetadata | app.js:276-279 | the first submission of a mission copies the trimmed mission name and the mission type (used by `Mission.CreateNode`'s contract) |
| Mission.ToggleMissionMode | app.js:177-187 | flips mission mode and nothing else; keeps the invariant (`ApplyPreservesValid`) |
| Mission.ResetSidePanel | app.js:158-172 | drops the pending position and nothing else; keeps the invariant (`ApplyPreservesValid`) |
| Mission.Clear | app.js:383-419 | a fresh session keeping only the mission-mode switch; valid from any session (`ClearedSessionIsValid`), exports as the empty mission (`ExportAfterClear`) |
| Mission.RecordServiceLocation | app.js:425-431 | the state change of an export; its metadata is `WithServiceLocation`'s, and the exported location is fixed by `ExportedServiceLocation` |
| Mission.ToggleWorkZone | app.js:494-510 | the work-zone button on the session (properties in `WorkZone.Toggle`) |
| Mission.MapClick | app.js:512-546 | a map click on the session, the zone changing as in `WorkZone.Click` (together with lines 207-218) |
| Exporter.PathEntryOf | app.js:452-468 | one `missionPath` entry; reads back as its node unless the task duration is 0 (`PathEntryRoundTrip`) |
| Exporter.DockEntryOf | app.js:469-477 | one `safetyDocks` entry (fields stated in `BuildExport`) |
| Exporter.ExportMission | app.js:424-478 | the whole export: service location recorded, then the document built (`ExportedServiceLocation`, `ExportAfterClear`) |

## Left out

- Rendering is not modelled: markers, tooltips, polylines as map layers, icons, the notification toast, button styling and the side panel's visibility. The model keeps only the point lists they show.
- Form fields that are cleared in the DOM (`resetSidePanel`, the clear button) are not modelled as state; the form is an input `NodeForm` per submission.
- The category `onchange` handler only toggles visibility and holds no state.
- The download is not modelled: `JSON.stringify`, `Blob`, the object URL and the anchor click. The exported value is the `ExportDocument` record and the file name.
- The clock is a parameter: `new Date().toISOString()` is passed as `isoNow`.
- Geodesic distance is an input predicate `near`: `map.distance` in metres, under 20. Coordinates are integers, not floating point.
- `Geometry.InsideWorkZone`: Leaflet's normalisation of the polygon ring is not modelled. The bounds are computed over the modelled vertex list.
- `Text.ParseInt`: there is no rounding of very large values to doubles, so number precision above 2^53 is not modelled.
- An unknown category (the select offers none) would make `L.marker` with an undefined icon fail in the browser. The model creates the node with type `Other`.
- The export button is disabled while mission mode is off (`exportBtn.disabled`). That gate is view logic, and `Exporter.ExportMission` can be applied in any state.
- A browser double-click also fires two single clicks. The model treats `dblclick` and `click` as independent events.
- Marker objects (`node.marker`) are not part of `MissionNode`.
- After a clear the script keeps a stale reference in `missionPathLine` to the removed layer. The model records that no line is shown.
