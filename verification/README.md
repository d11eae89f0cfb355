# Route finder widget: classification and rendering of route results

This project is a Dafny model of the one piece of logic in the route finder's
browser front end (`frontend/index.js`). That logic lives in `displayResults`
and at the top of the search button's click handler. The model covers:

- **Validation.** The origin and destination inputs are trimmed and
  upper-cased. If either ends up empty, the widget shows
  "Origin and Destination are required." and the route lookup is never
  called.
- **Classification.** Every route record goes into exactly one of four
  groups. The group depends on substring tests on the record's optional
  `Source` field, tried in priority order: "Preferred", then "No Coord",
  then "CDR", and otherwise "Other".
- **Rendering.** Each route becomes one table row. The Route and Type cells
  fall back to "N/A". The Notes cell falls back from `Restrictions` to
  `Justification` to the empty string. Each non-empty group is rendered as a
  titled table, and the tables appear in a fixed order. An empty route list
  shows only a "No routes found" placeholder.

Modules, one per concern:

| file | module | contents |
|---|---|---|
| `wrappers.dfy` | `Wrappers` | `Option` for missing record fields, `Result` for validation |
| `text.dfy` | `Text` | `includes` (`Includes`, specified by `Contains`), `trim` (`Trim`), ASCII `toUpperCase` (`ToUpper`) |
| `routes.dfy` | `Routes` | the `Route` record, JavaScript truthiness and `\|\|`, `Classify`, the reference grouping `Filter`, the grouping pass `GroupRoutes`, and partition and order lemmas |
| `render.dfy` | `Render` | rows with fallbacks, `Layout` (placeholder or ordered tables), the HTML text, and `CreateTableHtml` / `DisplayRoutes`, which mirror the source's string building |
| `widget.dfy` | `Widget` | `Validate`, `Click` (the sequence of displays), the lookup as a parameter, and the mocked data of the source as a worked example |

Each JavaScript field that may be `undefined` is an `Option<string>`.
JavaScript truthiness (`Truthy`) treats both `None` and `Some("")` as false.
This is what `||` does in the row fallbacks (lines 48-50). Optional chaining
`route.Source?.includes(...)` (lines 33-37) stops only on a missing field, so
an empty `Source` is still searched (`SourceIncludes`). The route lookup is an
external collaborator, so it appears as a function parameter
`Query -> LookupOutcome`. The mocked answer in the source is the constant
`Widget.MockRoutes`.

Two details of the code that the model keeps:

- Notes uses JavaScript truthiness, so an empty `Restrictions` falls
  through to `Justification` (line 50).
- A lookup error shows `Error: ` followed by its message (line 106).

## Model

| member | source | states |
|---|---|---|
| Text.Includes | frontend/index.js:33-37 | `s.includes(sub)` is true exactly when `sub` occurs in `s` as a contiguous block (the empty string occurs everywhere) |
| Text.Trim | frontend/index.js:67-68 | the trimmed string is `s` with its whitespace margins cut off: no whitespace at either end, and it is empty exactly when `s` is all whitespace |
| Text.ToUpper | frontend/index.js:67-68 | upper-casing keeps the length, leaves no lower-case ASCII letter, and changes nothing else |
| Text.TrimIdempotent | frontend/index.js:67-68 | trimming an already trimmed string changes nothing |
| Text.ToUpperKeepsTrimmed | frontend/index.js:67-68 | trimming then upper-casing gives a string that is already trimmed |
| Routes.Classify | frontend/index.js:33-41 | a route's group is the first group, in priority order, whose test accepts it: that group's test accepts, and every earlier test rejects |
| Routes.ClassifyIsFirstMatch | frontend/index.js:33-41 | any group that accepts a route while every earlier test rejects it is that route's group, so the group is unique |
| Routes.PreferredBeatsCdr | frontend/index.js:33-38 | a Source that contains both "Preferred" and "CDR" puts the route in the preferred group |
| Routes.NoCoordinationBeatsCdr | frontend/index.js:35-38 | a Source that contains "No Coord" and "CDR" but not "Preferred" puts the route in the no-coordination group |
| Routes.OtherIffNoMarker | frontend/index.js:33-41 | a route is in the Other group exactly when it has no Source or its Source contains none of the three markers |
| Routes.FilterSelects | frontend/index.js:32-42 | each group holds exactly the input routes of that group, taken at strictly increasing input positions, so input order is kept |
| Routes.SelectionIsFilter | frontend/index.js:32-42 | any order-preserving selection of exactly one group's routes equals that group, so the group is unique |
| Routes.PartitionMultiset | frontend/index.js:32-42 | together the four groups hold the input routes as a multiset: no route is lost or duplicated |
| Routes.PartitionSizes | frontend/index.js:32-42 | the four group sizes add up to the number of input routes |
| Routes.FilterMembership | frontend/index.js:32-42 | a route is in group `b` exactly when it is in the input and classifies as `b` |
| Routes.GroupRoutes | frontend/index.js:25-42 | the single forward pass that pushes each route onto its group gives exactly the reference groups |
| Render.RowOf | frontend/index.js:48-50 | the Route and Type cells show the field, or "N/A" when it is missing or empty; Notes shows Restrictions if non-empty, else Justification if non-empty, else "" |
| Render.Layout | frontend/index.js:20-22 | the placeholder is shown exactly when the route list is empty |
| Render.LayoutWellFormed | frontend/index.js:44-60 | every table shown is non-empty, lists its group's rows in input order, and tables come in strictly increasing display order |
| Render.LayoutComplete | frontend/index.js:45-60 | a non-empty route list shows at least one table, and every non-empty group has a table |
| Render.LayoutShowsEveryRoute | frontend/index.js:32-60 | over all tables, the rows shown for a non-empty list are the routes' rows as a multiset: each route is shown in exactly one row, none is added, and the row total is the number of routes |
| Render.PlaceholderHasNoTable | frontend/index.js:20-22 | the placeholder text contains no `<h3>` heading and no `<table>` |
| Render.AppendRows | frontend/index.js:47-52 | appending one row per route (the cells of `RowOf`) in a loop gives the rows' HTML in input order |
| Render.CreateTableHtml | frontend/index.js:44-55 | an empty group gives the empty string; otherwise the table opens with the `<h3>` heading for its title, then its rows, then closing tags |
| Render.TablesOfHtml | frontend/index.js:57-60 | the HTML of the tables is the four group tables concatenated in the order Preferred, No Coordination, Coordination Required, Other |
| Render.DisplayRoutes | frontend/index.js:19-62 | the string the source builds equals the HTML of the layout: the placeholder for an empty list, else the ordered tables |
| Widget.Normalize | frontend/index.js:67-68 | the normalized input is the input between its whitespace margins, upper-cased; it is empty exactly when the input is all whitespace, and it is trimmed and has no lower-case ASCII letter |
| Widget.Validate | frontend/index.js:67-73 | validation fails, with "Origin and Destination are required.", exactly when one input is all whitespace; otherwise the query holds the trimmed, upper-cased inputs |
| Widget.ValidQueryIsNormal | frontend/index.js:67-70 | inputs that are not all whitespace pass validation, and the resulting query is non-empty, trimmed and free of lower-case ASCII letters |
| Widget.DisplayHtml | frontend/index.js:15-22 | the "No routes found" placeholder appears exactly for an empty route list: no error or loading paragraph and no table HTML equals it |
| Widget.Answer | frontend/index.js:101-106 | the answer is an error exactly when the lookup failed; found routes are shown as they are, and a failure shows `Error: ` then its message, which never equals the validation message |
| Widget.Click | frontend/index.js:66-107 | the click handler shows one or two displays, and the final one is an error exactly when validation fails or the lookup fails |
| Widget.InvalidInputSkipsLookup | frontend/index.js:70-73 | an empty input shows only the validation message, and the result does not depend on the lookup |
| Widget.ValidInputAsksLookup | frontend/index.js:75-106 | valid input shows the loading message, then the answer of the lookup for the trimmed, upper-cased inputs |
| Widget.MockLayout | frontend/index.js:88-92 | the mocked routes render as three one-row tables, Preferred, No Coordination and Coordination Required, in that order, with no Other table |
| Widget.MockSearch | frontend/index.js:86-102 | searching JFK to MIA against the mocked lookup shows the loading message, then the mocked routes |

## Left out

- DOM access and event wiring (lines 1-6, 14, 62 and 66) are browser plumbing. The model returns strings and display values instead of assigning `innerHTML`.
- The current-year footer (lines 9-11) reads the clock and is not modelled.
- The network call is not modelled: the simulated delay, the commented-out `fetch`, the fake response object and the `json()` promises (lines 77-95 and 101). The lookup is a function parameter, and the mocked data is the constant `Widget.MockRoutes`.
- The `!response.ok` branch (lines 96-99) is left out. It needs a JSON error body and a formatted HTTP status, and it cannot run with the mocked response. A failed lookup is modelled as `Failed(message)`, which renders as "Error: " followed by the message (line 106).
- `console.error` (line 105) is not modelled.
- The model has no `undefined` error message. The source would render it as "Error: undefined".
- `displayResults` called with type `routes` but with data that is not an array (line 19) only clears the area. The model always receives a route list, because the shape of the parsed JSON is outside the model.
- Record fields that hold non-string JSON values are out of scope. Every field is an optional string.
- Overlapping clicks while a lookup is still pending are not modelled. The model has no concurrency.
- Text.ToUpper: covers only the ASCII letters. JavaScript's full Unicode case mapping, including mappings that change length, is not modelled.
- HTML escaping: the source inserts cell and message text into the HTML verbatim, and so does the model.
