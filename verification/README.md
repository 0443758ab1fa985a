# Choir seating chart: a verified model of the grid builder

The chart builds a seating grid for a choir. It has four inputs:

- a count for each of the four parts (Soprano, Alto, Tenor, Bass);
- a number of rows;
- a layout mode: auto, condition1 or condition2.

A generation works in four steps:

1. It creates each part's members in order, named `S1, S2, …`, `A1, …`, `T1, …` and `B1, …`.
2. The layout mode decides which member streams go to which rows.
   - Alto then Soprano form the upper stream.
   - Bass then Tenor form the lower stream.
   - Auto mode with fewer than three rows uses a single stream of everyone.
3. Each stream is dealt round-robin over its rows. This is `flatInsert`.
4. Every row is centre-padded with empty cells to the length of the longest row.

Dragging one cell onto another swaps their contents.

The model is split into these modules:

- `Roster` (`roster.dfy`): the parts, the members, their display names and the headcount.
- `RoundRobin` (`round_robin.dfy`):
  - `FlatInsert`, an in-place loop over an array of rows;
  - `Deal`, the function it is proved against;
  - `Picked`, each row's share, and the stride and balance lemmas about it.
- `Padding` (`padding.dfy`): the width of the grid, centre padding, and `Compact`, which reads a row's members back.
- `Layout` (`layout.dfy`):
  - the three modes' plans;
  - `Generate`, and `GenerateMembers`, the imperative generator proved equal to it;
  - conservation, fault, shape, centring, round-robin and segregation theorems.
- `Seating` (`seating.dfy`): the chart held on screen, as the class `SeatingChart`, and the swap of `moveMember`.
- `Scenarios` (`scenarios.dfy`): worked grids computed exactly, including the chart as first shown (every cell of its three rows).
- `Options` (`options.dfy`): the `Option` type.

The functions that carry the model, and the source lines each one models:

- `Roster.PartList` builds one part's members (lines 35-54), and `Roster.Name` gives a member's display name (lines 37, 42, 47 and 52).
- `Roster.TotalCount` is the displayed headcount as written (line 114).
- `RoundRobin.Deal` and `RoundRobin.Picked` deal a stream over its target rows (lines 58-65).
- `Layout.Plan` gives the streams and target rows of each mode and row count (lines 67-86).
- `Layout.Generate` is the whole generation, with `None` for a throw (lines 34-96).
- `Padding.Width`, `Padding.PadRow` and `Padding.Pad` give the width and the centre padding (lines 88-94).
- `Seating.Swap` is the exchange inside `moveMember` (lines 103-111).

Some modelling decisions:

- **Faults are an error path.** In JavaScript, a push onto a row that does not exist throws. With an empty target list, `i % 0` is `NaN`, `targetRows[NaN]` is `undefined`, and the push onto `newRows[undefined]` throws (line 62). The model returns `None` in those cases, and the grid on screen stays as it was.
  - `Layout.GenerateFaults` says exactly when generation succeeds in each mode.
  - The source lets you reach a fault. Select condition2 with four rows, then lower the row count. The selector is disabled but keeps condition2. `Layout.Condition2NeedsFourRows` shows that generation then fails as soon as there is a Tenor or Bass member.
- **Inputs are integers.** The counts and the row count are `int`, because `parseInt` of a typed `-3` gives `-3`. `Array.from({length: n})` makes nothing when n is at or below zero, and `Clamp` models that.
- **Names are computed.** A member is its part and its 1-based ordinal, and its name is derived from them. The random `uuid` is not modelled.

## Behaviour worth noting

- **Auto with four or more rows.** The upper stream is dealt over rows 0, 1 and 2 only, and the lower stream onto row R-1. Rows 3 to R-2 stay empty (lines 77-79, `Layout.AutoMiddleRowsEmpty`).
- **When the grid is rebuilt.** Generation runs on mount (`useEffect` with an empty dependency list, lines 99-101) and when the regenerate button is pressed (line 225). Changing an input does not rebuild the grid, so `SeatingChart.Regenerate` is an explicit action.
- **Negative counts.** `parseInt(..) || 0` (line 153) keeps a typed negative count. It yields an empty part list, but it still enters the displayed headcount. See the finding below.
- **Layout faults.** A layout that does not fit its rows can be reached from the inputs (see above), so the model gives it an error path.

## Model

| member | source | states |
|---|---|---|
| Roster.RosterNames | choir-line/src/App.tsx:35-54 | A part's list has as many members as its count (none for a count at or below zero); the k-th has the part and the name letter + (k+1); names within a list are pairwise distinct |
| Roster.DecimalRoundTrip | choir-line/src/App.tsx:37 | The decimal numeral of an ordinal parses back to that ordinal |
| Roster.NameRoundTrip | choir-line/src/App.tsx:35-54 | A member's display name reads back to that member (part letter and ordinal) |
| Roster.NameInjective | choir-line/src/App.tsx:35-54 | Two members with the same display name are the same member |
| Roster.SeatedTotal | choir-line/src/App.tsx:114 | The headcount of generated members: the lengths of the four part lists added up |
| Roster.TotalCountAgrees | choir-line/src/App.tsx:114 | With no negative count, the displayed total equals the number of generated members |
| Roster.TotalCountMiscounts | choir-line/src/App.tsx:114 | Counts (-3, 5, 0, 0) display a total of 2, while 5 members are generated |
| RoundRobin.FlatInsert | choir-line/src/App.tsx:58-65 | The loop succeeds exactly when every position's target row exists; it then leaves the rows equal to Deal of the old rows |
| RoundRobin.Deal | choir-line/src/App.tsx:58-65 | Dealing keeps the number of rows |
| RoundRobin.DealRows | choir-line/src/App.tsx:58-65 | Each row ends as its old contents followed by exactly its round-robin share, in stream order |
| RoundRobin.PickedElsewhere | choir-line/src/App.tsx:61-62 | A row that is not a target receives nothing |
| RoundRobin.PickedFrom | choir-line/src/App.tsx:61-62 | Everything a row receives comes from the stream |
| RoundRobin.PickedStride | choir-line/src/App.tsx:58-65 | With k distinct targets, the j-th target row receives the members at positions j, j+k, j+2k, … in order: n/k of them, plus one if j < n mod k |
| RoundRobin.Balanced | choir-line/src/App.tsx:58-65 | Target rows differ by at most one member, and an earlier target never has fewer |
| RoundRobin.DealSeats | choir-line/src/App.tsx:58-65 | The dealt rows hold the old members plus exactly the stream's members (as multisets) |
| Padding.Width | choir-line/src/App.tsx:88 | The width is at least every row's length and equals some row's length; zero without rows |
| Padding.PadRowCells | choir-line/src/App.tsx:89-93 | A padded row has the given width: floor(diff/2) empty cells, the members in order, then diff - floor(diff/2) empty cells; the right padding is the left or one more |
| Padding.PadRowCompact | choir-line/src/App.tsx:89-93 | Dropping the empty cells of a padded row gives the row back |
| Padding.PadShape | choir-line/src/App.tsx:88-94 | Padding keeps the number of rows, gives every row the width of the longest, keeps each row's members in order, and the result is rectangular |
| Padding.PadRowCentred | choir-line/src/App.tsx:90-93 | A padded row, read on its own, has its members in one block with floor(empty/2) empty cells before it |
| Padding.PadCentred | choir-line/src/App.tsx:88-94 | Every row of a padded grid is centred in that sense |
| Padding.PadRowFull | choir-line/src/App.tsx:90-93 | A row already as wide as the grid gets no empty cell |
| Padding.PadFullRow | choir-line/src/App.tsx:88-94 | Some padded row has no empty cell |
| Layout.DealAll | choir-line/src/App.tsx:67-86 | Dealing the streams in turn keeps the number of rows when it succeeds |
| Layout.DealAllRows | choir-line/src/App.tsx:67-86 | After all streams, each row holds its share from each stream, stream by stream |
| Layout.DealAllSeats | choir-line/src/App.tsx:67-86 | After all streams, the rows hold the old members plus every streamed member |
| Layout.PlanStreamsEveryone | choir-line/src/App.tsx:67-86 | In every mode and row count, the streams together are exactly the generated members (as a multiset) |
| Layout.GenerateMembers | choir-line/src/App.tsx:34-96 | The imperative generator (part lists, fresh rows, one flatInsert per stream, with the source's if/else structure, padding) returns exactly Generate |
| Layout.GenerateSeatsEveryone | choir-line/src/App.tsx:34-96 | A successful generation seats every generated member exactly once; the number of occupied cells is SeatedTotal |
| Layout.FitsWhen | choir-line/src/App.tsx:61-62 | A stream fits iff it is empty, or its target list is non-empty and each target actually used exists |
| Layout.FitsPrefix | choir-line/src/App.tsx:81-84 | A stream over rows 0..m-1 fits iff it has no more members than rows, or m rows exist |
| Layout.TwoStreamsFit | choir-line/src/App.tsx:67-79 | The upper stream over rows 0..m-1 plus the lower onto row t succeed iff the upper fits and, if the lower has members, row t exists |
| Layout.GenerateFaults | choir-line/src/App.tsx:56-86 | Success iff, by mode — auto: at least one row or nobody to seat; condition1: the upper stream fits rows 0-1 and row 2 exists if Bass/Tenor is non-empty; condition2: the same with rows 0-2 and row 3 |
| Layout.GenerateSucceeds | choir-line/src/App.tsx:67-86 | Auto with one or more rows, condition1 with three or more, and condition2 with four or more always succeed |
| Layout.Condition2NeedsFourRows | choir-line/src/App.tsx:70-72 | Condition2 with fewer than four rows fails once there is a Tenor or Bass member |
| Layout.GenerateShape | choir-line/src/App.tsx:56-94 | A generated grid has max(rowCount, 0) rows, all of one length, and some row has no empty cell |
| Layout.GenerateCentred | choir-line/src/App.tsx:88-94 | Every generated row has its members in one centred block |
| Layout.PlanSeparated | choir-line/src/App.tsx:67-86 | In every mode, each stream's targets are distinct and no two streams share a row |
| Layout.GenerateRoundRobin | choir-line/src/App.tsx:58-86 | In a generated grid, the j-th target row of a stream holds that stream's members j, j+k, j+2k, … in order, and no one else |
| Layout.PlanParts | choir-line/src/App.tsx:67-86 | A member streamed to a row has a part that row may hold |
| Layout.GenerateSegregates | choir-line/src/App.tsx:67-86 | Every occupied cell holds a part its row may hold. Condition1 (and auto with three rows): rows 0-1 Alto/Soprano, row 2 Bass/Tenor. Condition2: rows 0-2 and row 3. Auto with four or more: rows 0-2 and the last row |
| Layout.AutoMiddleRowsEmpty | choir-line/src/App.tsx:77-79 | Auto with four or more rows leaves rows 3 to rowCount-2 entirely empty |
| Scenarios.ScenarioThreeRows | choir-line/src/App.tsx:74-76 | Counts S2 A2 T1 B1 over three auto rows give [A1 S1], [A2 S2], [B1 T1] |
| Scenarios.ScenarioNobody | choir-line/src/App.tsx:88-94 | No members over three rows give three empty rows |
| Scenarios.ScenarioTwoRows | choir-line/src/App.tsx:80-84 | One member per part over two auto rows give [A1 T1], [S1 B1] |
| Scenarios.DefaultChart | choir-line/src/App.tsx:24-31 | The initial chart (10/10/5/5, three rows, auto) is three rows of ten members with no empty cell |
| Scenarios.DefaultUpperRow | choir-line/src/App.tsx:74-75 | In the initial chart, row j (0 or 1) is exactly A(j+1), A(j+3), …, A(j+9), then S(j+1), S(j+3), …, S(j+9) |
| Scenarios.DefaultLowerRow | choir-line/src/App.tsx:76 | In the initial chart, row 2 is exactly B1 … B5, then T1 … T5 |
| Seating.Swap | choir-line/src/App.tsx:103-111 | The move keeps the grid's shape, exchanges the two cells' contents and leaves every other cell as it was |
| Seating.SwapTwice | choir-line/src/App.tsx:103-111 | Making the same move twice restores the grid |
| Seating.SwapSelf | choir-line/src/App.tsx:103-111 | Dropping a cell onto itself changes nothing |
| Seating.SwapSymmetric | choir-line/src/App.tsx:103-111 | Dragging a onto b gives the same grid as dragging b onto a |
| Seating.SwapKeepsOccupants | choir-line/src/App.tsx:103-111 | A move neither creates nor removes a member: the multiset of occupants is unchanged |
| Seating.SeatingChart.constructor | choir-line/src/App.tsx:32 | The chart starts with no rows, and is valid (all rows of one length) |
| Seating.SeatingChart.Regenerate | choir-line/src/App.tsx:96-101 | A successful generation replaces the whole grid with Generate's grid; a failed one leaves the grid as it was; either way all rows keep one length |
| Seating.SeatingChart.MoveMember | choir-line/src/App.tsx:103-111 | The grid becomes Swap of the old grid, the occupants are unchanged, and all rows keep one length |

## Left out

- Rendering, styling, row indentation and `maxCount` (line 113) are presentation only and are not modelled.
- The drag-and-drop library and touch handling are not modelled. `MoveMember` takes the two coordinates a drop supplies.
- React state and its hooks become the `SeatingChart` object. Generation on mount and on the button are the calls to `Regenerate`.
- Member ids from `uuid` are random. A member is identified by its part and ordinal instead.
- Input parsing (lines 153 and 173) is not modelled, since counts and the row count are taken as arbitrary integers. A row count of 0 cannot be typed (`|| 1`), but negative values can. The model covers every integer.
- `Math.max` of an empty list is `-Infinity`. That only happens with zero rows, where padding maps over nothing. `Padding.Width` gives 0 there, and the result, an empty grid, is the same.
- JavaScript exceptions become `None`. The source may already have pushed some members before it throws. The model discards that partial work, as the source does, because `setRows` is never reached.
- Seating.SeatingChart.MoveMember: the source copies every row and replaces the grid. The model updates the two rows in place. The resulting grid is the same, but object identity is not modelled.
- Seating.SeatingChart.MoveMember requires both coordinates to be in bounds. The source relies on drops only naming rendered cells. A drag still in flight while the grid is regenerated is not modelled, because the model has no concurrency.
- Counts above JavaScript's safe-integer range and array-length limits are not modelled, because integers here are unbounded.

## Findings

| source | as written | input that shows it | evidently intended | confidence | as-written member | corrected member |
|---|---|---|---|---|---|---|
| choir-line/src/App.tsx:114 | The displayed headcount adds the four raw counts | Soprano -3, Alto 5, Tenor 0, Bass 0: shows 2 while 5 members are generated and seated | The headcount of the members actually generated, with a negative count adding nothing | medium, not executed | Roster.TotalCountMiscounts | Roster.SeatedTotal |

The generation theorems use the corrected headcount. `Layout.GenerateSeatsEveryone` proves that the grid's occupied cells number exactly `SeatedTotal`.
