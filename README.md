# Hot map: a Dafny model of the view manager and the record pipeline

The hot map is a single-page tool. It reads a spreadsheet of technologies,
sorts them by how "hot" they are and draws each one as a coloured cell of an
SVG grid. A cell holds a title and a category. Some cells take up two grid
slots side by side. The page can then highlight cells ("should we sell?"),
mark cells with an icon ("widely used"), and redraw the map for a single
category.

The repository has two versions of this code:

- the current one, in `public/js/`;
- an older one, in `js/`.

Each version has a `ViewManager` (`view.js`) and a `HotMap` (`hotmap.js`).
Both versions are modelled here. They share one set of pure modules and each
has its own classes.

- `JsValues`: the JavaScript values the code depends on.
  - spreadsheet cells as strings, numbers or NaN;
  - lodash `_.trim`, and `parseInt` with no radix (decimal, or hexadecimal after `0x`);
  - strict equality and `indexOf`;
  - the `<` order of strings by character code, as `StrLt`;
  - `indexOf` for a substring.
- `TextLines`: how a cell's title and category are cut into lines.
  - `sliceString`, `reArrangeLines`, `String.prototype.split`.
- `Grid`: the geometry of the map.
  - the two `sizeMap` layouts;
  - the slots that `positionCells` generates, column by column;
  - the first-free-slot placement of `appendDataPoint`, as a pure run
    (`Run`) over the spans of the records.
- `Render`: what is drawn in a cell.
  - the hot fill or class, and the rect;
  - the title and description text elements;
  - the marker icons.
- `Records`: the records and the pure parts of the pipeline.
  - the `sortData` order (hot level, then title; stable);
  - the `countCells` spans and total;
  - the `updateDataPointsByType` filter;
  - the distinct categories passed on by `then`.
- `Highlight`: `resetLight`, `lighten`, `markIcon` and `removeIcons`, as
  functions of the working set.
- `PublicView.ViewManager` and `LegacyView.ViewManager`: classes.
  - Their fields are the map's size and its slot list (`_cellPositions`).
  - They also hold the cursor (`_positionIndex`).
  - Their methods update those fields in place, as the source does.
- `PublicHotMap.HotMap` and `LegacyHotMap.HotMap`: classes.
  - Their fields are the working set (`_dataPoints`) and the snapshot
    (`_allData`).
  - The current version also holds the icon data URIs (`_images`).
  - Each chained step is a method.
  - `DrawMap` sizes the map, generates the slots and draws every record in
    turn. It is proved against the pure placement run `Run`.

Each record's drawn SVG group (`cellInTheMap`) is a value: the record's
`cell` field. The highlight and marker operations rewrite that value.

The central results are these:

- Drawing the map places record `k` in slot `Run(...).placed[k]` of the
  generated grid. That slot was free when the record was placed.
- A double cell also takes the slot one column to the right, in the same row.
- When every record is a single cell and there are enough slots, records are
  placed in consecutive slots.
- The number of slots `sizeMap` provides is at least the number of cells, and
  less than that number plus one column.
- The sort orders records by hot level, then by title. It is a stable
  permutation. Running `sortData` again changes nothing.
- `lighten` lights exactly the drawn records whose field is one of the values.
  A second `lighten` overrides the first.
- `markIcon` adds at most one marker per cell. Marking twice is marking once.
  `removeIcons` undoes `markIcon`.
- Title lines are merged greedily. Merging keeps the words. No two adjacent
  merged lines fit into one.

## Model

| member | source | states |
|---|---|---|
| `Grid.TruncDiv` | public/js/view.js:121 | `parseInt` of a quotient truncates toward zero: Euclidean division for a non-negative dividend, 0 for a dividend in (-b, 0) |
| `Grid.CeilDivBounds` | public/js/view.js:122 | `Math.ceil(a / b)` as computed: `b * q >= a` and `b * (q - 1) < a` (or `q` is 0) |
| `Grid.PublicLayout` | public/js/view.js:114-130 | current `sizeMap`: columns never exceed the cell count; no column exactly when the usable width minus the 70-pixel legend has no room for one slot pitch (129), or there are no cells; otherwise the height is at least 500 and at least `129 * rows + 20`; with no column the height is 500 exactly when the usable width is under 70 pixels and there are cells, and not finite otherwise |
| `Grid.LegacyLayout` | js/view.js:78-89 | older `sizeMap`: columns are `width / 117`, and the height is `129 * rows` |
| `Grid.NarrowPublicLayouts` | public/js/view.js:121-123 | with cells, a usable width of 60 gives no column and a height of 500; a width of 100, or no cells, gives no column and no finite height |
| `Grid.LayoutFits` | public/js/view.js:121-122 | for both layouts with at least one column, `columns * rows` slots hold all cells and one row fewer would not |
| `Grid.SlotsShape` | public/js/view.js:135-146 | `positionCells` makes `columns * rows` slots, none occupied |
| `Grid.SlotAt` | public/js/view.js:137-143 | slot `i * rows + j` is at column `i` and row `j`: `(129 * i + offset, 129 * j + offset)` |
| `Grid.CompanionIsRightNeighbour` | public/js/view.js:263-265 | the slot `rows` further on, marked by a double cell, is the same row one column to the right |
| `Grid.FirstFree` | public/js/view.js:277-281 | the cursor loop stops at the first unoccupied slot at or after the cursor, or at the end |
| `Grid.Occupy` | public/js/view.js:263-282 | placing marks the chosen slot, and for a double cell the slot `rows` further; no other slot changes, and no slot moves |
| `Grid.Run` | public/js/hotmap.js:122-124 | drawing the records in order keeps the slot geometry and records one placement per record, each inside the grid |
| `Grid.RunNoOverlap` | public/js/view.js:263-291 | a drawing that starts from a board in the placement invariant with nothing placed, and does not throw, ends in the invariant; its placements strictly increase and lie before the final cursor; every record's slot, and a double cell's second slot, is occupied and inside the grid; no record lands on the second slot of an earlier double cell |
| `Grid.PlaceKeepsNoOverlap` | public/js/view.js:276-291 | one more `appendDataPoint` on such a board extends all of these facts to the new record |
| `Grid.FreshRunNoOverlap` | public/js/hotmap.js:118-124 | drawing every record on the freshly generated grid never takes a slot twice |
| `Grid.Cells` | public/js/view.js:263-265 | a record takes its own slot, and a double cell also the slot one column (`rows` slots) further on |
| `Grid.NoOverlapDisjoint` | public/js/view.js:263-291 | after such a drawing, the slots of two different records are disjoint |
| `Grid.PlaceTakesFreeSlots` | public/js/view.js:276-292 | while every slot before the cursor is taken and taken slots past it are companions less than a column ahead, the chosen slot and its companion are free, and the invariant holds again after the placement |
| `Grid.AppendFreeSlots` | public/js/view.js:137-143 | appending fresh unoccupied slots keeps the placement invariant |
| `Grid.SingleSpansFit` | public/js/view.js:276-292 | single cells on free slots never throw, and are placed in consecutive slots from the cursor |
| `Grid.DoubleCellInLastColumnThrows` | public/js/view.js:265 | on a 2 x 2 grid, a double cell after two single cells finds no companion slot: the drawing throws |
| `JsValues.TrimTrimmed` | public/js/view.js:167 | `_.trim` leaves no leading or trailing whitespace |
| `JsValues.TrimInfix` | public/js/view.js:167 | the trimmed text is a contiguous part of the input |
| `JsValues.TrimIdempotent` | public/js/view.js:172 | trimming a trimmed line changes nothing |
| `JsValues.ParseInt` | public/js/hotmap.js:103 | `parseInt` yields a number or NaN |
| `JsValues.ParseIntDigits` | public/js/hotmap.js:103 | `parseInt` of a string of decimal digits is its decimal value |
| `JsValues.ParseIntNegated` | public/js/hotmap.js:103 | `parseInt` of '-' followed by digits is the negated value |
| `JsValues.ParseIntDecimal` | public/js/hotmap.js:103 | `parseInt` of the decimal rendering of any integer gives that integer back |
| `JsValues.Coerce` | public/js/hotmap.js:103 | coercing a sheet value gives a number or NaN; a number is kept, and NaN is read back from the text "NaN" |
| `JsValues.CoerceIdempotent` | public/js/hotmap.js:102-104 | coercing twice is coercing once |
| `JsValues.IncludesNeverNaN` | public/js/hotmap.js:168 | `indexOf` compares strictly, so NaN is never found |
| `JsValues.StrLtIrreflexive` | public/js/hotmap.js:105 | no title sorts before itself |
| `JsValues.StrLtTransitive` | public/js/hotmap.js:105 | the title order is transitive |
| `JsValues.StrLtTotal` | public/js/hotmap.js:105 | any two different titles are ordered one way or the other |
| `JsValues.HasInfixSpec` | public/js/main.js:28 | `indexOf('and')` finds the substring exactly when it occurs at some position |
| `TextLines.Split` | public/js/view.js:170 | `split` yields at least one piece, and no piece holds the separator |
| `TextLines.SplitJoin` | public/js/view.js:170 | joining the pieces with the separator gives the text back |
| `TextLines.JoinSplit` | public/js/view.js:170 | splitting a join of separator-free pieces gives the pieces back |
| `TextLines.SliceString` | public/js/view.js:166-178 | the method computes `Slices`: a trimmed short text, or a double cell's text, as one line; otherwise the non-empty trimmed pieces |
| `TextLines.SlicesLines` | public/js/view.js:166-178 | an uncut text is the single trimmed line; every line is trimmed; cut lines hold no separator; cutting at a space leaves at least one line |
| `TextLines.KeptTrimmed` | public/js/view.js:170-173 | the kept pieces are all trimmed |
| `TextLines.FragmentsShape` | public/js/view.js:189-195 | a line without '/' is kept whole; a line with one becomes its '/'-slices but the last, each with '/' appended |
| `TextLines.ExpandLines` | public/js/view.js:187-199 | the first loop of `reArrangeLines` computes `Expand`, the fragments of each line in order |
| `TextLines.PushFragments` | public/js/view.js:191-195 | pushing a line's slices adds every slice but the last, each suffixed with '/' |
| `TextLines.ExpandAppend` | public/js/view.js:188-199 | the expansion of two line lists is the concatenation of their expansions |
| `TextLines.MergeLines` | public/js/view.js:201-214 | the merging loop computes `Merged` |
| `TextLines.MergeKeepsText` | public/js/view.js:205-212 | joined with spaces, the merged lines read as the fragments joined with spaces |
| `TextLines.MergeFirstLine` | public/js/view.js:206-211 | the first merged line is at least as long as the first fragment |
| `TextLines.MergeMaximal` | public/js/view.js:205-212 | any two adjacent merged lines together are longer than 10 characters |
| `TextLines.MergeBounded` | public/js/view.js:205-212 | every merged line is an original fragment or at most 11 characters long |
| `TextLines.ReArrangeLines` | public/js/view.js:186-217 | the method computes `ReArranged` |
| `TextLines.ReArrangedShape` | public/js/view.js:186-217 | there is always at least one line. The single line is `undefined` exactly when no fragment survives. Otherwise the lines keep the text and are greedily maximal |
| `TextLines.UndefinedTitleLine` | public/js/view.js:201-219 | a title line is `undefined` exactly when slicing and expansion leave nothing, and then it is the only line |
| `TextLines.SlashTitleDropsLastFragment` | public/js/view.js:188-199 | a long title `a/b` with no space is drawn as the single line `a/`: the slice after the last '/' is dropped |
| `TextLines.JavaNodeExample` | public/js/view.js:218 | the title "Java/Node.js" in a single-span cell is drawn as "Java/" alone |
| `TextLines.ThreeWordTitle` | public/js/view.js:201-215 | in a long title of three words, the first two share a line when their lengths sum to at most 10, and the third starts a new line when adding it would pass 10 |
| `TextLines.RubyOnRailsExample` | public/js/view.js:218 | the title "Ruby on Rails" is drawn as "Ruby on" and "Rails" |
| `TextLines.ShortSlashTitleExample` | public/js/view.js:166-199 | a title of at most 10 characters holding a '/' ("a/b") is not cut at spaces, and the '/' pass keeps nothing of it, so the only line is `undefined` |
| `Render.HotLevel` | public/js/view.js:155 | a hot level exists exactly when the coerced value is an integer from 1 to 5, and it is that integer |
| `Render.HotFill` | public/js/view.js:154-156 | the fill is defined exactly for levels 1 to 5, and is that level's colour |
| `Render.HotClass` | js/view.js:113-115 | the class is defined exactly for levels 1 to 5, and is that level's class |
| `Render.LevelsDistinct` | public/js/view.js:16-22 | different levels get different colours and different classes |
| `Render.CellWidth` | public/js/view.js:263-267 | a double cell is `2 * 117 + 12` wide, a single cell 117 |
| `Render.TitleLayout` | public/js/view.js:224-232 | one text per line, centred on the cell; lines 20 pixels apart, the first and last baselines summing to `2y + 90 + 4(n - 1)` (the block is centred on `y + 45 + 2(n - 1)`); font size exactly `26 - 3n` for a line of at most 10 characters and `21 - 3n` for a longer one |
| `Render.TitlesAboveDescription` | public/js/view.js:229-242 | up to four title lines sit above the first description line; from five lines on, the last overlaps it |
| `Render.WithIcon` | public/js/view.js:301-316 | after `appendIconIfNotExist` the group has the marker; a group that had one is unchanged; otherwise exactly one icon is appended |
| `Render.WithIconOnce` | public/js/view.js:301-304 | a group with at most one marker of the class has exactly one afterwards |
| `Render.WithIconIdempotent` | public/js/view.js:301-316 | appending the marker twice is appending it once |
| `Render.Without` | public/js/view.js:324 | removal leaves no icon of the class |
| `Render.WithoutKeepsOthers` | public/js/view.js:324 | removal keeps every icon of any other class |
| `Render.WithoutIcons` | public/js/view.js:323-325 | `removeIcon` leaves no marker and does not touch the rect, filter or texts |
| `Render.RemoveUndoesAppend` | public/js/view.js:301-325 | removing the markers after appending one is the same as removing them directly |
| `Records.Trichotomy` | public/js/hotmap.js:105 | under the (hot, title) keys any two records tie or one sorts first, never both |
| `Records.NotBeforeTransitive` | public/js/hotmap.js:105 | "not before" is transitive, so the order is a total preorder |
| `Records.SortByKeys` | public/js/hotmap.js:105 | the sort is a permutation of its input |
| `Records.SortSorts` | public/js/hotmap.js:105 | the sort's result is ordered by the keys and is a permutation of the input |
| `Records.SortStable` | public/js/hotmap.js:105 | records that tie keep their input order (the sort is stable) |
| `Records.SortKeepsSorted` | public/js/hotmap.js:105 | an ordered working set is left as it is |
| `Records.CoerceHotCoerced` | public/js/hotmap.js:102-104 | after the `parseInt` loop every hot value is a number or NaN |
| `Records.CoerceHotFixed` | public/js/hotmap.js:102-104 | the loop changes nothing on an already coerced working set |
| `Records.SortDataIdempotent` | public/js/hotmap.js:99-109 | running `sortData` on its own result changes nothing |
| `Records.CellSpanSpec` | public/js/main.js:27-29 | a record takes 2 slots exactly when its title contains "and", otherwise 1 |
| `Records.SpanSumBounds` | public/js/hotmap.js:138-143 | with spans of 1 or 2 the cell total lies between the record count and twice it, and equals the record count when all spans are 1 |
| `Records.OfCategory` | public/js/hotmap.js:213-215 | the filter keeps only records of the category, never more than it reads |
| `Records.OfCategoryMembers` | public/js/hotmap.js:213-215 | a record is kept exactly when it is in the snapshot and of the category |
| `Records.OfCategoryAppend` | public/js/hotmap.js:213-215 | the filter keeps snapshot order |
| `Records.UniqSpec` | public/js/hotmap.js:231-233 | `_.uniq` holds no duplicates, and exactly the categories of the working set |
| `Records.UniqPrefix` | public/js/hotmap.js:231-233 | `_.uniq` keeps first-occurrence order |
| `Highlight.Paint` | public/js/hotmap.js:154-155 | setting a filter keeps whether the record is drawn and every field of it |
| `Highlight.LightenExact` | public/js/hotmap.js:165-172 | after `lighten` a drawn record has the "on" filter exactly when its field is one of the values, the "off" filter otherwise, and nothing else changes |
| `Highlight.LightenForgets` | public/js/hotmap.js:165-172 | `lighten` does not depend on the highlight it finds |
| `Highlight.LightenOverrides` | public/js/hotmap.js:165-172 | a second `lighten` overrides the first; `resetLight` before `lighten` changes nothing |
| `Highlight.LightenNothing` | public/js/hotmap.js:168 | `lighten` with no values is `resetLight` |
| `Highlight.ResetIdempotent` | public/js/hotmap.js:152-158 | resetting twice is resetting once |
| `Highlight.MarkOne` | public/js/hotmap.js:183-184 | marking one record keeps its fields and whether it is drawn |
| `Highlight.UnmarkOne` | public/js/hotmap.js:195-196 | after `removeIcon` a drawn record has no marker |
| `Highlight.MarkIdempotent` | public/js/hotmap.js:180-187 | marking twice is marking once |
| `Highlight.MarkExact` | public/js/hotmap.js:180-187 | a drawn record strictly equal to the match ends with exactly one marker; every other record is unchanged; no group gets a second marker |
| `Highlight.MarkNaNNothing` | public/js/hotmap.js:183 | marking by NaN marks nothing |
| `Highlight.UnmarkUndoesMark` | public/js/hotmap.js:192-199 | `removeIcons` after `markIcon` is `removeIcons` alone |
| `PublicView.Placements` | public/js/hotmap.js:118-124 | a successful drawing on the sized grid places every record once |
| `PublicView.ViewManager.constructor` | public/js/view.js:24-35 | a new view has no cells, no columns, no rows, no height, no slots and the cursor at 0 |
| `PublicView.ViewManager.Init` | public/js/view.js:41-52 | `_init` empties the map (no columns, rows, height or slots; cursor 0) and keeps the cell count |
| `PublicView.ViewManager.SetNumberOfCells` | public/js/view.js:70-72 | sets the cell count and nothing else |
| `PublicView.ViewManager.SizeMap` | public/js/view.js:114-130 | the map's columns, rows and height become the current layout of the usable width; slots are emptied and the cursor reset |
| `PublicView.ViewManager.PositionCells` | public/js/view.js:135-146 | appends the slots of every column, each column top to bottom, offset by 10 pixels; keeps the placement invariant |
| `PublicView.ViewManager.PushColumn` | public/js/view.js:138-144 | the inner loop appends one column's slots |
| `PublicView.ViewManager.GenerateFill` | public/js/view.js:154-156 | returns the fill of the record's hot level |
| `PublicView.ViewManager.RenderCell` | public/js/view.js:255-270 | the rect sits at the slot, with the cell width, hot fill and `lighten` filter; a double cell also occupies the slot `rows` further on |
| `PublicView.ViewManager.RenderText` | public/js/view.js:165-246 | the title texts come from the rearranged title lines (`undefined` drawn as empty text); the description texts come from the category cut at '/' |
| `PublicView.ViewManager.TitleElements` | public/js/view.js:224-232 | the title loop makes the title text elements |
| `PublicView.ViewManager.DescElements` | public/js/view.js:237-245 | the description loop makes the description text elements |
| `PublicView.ViewManager.AppendDataPoint` | public/js/view.js:276-292 | takes the first free slot at or after the cursor, which is free with its companion; occupies it (and its companion); moves the cursor past it; returns the drawn group; keeps the invariant |
| `PublicView.ViewManager.TakeFreeSlot` | public/js/view.js:277-282 | the cursor advances to the first free slot, which is then taken |
| `PublicView.ViewManager.AppendIconIfNotExist` | public/js/view.js:301-316 | the group with the marker added unless it already has one |
| `PublicView.ViewManager.RemoveIcon` | public/js/view.js:323-325 | the group without its markers |
| `LegacyView.NotDrawableWhenNothingSurvives` | js/view.js:178-189 | a record cannot be drawn (its only title line is `undefined`, and reading its length throws) exactly when slicing and expanding its title leave nothing |
| `LegacyView.Placements` | js/hotmap.js:78-84 | a successful drawing on the sized grid places every record once |
| `LegacyView.ViewManager.constructor` | js/view.js:24-35 | a new view has no cells, no columns, no rows, no height, no slots and the cursor at 0 |
| `LegacyView.ViewManager.Init` | js/view.js:41-52 | `_init` empties the map and keeps the cell count |
| `LegacyView.ViewManager.SetNumberOfCells` | js/view.js:70-72 | sets the cell count and nothing else |
| `LegacyView.ViewManager.SizeMap` | js/view.js:78-89 | the map's columns, rows and height become the older layout of the SVG width; slots are emptied and the cursor reset |
| `LegacyView.ViewManager.PositionCells` | js/view.js:94-105 | appends the slots of every column, each column top to bottom, with no offset; keeps the placement invariant |
| `LegacyView.ViewManager.PushColumn` | js/view.js:97-103 | the inner loop appends one column's slots |
| `LegacyView.ViewManager.GenerateClass` | js/view.js:113-115 | returns the class of the record's hot level |
| `LegacyView.ViewManager.RenderCell` | js/view.js:213-226 | the rect sits at the slot, with the cell width, hot class and `inset-shadow` filter; a double cell also occupies the slot `rows` further on |
| `LegacyView.ViewManager.RenderText` | js/view.js:124-204 | the title texts come from the rearranged title lines; the description texts come from the category cut at '/' |
| `LegacyView.ViewManager.TitleElements` | js/view.js:183-190 | the title loop makes the title text elements |
| `LegacyView.ViewManager.DescElements` | js/view.js:195-203 | the description loop makes the description text elements |
| `LegacyView.ViewManager.AppendDataPoint` | js/view.js:232-248 | takes the first free slot at or after the cursor, which is free with its companion; occupies it (and its companion); moves the cursor past it; returns the drawn group; keeps the invariant |
| `LegacyView.ViewManager.TakeFreeSlot` | js/view.js:233-238 | the cursor advances to the first free slot, which is then taken |
| `LegacyView.ViewManager.AppendIconIfNotExist` | js/view.js:257-272 | the group with the `img/<name>` marker added unless it already has one |
| `LegacyView.ViewManager.RemoveIcon` | js/view.js:279-281 | the group without its markers |
| `PublicHotMap.ImageOf` | public/js/hotmap.js:184 | an icon's data URI is defined exactly when `fetchIndicator` stored one |
| `PublicHotMap.HotMap.constructor` | public/js/hotmap.js:20-29 | empty working set, snapshot and images, no error handler, and a fresh empty view |
| `PublicHotMap.HotMap.FetchDone` | public/js/hotmap.js:79-87 | with data, the working set and the snapshot become the data; without, nothing changes and the error is passed on |
| `PublicHotMap.HotMap.StoreIndicator` | public/js/hotmap.js:59-65 | the icon's data URI is stored under its name; nothing else changes |
| `PublicHotMap.HotMap.SortData` | public/js/hotmap.js:99-109 | the working set becomes `SortedData` of itself: hot values coerced, then sorted stably by (hot, title) |
| `PublicHotMap.HotMap.CountCells` | public/js/hotmap.js:135-147 | every record's span is set by the strategy, and the view's cell count becomes their sum |
| `PublicHotMap.HotMap.DrawMap` | public/js/hotmap.js:115-128 | the view gets the current layout; record `k` ends drawn at slot `placed[k]` of the placement run on the generated grid; the slots and cursor are the run's final state, and no slot is taken twice (`NoOverlap`) |
| `PublicHotMap.HotMap.DrawDataPoints` | public/js/hotmap.js:122-124 | drawing every record in order follows the placement run from the empty cursor, and keeps the map's size |
| `PublicHotMap.HotMap.DrawRecords` | public/js/hotmap.js:122-124 | the loop over the records keeps the drawn prefix in step with the placement run |
| `PublicHotMap.HotMap.DrawStep` | public/js/hotmap.js:123 | one `appendDataPoint` draws the next record at the run's next slot |
| `PublicHotMap.HotMap.ResetLight` | public/js/hotmap.js:152-158 | every drawn record's rect gets the `lighten` filter |
| `PublicHotMap.HotMap.Lighten` | public/js/hotmap.js:165-172 | the working set becomes `LightenAll` of itself, with the `lighten` filter for off and `inset-shadow` for on |
| `PublicHotMap.HotMap.MarkIcon` | public/js/hotmap.js:180-187 | matching drawn records get the marker with the stored data URI for the icon |
| `PublicHotMap.HotMap.RemoveIcons` | public/js/hotmap.js:192-199 | every drawn record loses its markers |
| `PublicHotMap.HotMap.UpdateDataPointsByType` | public/js/hotmap.js:206-218 | the working set becomes the whole snapshot for "*", otherwise the snapshot's records of that category |
| `PublicHotMap.HotMap.Error` | public/js/hotmap.js:243-245 | an error handler is installed; the records are untouched |
| `PublicHotMap.HotMap.Then` | public/js/hotmap.js:225-237 | the error handler is called exactly when one is installed and the error is truthy; otherwise the callback gets the working set and its distinct categories in first-occurrence order |
| `LegacyHotMap.HotMap.constructor` | js/hotmap.js:20-27 | empty working set and snapshot, no error handler, and a fresh empty view |
| `LegacyHotMap.HotMap.FetchDone` | js/hotmap.js:39-47 | with data, the working set and the snapshot become the data; without, nothing changes and the error is passed on |
| `LegacyHotMap.HotMap.SortData` | js/hotmap.js:59-69 | the working set becomes `SortedData` of itself |
| `LegacyHotMap.HotMap.CountCells` | js/hotmap.js:95-107 | every record's span is set by the strategy, and the view's cell count becomes their sum |
| `LegacyHotMap.HotMap.DrawMap` | js/hotmap.js:75-88 | the view gets the older layout; record `k` ends drawn at slot `placed[k]` of the placement run on the generated grid, and no slot is taken twice (`NoOverlap`) |
| `LegacyHotMap.HotMap.DrawDataPoints` | js/hotmap.js:82-84 | drawing every record in order follows the placement run, and keeps the map's size |
| `LegacyHotMap.HotMap.DrawRecords` | js/hotmap.js:82-84 | the loop over the records keeps the drawn prefix in step with the placement run |
| `LegacyHotMap.HotMap.DrawStep` | js/hotmap.js:83 | one `appendDataPoint` draws the next record at the run's next slot |
| `LegacyHotMap.HotMap.ResetLight` | js/hotmap.js:112-118 | every drawn record's group loses its filter |
| `LegacyHotMap.HotMap.Lighten` | js/hotmap.js:125-132 | the working set becomes `LightenAll` of itself, with no group filter for off and `lighten` for on |
| `LegacyHotMap.HotMap.MarkIcon` | js/hotmap.js:140-147 | matching drawn records get the `img/<name>` marker |
| `LegacyHotMap.HotMap.RemoveIcons` | js/hotmap.js:152-159 | every drawn record loses its markers |
| `LegacyHotMap.HotMap.UpdateDataPointsByType` | js/hotmap.js:166-178 | the working set becomes the whole snapshot for "*", otherwise the snapshot's records of that category |
| `LegacyHotMap.HotMap.Error` | js/hotmap.js:203-205 | an error handler is installed; the records are untouched |
| `LegacyHotMap.HotMap.Then` | js/hotmap.js:185-197 | the error handler is called exactly when one is installed and the error is truthy; otherwise the callback gets the working set and its distinct categories |

## Left out

- The spreadsheet download (Tabletop), the image download (`XMLHttpRequest`, `btoa`) and `_converterEngine`: network and browser I/O. `FetchDone` and `StoreIndicator` take the downloaded data as parameters.
- The task list and `async.waterfall`. Each queued step is a method called directly, and `Then` takes the error of the waterfall as a parameter. The emptying of `_functionStack` in `updateDataPointsByType` is not modelled.
- DOM and drawing effects: `setLoading`, `finishLoading`, `_drawLegend`, the SVG `width` and `height` attributes, `console.log`, the `text-anchor` and style strings. Text x positions are kept as reals (a centre at a half pixel).
- The SVG width and the float product `width * 0.94`: the usable width (current version) and the width (older version) are natural-number parameters of `SizeMap` and `DrawMap`.
- With no column, JavaScript computes `Infinity`, `-Infinity` or `NaN` rows. The model stores 0 rows and generates no slots. The height is `None` where JavaScript's height is `Infinity` or `NaN`. In the current `sizeMap`, a usable width under 70 pixels with cells gives `parseInt` `-0`, and the height `Math.max(-Infinity, 500)` is 500, which the model keeps.
- `Grid.CeilDivBounds`: `Math.ceil` of the quotient is computed by repeated subtraction. Its bounds are proved as a lemma and are not part of the layout functions' contracts.
- `Records.SortByKeys`: lodash's comparison of `NaN` hot values is not a consistent order. The model sorts every non-numeric hot value after all numbers, as equals.
- `JsValues.ParseInt`: integers are unbounded, so the rounding of JavaScript numbers at or beyond 2^53 is not modelled. Neither is the exponent notation that numbers of 10^21 and more are written in when a number is converted back to text.
- Object identity: `_.filter` returns records shared with `_allData`, and `cloneDeep` copies them. The model keeps records as values, so aliasing between the working set and the snapshot is not modelled.
- `JsValues.StrLt` compares by code point, which agrees with UTF-16 order only outside surrogate pairs.
- `TextLines.Cuts`, `TextLines.MergeFrom` and `Render.TitleFontSize`: JavaScript's `.length` counts UTF-16 code units, while the model's `|s|` counts characters. A character outside the Basic Multilingual Plane counts twice in JavaScript, so the `> 10` thresholds of public/js/view.js:168, 207 and 230 can differ on such text.
- `_numberOfAllCells` is `undefined` until `setNumberOfCells` is called; the model starts it at 0.
- `TextLines.FragmentsShape`: the last '/'-slice of a title line is dropped, as the code is written (public/js/view.js:191-195 has no `else` branch). The model keeps that behaviour. `TextLines.JavaNodeExample` shows it: "Java/Node.js" is drawn as "Java/" alone, where keeping the last slice would give "Java/" and "Node.js". `TextLines.ShortSlashTitleExample` shows a short title that keeps nothing.
- `PublicView.ViewManager.AppendDataPoint`: the cursor is incremented before the text is laid out, not after. The two are independent, so the result is the same.
- `PublicView.ViewManager.AppendDataPoint` and `LegacyView.ViewManager.AppendDataPoint` require a free slot at or after the cursor and, for a double cell, a companion slot inside the grid. The source throws a `TypeError` otherwise; that throw is not modelled as a result.
- `PublicView.ViewManager.TakeFreeSlot` and `LegacyView.ViewManager.TakeFreeSlot`: the cursor loop of `appendDataPoint` is a method of its own.
- `PublicHotMap.HotMap.DrawStep` and `LegacyHotMap.HotMap.DrawStep`: `appendDataPoint` sets `point.cellInTheMap = group` itself; in the model, the hot map's loop stores the returned group in the record.
- `PublicHotMap.HotMap.DrawMap` requires that no placement throws (`Placements` is defined); the throwing drawings are not modelled as results. `Grid.DoubleCellInLastColumnThrows` exhibits one.
- `LegacyHotMap.HotMap.DrawMap` also requires every record to be drawable. In the older version a title whose only line is `undefined` throws at js/view.js:189 (`LegacyView.NotDrawableWhenNothingSurvives`).
- `LegacyView.ViewManager.RenderText` requires a drawable record, for the same reason.
- The sort keys and field names come from a configuration object in the source. The model uses fixed fields: hot level, title, category, saleability, readiness.
- The span strategy is any function from records to natural numbers. `Records.CellSpan` is the one the page passes.
- An error is truthy when it is present and not the empty string; other falsy error values are not modelled.
- The controller, the exporter and the page's event wiring are not part of this model.
