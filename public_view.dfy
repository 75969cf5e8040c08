/**
 * `ViewManager` of the current version (public/js/view.js): sizes the map,
 * generates the slots, places each record in the first free slot at or after
 * the cursor, and draws its cell.
 */
module PublicView {
  import opened JsValues
  import opened TextLines
  import opened Grid
  import opened Render
  import opened Records

  /** Slots are shifted 10 pixels right and down. */
  const OFFSET: int := 10

  /** `line || ''`: an undefined title line is drawn as empty text. */
  function Shown(line: Line): string
  {
    if line.Text? then line.s else ""
  }

  function ShownLines(lines: seq<Line>): seq<string>
  {
    seq(|lines|, k requires 0 <= k < |lines| => Shown(lines[k]))
  }

  /** The group drawn for `point` in the slot at `(x, y)`: a rect one or two slots
      wide, filled by hot level and lightened, the title lines and the
      description lines (the category cut at '/'), and no marker. */
  function CellGroup(point: Record, x: int, y: int): Group
  {
    Group(Rect(x, y, CellWidth(point.span), EDGE_LENGTH, Fill(HotFill(point.hot)), Some(Lighten)),
          None,
          TitleTexts(ShownLines(TitleLines(point.title, point.span)), x, y, point.span),
          DescTexts(Slices(point.category, '/', point.span), x, y, point.span),
          [])
  }

  /** The placements `drawMap` makes for records of these spans, on the grid that
      `sizeMap` and `positionCells` build from the usable width and the number of
      cells; `None` when a placement throws. */
  function Placements(usable: nat, total: nat, spans: seq<nat>): (r: Option<Board>)
    ensures r.Some? ==> |r.value.placed| == |spans|
  {
    var l := PublicLayout(usable, total);
    Run(Board(Slots(l.columns, l.rows, OFFSET), 0, []), l.rows, spans)
  }

  /** `point` after `appendDataPoint` has drawn it in slot `p`. */
  function DrawnAt(point: Record, slots: seq<Slot>, p: nat): Record
    requires p < |slots|
  {
    point.(cell := Some(CellGroup(point, slots[p].x, slots[p].y)))
  }

  /** The records `ds` are the records `d0` with the first `i` drawn in the slots
      `placed` of `grid`, and the rest as they were. */
  predicate DrawnPrefix(ds: seq<Record>, d0: seq<Record>, grid: seq<Slot>, placed: seq<nat>, i: nat)
  {
    i <= |ds| == |d0| && |placed| == i &&
    (forall k :: 0 <= k < i ==> placed[k] < |grid| && ds[k] == DrawnAt(d0[k], grid, placed[k])) &&
    (forall k :: i <= k < |ds| ==> ds[k] == d0[k])
  }

  /** Drawing the next record in slot `p` extends the drawn prefix by one. */
  lemma DrawnPrefixNext(ds: seq<Record>, d0: seq<Record>, grid: seq<Slot>, placed: seq<nat>, i: nat, p: nat)
    requires DrawnPrefix(ds, d0, grid, placed, i) && i < |d0| && p < |grid|
    ensures DrawnPrefix(ds[i := DrawnAt(d0[i], grid, p)], d0, grid, placed + [p], i + 1)
  {
  }

  /** The records `ds`, the slots and the cursor are what drawing the first `i`
      records of `d0` on `grid` leaves. */
  ghost predicate DrawnOnBoard(grid: seq<Slot>, rows: nat, d0: seq<Record>, i: nat,
                               ds: seq<Record>, slots: seq<Slot>, cursor: nat)
  {
    var b0 := Board(grid, 0, []);
    i <= |d0| && Run(b0, rows, Spans(d0)[..i]).Some? &&
    var m := Run(b0, rows, Spans(d0)[..i]).value;
    slots == m.slots && cursor == m.cursor && DrawnPrefix(ds, d0, grid, m.placed, i)
  }

  /** When all the records can be drawn, the next one is drawn in the first free
      slot, whose coordinates are those of the grid. */
  lemma DrawnOnBoardNext(grid: seq<Slot>, rows: nat, d0: seq<Record>, i: nat,
                         ds: seq<Record>, slots: seq<Slot>, cursor: nat)
    requires DrawnOnBoard(grid, rows, d0, i, ds, slots, cursor) && i < |d0|
    requires Run(Board(grid, 0, []), rows, Spans(d0)).Some?
    ensures Placeable(slots, cursor, rows, d0[i].span)
    ensures var p := FirstFree(slots, cursor);
      p < |grid| && slots[p].x == grid[p].x && slots[p].y == grid[p].y && ds[i] == d0[i] &&
      DrawnOnBoard(grid, rows, d0, i + 1, ds[i := DrawnAt(d0[i], grid, p)],
                   Occupy(slots, p, d0[i].span, rows), p + 1)
  {
    var b0 := Board(grid, 0, []);
    var spans := Spans(d0);
    RunNext(b0, rows, spans, i);
    var m := Run(b0, rows, spans[..i]).value;
    var p := FirstFree(m.slots, m.cursor);
    assert spans[i] == d0[i].span;
    DrawnPrefixNext(ds, d0, grid, m.placed, i, p);
  }

  /** Nothing is drawn before the loop starts. */
  lemma DrawnOnBoardStart(grid: seq<Slot>, rows: nat, d0: seq<Record>)
    ensures DrawnOnBoard(grid, rows, d0, 0, d0, grid, 0)
  {
    assert Spans(d0)[..0] == [];
  }

  /** Once every record is drawn, the slots, the cursor and the records are those
      of the whole run. */
  lemma DrawnOnBoardAll(grid: seq<Slot>, rows: nat, d0: seq<Record>,
                        ds: seq<Record>, slots: seq<Slot>, cursor: nat)
    requires DrawnOnBoard(grid, rows, d0, |d0|, ds, slots, cursor)
    ensures Run(Board(grid, 0, []), rows, Spans(d0)).Some?
    ensures var r := Run(Board(grid, 0, []), rows, Spans(d0)).value;
      slots == r.slots && cursor == r.cursor && |ds| == |d0| &&
      forall k :: 0 <= k < |ds| ==> ds[k] == DrawnAt(d0[k], grid, r.placed[k])
  {
    assert Spans(d0)[..|d0|] == Spans(d0);
  }

  /** What `drawMap` leaves for the records `d0`: the slots and the cursor of their
      placements on the grid built for the usable width and `total` cells, no slot
      taken twice (`NoOverlap`), and each record drawn as its group in the slot
      it was placed in. */
  ghost predicate MapDrawn(usable: nat, total: nat, d0: seq<Record>, ds: seq<Record>, slots: seq<Slot>, cursor: nat)
  {
    var l := PublicLayout(usable, total);
    var r := Placements(usable, total, Spans(d0));
    r.Some? && slots == r.value.slots && cursor == r.value.cursor && |ds| == |d0| &&
    NoOverlap(r.value, l.rows, Spans(d0)) &&
    forall k :: 0 <= k < |ds| ==> ds[k] == DrawnAt(d0[k], Slots(l.columns, l.rows, OFFSET), r.value.placed[k])
  }

  /** The loop's final state on the grid of the layout is what `drawMap` promises. */
  lemma DrawnOnBoardMap(usable: nat, total: nat, grid: seq<Slot>, rows: nat,
                        d0: seq<Record>, ds: seq<Record>, slots: seq<Slot>, cursor: nat)
    requires var l := PublicLayout(usable, total); grid == Slots(l.columns, l.rows, OFFSET) && rows == l.rows
    requires DrawnOnBoard(grid, rows, d0, |d0|, ds, slots, cursor)
    ensures MapDrawn(usable, total, d0, ds, slots, cursor)
  {
    DrawnOnBoardAll(grid, rows, d0, ds, slots, cursor);
    var l := PublicLayout(usable, total);
    FreshRunNoOverlap(l.columns, l.rows, OFFSET, Spans(d0));
  }

  class ViewManager {
    var numberOfAllCells: nat
    var numberOfColumns: nat
    var numberOfRows: nat
    var height: Option<int>
    var cellPositions: seq<Slot>
    var positionIndex: nat
    /** Every slot before the cursor is taken, and taken slots past it are second
        halves of double cells less than a column ahead. */
    ghost predicate Valid()
      reads this
    {
      Placing(cellPositions, positionIndex, numberOfRows)
    }

    constructor ()
      ensures Valid()
      ensures numberOfAllCells == 0 && numberOfColumns == 0 && numberOfRows == 0 && height == None
      ensures cellPositions == [] && positionIndex == 0
    {
      numberOfAllCells := 0;
      numberOfColumns := 0;
      numberOfRows := 0;
      height := None;
      cellPositions := [];
      positionIndex := 0;
    }

    /** `_init`: an empty map with no slots and the cursor at 0. */
    method Init()
      modifies this
      ensures Valid()
      ensures numberOfColumns == 0 && numberOfRows == 0 && height == None
      ensures cellPositions == [] && positionIndex == 0
      ensures numberOfAllCells == old(numberOfAllCells)
    {
      height := None;
      numberOfColumns := 0;
      numberOfRows := 0;
      cellPositions := [];
      positionIndex := 0;
    }

    method SetNumberOfCells(n: nat)
      modifies this
      ensures numberOfAllCells == n
      ensures numberOfColumns == old(numberOfColumns) && numberOfRows == old(numberOfRows) && height == old(height)
      ensures cellPositions == old(cellPositions) && positionIndex == old(positionIndex)
    {
      numberOfAllCells := n;
    }

    /** `sizeMap`: start from an empty map, then take the layout of the usable width
        (the SVG width times 0.94) for the number of cells. */
    method SizeMap(usable: nat)
      modifies this
      ensures Valid()
      ensures var l := PublicLayout(usable, numberOfAllCells);
        numberOfColumns == l.columns && numberOfRows == l.rows && height == l.height
      ensures cellPositions == [] && positionIndex == 0
      ensures numberOfAllCells == old(numberOfAllCells)
    {
      Init();
      numberOfColumns := Min(TruncDiv(usable - 70, PITCH), numberOfAllCells);
      if numberOfColumns == 0 {
        numberOfRows := 0;
        height := if usable < 70 && numberOfAllCells > 0 then Some(500) else None;
      } else {
        numberOfRows := CeilDiv(numberOfAllCells, numberOfColumns);
        height := Some(Max(PITCH * numberOfRows + 20, 500));
      }
    }

    /** `positionCells`: push the slots column by column. */
    method PositionCells()
      requires Valid()
      modifies this
      ensures Valid()
      ensures cellPositions == old(cellPositions) + Slots(numberOfColumns, numberOfRows, OFFSET)
      ensures numberOfAllCells == old(numberOfAllCells) && numberOfColumns == old(numberOfColumns)
      ensures numberOfRows == old(numberOfRows) && height == old(height)
      ensures positionIndex == old(positionIndex)
    {
      var i := 0;
      while i < numberOfColumns
        invariant 0 <= i <= numberOfColumns
        invariant cellPositions == old(cellPositions) + Slots(i, numberOfRows, OFFSET)
        invariant Valid()
        invariant numberOfAllCells == old(numberOfAllCells) && numberOfColumns == old(numberOfColumns)
        invariant numberOfRows == old(numberOfRows) && height == old(height)
        invariant positionIndex == old(positionIndex)
      {
        PushColumn(i);
        i := i + 1;
      }
    }

    /** The inner loop of `positionCells`: one column of free slots. */
    method PushColumn(i: nat)
      requires Valid()
      modifies this
      ensures Valid()
      ensures cellPositions == old(cellPositions) + Column(i, numberOfRows, OFFSET)
      ensures numberOfAllCells == old(numberOfAllCells) && numberOfColumns == old(numberOfColumns)
      ensures numberOfRows == old(numberOfRows) && height == old(height)
      ensures positionIndex == old(positionIndex)
    {
      var j := 0;
      while j < numberOfRows
        invariant 0 <= j <= numberOfRows
        invariant cellPositions == old(cellPositions) + Column(i, numberOfRows, OFFSET)[..j]
        invariant Valid()
        invariant numberOfAllCells == old(numberOfAllCells) && numberOfColumns == old(numberOfColumns)
        invariant numberOfRows == old(numberOfRows) && height == old(height)
        invariant positionIndex == old(positionIndex)
      {
        AppendFreeSlots(cellPositions, positionIndex, numberOfRows, [Slot(i * PITCH + OFFSET, j * PITCH + OFFSET, false)]);
        cellPositions := cellPositions + [Slot(i * PITCH + OFFSET, j * PITCH + OFFSET, false)];
        j := j + 1;
      }
    }

    /** `_generateFill`: the colour of the record's hot level, if it has one. */
    method GenerateFill(point: Record) returns (colour: Option<string>)
      ensures colour == HotFill(point.hot)
    {
      colour := HotFill(point.hot);
    }

    /** `_renderCell`: the rect, and for a double cell the second slot taken. */
    method RenderCell(position: Slot, point: Record) returns (rect: Rect)
      requires positionIndex < |cellPositions| && (point.span > 1 ==> positionIndex + numberOfRows < |cellPositions|)
      modifies this
      ensures numberOfAllCells == old(numberOfAllCells) && numberOfColumns == old(numberOfColumns)
      ensures numberOfRows == old(numberOfRows) && height == old(height) && positionIndex == old(positionIndex)
      ensures rect == Rect(position.x, position.y, CellWidth(point.span), EDGE_LENGTH, Fill(HotFill(point.hot)), Some(Lighten))
      ensures point.span > 1 ==> cellPositions == Take(old(cellPositions), positionIndex + numberOfRows)
      ensures point.span <= 1 ==> cellPositions == old(cellPositions)
    {
      var width := EDGE_LENGTH;
      if point.span > 1 {
        width := EDGE_LENGTH * 2 + MARGIN;
        cellPositions := Take(cellPositions, positionIndex + numberOfRows);
      }
      var fill := GenerateFill(point);
      rect := Rect(position.x, position.y, width, EDGE_LENGTH, Fill(fill), Some(Lighten));
    }

    /** `_renderText`: the title lines (cut at spaces, then at '/', then merged),
        and the description lines (cut at '/'), positioned in the cell at `position`. */
    method RenderText(position: Slot, point: Record) returns (titles: seq<TextElement>, descs: seq<TextElement>)
      ensures titles == TitleTexts(ShownLines(TitleLines(point.title, point.span)), position.x, position.y, point.span)
      ensures descs == DescTexts(Slices(point.category, '/', point.span), position.x, position.y, point.span)
    {
      var words := SliceString(point.title, ' ', point.span);
      var lines := ReArrangeLines(words, point.span);
      titles := TitleElements(lines, position, point.span);
      var specLines := SliceString(point.category, '/', point.span);
      descs := DescElements(specLines, position, point.span);
    }

    /** The title loop of `_renderText`. */
    method TitleElements(lines: seq<Line>, position: Slot, span: int) returns (titles: seq<TextElement>)
      ensures titles == TitleTexts(ShownLines(lines), position.x, position.y, span)
    {
      titles := [];
      var k := 0;
      while k < |lines|
        invariant 0 <= k <= |lines|
        invariant titles == TitleTexts(ShownLines(lines), position.x, position.y, span)[..k]
      {
        var line := if lines[k].Text? then lines[k].s else "";
        titles := titles + [TextElement(line, CenterX(position.x, span), TitleY(position.y, |lines|, k),
                                        TitleFontSize(|lines|, |line|))];
        k := k + 1;
      }
    }

    /** The description loop of `_renderText`. */
    method DescElements(specLines: seq<string>, position: Slot, span: int) returns (descs: seq<TextElement>)
      ensures descs == DescTexts(specLines, position.x, position.y, span)
    {
      descs := [];
      var k := 0;
      while k < |specLines|
        invariant 0 <= k <= |specLines|
        invariant descs == DescTexts(specLines, position.x, position.y, span)[..k]
      {
        descs := descs + [TextElement(specLines[k], CenterX(position.x, span), DescY(position.y, k), 15)];
        k := k + 1;
      }
    }

    /** `appendDataPoint`: move the cursor to the first free slot, take it (and for
        a double cell the slot one column to the right), draw the cell there and
        leave the cursor one past it. The slots taken were free: no slot is taken
        twice. */
    method AppendDataPoint(point: Record) returns (group: Group)
      requires Valid()
      requires Placeable(cellPositions, positionIndex, numberOfRows, point.span)
      modifies this
      ensures numberOfAllCells == old(numberOfAllCells) && numberOfColumns == old(numberOfColumns)
      ensures numberOfRows == old(numberOfRows) && height == old(height)
      ensures Valid()
      ensures var p := FirstFree(old(cellPositions), old(positionIndex));
        !old(cellPositions)[p].occupied &&
        (point.span > 1 ==> !old(cellPositions)[p + numberOfRows].occupied) &&
        positionIndex == p + 1 &&
        cellPositions == Occupy(old(cellPositions), p, point.span, numberOfRows) &&
        group == CellGroup(point, old(cellPositions)[p].x, old(cellPositions)[p].y)
    {
      ghost var s0, c0 := cellPositions, positionIndex;
      ghost var p := FirstFree(cellPositions, positionIndex);
      var position := TakeFreeSlot();
      ghost var taken := cellPositions;
      var rect := RenderCell(position, point);
      assert cellPositions == if point.span > 1 then Take(taken, p + numberOfRows) else taken;
      assert cellPositions == Occupy(s0, p, point.span, numberOfRows);
      PlaceKeepsPlacing(s0, c0, numberOfRows, point.span, p, cellPositions, p + 1);
      // The cursor moves on before the text is laid out rather than after it: the
      // text reads neither the cursor nor the slots.
      positionIndex := positionIndex + 1;
      assert Valid();
      var titles, descs := RenderText(position, point);
      group := Group(rect, None, titles, descs, []);
    }

    /** The start of `appendDataPoint`: walk the cursor to the first free slot and
        take it. */
    method TakeFreeSlot() returns (position: Slot)
      requires positionIndex <= |cellPositions| && FirstFree(cellPositions, positionIndex) < |cellPositions|
      modifies this
      ensures numberOfAllCells == old(numberOfAllCells) && numberOfColumns == old(numberOfColumns)
      ensures numberOfRows == old(numberOfRows) && height == old(height)
      ensures var p := FirstFree(old(cellPositions), old(positionIndex));
        positionIndex == p && position == old(cellPositions)[p] &&
        cellPositions == Take(old(cellPositions), p)
    {
      var index := positionIndex;
      position := cellPositions[index];
      while position.occupied
        invariant index < |cellPositions|
        invariant FirstFree(cellPositions, index) == FirstFree(cellPositions, positionIndex)
        invariant position == cellPositions[index]
        decreases |cellPositions| - index
      {
        index := index + 1;
        position := cellPositions[index];
      }
      positionIndex, cellPositions := index, Take(cellPositions, index);
    }

    /** `appendIconIfNotExist`: append the marker unless the group already holds
        one of this class. */
    method AppendIconIfNotExist(group: Group, point: Record, iconDataUri: Option<string>, className: string)
      returns (result: Group)
      ensures result == WithIcon(group, point.span, iconDataUri, className)
    {
      var k := 0;
      while k < |group.icons|
        invariant 0 <= k <= |group.icons|
        invariant forall i :: 0 <= i < k ==> group.icons[i].cls != className
      {
        if group.icons[k].cls == className {
          return group;
        }
        k := k + 1;
      }
      var x := CenterX(group.rect.x, point.span) - 30.0;
      result := group.(icons := group.icons + [Icon(className, x, group.rect.y - 15, 60, 40, iconDataUri)]);
    }

    /** `removeIcon`: drop every marker of the class. */
    method RemoveIcon(group: Group, className: string) returns (result: Group)
      ensures result == WithoutIcons(group, className)
    {
      var kept := [];
      var k := 0;
      while k < |group.icons|
        invariant 0 <= k <= |group.icons|
        invariant kept == Without(group.icons[..k], className)
      {
        assert group.icons[..k + 1][..k] == group.icons[..k];
        if group.icons[k].cls != className {
          kept := kept + [group.icons[k]];
        }
        k := k + 1;
      }
      assert group.icons[..k] == group.icons;
      result := group.(icons := kept);
    }
  }
}
