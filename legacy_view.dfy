/**
 * `ViewManager` of the older version (js/view.js). It places cells exactly as
 * the current version does, but sizes the map differently (as many columns as
 * whole cell edges fit, no cap, one pitch of height per row), puts the slots at
 * whole multiples of the pitch with no offset, colours a cell by CSS class, and
 * has no guard for an `undefined` title line.
 */
module LegacyView {
  import opened JsValues
  import opened TextLines
  import opened Grid
  import opened Render
  import opened Records

  /** The older version adds nothing to the slot coordinates. */
  const OFFSET: int := 0

  /** The title texts as written: every line must be defined, since `line.length`
      is read for the font size. */
  function Texts(lines: seq<Line>): (r: seq<string>)
    requires forall k :: 0 <= k < |lines| ==> lines[k].Text?
    ensures |r| == |lines|
  {
    seq(|lines|, k requires 0 <= k < |lines| => lines[k].s)
  }

  /** Drawing a record does not throw: its title has no `undefined` line. */
  predicate Drawable(point: Record)
  {
    Undefined !in TitleLines(point.title, point.span)
  }

  /** Drawing these records does not throw. */
  predicate AllDrawable(s: seq<Record>)
  {
    forall k :: 0 <= k < |s| ==> Drawable(s[k])
  }

  /** The group drawn for `point` in the slot at `(x, y)`: a rect one or two slots
      wide, classed by hot level, with the inset shadow, then the title and
      description lines, and no marker. */
  function CellGroup(point: Record, x: int, y: int): Group
    requires Drawable(point)
  {
    var lines := TitleLines(point.title, point.span);
    assert forall k :: 0 <= k < |lines| ==> lines[k] in lines;
    Group(Rect(x, y, CellWidth(point.span), EDGE_LENGTH, Class(HotClass(point.hot)), Some(InsetShadow)),
          None,
          TitleTexts(Texts(lines), x, y, point.span),
          DescTexts(Slices(point.category, '/', point.span), x, y, point.span),
          [])
  }

  /** A record that is not `Drawable` is one whose title has no piece left after
      the '/' pass: for instance a double cell titled "Java/Node.js", which is not
      cut at spaces, loses its only '/'-fragment. */
  lemma NotDrawableWhenNothingSurvives(point: Record)
    ensures !Drawable(point) <==> Expand(Slices(point.title, ' ', point.span), point.span) == []
  {
    UndefinedTitleLine(point.title, point.span);
  }

  /** The placements `drawMap` makes for records of these spans, on the grid that
      `sizeMap` and `positionCells` build from the SVG width and the number of
      cells; `None` when a placement throws. */
  function Placements(width: nat, total: nat, spans: seq<nat>): (r: Option<Board>)
    ensures r.Some? ==> |r.value.placed| == |spans|
  {
    var l := LegacyLayout(width, total);
    Run(Board(Slots(l.columns, l.rows, OFFSET), 0, []), l.rows, spans)
  }

  /** `point` after `appendDataPoint` has drawn it in slot `p`. */
  function DrawnAt(point: Record, slots: seq<Slot>, p: nat): Record
    requires p < |slots| && Drawable(point)
  {
    point.(cell := Some(CellGroup(point, slots[p].x, slots[p].y)))
  }

  /** The records `ds` are the records `d0` with the first `i` drawn in the slots
      `placed` of `grid`, and the rest as they were. */
  predicate DrawnPrefix(ds: seq<Record>, d0: seq<Record>, grid: seq<Slot>, placed: seq<nat>, i: nat)
  {
    i <= |ds| == |d0| && |placed| == i &&
    (forall k :: 0 <= k < i ==> placed[k] < |grid| && Drawable(d0[k]) && ds[k] == DrawnAt(d0[k], grid, placed[k])) &&
    (forall k :: i <= k < |ds| ==> ds[k] == d0[k])
  }

  /** Drawing the next record in slot `p` extends the drawn prefix by one. */
  lemma DrawnPrefixNext(ds: seq<Record>, d0: seq<Record>, grid: seq<Slot>, placed: seq<nat>, i: nat, p: nat)
    requires DrawnPrefix(ds, d0, grid, placed, i) && i < |d0| && p < |grid| && Drawable(d0[i])
    ensures DrawnPrefix(ds[i := DrawnAt(d0[i], grid, p)], d0, grid, placed + [p], i + 1)
  {
  }

  /** The records `ds`, the slots and the cursor are what drawing the first `i`
      records of `d0` on `grid` leaves. */
  ghost predicate DrawnOnBoard(grid: seq<Slot>, rows: nat, d0: seq<Record>, i: nat,
                               ds: seq<Record>, slots: seq<Slot>, cursor: nat)
  {
    var b0 := Board(grid, 0, []);
    i <= |d0| && Run(b0, rows, Spans(d0)[..i]).Some? &&
    var m := Run(b0, rows, Spans(d0)[..i]).value;
    slots == m.slots && cursor == m.cursor && DrawnPrefix(ds, d0, grid, m.placed, i)
  }

  /** When all the records can be drawn, the next one is drawn in the first free
      slot, whose coordinates are those of the grid. */
  lemma DrawnOnBoardNext(grid: seq<Slot>, rows: nat, d0: seq<Record>, i: nat,
                         ds: seq<Record>, slots: seq<Slot>, cursor: nat)
    requires DrawnOnBoard(grid, rows, d0, i, ds, slots, cursor) && i < |d0| && Drawable(d0[i])
    requires Run(Board(grid, 0, []), rows, Spans(d0)).Some?
    ensures Placeable(slots, cursor, rows, d0[i].span)
    ensures var p := FirstFree(slots, cursor);
      p < |grid| && slots[p].x == grid[p].x && slots[p].y == grid[p].y && ds[i] == d0[i] &&
      DrawnOnBoard(grid, rows, d0, i + 1, ds[i := DrawnAt(d0[i], grid, p)],
                   Occupy(slots, p, d0[i].span, rows), p + 1)
  {
    var b0 := Board(grid, 0, []);
    var spans := Spans(d0);
    RunNext(b0, rows, spans, i);
    var m := Run(b0, rows, spans[..i]).value;
    var p := FirstFree(m.slots, m.cursor);
    assert spans[i] == d0[i].span;
    DrawnPrefixNext(ds, d0, grid, m.placed, i, p);
  }

  /** Nothing is drawn before the loop starts. */
  lemma DrawnOnBoardStart(grid: seq<Slot>, rows: nat, d0: seq<Record>)
    ensures DrawnOnBoard(grid, rows, d0, 0, d0, grid, 0)
  {
    assert Spans(d0)[..0] == [];
  }

  /** Once every record is drawn, the slots, the cursor and the records are those
      of the whole run. */
  lemma DrawnOnBoardAll(grid: seq<Slot>, rows: nat, d0: seq<Record>,
                        ds: seq<Record>, slots: seq<Slot>, cursor: nat)
    requires DrawnOnBoard(grid, rows, d0, |d0|, ds, slots, cursor)
    ensures Run(Board(grid, 0, []), rows, Spans(d0)).Some?
    ensures var r := Run(Board(grid, 0, []), rows, Spans(d0)).value;
      slots == r.slots && cursor == r.cursor && |ds| == |d0| &&
      forall k :: 0 <= k < |ds| ==> Drawable(d0[k]) && ds[k] == DrawnAt(d0[k], grid, r.placed[k])
  {
    assert Spans(d0)[..|d0|] == Spans(d0);
  }

  /** What `drawMap` leaves for the records `d0`: the slots and the cursor of their
      placements on the grid built for the SVG width and `total` cells, no slot
      taken twice (`NoOverlap`), and each record drawn as its group in the slot
      it was placed in. */
  ghost predicate MapDrawn(width: nat, total: nat, d0: seq<Record>, ds: seq<Record>, slots: seq<Slot>, cursor: nat)
  {
    var l := LegacyLayout(width, total);
    var r := Placements(width, total, Spans(d0));
    r.Some? && slots == r.value.slots && cursor == r.value.cursor && |ds| == |d0| &&
    NoOverlap(r.value, l.rows, Spans(d0)) &&
    forall k :: 0 <= k < |ds| ==> Drawable(d0[k]) && ds[k] == DrawnAt(d0[k], Slots(l.columns, l.rows, OFFSET), r.value.placed[k])
  }

  /** The loop's final state on the grid of the layout is what `drawMap` promises. */
  lemma DrawnOnBoardMap(width: nat, total: nat, grid: seq<Slot>, rows: nat,
                        d0: seq<Record>, ds: seq<Record>, slots: seq<Slot>, cursor: nat)
    requires var l := LegacyLayout(width, total); grid == Slots(l.columns, l.rows, OFFSET) && rows == l.rows
    requires DrawnOnBoard(grid, rows, d0, |d0|, ds, slots, cursor)
    ensures MapDrawn(width, total, d0, ds, slots, cursor)
  {
    DrawnOnBoardAll(grid, rows, d0, ds, slots, cursor);
    var l := LegacyLayout(width, total);
    FreshRunNoOverlap(l.columns, l.rows, OFFSET, Spans(d0));
  }

  class ViewManager {
    var numberOfAllCells: nat
    var numberOfColumns: nat
    var numberOfRows: nat
    var height: Option<int>
    var cellPositions: seq<Slot>
    var positionIndex: nat

    /** Every slot before the cursor is taken, and taken slots past it are second
        halves of double cells less than a column ahead. */
    ghost predicate Valid()
      reads this
    {
      Placing(cellPositions, positionIndex, numberOfRows)
    }

    constructor ()
      ensures Valid()
      ensures numberOfAllCells == 0 && numberOfColumns == 0 && numberOfRows == 0 && height == None
      ensures cellPositions == [] && positionIndex == 0
    {
      numberOfAllCells := 0;
      numberOfColumns := 0;
      numberOfRows := 0;
      height := None;
      cellPositions := [];
      positionIndex := 0;
    }

    /** `_init`: an empty map with no slots and the cursor at 0. */
    method Init()
      modifies this
      ensures Valid()
      ensures numberOfColumns == 0 && numberOfRows == 0 && height == None
      ensures cellPositions == [] && positionIndex == 0
      ensures numberOfAllCells == old(numberOfAllCells)
    {
      height := None;
      numberOfColumns := 0;
      numberOfRows := 0;
      cellPositions := [];
      positionIndex := 0;
    }

    method SetNumberOfCells(n: nat)
      modifies this
      ensures numberOfAllCells == n
      ensures numberOfColumns == old(numberOfColumns) && numberOfRows == old(numberOfRows) && height == old(height)
      ensures cellPositions == old(cellPositions) && positionIndex == old(positionIndex)
    {
      numberOfAllCells := n;
    }

    /** `sizeMap`: start from an empty map, then take the layout of the SVG width
        for the number of cells. */
    method SizeMap(width: nat)
      modifies this
      ensures Valid()
      ensures var l := LegacyLayout(width, numberOfAllCells);
        numberOfColumns == l.columns && numberOfRows == l.rows && height == l.height
      ensures cellPositions == [] && positionIndex == 0
      ensures numberOfAllCells == old(numberOfAllCells)
    {
      Init();
      numberOfColumns := TruncDiv(width, EDGE_LENGTH);
      if numberOfColumns == 0 {
        numberOfRows := 0;
        height := None;
      } else {
        numberOfRows := CeilDiv(numberOfAllCells, numberOfColumns);
        height := Some(PITCH * numberOfRows);
      }
    }

    /** `positionCells`: push the slots column by column. */
    method PositionCells()
      requires Valid()
      modifies this
      ensures Valid()
      ensures cellPositions == old(cellPositions) + Slots(numberOfColumns, numberOfRows, OFFSET)
      ensures numberOfAllCells == old(numberOfAllCells) && numberOfColumns == old(numberOfColumns)
      ensures numberOfRows == old(numberOfRows) && height == old(height)
      ensures positionIndex == old(positionIndex)
    {
      var i := 0;
      while i < numberOfColumns
        invariant 0 <= i <= numberOfColumns
        invariant cellPositions == old(cellPositions) + Slots(i, numberOfRows, OFFSET)
        invariant Valid()
        invariant numberOfAllCells == old(numberOfAllCells) && numberOfColumns == old(numberOfColumns)
        invariant numberOfRows == old(numberOfRows) && height == old(height)
        invariant positionIndex == old(positionIndex)
      {
        PushColumn(i);
        i := i + 1;
      }
    }

    /** The inner loop of `positionCells`: one column of free slots. */
    method PushColumn(i: nat)
      requires Valid()
      modifies this
      ensures Valid()
      ensures cellPositions == old(cellPositions) + Column(i, numberOfRows, OFFSET)
      ensures numberOfAllCells == old(numberOfAllCells) && numberOfColumns == old(numberOfColumns)
      ensures numberOfRows == old(numberOfRows) && height == old(height)
      ensures positionIndex == old(positionIndex)
    {
      var j := 0;
      while j < numberOfRows
        invariant 0 <= j <= numberOfRows
        invariant cellPositions == old(cellPositions) + Column(i, numberOfRows, OFFSET)[..j]
        invariant Valid()
        invariant numberOfAllCells == old(numberOfAllCells) && numberOfColumns == old(numberOfColumns)
        invariant numberOfRows == old(numberOfRows) && height == old(height)
        invariant positionIndex == old(positionIndex)
      {
        AppendFreeSlots(cellPositions, positionIndex, numberOfRows, [Slot(i * PITCH, j * PITCH, false)]);
        cellPositions := cellPositions + [Slot(i * PITCH, j * PITCH, false)];
        j := j + 1;
      }
    }

    /** `_generateClass`: the CSS class of the record's hot level, if it has one. */
    method GenerateClass(point: Record) returns (name: Option<string>)
      ensures name == HotClass(point.hot)
    {
      name := HotClass(point.hot);
    }

    /** `_renderCell`: the rect, and for a double cell the second slot taken. */
    method RenderCell(position: Slot, point: Record) returns (rect: Rect)
      requires positionIndex < |cellPositions| && (point.span > 1 ==> positionIndex + numberOfRows < |cellPositions|)
      modifies this
      ensures numberOfAllCells == old(numberOfAllCells) && numberOfColumns == old(numberOfColumns)
      ensures numberOfRows == old(numberOfRows) && height == old(height) && positionIndex == old(positionIndex)
      ensures rect == Rect(position.x, position.y, CellWidth(point.span), EDGE_LENGTH, Class(HotClass(point.hot)), Some(InsetShadow))
      ensures point.span > 1 ==> cellPositions == Take(old(cellPositions), positionIndex + numberOfRows)
      ensures point.span <= 1 ==> cellPositions == old(cellPositions)
    {
      var name := GenerateClass(point);
      if point.span > 1 {
        rect := Rect(position.x, position.y, EDGE_LENGTH * 2 + MARGIN, EDGE_LENGTH, Class(name), Some(InsetShadow));
        cellPositions := Take(cellPositions, positionIndex + numberOfRows);
      } else {
        rect := Rect(position.x, position.y, EDGE_LENGTH, EDGE_LENGTH, Class(name), Some(InsetShadow));
      }
    }

    /** `_renderText`: the title lines (cut at spaces, then at '/', then merged),
        and the description lines (cut at '/'), positioned in the cell at `position`. */
    method RenderText(position: Slot, point: Record) returns (titles: seq<TextElement>, descs: seq<TextElement>)
      requires Drawable(point)
      ensures titles == CellGroup(point, position.x, position.y).titles
      ensures descs == DescTexts(Slices(point.category, '/', point.span), position.x, position.y, point.span)
    {
      var words := SliceString(point.title, ' ', point.span);
      var lines := ReArrangeLines(words, point.span);
      assert forall k :: 0 <= k < |lines| ==> lines[k] in lines;
      titles := TitleElements(lines, position, point.span);
      var specLines := SliceString(point.category, '/', point.span);
      descs := DescElements(specLines, position, point.span);
    }

    /** The title loop of `_renderText`. */
    method TitleElements(lines: seq<Line>, position: Slot, span: int) returns (titles: seq<TextElement>)
      requires forall k :: 0 <= k < |lines| ==> lines[k].Text?
      ensures titles == TitleTexts(Texts(lines), position.x, position.y, span)
    {
      titles := [];
      var k := 0;
      while k < |lines|
        invariant 0 <= k <= |lines|
        invariant titles == TitleTexts(Texts(lines), position.x, position.y, span)[..k]
      {
        var line := lines[k].s;
        titles := titles + [TextElement(line, CenterX(position.x, span), TitleY(position.y, |lines|, k),
                                        TitleFontSize(|lines|, |line|))];
        k := k + 1;
      }
    }

    /** The description loop of `_renderText`. */
    method DescElements(specLines: seq<string>, position: Slot, span: int) returns (descs: seq<TextElement>)
      ensures descs == DescTexts(specLines, position.x, position.y, span)
    {
      descs := [];
      var k := 0;
      while k < |specLines|
        invariant 0 <= k <= |specLines|
        invariant descs == DescTexts(specLines, position.x, position.y, span)[..k]
      {
        descs := descs + [TextElement(specLines[k], CenterX(position.x, span), DescY(position.y, k), 15)];
        k := k + 1;
      }
    }

    /** `appendDataPoint`: move the cursor to the first free slot, take it (and for
        a double cell the slot one column to the right), draw the cell there and
        leave the cursor one past it. The slots taken were free: no slot is taken
        twice. */
    method AppendDataPoint(point: Record) returns (group: Group)
      requires Valid()
      requires Placeable(cellPositions, positionIndex, numberOfRows, point.span)
      requires Drawable(point)
      modifies this
      ensures numberOfAllCells == old(numberOfAllCells) && numberOfColumns == old(numberOfColumns)
      ensures numberOfRows == old(numberOfRows) && height == old(height)
      ensures Valid()
      ensures var p := FirstFree(old(cellPositions), old(positionIndex));
        !old(cellPositions)[p].occupied &&
        (point.span > 1 ==> !old(cellPositions)[p + numberOfRows].occupied) &&
        positionIndex == p + 1 &&
        cellPositions == Occupy(old(cellPositions), p, point.span, numberOfRows) &&
        group == CellGroup(point, old(cellPositions)[p].x, old(cellPositions)[p].y)
    {
      ghost var s0, c0 := cellPositions, positionIndex;
      ghost var p := FirstFree(cellPositions, positionIndex);
      var position := TakeFreeSlot();
      ghost var taken := cellPositions;
      var rect := RenderCell(position, point);
      assert cellPositions == if point.span > 1 then Take(taken, p + numberOfRows) else taken;
      assert cellPositions == Occupy(s0, p, point.span, numberOfRows);
      PlaceKeepsPlacing(s0, c0, numberOfRows, point.span, p, cellPositions, p + 1);
      // The cursor moves on before the text is laid out rather than after it: the
      // text reads neither the cursor nor the slots.
      positionIndex := positionIndex + 1;
      assert Valid();
      var titles, descs := RenderText(position, point);
      group := Group(rect, None, titles, descs, []);
    }

    /** The start of `appendDataPoint`: walk the cursor to the first free slot and
        take it. */
    method TakeFreeSlot() returns (position: Slot)
      requires positionIndex <= |cellPositions| && FirstFree(cellPositions, positionIndex) < |cellPositions|
      modifies this
      ensures numberOfAllCells == old(numberOfAllCells) && numberOfColumns == old(numberOfColumns)
      ensures numberOfRows == old(numberOfRows) && height == old(height)
      ensures var p := FirstFree(old(cellPositions), old(positionIndex));
        positionIndex == p && position == old(cellPositions)[p] &&
        cellPositions == Take(old(cellPositions), p)
    {
      var index := positionIndex;
      position := cellPositions[index];
      while position.occupied
        invariant index < |cellPositions|
        invariant FirstFree(cellPositions, index) == FirstFree(cellPositions, positionIndex)
        invariant position == cellPositions[index]
        decreases |cellPositions| - index
      {
        index := index + 1;
        position := cellPositions[index];
      }
      positionIndex, cellPositions := index, Take(cellPositions, index);
    }

    /** `appendIconIfNotExist`: append the marker, linked to the image file under
        `img/`, unless the group already holds one of this class. */
    method AppendIconIfNotExist(group: Group, point: Record, iconName: string, className: string)
      returns (result: Group)
      ensures result == WithIcon(group, point.span, Some("img/" + iconName), className)
    {
      var k := 0;
      while k < |group.icons|
        invariant 0 <= k <= |group.icons|
        invariant forall i :: 0 <= i < k ==> group.icons[i].cls != className
      {
        if group.icons[k].cls == className {
          return group;
        }
        k := k + 1;
      }
      var x := CenterX(group.rect.x, point.span) - 30.0;
      result := group.(icons := group.icons + [Icon(className, x, group.rect.y - 15, 60, 40, Some("img/" + iconName))]);
    }

    /** `removeIcon`: drop every marker of the class. */
    method RemoveIcon(group: Group, className: string) returns (result: Group)
      ensures result == WithoutIcons(group, className)
    {
      var kept := [];
      var k := 0;
      while k < |group.icons|
        invariant 0 <= k <= |group.icons|
        invariant kept == Without(group.icons[..k], className)
      {
        assert group.icons[..k + 1][..k] == group.icons[..k];
        if group.icons[k].cls != className {
          kept := kept + [group.icons[k]];
        }
        k := k + 1;
      }
      assert group.icons[..k] == group.icons;
      result := group.(icons := kept);
    }
  }
}
