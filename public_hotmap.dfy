/**
 * `HotMap` of the current version (public/js/hotmap.js): the working set of
 * records, the snapshot it is filtered from, the marker images, and the
 * operations the page chains on it. Each chained step is modelled as the method
 * that runs it; the task list they are queued on is not part of this model.
 */
module PublicHotMap {
  import opened JsValues
  import opened Grid
  import opened Render
  import opened Records
  import opened Highlight
  import opened PublicView

  /** What `fetchIndicator` stores in front of the downloaded image's base64 text. */
  const DATA_URI_PREFIX: string := "data:image/svg+xml;base64,"

  /** The highlight of the current version: on the group's rect, `lighten` for
      "off" and `inset-shadow` for "on". */
  const TARGET: Target := RectFilter
  const OFF: Option<Filter> := Some(Lighten)
  const ON: Option<Filter> := Some(InsetShadow)

  /** `self._images[iconName]`: the stored data URI, or `undefined`. */
  function ImageOf(images: map<string, string>, iconName: string): (href: Option<string>)
    ensures href.Some? <==> iconName in images
  {
    if iconName in images then Some(images[iconName]) else None
  }

  /** The size of the map: the number of cells, of columns, and the height. */
  ghost function Shape(view: ViewManager): (nat, nat, Option<int>)
    reads view
  {
    (view.numberOfAllCells, view.numberOfColumns, view.height)
  }

  class HotMap {
    const view: ViewManager
    /** `_dataPoints`, the working set. */
    var dataPoints: seq<Record>
    /** `_allData`, the snapshot of the sheet. */
    var allData: seq<Record>
    /** `_images`, icon name to data URI. */
    var images: map<string, string>
    /** Whether `error` has installed an error handler. */
    var hasErrorHandler: bool

    constructor ()
      ensures fresh(view)
      ensures dataPoints == [] && allData == [] && images == map[] && !hasErrorHandler
      ensures view.Valid() && view.cellPositions == [] && view.positionIndex == 0
    {
      view := new ViewManager();
      dataPoints := [];
      allData := [];
      images := map[];
      hasErrorHandler := false;
    }

    /** The sheet callback of `fetchData`: with data, the working set becomes the
        data and the snapshot a copy of it, and the task list goes on; without,
        the task list stops with the error. */
    method FetchDone(data: Option<seq<Record>>, e: Option<string>) returns (err: Option<string>)
      modifies this
      ensures data.Some? ==> dataPoints == data.value && allData == data.value && err == None
      ensures data.None? ==> dataPoints == old(dataPoints) && allData == old(allData) && err == e
      ensures images == old(images) && hasErrorHandler == old(hasErrorHandler)
    {
      if data.Some? {
        dataPoints := data.value;
        allData := data.value;
        return None;
      }
      err := e;
    }

    /** The download callback of `fetchIndicator`: keep the image as a data URI. */
    method StoreIndicator(img: string, base64: string)
      modifies this
      ensures images == old(images)[img := DATA_URI_PREFIX + base64]
      ensures dataPoints == old(dataPoints) && allData == old(allData) && hasErrorHandler == old(hasErrorHandler)
    {
      images := images[img := DATA_URI_PREFIX + base64];
    }

    /** `sortData`: replace every hot value by its integer parse, then sort stably
        by hot level and title. */
    method SortData()
      modifies this
      ensures dataPoints == SortedData(old(dataPoints))
      ensures allData == old(allData) && images == old(images) && hasErrorHandler == old(hasErrorHandler)
    {
      var i := 0;
      while i < |dataPoints|
        invariant 0 <= i <= |dataPoints| == |old(dataPoints)|
        invariant forall k :: 0 <= k < i ==> dataPoints[k] == CoerceHot(old(dataPoints))[k]
        invariant forall k :: i <= k < |dataPoints| ==> dataPoints[k] == old(dataPoints)[k]
        invariant allData == old(allData) && images == old(images) && hasErrorHandler == old(hasErrorHandler)
      {
        dataPoints := dataPoints[i := dataPoints[i].(hot := Coerce(dataPoints[i].hot))];
        i := i + 1;
      }
      assert dataPoints == CoerceHot(old(dataPoints));
      dataPoints := SortByKeys(dataPoints);
    }

    /** `countCells`: give every record the span the strategy picks, and hand the
        total to the view. */
    method CountCells(strategy: Record -> nat)
      modifies this, view
      ensures dataPoints == WithSpans(old(dataPoints), strategy)
      ensures view.numberOfAllCells == SpanSum(dataPoints)
      ensures view.numberOfColumns == old(view.numberOfColumns) && view.numberOfRows == old(view.numberOfRows)
      ensures view.height == old(view.height)
      ensures view.cellPositions == old(view.cellPositions) && view.positionIndex == old(view.positionIndex)
      ensures allData == old(allData) && images == old(images) && hasErrorHandler == old(hasErrorHandler)
    {
      var numberOfAllCells := 0;
      var i := 0;
      while i < |dataPoints|
        invariant 0 <= i <= |dataPoints| == |old(dataPoints)|
        invariant forall k :: 0 <= k < i ==> dataPoints[k] == WithSpans(old(dataPoints), strategy)[k]
        invariant forall k :: i <= k < |dataPoints| ==> dataPoints[k] == old(dataPoints)[k]
        invariant numberOfAllCells == SpanSum(dataPoints[..i])
        invariant allData == old(allData) && images == old(images) && hasErrorHandler == old(hasErrorHandler)
        invariant unchanged(view)
      {
        dataPoints := dataPoints[i := dataPoints[i].(span := strategy(dataPoints[i]))];
        assert dataPoints[..i + 1][..i] == dataPoints[..i];
        numberOfAllCells := numberOfAllCells + dataPoints[i].span;
        i := i + 1;
      }
      assert dataPoints[..i] == dataPoints;
      view.SetNumberOfCells(numberOfAllCells);
    }

    /** `drawMap`: size the map, generate the slots, and draw every record of the
        working set, in order, where `appendDataPoint` places it; each record keeps
        the group it was drawn as, at the coordinates of its slot in the grid. */
    method DrawMap(usable: nat)
      requires Placements(usable, view.numberOfAllCells, Spans(dataPoints)).Some?
      modifies this, view
      ensures var l := PublicLayout(usable, view.numberOfAllCells);
        view.numberOfColumns == l.columns && view.numberOfRows == l.rows && view.height == l.height
      ensures view.numberOfAllCells == old(view.numberOfAllCells)
      ensures view.Valid()
      ensures MapDrawn(usable, view.numberOfAllCells, old(dataPoints), dataPoints, view.cellPositions, view.positionIndex)
      ensures allData == old(allData) && images == old(images) && hasErrorHandler == old(hasErrorHandler)
    {
      ghost var d0 := dataPoints;
      view.SizeMap(usable);
      view.PositionCells();
      ghost var l := PublicLayout(usable, view.numberOfAllCells);
      ghost var grid := view.cellPositions;
      assert grid == Slots(l.columns, l.rows, OFFSET);
      assert Run(Board(grid, 0, []), l.rows, Spans(d0)) == Placements(usable, view.numberOfAllCells, Spans(d0));
      DrawDataPoints(grid, l.rows);
      DrawnOnBoardMap(usable, view.numberOfAllCells, grid, l.rows, d0, dataPoints, view.cellPositions, view.positionIndex);
    }

    /** `drawMap`'s `forEach` over the working set: each record is drawn, in order,
        on the freshly generated `grid`, and keeps its group. */
    method DrawDataPoints(ghost grid: seq<Slot>, ghost rows: nat)
      requires view.Valid() && view.numberOfRows == rows
      requires view.cellPositions == grid && view.positionIndex == 0
      requires Run(Board(grid, 0, []), rows, Spans(dataPoints)).Some?
      modifies this, view
      ensures Placing(view.cellPositions, view.positionIndex, view.numberOfRows) && view.numberOfRows == rows
      ensures DrawnOnBoard(grid, rows, old(dataPoints), |old(dataPoints)|, dataPoints, view.cellPositions, view.positionIndex)
      ensures Shape(view) == old(Shape(view))
      ensures allData == old(allData) && images == old(images) && hasErrorHandler == old(hasErrorHandler)
    {
      dataPoints := DrawRecords(grid, rows, dataPoints);
    }

    /** The loop itself: `appendDataPoint` for every record of `d0`, in order, on
        `grid`; `ds` are the records with their groups. */
    method DrawRecords(ghost grid: seq<Slot>, ghost rows: nat, d0: seq<Record>) returns (ds: seq<Record>)
      requires view.Valid() && view.numberOfRows == rows
      requires view.cellPositions == grid && view.positionIndex == 0
      requires Run(Board(grid, 0, []), rows, Spans(d0)).Some?
      modifies view
      ensures view.Valid() && view.numberOfRows == rows
      ensures DrawnOnBoard(grid, rows, d0, |d0|, ds, view.cellPositions, view.positionIndex)
      ensures Shape(view) == old(Shape(view))
    {
      ds := d0;
      DrawnOnBoardStart(grid, rows, d0);
      var i := 0;
      while i < |ds|
        invariant i <= |d0| == |ds|
        invariant DrawnUpTo(grid, rows, d0, i, ds) && Shape(view) == old(Shape(view))
      {
        var point := ds[i];
        var group := DrawStep(grid, rows, d0, i, ds, point);
        ds := ds[i := point.(cell := Some(group))];
        i := i + 1;
      }
    }

    /** The state of `drawMap` once the first `i` records are drawn on `grid`: the
        view holds the slots and the cursor the first `i` placements leave, the
        records `ds` carry their groups and the others are as they were. */
    ghost predicate DrawnUpTo(grid: seq<Slot>, rows: nat, d0: seq<Record>, i: nat, ds: seq<Record>)
      reads view
    {
      view.Valid() && view.numberOfRows == rows &&
      DrawnOnBoard(grid, rows, d0, i, ds, view.cellPositions, view.positionIndex)
    }

    /** One turn of `drawMap`'s loop: `appendDataPoint` for record `i`, returning
        the group it is drawn as. */
    method DrawStep(ghost grid: seq<Slot>, ghost rows: nat, ghost d0: seq<Record>, i: nat,
                    ghost ds: seq<Record>, point: Record)
      returns (group: Group)
      requires DrawnUpTo(grid, rows, d0, i, ds) && i < |d0| && point == ds[i]
      requires Run(Board(grid, 0, []), rows, Spans(d0)).Some?
      modifies view
      ensures DrawnUpTo(grid, rows, d0, i + 1, ds[i := point.(cell := Some(group))])
      ensures Shape(view) == old(Shape(view))
    {
      DrawnOnBoardNext(grid, rows, d0, i, ds, view.cellPositions, view.positionIndex);
      ghost var p := FirstFree(view.cellPositions, view.positionIndex);
      group := view.AppendDataPoint(point);
      assert point.(cell := Some(group)) == DrawnAt(d0[i], grid, p);
    }

    /** `resetLight`: every drawn cell's rect goes back to `lighten`. */
    method ResetLight()
      modifies this
      ensures dataPoints == ResetAll(old(dataPoints), TARGET, OFF)
      ensures allData == old(allData) && images == old(images) && hasErrorHandler == old(hasErrorHandler)
    {
      var i := 0;
      while i < |dataPoints|
        invariant 0 <= i <= |dataPoints| == |old(dataPoints)|
        invariant forall k :: 0 <= k < i ==> dataPoints[k] == ResetAll(old(dataPoints), TARGET, OFF)[k]
        invariant forall k :: i <= k < |dataPoints| ==> dataPoints[k] == old(dataPoints)[k]
        invariant allData == old(allData) && images == old(images) && hasErrorHandler == old(hasErrorHandler)
      {
        var point := dataPoints[i];
        if point.cell.Some? {
          dataPoints := dataPoints[i := point.(cell := Some(point.cell.value.(rect := point.cell.value.rect.(filter := OFF))))];
        }
        i := i + 1;
      }
    }

    /** `lighten(key, values)`: reset, then give the drawn cells whose field is one
        of `values` the inset shadow. */
    method Lighten(key: Field, values: seq<Value>)
      modifies this
      ensures dataPoints == LightenAll(old(dataPoints), TARGET, OFF, ON, key, values)
      ensures allData == old(allData) && images == old(images) && hasErrorHandler == old(hasErrorHandler)
    {
      ResetLight();
      ghost var reset := dataPoints;
      ghost var lit := PaintMatches(reset, TARGET, ON, key, values);
      var i := 0;
      while i < |dataPoints|
        invariant 0 <= i <= |dataPoints| == |reset| == |lit|
        invariant forall k :: 0 <= k < i ==> dataPoints[k] == lit[k]
        invariant forall k :: i <= k < |dataPoints| ==> dataPoints[k] == reset[k]
        invariant allData == old(allData) && images == old(images) && hasErrorHandler == old(hasErrorHandler)
      {
        var point := dataPoints[i];
        if point.cell.Some? && Includes(values, Get(point, key)) {
          dataPoints := dataPoints[i := point.(cell := Some(point.cell.value.(rect := point.cell.value.rect.(filter := ON))))];
        }
        i := i + 1;
      }
      assert dataPoints == lit;
    }

    /** `markIcon(key, matched, iconName)`: the drawn cells whose field is strictly
        equal to `matched` get the marker, showing the stored image. */
    method MarkIcon(key: Field, matched: Value, iconName: string)
      modifies this
      ensures dataPoints == MarkAll(old(dataPoints), key, matched, ImageOf(images, iconName))
      ensures allData == old(allData) && images == old(images) && hasErrorHandler == old(hasErrorHandler)
    {
      var href := ImageOf(images, iconName);
      var i := 0;
      while i < |dataPoints|
        invariant 0 <= i <= |dataPoints| == |old(dataPoints)|
        invariant forall k :: 0 <= k < i ==> dataPoints[k] == MarkAll(old(dataPoints), key, matched, href)[k]
        invariant forall k :: i <= k < |dataPoints| ==> dataPoints[k] == old(dataPoints)[k]
        invariant allData == old(allData) && images == old(images) && hasErrorHandler == old(hasErrorHandler)
      {
        var point := dataPoints[i];
        if point.cell.Some? && StrictEq(Get(point, key), matched) {
          var group := view.AppendIconIfNotExist(point.cell.value, point, href, MARK_CLASS);
          dataPoints := dataPoints[i := point.(cell := Some(group))];
        }
        i := i + 1;
      }
    }

    /** `removeIcons`: every drawn cell loses its markers. */
    method RemoveIcons()
      modifies this
      ensures dataPoints == UnmarkAll(old(dataPoints))
      ensures allData == old(allData) && images == old(images) && hasErrorHandler == old(hasErrorHandler)
    {
      var i := 0;
      while i < |dataPoints|
        invariant 0 <= i <= |dataPoints| == |old(dataPoints)|
        invariant forall k :: 0 <= k < i ==> dataPoints[k] == UnmarkAll(old(dataPoints))[k]
        invariant forall k :: i <= k < |dataPoints| ==> dataPoints[k] == old(dataPoints)[k]
        invariant allData == old(allData) && images == old(images) && hasErrorHandler == old(hasErrorHandler)
      {
        var point := dataPoints[i];
        if point.cell.Some? {
          var group := view.RemoveIcon(point.cell.value, MARK_CLASS);
          dataPoints := dataPoints[i := point.(cell := Some(group))];
        }
        i := i + 1;
      }
    }

    /** `updateDataPointsByType`: the working set becomes the whole snapshot for
        "*", and otherwise the snapshot's records of that category, in order. */
    method UpdateDataPointsByType(category: string)
      modifies this
      ensures dataPoints == Selected(allData, category)
      ensures allData == old(allData) && images == old(images) && hasErrorHandler == old(hasErrorHandler)
    {
      if category == "*" {
        dataPoints := allData;
      } else {
        dataPoints := OfCategory(allData, category);
      }
    }

    /** `error`: install the error handler. */
    method Error()
      modifies this
      ensures hasErrorHandler
      ensures dataPoints == old(dataPoints) && allData == old(allData) && images == old(images)
    {
      hasErrorHandler := true;
    }

    /** `then`, once the task list has finished with `err`: the error handler gets
        the error only when both exist; otherwise the callback gets the working set
        and each of its categories once, in order of first occurrence. */
    method Then(err: Option<string>) returns (d: Dispatch)
      ensures d.HandleError? <==> hasErrorHandler && Truthy(err)
      ensures d.HandleError? ==> d.error == err.value
      ensures d.Callback? ==> d.data == dataPoints && d.categories == Uniq(Categories(dataPoints))
      ensures d.Callback? ==> NoDuplicates(d.categories)
      ensures d.Callback? ==> forall c :: c in d.categories <==> c in Categories(dataPoints)
    {
      if hasErrorHandler && Truthy(err) {
        d := HandleError(err.value);
      } else {
        var categories := Categories(dataPoints);
        UniqSpec(categories);
        d := Callback(dataPoints, Uniq(categories));
      }
    }
  }
}
