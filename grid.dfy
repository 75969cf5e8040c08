/**
 * The slot grid of the hot map: how many columns and rows the map gets for a
 * container width and a total cell count, the column-major array of slots with
 * their pixel positions, and the placement of records into it with an advancing
 * cursor. A record whose span is more than one also takes the slot one column to
 * the right (`cursor + rows`), so that its cell is two slots wide.
 *
 * The pure functions here are the specification the two `ViewManager` classes
 * are proved against: `Slots` for `positionCells`, `FirstFree`/`Occupy` for one
 * `appendDataPoint`, and `Run` for a whole sequence of them. `Run` returns `None`
 * exactly where the page's script would throw (the cursor walks off the slot
 * array, or the companion slot of a double cell does not exist).
 */
module Grid {
  import opened JsValues

  /** Side of one cell, gap between cells, and their sum (the slot pitch). */
  const EDGE_LENGTH: int := 117
  const MARGIN: int := 12
  const PITCH: int := EDGE_LENGTH + MARGIN

  /** One entry of `_cellPositions`. */
  datatype Slot = Slot(x: int, y: int, occupied: bool)

  // ---------------------------------------------------------------------------
  // Sizing

  /** Column count, row count and SVG height chosen by `sizeMap`. With no column
      JavaScript computes a row count of `Infinity`, `-Infinity` or `NaN`; the
      model stores 0 rows, and `height` is `None` where the height it computes is
      not finite either. */
  datatype Layout = Layout(columns: nat, rows: nat, height: Option<int>)

  /** `parseInt(a / b)` for a positive divisor: the quotient truncated toward zero. */
  function TruncDiv(a: int, b: int): (q: int)
    requires b > 0
    ensures a >= 0 ==> q == a / b
    ensures -b < a < 0 ==> q == 0
  {
    if a >= 0 then a / b else -((-a) / b)
  }

  /** `Math.ceil(a / b)` for a positive divisor, by repeated subtraction. */
  function CeilDiv(a: nat, b: nat): nat
    requires b > 0
    decreases a
  {
    if a == 0 then 0 else if a <= b then 1 else 1 + CeilDiv(a - b, b)
  }

  /** `b * CeilDiv(a, b)` is the least multiple of `b` that is at least `a`. */
  lemma {:induction false} CeilDivBounds(a: nat, b: nat)
    requires b > 0
    ensures b * CeilDiv(a, b) >= a
    ensures b * (CeilDiv(a, b) - 1) < a || CeilDiv(a, b) == 0
    decreases a
  {
    if a > b {
      var q := CeilDiv(a - b, b);
      CeilDivBounds(a - b, b);
      assert b * (1 + q) == b + b * q;
      assert b * (1 + q - 1) == b * q;
    }
  }

  function Max(a: int, b: int): int { if a >= b then a else b }
  function Min(a: int, b: int): int { if a <= b then a else b }

  /** The current `sizeMap`: 70 pixels are kept for the legend, the column count is
      capped by the number of cells, and the map is at least 500 pixels high. The
      usable width stands for `0.94 * width` of the SVG element. When the width
      is narrower than the legend and there are cells, `parseInt` of the negative
      quotient is `-0`, the row count `-Infinity`, and `Math.max` makes the height
      500; with no cells or a width too narrow for one pitch the height is `NaN`
      or `Infinity`. */
  function PublicLayout(usable: nat, total: nat): (l: Layout)
    ensures l.columns <= total
    ensures l.columns == 0 <==> usable < 70 + PITCH || total == 0
    ensures l.columns == 0 ==> l.rows == 0
    ensures l.columns == 0 ==> (l.height.Some? <==> usable < 70 && total > 0)
    ensures l.columns == 0 && l.height.Some? ==> l.height.value == 500
    ensures l.columns > 0 ==> l.height.Some? && l.height.value >= 500 && l.height.value >= PITCH * l.rows + 20
  {
    var columns := Min(TruncDiv(usable - 70, PITCH), total);
    if columns == 0 then Layout(0, 0, if usable < 70 && total > 0 then Some(500) else None)
    else
      var rows := CeilDiv(total, columns);
      Layout(columns, rows, Some(Max(PITCH * rows + 20, 500)))
  }

  /** The older `sizeMap`: as many columns as whole cell edges fit in the width,
      with no cap, and a height of exactly one pitch per row. */
  function LegacyLayout(width: nat, total: nat): (l: Layout)
    ensures l.columns == width / EDGE_LENGTH
    ensures l.columns == 0 ==> l.rows == 0 && l.height == None
    ensures l.columns > 0 ==> l.height == Some(PITCH * l.rows)
  {
    var columns := TruncDiv(width, EDGE_LENGTH);
    if columns == 0 then Layout(0, 0, None)
    else
      var rows := CeilDiv(total, columns);
      Layout(columns, rows, Some(PITCH * rows))
  }

  /** Both layouts have room for every cell, and no row more than needed. */
  lemma LayoutFits(usable: nat, width: nat, total: nat)
    ensures var l := PublicLayout(usable, total);
      l.columns > 0 ==> l.columns * l.rows >= total && l.columns * (l.rows - 1) < total
    ensures var l := LegacyLayout(width, total);
      l.columns > 0 ==> l.columns * l.rows >= total && l.columns * (l.rows - 1) < total
  {
    var l := PublicLayout(usable, total);
    if l.columns > 0 {
      CeilDivBounds(total, l.columns);
    }
    var m := LegacyLayout(width, total);
    if m.columns > 0 {
      CeilDivBounds(total, m.columns);
    }
  }

  /** A map narrower than its legend still gets the minimum height of 500 when it
      has cells; one wide enough for the legend but not for a pitch does not. */
  lemma NarrowPublicLayouts()
    ensures PublicLayout(60, 3) == Layout(0, 0, Some(500))
    ensures PublicLayout(100, 3) == Layout(0, 0, None)
    ensures PublicLayout(60, 0) == Layout(0, 0, None)
  {
    assert TruncDiv(60 - 70, PITCH) == 0;
    assert TruncDiv(100 - 70, PITCH) == 0;
  }

  // ---------------------------------------------------------------------------
  // Slot generation

  /** Column `i` of the grid, top to bottom. */
  function Column(i: nat, rows: nat, offset: int): seq<Slot>
  {
    seq(rows, j => Slot(PITCH * i + offset, PITCH * j + offset, false))
  }

  /** What `positionCells` pushes: `columns` columns of `rows` slots each, column
      after column, all free. */
  function Slots(columns: nat, rows: nat, offset: int): seq<Slot>
  {
    if columns == 0 then [] else Slots(columns - 1, rows, offset) + Column(columns - 1, rows, offset)
  }

  lemma {:induction false} SlotsShape(columns: nat, rows: nat, offset: int)
    ensures |Slots(columns, rows, offset)| == columns * rows
    ensures forall k :: 0 <= k < |Slots(columns, rows, offset)| ==> !Slots(columns, rows, offset)[k].occupied
  {
    if columns > 0 {
      SlotsShape(columns - 1, rows, offset);
      assert (columns - 1) * rows + rows == columns * rows;
    }
  }

  /** Slot `i * rows + j` is column `i`, row `j`. */
  lemma {:induction false} SlotAt(columns: nat, rows: nat, offset: int, i: nat, j: nat)
    requires i < columns && j < rows
    ensures i * rows + j < |Slots(columns, rows, offset)|
    ensures Slots(columns, rows, offset)[i * rows + j] == Slot(PITCH * i + offset, PITCH * j + offset, false)
  {
    var front, last := Slots(columns - 1, rows, offset), Column(columns - 1, rows, offset);
    SlotsShape(columns - 1, rows, offset);
    assert |front| + rows == columns * rows by {
      assert (columns - 1) * rows + rows == columns * rows;
    }
    if i < columns - 1 {
      SlotAt(columns - 1, rows, offset, i, j);
    } else {
      assert i * rows == |front|;
    }
  }

  /** The slot `rows` further along, where a double cell's second half goes, is the
      same row one column to the right. */
  lemma CompanionIsRightNeighbour(columns: nat, rows: nat, offset: int, i: nat, j: nat)
    requires i + 1 < columns && j < rows
    ensures var s := Slots(columns, rows, offset);
      i * rows + j + rows < |s| &&
      s[i * rows + j + rows].y == s[i * rows + j].y &&
      s[i * rows + j + rows].x == s[i * rows + j].x + PITCH
  {
    SlotAt(columns, rows, offset, i, j);
    SlotAt(columns, rows, offset, i + 1, j);
    assert (i + 1) * rows + j == i * rows + j + rows;
  }

  // ---------------------------------------------------------------------------
  // Placement

  /** Where the `while (position.occupied)` loop stops: the first free slot at or
      after the cursor, or `|s|` when it walks off the end. */
  function FirstFree(s: seq<Slot>, c: nat): (r: nat)
    requires c <= |s|
    ensures c <= r <= |s|
    ensures forall k :: c <= k < r ==> s[k].occupied
    ensures r < |s| ==> !s[r].occupied
    decreases |s| - c
  {
    if c < |s| && s[c].occupied then FirstFree(s, c + 1) else c
  }

  /** Slot `k` flagged as taken (`position.occupied = true`). */
  function Take(s: seq<Slot>, k: nat): (r: seq<Slot>)
    requires k < |s|
  {
    s[k := s[k].(occupied := true)]
  }

  /** The flags `appendDataPoint` and `_renderCell` set for a record placed at `p`. */
  function Occupy(s: seq<Slot>, p: nat, span: nat, rows: nat): (r: seq<Slot>)
    requires p < |s| && (span > 1 ==> p + rows < |s|)
    ensures |r| == |s| && r[p].occupied && (span > 1 ==> r[p + rows].occupied)
    ensures forall k :: 0 <= k < |s| && k != p && (span <= 1 || k != p + rows) ==> r[k] == s[k]
    ensures forall k :: 0 <= k < |s| ==> r[k].x == s[k].x && r[k].y == s[k].y
  {
    var t := Take(s, p);
    if span > 1 then Take(t, p + rows) else t
  }

  /** Placing a record of this span from cursor `c` does not throw. */
  predicate Placeable(s: seq<Slot>, c: nat, rows: nat, span: nat)
  {
    c <= |s| && FirstFree(s, c) < |s| && (span > 1 ==> FirstFree(s, c) + rows < |s|)
  }

  /** The slot array, the cursor, and (as a record of the run) the slots chosen so far. */
  datatype Board = Board(slots: seq<Slot>, cursor: nat, placed: seq<nat>)

  function Place(b: Board, rows: nat, span: nat): (r: Board)
    requires Placeable(b.slots, b.cursor, rows, span)
  {
    var p := FirstFree(b.slots, b.cursor);
    Board(Occupy(b.slots, p, span, rows), p + 1, b.placed + [p])
  }

  /** Both boards have the same slots at the same positions. */
  predicate SameGeometry(s: seq<Slot>, t: seq<Slot>)
  {
    |s| == |t| && forall k :: 0 <= k < |s| ==> s[k].x == t[k].x && s[k].y == t[k].y
  }

  /** Placing records of the given spans one after the other; `None` when one of
      the placements throws. */
  function Run(b: Board, rows: nat, spans: seq<nat>): (r: Option<Board>)
    ensures r.Some? ==> SameGeometry(b.slots, r.value.slots)
    ensures r.Some? ==> |r.value.placed| == |b.placed| + |spans| && r.value.placed[..|b.placed|] == b.placed
    ensures r.Some? ==> forall i :: |b.placed| <= i < |r.value.placed| ==> r.value.placed[i] < |b.slots|
    decreases |spans|
  {
    if spans == [] then Some(b)
    else
      match Run(b, rows, spans[..|spans| - 1])
      case None => None
      case Some(m) =>
        if Placeable(m.slots, m.cursor, rows, spans[|spans| - 1])
        then Some(Place(m, rows, spans[|spans| - 1]))
        else None
  }

  /** A run that does not throw does not throw on any prefix either. */
  lemma {:induction false} RunPrefix(b: Board, rows: nat, spans: seq<nat>, i: nat)
    requires i <= |spans| && Run(b, rows, spans).Some?
    ensures Run(b, rows, spans[..i]).Some?
    decreases |spans|
  {
    if i < |spans| {
      assert spans[..|spans| - 1][..i] == spans[..i];
      RunPrefix(b, rows, spans[..|spans| - 1], i);
    } else {
      assert spans[..i] == spans;
    }
  }

  /** One more record extends a run by one placement. */
  lemma RunStep(b: Board, rows: nat, spans: seq<nat>, i: nat)
    requires i < |spans| && Run(b, rows, spans[..i]).Some?
    ensures var m := Run(b, rows, spans[..i]).value;
      Run(b, rows, spans[..i + 1]) ==
        if Placeable(m.slots, m.cursor, rows, spans[i]) then Some(Place(m, rows, spans[i])) else None
  {
    assert spans[..i + 1][..i] == spans[..i];
  }

  /** In a run that does not throw, the `i`-th placement does not throw and extends
      the run of the first `i` records by one. */
  lemma RunNext(b: Board, rows: nat, spans: seq<nat>, i: nat)
    requires i < |spans| && Run(b, rows, spans).Some?
    ensures Run(b, rows, spans[..i]).Some?
    ensures var m := Run(b, rows, spans[..i]).value;
      Placeable(m.slots, m.cursor, rows, spans[i]) &&
      Run(b, rows, spans[..i + 1]) == Some(Place(m, rows, spans[i]))
  {
    RunPrefix(b, rows, spans, i);
    RunPrefix(b, rows, spans, i + 1);
    RunStep(b, rows, spans, i);
  }

  /** Every slot before the cursor is taken. */
  predicate Packed(s: seq<Slot>, c: nat)
  {
    c <= |s| && forall k :: 0 <= k < c ==> s[k].occupied
  }

  /** A taken slot at or after the cursor lies less than one column ahead of it:
      it is the second half of a double cell placed before the cursor. */
  predicate Ahead(s: seq<Slot>, c: nat, rows: nat)
  {
    forall k :: c <= k < |s| && s[k].occupied ==> k < c + rows
  }

  /** The placement invariant: a placement only ever takes free slots (its own and,
      for a double cell, its companion), and it keeps every slot before the new
      cursor taken. So no slot is taken twice. */
  lemma PlaceTakesFreeSlots(s: seq<Slot>, c: nat, rows: nat, span: nat)
    requires Packed(s, c) && Ahead(s, c, rows) && rows >= 1 && Placeable(s, c, rows, span)
    ensures var p := FirstFree(s, c);
      !s[p].occupied && (span > 1 ==> !s[p + rows].occupied) &&
      Packed(Occupy(s, p, span, rows), p + 1) && Ahead(Occupy(s, p, span, rows), p + 1, rows)
  {
    var p := FirstFree(s, c);
    var r := Occupy(s, p, span, rows);
    forall k | 0 <= k < p + 1
      ensures r[k].occupied
    {
      if k < c {
        assert s[k].occupied;
      }
    }
    forall k | p + 1 <= k < |r| && r[k].occupied
      ensures k < p + 1 + rows
    {
      if span <= 1 || k != p + rows {
        assert s[k] == r[k];
      }
    }
  }

  /** The placement invariant of a slot array and its cursor. */
  predicate Placing(s: seq<Slot>, c: nat, rows: nat)
  {
    Packed(s, c) && Ahead(s, c, rows) && (|s| > 0 ==> rows >= 1)
  }

  /** One placement keeps the placement invariant, and the slots it takes were free:
      `t` and `d` are the slots and the cursor after placing at `p`. */
  lemma PlaceKeepsPlacing(s: seq<Slot>, c: nat, rows: nat, span: nat, p: nat, t: seq<Slot>, d: nat)
    requires Placing(s, c, rows) && Placeable(s, c, rows, span)
    requires p == FirstFree(s, c) && t == Occupy(s, p, span, rows) && d == p + 1
    ensures !s[p].occupied && (span > 1 ==> !s[p + rows].occupied)
    ensures Placing(t, d, rows)
  {
    PlaceTakesFreeSlots(s, c, rows, span);
  }

  /** Free slots appended at the end keep the placement invariant. */
  lemma AppendFreeSlots(s: seq<Slot>, c: nat, rows: nat, t: seq<Slot>)
    requires Placing(s, c, rows) && (|t| > 0 ==> rows >= 1)
    requires forall k :: 0 <= k < |t| ==> !t[k].occupied
    ensures Placing(s + t, c, rows)
  {
    forall k | |s| <= k < |s + t|
      ensures !(s + t)[k].occupied
    {
      assert (s + t)[k] == t[k - |s|];
    }
  }

  /** The slots a record placed at `p` takes: `p` itself, and for a double cell
      the slot one column to the right, `p + rows`. */
  function Cells(p: nat, span: nat, rows: nat): (r: set<nat>)
    ensures p in r && (span > 1 ==> p + rows in r)
    ensures forall q :: q in r ==> q == p || (span > 1 && q == p + rows)
  {
    if span > 1 then {p, p + rows} else {p}
  }

  /** Every placement lies before the cursor and takes occupied slots inside the
      grid, a double cell's second half included. */
  predicate Taken(s: seq<Slot>, cursor: nat, placed: seq<nat>, rows: nat, spans: seq<nat>)
    requires |placed| == |spans|
  {
    forall i :: 0 <= i < |spans| ==>
      placed[i] < cursor && placed[i] < |s| && s[placed[i]].occupied &&
      (spans[i] > 1 ==> placed[i] + rows < |s| && s[placed[i] + rows].occupied)
  }

  /** The placements strictly increase. */
  predicate Increasing(placed: seq<nat>)
  {
    forall i, j :: 0 <= i < j < |placed| ==> placed[i] < placed[j]
  }

  /** No record lands on the second half of an earlier double cell. */
  predicate OffCompanions(placed: seq<nat>, rows: nat, spans: seq<nat>)
    requires |placed| == |spans|
  {
    forall i, j :: 0 <= i < j < |spans| && spans[i] > 1 ==> placed[i] + rows != placed[j]
  }

  /** What a whole drawing promises of the board `r` it ends on: one placement per
      record, before the cursor, each taking occupied slots inside the grid; the
      placements strictly increase, and no later record lands on the second half
      of an earlier double cell. */
  predicate NoOverlap(r: Board, rows: nat, spans: seq<nat>)
  {
    |r.placed| == |spans| &&
    Taken(r.slots, r.cursor, r.placed, rows, spans) &&
    Increasing(r.placed) &&
    OffCompanions(r.placed, rows, spans)
  }

  /** One more placement on a board in the placement invariant extends `NoOverlap`
      by the new record: the slot it takes lies past every earlier one and off
      every earlier double cell's second half, because it was free. */
  lemma PlaceKeepsNoOverlap(m: Board, rows: nat, front: seq<nat>, span: nat)
    requires Placing(m.slots, m.cursor, rows) && NoOverlap(m, rows, front)
    requires Placeable(m.slots, m.cursor, rows, span)
    ensures Placing(Place(m, rows, span).slots, Place(m, rows, span).cursor, rows)
    ensures NoOverlap(Place(m, rows, span), rows, front + [span])
  {
    var p := FirstFree(m.slots, m.cursor);
    var t := Occupy(m.slots, p, span, rows);
    assert Place(m, rows, span) == Board(t, p + 1, m.placed + [p]);
    PlaceKeepsPlacing(m.slots, m.cursor, rows, span, p, t, p + 1);
    PlaceKeepsTaken(m.slots, m.cursor, m.placed, rows, front, p, span);
    AppendIncreasing(m.placed, p);
    AppendOffCompanions(m.slots, m.placed, rows, front, p, span);
  }

  /** Placing the next record at or after the cursor keeps every earlier
      placement's slots taken and adds the new ones. */
  lemma PlaceKeepsTaken(s: seq<Slot>, cursor: nat, placed: seq<nat>, rows: nat, front: seq<nat>, p: nat, span: nat)
    requires |placed| == |front| && Taken(s, cursor, placed, rows, front)
    requires cursor <= p < |s| && (span > 1 ==> p + rows < |s|)
    ensures Taken(Occupy(s, p, span, rows), p + 1, placed + [p], rows, front + [span])
  {
    var t := Occupy(s, p, span, rows);
    var ps := placed + [p];
    var spans := front + [span];
    forall i | 0 <= i < |spans|
      ensures ps[i] < p + 1 && ps[i] < |t| && t[ps[i]].occupied
      ensures spans[i] > 1 ==> ps[i] + rows < |t| && t[ps[i] + rows].occupied
    {
      if i < |front| {
        assert ps[i] == placed[i] && spans[i] == front[i];
        OccupiedStays(s, p, span, rows, placed[i]);
        if front[i] > 1 {
          OccupiedStays(s, p, span, rows, placed[i] + rows);
        }
      } else {
        assert ps[i] == p && spans[i] == span;
      }
    }
  }

  lemma AppendIncreasing(placed: seq<nat>, p: nat)
    requires Increasing(placed) && forall i :: 0 <= i < |placed| ==> placed[i] < p
    ensures Increasing(placed + [p])
  {
    var ps := placed + [p];
    forall i, j | 0 <= i < j < |ps|
      ensures ps[i] < ps[j]
    {
      assert ps[i] == placed[i];
      if j < |placed| {
        assert ps[j] == placed[j];
      }
    }
  }

  lemma AppendOffCompanions(s: seq<Slot>, placed: seq<nat>, rows: nat, front: seq<nat>, p: nat, span: nat)
    requires |placed| == |front| && OffCompanions(placed, rows, front)
    requires p < |s| && !s[p].occupied
    requires forall i :: 0 <= i < |front| && front[i] > 1 ==> placed[i] + rows < |s| && s[placed[i] + rows].occupied
    ensures OffCompanions(placed + [p], rows, front + [span])
  {
    var ps, spans := placed + [p], front + [span];
    forall i, j | 0 <= i < j < |spans| && spans[i] > 1
      ensures ps[i] + rows != ps[j]
    {
      assert ps[i] == placed[i] && spans[i] == front[i];
      if j < |front| {
        assert ps[j] == placed[j];
      }
    }
  }

  /** Placing a record never frees a slot. */
  lemma OccupiedStays(s: seq<Slot>, p: nat, span: nat, rows: nat, k: nat)
    requires p < |s| && (span > 1 ==> p + rows < |s|)
    requires k < |s| && s[k].occupied
    ensures Occupy(s, p, span, rows)[k].occupied
  {
  }

  /** A drawing that starts from a board in the placement invariant with nothing
      placed, and does not throw, never takes a slot twice and ends in the
      placement invariant. */
  lemma {:induction false} RunNoOverlap(b: Board, rows: nat, spans: seq<nat>)
    requires Placing(b.slots, b.cursor, rows) && b.placed == []
    requires Run(b, rows, spans).Some?
    ensures Placing(Run(b, rows, spans).value.slots, Run(b, rows, spans).value.cursor, rows)
    ensures NoOverlap(Run(b, rows, spans).value, rows, spans)
    decreases |spans|
  {
    if spans != [] {
      var n := |spans| - 1;
      RunNoOverlap(b, rows, spans[..n]);
      var m := Run(b, rows, spans[..n]).value;
      PlaceKeepsNoOverlap(m, rows, spans[..n], spans[n]);
      assert spans[..n] + [spans[n]] == spans;
    }
  }

  /** A drawing on a fresh grid never takes a slot twice. */
  lemma FreshRunNoOverlap(columns: nat, rows: nat, offset: int, spans: seq<nat>)
    requires Run(Board(Slots(columns, rows, offset), 0, []), rows, spans).Some?
    ensures NoOverlap(Run(Board(Slots(columns, rows, offset), 0, []), rows, spans).value, rows, spans)
  {
    SlotsShape(columns, rows, offset);
    RunNoOverlap(Board(Slots(columns, rows, offset), 0, []), rows, spans);
  }

  /** Under `NoOverlap`, the cells of two different records share no slot. */
  lemma NoOverlapDisjoint(r: Board, rows: nat, spans: seq<nat>, i: nat, j: nat)
    requires NoOverlap(r, rows, spans) && i < j < |spans|
    ensures Cells(r.placed[i], spans[i], rows) !! Cells(r.placed[j], spans[j], rows)
  {
    assert r.placed[i] < r.placed[j];
  }

  /** When all slots from the cursor on are free, records of span one fill them one
      after the other. */
  lemma {:induction false} SingleSpansFit(s: seq<Slot>, c: nat, rows: nat, spans: seq<nat>)
    requires c + |spans| <= |s|
    requires forall k :: c <= k < |s| ==> !s[k].occupied
    requires forall i :: 0 <= i < |spans| ==> spans[i] <= 1
    ensures Run(Board(s, c, []), rows, spans).Some?
    ensures var m := Run(Board(s, c, []), rows, spans).value;
      m.cursor == c + |spans| &&
      (forall i :: 0 <= i < |spans| ==> m.placed[i] == c + i) &&
      (forall k :: c + |spans| <= k < |s| ==> !m.slots[k].occupied)
    decreases |spans|
  {
    if spans != [] {
      var n := |spans| - 1;
      SingleSpansFit(s, c, rows, spans[..n]);
      var m := Run(Board(s, c, []), rows, spans[..n]).value;
      assert FirstFree(m.slots, m.cursor) == c + n;
    }
  }

  /** The crash the double cell invites: with two columns of two rows, a double
      cell that comes third lands in the top slot of the last column, and its
      second half would be slot 4 of a four-slot array. */
  lemma DoubleCellInLastColumnThrows()
    ensures Run(Board(Slots(2, 2, 10), 0, []), 2, [1, 1]).Some?
    ensures Run(Board(Slots(2, 2, 10), 0, []), 2, [1, 1, 2]) == None
  {
    var s := Slots(2, 2, 10);
    SlotsShape(2, 2, 10);
    var sp: seq<nat> := [1, 1, 2];
    SingleSpansFit(s, 0, 2, sp[..2]);
    var m := Run(Board(s, 0, []), 2, sp[..2]).value;
    assert FirstFree(m.slots, m.cursor) == 2;
    assert !Placeable(m.slots, m.cursor, 2, 2);
    assert sp[..2] == [1, 1];
    RunStep(Board(s, 0, []), 2, sp, 2);
    assert sp[..3] == sp;
  }
}
