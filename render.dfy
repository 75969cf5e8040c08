/**
 * The SVG a cell is drawn as, kept as a value: a `g` group holding one `rect`,
 * the title and description `text` elements and the marker `image`s. Only the
 * attributes the hot map reads back or changes are kept. The functions here say
 * what `_renderCell`, `_renderText` and `appendIconIfNotExist` produce.
 */
module Render {
  import opened JsValues
  import opened TextLines
  import opened Grid

  /** The SVG filters the page defines: `url(#lighten)` and `url(#inset-shadow)`. */
  datatype Filter = Lighten | InsetShadow

  /** How a rect is coloured: a fill colour (current version) or a CSS class (older
      version). `None` is an attribute set to `undefined`, which d3 leaves unset. */
  datatype Paint = Fill(colour: Option<string>) | Class(name: Option<string>)

  datatype Rect = Rect(x: int, y: int, width: int, height: int, paint: Paint, filter: Option<Filter>)

  /** A centred `text` element; `x` can fall on a half pixel. */
  datatype TextElement = TextElement(text: string, x: real, y: int, fontSize: int)

  /** A marker `image`; `cls` is its CSS class, `href` its `xlink:href`. */
  datatype Icon = Icon(cls: string, x: real, y: int, width: int, height: int, href: Option<string>)

  /** A cell's `g` group. `filter` is the group's own filter attribute, which only the
      older version sets. */
  datatype Group = Group(rect: Rect, filter: Option<Filter>, titles: seq<TextElement>,
                         descs: seq<TextElement>, icons: seq<Icon>)

  // ---------------------------------------------------------------------------
  // Hot level to colour or class

  /** The hot level of a value, `parseInt(value)`, when it is one of the five levels. */
  function HotLevel(v: Value): (level: Option<int>)
    ensures level.Some? <==> Coerce(v).Num? && 1 <= Coerce(v).n <= 5
    ensures level.Some? ==> level.value == Coerce(v).n
  {
    var c := Coerce(v);
    if c.Num? && 1 <= c.n <= 5 then Some(c.n) else None
  }

  /** `HOT_FILL_MAPPING` of the current version. */
  function FillOf(level: int): string
    requires 1 <= level <= 5
  {
    if level == 1 then "#EB6045"
    else if level == 2 then "#FDC171"
    else if level == 3 then "#D2EC9B"
    else if level == 4 then "#69C3A4"
    else "#4AA3B1"
  }

  /** `HOT_CLASSES_MAPPING` of the older version. */
  function ClassOf(level: int): string
    requires 1 <= level <= 5
  {
    if level == 1 then "very-hot"
    else if level == 2 then "some-hot"
    else if level == 3 then "so-so"
    else if level == 4 then "no-hot"
    else "never-hot"
  }

  /** `_generateFill`: a colour for levels 1 to 5, `undefined` for anything else. */
  function HotFill(v: Value): (colour: Option<string>)
    ensures colour.Some? <==> HotLevel(v).Some?
    ensures colour.Some? ==> colour.value == FillOf(HotLevel(v).value)
  {
    match HotLevel(v)
    case Some(level) => Some(FillOf(level))
    case None => None
  }

  /** `_generateClass`: a CSS class for levels 1 to 5, `undefined` for anything else. */
  function HotClass(v: Value): (name: Option<string>)
    ensures name.Some? <==> HotLevel(v).Some?
    ensures name.Some? ==> name.value == ClassOf(HotLevel(v).value)
  {
    match HotLevel(v)
    case Some(level) => Some(ClassOf(level))
    case None => None
  }

  /** Different levels get different colours and different classes. */
  lemma {:induction false} LevelsDistinct(a: int, b: int)
    requires 1 <= a <= 5 && 1 <= b <= 5 && a != b
    ensures FillOf(a) != FillOf(b)
    ensures ClassOf(a) != ClassOf(b)
  {
    assert FillOf(a)[1] != FillOf(b)[1] || FillOf(a)[2] != FillOf(b)[2];
    assert ClassOf(a)[0] != ClassOf(b)[0] || ClassOf(a)[1] != ClassOf(b)[1] || |ClassOf(a)| != |ClassOf(b)|;
  }

  // ---------------------------------------------------------------------------
  // Geometry of a cell

  /** A cell is one slot wide, or (for a span above one) two slots and the gap. */
  function CellWidth(span: int): (w: int)
    ensures span > 1 ==> w == PITCH + EDGE_LENGTH
    ensures span <= 1 ==> w == EDGE_LENGTH
  {
    if span > 1 then EDGE_LENGTH * 2 + MARGIN else EDGE_LENGTH
  }

  /** The horizontal centre of a cell whose rect starts at `x`. */
  function CenterX(x: int, span: int): real
  {
    x as real + CellWidth(span) as real / 2.0
  }

  /** Font size of a title line: three pixels less per line of the title, five
      less again for a line longer than ten characters. */
  function TitleFontSize(count: int, length: int): int
  {
    26 - count * 3 - (if length > 10 then 5 else 0)
  }

  /** Baseline of title line `k` of `count`: the first line moves up 8 pixels per
      extra line, and lines are 20 pixels apart. */
  function TitleY(y: int, count: int, k: int): int
  {
    y + (45 - 8 * (count - 1)) + 20 * k
  }

  /** Baseline of description line `k`. */
  function DescY(y: int, k: int): int
  {
    y + 90 + 15 * k
  }

  /** The title `text` elements of a cell at `(x, y)`, one per line, in order. */
  function TitleTexts(lines: seq<string>, x: int, y: int, span: int): (r: seq<TextElement>)
  {
    seq(|lines|, k requires 0 <= k < |lines| =>
      TextElement(lines[k], CenterX(x, span), TitleY(y, |lines|, k), TitleFontSize(|lines|, |lines[k]|)))
  }

  /** The description `text` elements: fixed 15-pixel font, 15 pixels apart. */
  function DescTexts(lines: seq<string>, x: int, y: int, span: int): (r: seq<TextElement>)
  {
    seq(|lines|, k requires 0 <= k < |lines| => TextElement(lines[k], CenterX(x, span), DescY(y, k), 15))
  }

  /** How the title block is laid out: every line is centred on the cell, the lines
      keep their order and sit 20 pixels apart, the middle of the block lies
      45 + 2 * (count - 1) pixels below the cell top, and a line longer than ten
      characters gets a font five pixels smaller. */
  lemma TitleLayout(lines: seq<string>, x: int, y: int, span: int)
    ensures var t := TitleTexts(lines, x, y, span);
      |t| == |lines| &&
      (forall k :: 0 <= k < |t| ==> t[k].text == lines[k] && t[k].x == CenterX(x, span)) &&
      (forall k :: 0 <= k < |t| - 1 ==> t[k + 1].y == t[k].y + 20) &&
      (|t| > 0 ==> t[0].y + t[|t| - 1].y == 2 * y + 2 * 45 + 4 * (|t| - 1)) &&
      (forall k :: 0 <= k < |t| && |lines[k]| <= 10 ==> t[k].fontSize == 26 - 3 * |t|) &&
      (forall k :: 0 <= k < |t| && |lines[k]| > 10 ==> t[k].fontSize == 21 - 3 * |t|)
  {
  }

  /** Up to four title lines end above the first description line; with five or
      more the last title line reaches it. */
  lemma TitlesAboveDescription(lines: seq<string>, descs: seq<string>, x: int, y: int, span: int)
    requires |descs| > 0
    ensures var t := TitleTexts(lines, x, y, span);
      var d := DescTexts(descs, x, y, span);
      (|t| <= 4 ==> forall k :: 0 <= k < |t| ==> t[k].y < d[0].y) &&
      (|t| >= 5 ==> t[|t| - 1].y >= d[0].y)
  {
  }

  // ---------------------------------------------------------------------------
  // Markers

  /** The group already holds a marker of this class (`selectAll('image.' + cls)`). */
  predicate HasIcon(g: Group, cls: string)
  {
    exists i :: 0 <= i < |g.icons| && g.icons[i].cls == cls
  }

  /** How many markers of this class the group holds. */
  function IconCount(icons: seq<Icon>, cls: string): nat
  {
    if icons == [] then 0
    else IconCount(icons[..|icons| - 1], cls) + (if icons[|icons| - 1].cls == cls then 1 else 0)
  }

  lemma {:induction false} IconCountZero(icons: seq<Icon>, cls: string)
    ensures IconCount(icons, cls) == 0 <==> !exists i :: 0 <= i < |icons| && icons[i].cls == cls
  {
    if icons != [] {
      IconCountZero(icons[..|icons| - 1], cls);
      if exists i :: 0 <= i < |icons| && icons[i].cls == cls {
        var i :| 0 <= i < |icons| && icons[i].cls == cls;
        if i < |icons| - 1 {
          assert icons[..|icons| - 1][i].cls == cls;
        }
      }
    }
  }

  /** The marker `appendIconIfNotExist` would append: 60 by 40 pixels, centred on the
      cell and raised 15 pixels above its top. The rect's `x` and `y` attributes are
      read back with `parseInt`, which gives the integers that were written. */
  function MarkerFor(g: Group, span: int, href: Option<string>, cls: string): Icon
  {
    Icon(cls, CenterX(g.rect.x, span) - 30.0, g.rect.y - 15, 60, 40, href)
  }

  /** `appendIconIfNotExist`: a group that already has a marker of this class is
      left alone; otherwise the marker is appended and nothing else changes. */
  function WithIcon(g: Group, span: int, href: Option<string>, cls: string): (r: Group)
    ensures HasIcon(r, cls)
    ensures HasIcon(g, cls) ==> r == g
    ensures !HasIcon(g, cls) ==> r == g.(icons := g.icons + [MarkerFor(g, span, href, cls)])
  {
    if HasIcon(g, cls) then g
    else
      var r := g.(icons := g.icons + [MarkerFor(g, span, href, cls)]);
      assert r.icons[|g.icons|].cls == cls;
      r
  }

  /** Appending a marker never makes two of one class: a group with at most one
      marker of the class ends up with exactly one. */
  lemma WithIconOnce(g: Group, span: int, href: Option<string>, cls: string)
    requires IconCount(g.icons, cls) <= 1
    ensures IconCount(WithIcon(g, span, href, cls).icons, cls) == 1
  {
    IconCountZero(g.icons, cls);
    var r := WithIcon(g, span, href, cls);
    if !HasIcon(g, cls) {
      assert r.icons[..|r.icons| - 1] == g.icons;
    }
  }

  /** Appending the same marker twice is appending it once. */
  lemma WithIconIdempotent(g: Group, span: int, href: Option<string>, cls: string)
    ensures WithIcon(WithIcon(g, span, href, cls), span, href, cls) == WithIcon(g, span, href, cls)
  {
  }

  /** The markers that are not of class `cls`, in order. */
  function Without(icons: seq<Icon>, cls: string): (r: seq<Icon>)
    ensures |r| <= |icons|
    ensures forall i :: 0 <= i < |r| ==> r[i].cls != cls
  {
    if icons == [] then []
    else Without(icons[..|icons| - 1], cls) + (if icons[|icons| - 1].cls == cls then [] else [icons[|icons| - 1]])
  }

  lemma {:induction false} WithoutKeepsOthers(icons: seq<Icon>, cls: string, ic: Icon)
    requires ic.cls != cls
    ensures ic in Without(icons, cls) <==> ic in icons
  {
    if icons != [] {
      WithoutKeepsOthers(icons[..|icons| - 1], cls, ic);
      assert icons == icons[..|icons| - 1] + [icons[|icons| - 1]];
    }
  }

  /** `removeIcon`: every marker of the class goes, every other one stays. */
  function WithoutIcons(g: Group, cls: string): (r: Group)
    ensures !HasIcon(r, cls)
    ensures r.rect == g.rect && r.filter == g.filter && r.titles == g.titles && r.descs == g.descs
  {
    g.(icons := Without(g.icons, cls))
  }

  lemma {:induction false} WithoutAppended(icons: seq<Icon>, ic: Icon)
    ensures Without(icons + [ic], ic.cls) == Without(icons, ic.cls)
  {
    assert (icons + [ic])[..|icons|] == icons;
  }

  /** Removing markers undoes appending one. */
  lemma RemoveUndoesAppend(g: Group, span: int, href: Option<string>, cls: string)
    ensures WithoutIcons(WithIcon(g, span, href, cls), cls) == WithoutIcons(g, cls)
  {
    if !HasIcon(g, cls) {
      WithoutAppended(g.icons, MarkerFor(g, span, href, cls));
    }
  }
}
