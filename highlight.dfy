/**
 * The highlight and marker state of a drawn working set, as functions of the
 * records: `resetLight`, `lighten`, `markIcon` and `removeIcons` change only the
 * groups of records that have been drawn (`cellInTheMap`), one record at a time.
 *
 * The two versions highlight differently. The current one writes the filter of
 * the group's rect: `lighten` for "off" and `inset-shadow` for "on". The older one
 * writes the filter of the group itself: none for "off" and `lighten` for "on".
 * So one pass is defined here, parameterised by where the filter goes and by the
 * two values.
 */
module Highlight {
  import opened JsValues
  import opened Render
  import opened Records

  /** The CSS class of the "widely used" marker. */
  const MARK_CLASS: string := "marked-ready"

  /** Which filter attribute a version writes. */
  datatype Target = RectFilter | GroupFilter

  /** The group's filter as seen through the target. */
  function FilterAt(g: Group, target: Target): Option<Filter>
  {
    match target
    case RectFilter => g.rect.filter
    case GroupFilter => g.filter
  }

  function SetFilter(g: Group, target: Target, f: Option<Filter>): (r: Group)
    ensures FilterAt(r, target) == f
  {
    match target
    case RectFilter => g.(rect := g.rect.(filter := f))
    case GroupFilter => g.(filter := f)
  }

  /** A record whose group (if drawn) has its filter set to `f`. */
  function Paint(r: Record, target: Target, f: Option<Filter>): (q: Record)
    ensures q.cell.Some? <==> r.cell.Some?
    ensures forall key :: Get(q, key) == Get(r, key)
  {
    match r.cell
    case None => r
    case Some(g) => r.(cell := Some(SetFilter(g, target, f)))
  }

  /** `resetLight`: every drawn group gets the "off" filter. */
  function ResetAll(s: seq<Record>, target: Target, off: Option<Filter>): (r: seq<Record>)
    ensures |r| == |s|
  {
    seq(|s|, i requires 0 <= i < |s| => Paint(s[i], target, off))
  }

  /** The second loop of `lighten`: drawn groups whose field is one of `values`
      get the "on" filter; the others are not touched. */
  function PaintMatches(s: seq<Record>, target: Target, on: Option<Filter>, key: Field, values: seq<Value>): (r: seq<Record>)
    ensures |r| == |s|
  {
    seq(|s|, i requires 0 <= i < |s| => if Includes(values, Get(s[i], key)) then Paint(s[i], target, on) else s[i])
  }

  /** `lighten(key, values)`: reset, then light the matches. */
  function LightenAll(s: seq<Record>, target: Target, off: Option<Filter>, on: Option<Filter>,
                      key: Field, values: seq<Value>): seq<Record>
  {
    PaintMatches(ResetAll(s, target, off), target, on, key, values)
  }

  /** After `lighten`, a drawn group has the "on" filter exactly when its field is
      strictly equal to one of the values, and the "off" filter otherwise; nothing
      else about any record changes. */
  lemma LightenExact(s: seq<Record>, target: Target, off: Option<Filter>, on: Option<Filter>,
                     key: Field, values: seq<Value>, i: nat)
    requires i < |s|
    ensures LightenAll(s, target, off, on, key, values)[i] ==
      Paint(s[i], target, if Includes(values, Get(s[i], key)) then on else off)
  {
    var r := ResetAll(s, target, off);
    assert Get(r[i], key) == Get(s[i], key);
  }

  /** Records that differ at most in the filters of their groups. */
  predicate SameUpToFilters(s: seq<Record>, t: seq<Record>, target: Target)
  {
    |s| == |t| &&
    forall i :: 0 <= i < |s| ==> Paint(s[i], target, None) == Paint(t[i], target, None)
  }

  lemma PaintTwice(r: Record, target: Target, f: Option<Filter>, h: Option<Filter>)
    ensures Paint(Paint(r, target, f), target, h) == Paint(r, target, h)
  {
  }

  /** `lighten` does not depend on the highlight it finds: two working sets that
      differ only in their filters come out the same. */
  lemma LightenForgets(s: seq<Record>, t: seq<Record>, target: Target, off: Option<Filter>, on: Option<Filter>,
                       key: Field, values: seq<Value>)
    requires SameUpToFilters(s, t, target)
    ensures LightenAll(s, target, off, on, key, values) == LightenAll(t, target, off, on, key, values)
  {
    forall i | 0 <= i < |s|
      ensures LightenAll(s, target, off, on, key, values)[i] == LightenAll(t, target, off, on, key, values)[i]
    {
      LightenExact(s, target, off, on, key, values, i);
      LightenExact(t, target, off, on, key, values, i);
      var f := if Includes(values, Get(s[i], key)) then on else off;
      assert Get(s[i], key) == Get(Paint(s[i], target, None), key) == Get(t[i], key);
      PaintTwice(s[i], target, None, f);
      PaintTwice(t[i], target, None, f);
    }
  }

  lemma PaintSameUpToFilters(s: seq<Record>, target: Target, f: Option<Filter>, i: nat)
    requires i < |s|
    ensures Paint(Paint(s[i], target, f), target, None) == Paint(s[i], target, None)
  {
    PaintTwice(s[i], target, f, None);
  }

  /** A second `lighten`, with any key and values, overrides the first entirely;
      in particular `lighten` is idempotent, and `resetLight` before it changes
      nothing. */
  lemma LightenOverrides(s: seq<Record>, target: Target, off: Option<Filter>, on: Option<Filter>,
                         key1: Field, values1: seq<Value>, key2: Field, values2: seq<Value>)
    ensures LightenAll(LightenAll(s, target, off, on, key1, values1), target, off, on, key2, values2)
         == LightenAll(s, target, off, on, key2, values2)
    ensures LightenAll(ResetAll(s, target, off), target, off, on, key2, values2)
         == LightenAll(s, target, off, on, key2, values2)
  {
    var l := LightenAll(s, target, off, on, key1, values1);
    forall i | 0 <= i < |s|
      ensures Paint(l[i], target, None) == Paint(s[i], target, None)
    {
      LightenExact(s, target, off, on, key1, values1, i);
      PaintSameUpToFilters(s, target, if Includes(values1, Get(s[i], key1)) then on else off, i);
    }
    LightenForgets(l, s, target, off, on, key2, values2);
    var r := ResetAll(s, target, off);
    forall i | 0 <= i < |s|
      ensures Paint(r[i], target, None) == Paint(s[i], target, None)
    {
      PaintSameUpToFilters(s, target, off, i);
    }
    LightenForgets(r, s, target, off, on, key2, values2);
  }

  /** With no values nothing is lit: `lighten(key, [])` is `resetLight`. */
  lemma LightenNothing(s: seq<Record>, target: Target, off: Option<Filter>, on: Option<Filter>, key: Field)
    ensures LightenAll(s, target, off, on, key, []) == ResetAll(s, target, off)
  {
  }

  /** Resetting twice is resetting once. */
  lemma ResetIdempotent(s: seq<Record>, target: Target, off: Option<Filter>)
    ensures ResetAll(ResetAll(s, target, off), target, off) == ResetAll(s, target, off)
  {
    forall i | 0 <= i < |s|
      ensures ResetAll(ResetAll(s, target, off), target, off)[i] == ResetAll(s, target, off)[i]
    {
      PaintTwice(s[i], target, off, off);
    }
  }

  // ---------------------------------------------------------------------------
  // Markers

  /** `markIcon`'s step for one record: a drawn record whose field is strictly
      equal to the matched value gets the marker (unless it has one already). */
  function MarkOne(r: Record, key: Field, matched: Value, href: Option<string>): (q: Record)
    ensures forall f :: Get(q, f) == Get(r, f)
    ensures q.cell.Some? <==> r.cell.Some?
  {
    if r.cell.Some? && StrictEq(Get(r, key), matched)
    then r.(cell := Some(WithIcon(r.cell.value, r.span, href, MARK_CLASS)))
    else r
  }

  function MarkAll(s: seq<Record>, key: Field, matched: Value, href: Option<string>): (r: seq<Record>)
    ensures |r| == |s|
  {
    seq(|s|, i requires 0 <= i < |s| => MarkOne(s[i], key, matched, href))
  }

  /** `removeIcons`' step for one record. */
  function UnmarkOne(r: Record): (q: Record)
    ensures q.cell.Some? ==> !HasIcon(q.cell.value, MARK_CLASS)
  {
    match r.cell
    case None => r
    case Some(g) => r.(cell := Some(WithoutIcons(g, MARK_CLASS)))
  }

  function UnmarkAll(s: seq<Record>): (r: seq<Record>)
    ensures |r| == |s|
  {
    seq(|s|, i requires 0 <= i < |s| => UnmarkOne(s[i]))
  }

  /** Marking twice is marking once. */
  lemma MarkIdempotent(s: seq<Record>, key: Field, matched: Value, href: Option<string>)
    ensures MarkAll(MarkAll(s, key, matched, href), key, matched, href) == MarkAll(s, key, matched, href)
  {
    forall i | 0 <= i < |s|
      ensures MarkAll(MarkAll(s, key, matched, href), key, matched, href)[i] == MarkAll(s, key, matched, href)[i]
    {
      if s[i].cell.Some? && StrictEq(Get(s[i], key), matched) {
        WithIconIdempotent(s[i].cell.value, s[i].span, href, MARK_CLASS);
      }
    }
  }

  /** At most one marker per drawn group. */
  predicate AtMostOneMarker(s: seq<Record>)
  {
    forall i :: 0 <= i < |s| && s[i].cell.Some? ==> IconCount(s[i].cell.value.icons, MARK_CLASS) <= 1
  }

  /** `markIcon` marks exactly the drawn records that match, never twice: afterwards
      such a record has exactly one marker, and every other record is unchanged. */
  lemma MarkExact(s: seq<Record>, key: Field, matched: Value, href: Option<string>, i: nat)
    requires i < |s| && AtMostOneMarker(s)
    ensures var m := MarkAll(s, key, matched, href);
      (s[i].cell.Some? && StrictEq(Get(s[i], key), matched) ==> IconCount(m[i].cell.value.icons, MARK_CLASS) == 1) &&
      (!(s[i].cell.Some? && StrictEq(Get(s[i], key), matched)) ==> m[i] == s[i]) &&
      AtMostOneMarker(m)
  {
    var m := MarkAll(s, key, matched, href);
    if s[i].cell.Some? && StrictEq(Get(s[i], key), matched) {
      WithIconOnce(s[i].cell.value, s[i].span, href, MARK_CLASS);
    }
    forall j | 0 <= j < |s| && m[j].cell.Some?
      ensures IconCount(m[j].cell.value.icons, MARK_CLASS) <= 1
    {
      if StrictEq(Get(s[j], key), matched) {
        WithIconOnce(s[j].cell.value, s[j].span, href, MARK_CLASS);
      }
    }
  }

  /** NaN is never strictly equal to anything, so marking by NaN marks nothing. */
  lemma MarkNaNNothing(s: seq<Record>, key: Field, href: Option<string>)
    ensures MarkAll(s, key, NaN, href) == s
  {
  }

  /** `removeIcons` undoes `markIcon`, whatever it marked. */
  lemma UnmarkUndoesMark(s: seq<Record>, key: Field, matched: Value, href: Option<string>)
    ensures UnmarkAll(MarkAll(s, key, matched, href)) == UnmarkAll(s)
  {
    forall i | 0 <= i < |s|
      ensures UnmarkAll(MarkAll(s, key, matched, href))[i] == UnmarkAll(s)[i]
    {
      if s[i].cell.Some? && StrictEq(Get(s[i], key), matched) {
        RemoveUndoesAppend(s[i].cell.value, s[i].span, href, MARK_CLASS);
      }
    }
  }
}
