/**
 * The records of the hot map (one spreadsheet row each) and the pure parts of
 * the record pipeline: the sort order of `sortData`, the hot-value coercion, the
 * span assignment of `countCells`, the category filter of
 * `updateDataPointsByType` and the distinct category list of `then`.
 */
module Records {
  import opened JsValues
  import opened Render

  /** One data point. The fields are the spreadsheet columns the hot map reads:
      the hot level ("TC Community ready?"), the title ("Technologies"), the
      category ("Technology Type"), "Should we sell?" and "Widely Used on TC".
      `span` is `numberOfCells` (0 while it is still undefined) and `cell` is
      `cellInTheMap`, the group the record was drawn as. */
  datatype Record = Record(hot: Value, title: string, category: string, saleability: string,
                           readiness: string, span: nat, cell: Option<Group>)

  /** The keys `lighten` and `markIcon` are called with. */
  datatype Field = HotField | TitleField | CategoryField | SaleabilityField | ReadinessField

  /** `point[key]`. */
  function Get(r: Record, f: Field): Value
  {
    match f
    case HotField => r.hot
    case TitleField => Str(r.title)
    case CategoryField => Str(r.category)
    case SaleabilityField => Str(r.saleability)
    case ReadinessField => Str(r.readiness)
  }

  // ---------------------------------------------------------------------------
  // Sort order: ascending hot level, then ascending title

  /** lodash 3 puts numbers in ascending order and NaN after every number. */
  predicate HotBefore(a: Value, b: Value)
  {
    a.Num? && (!b.Num? || a.n < b.n)
  }

  predicate SameHot(a: Value, b: Value)
  {
    if a.Num? then b.Num? && a.n == b.n else !b.Num?
  }

  /** `a` sorts strictly before `b` under the keys (hot, title). */
  predicate Before(a: Record, b: Record)
  {
    HotBefore(a.hot, b.hot) || (SameHot(a.hot, b.hot) && StrLt(a.title, b.title))
  }

  /** `a` and `b` tie on both sort keys. */
  predicate SameKey(a: Record, b: Record)
  {
    SameHot(a.hot, b.hot) && a.title == b.title
  }

  /** Any two records either tie or one comes strictly first, and never both. */
  lemma Trichotomy(a: Record, b: Record)
    ensures SameKey(a, b) || Before(a, b) || Before(b, a)
    ensures !(Before(a, b) && Before(b, a))
    ensures SameKey(a, b) ==> !Before(a, b)
  {
    StrLtTotal(a.title, b.title);
    StrLtIrreflexive(a.title);
    if StrLt(a.title, b.title) && StrLt(b.title, a.title) {
      StrLtTransitive(a.title, b.title, a.title);
    }
  }

  /** "Not after" is transitive, so the order is a total preorder. */
  lemma NotBeforeTransitive(a: Record, b: Record, c: Record)
    requires !Before(b, a) && !Before(c, b)
    ensures !Before(c, a)
  {
    Trichotomy(a, b);
    Trichotomy(b, c);
    Trichotomy(a, c);
    if Before(c, a) {
      if StrLt(c.title, a.title) && SameHot(a.hot, b.hot) && SameHot(b.hot, c.hot) {
        if StrLt(a.title, b.title) {
          StrLtTransitive(c.title, a.title, b.title);
          if StrLt(b.title, c.title) {
            StrLtTransitive(c.title, b.title, c.title);
            StrLtIrreflexive(c.title);
          }
        } else if StrLt(b.title, c.title) {
          StrLtTransitive(b.title, c.title, a.title);
        }
      }
    }
  }

  /** Ascending under the keys (each record is not after any later one). */
  predicate Sorted(s: seq<Record>)
  {
    forall i, j :: 0 <= i < j < |s| ==> !Before(s[j], s[i])
  }

  /** Insert `x` in front of the first record that does not sort strictly before it,
      so that it stays ahead of the records it ties with. */
  function Insert(x: Record, t: seq<Record>): (r: seq<Record>)
    ensures multiset(r) == multiset(t) + multiset{x}
  {
    if t == [] || !Before(t[0], x) then [x] + t
    else
      assert t == [t[0]] + t[1..];
      [t[0]] + Insert(x, t[1..])
  }

  /** `_.sortByAll(points, [hot, title])`: a stable ascending sort. */
  function SortByKeys(s: seq<Record>): (r: seq<Record>)
    ensures multiset(r) == multiset(s)
  {
    if s == [] then []
    else
      assert s == [s[0]] + s[1..];
      Insert(s[0], SortByKeys(s[1..]))
  }

  lemma {:induction false} InsertSorted(x: Record, t: seq<Record>)
    requires Sorted(t)
    ensures Sorted(Insert(x, t))
  {
    var r := Insert(x, t);
    if t == [] || !Before(t[0], x) {
      forall i, j | 0 <= i < j < |r|
        ensures !Before(r[j], r[i])
      {
        if i == 0 && j > 1 {
          NotBeforeTransitive(x, t[0], t[j - 1]);
        }
      }
    } else {
      InsertSorted(x, t[1..]);
      var rest := Insert(x, t[1..]);
      forall i, j | 0 <= i < j < |r|
        ensures !Before(r[j], r[i])
      {
        if i == 0 {
          assert r[j] in multiset(rest);
          assert r[j] == x || r[j] in t[1..];
          Trichotomy(t[0], x);
        }
      }
    }
  }

  /** The sort leaves its result ascending and keeps every record (with its
      multiplicity): the output is a sorted permutation of the input. */
  lemma {:induction false} SortSorts(s: seq<Record>)
    ensures Sorted(SortByKeys(s))
    ensures multiset(SortByKeys(s)) == multiset(s)
  {
    if s != [] {
      SortSorts(s[1..]);
      InsertSorted(s[0], SortByKeys(s[1..]));
    }
  }

  /** The records that tie with `k`, in order. */
  function TiesWith(s: seq<Record>, k: Record): seq<Record>
  {
    if s == [] then [] else (if SameKey(s[0], k) then [s[0]] else []) + TiesWith(s[1..], k)
  }

  lemma {:induction false} InsertTies(x: Record, t: seq<Record>, k: Record)
    ensures TiesWith(Insert(x, t), k) == (if SameKey(x, k) then [x] else []) + TiesWith(t, k)
  {
    if t != [] && Before(t[0], x) {
      InsertTies(x, t[1..], k);
      if SameKey(x, k) && SameKey(t[0], k) {
        Trichotomy(t[0], x);
        Trichotomy(t[0], k);
        Trichotomy(x, k);
        assert SameKey(t[0], x);
      }
    }
  }

  /** Stability: records that tie on both keys keep their relative order. */
  lemma {:induction false} SortStable(s: seq<Record>, k: Record)
    ensures TiesWith(SortByKeys(s), k) == TiesWith(s, k)
  {
    if s != [] {
      SortStable(s[1..], k);
      InsertTies(s[0], SortByKeys(s[1..]), k);
    }
  }

  /** Sorting an ascending sequence leaves it as it is. */
  lemma {:induction false} SortKeepsSorted(s: seq<Record>)
    requires Sorted(s)
    ensures SortByKeys(s) == s
  {
    if s != [] {
      assert Sorted(s[1..]);
      SortKeepsSorted(s[1..]);
      assert s == [s[0]] + s[1..];
    }
  }

  // ---------------------------------------------------------------------------
  // Coercion of the hot field

  /** The working set after the `parseInt` loop of `sortData`: every hot value
      replaced by its integer parse, nothing else touched. */
  function CoerceHot(s: seq<Record>): (r: seq<Record>)
    ensures |r| == |s|
  {
    seq(|s|, i requires 0 <= i < |s| => s[i].(hot := Coerce(s[i].hot)))
  }

  /** Every hot value is already a parsed number (or NaN). */
  predicate Coerced(s: seq<Record>)
  {
    forall i :: 0 <= i < |s| ==> s[i].hot.Num? || s[i].hot.NaN?
  }

  lemma CoerceHotCoerced(s: seq<Record>)
    ensures Coerced(CoerceHot(s))
  {
  }

  /** Coercing a coerced working set changes nothing. */
  lemma CoerceHotFixed(s: seq<Record>)
    requires Coerced(s)
    ensures CoerceHot(s) == s
  {
    forall i | 0 <= i < |s|
      ensures CoerceHot(s)[i] == s[i]
    {
      if s[i].hot.NaN? {
        assert DigitPrefix("NaN", 10) == [];
      }
    }
  }

  /** What `sortData` does to the working set. */
  function SortedData(s: seq<Record>): seq<Record>
  {
    SortByKeys(CoerceHot(s))
  }

  /** Running `sortData` again on its own result changes nothing. */
  lemma SortDataIdempotent(s: seq<Record>)
    ensures SortedData(SortedData(s)) == SortedData(s)
  {
    var t := SortedData(s);
    SortSorts(CoerceHot(s));
    forall i | 0 <= i < |t|
      ensures t[i].hot.Num? || t[i].hot.NaN?
    {
      assert t[i] in multiset(CoerceHot(s));
    }
    CoerceHotFixed(t);
    SortKeepsSorted(t);
  }

  // ---------------------------------------------------------------------------
  // Spans

  /** The span strategy of the page: two slots for a title containing "and",
      one otherwise. */
  function CellSpan(r: Record): nat
  {
    if HasInfix(r.title, "and") then 2 else 1
  }

  lemma CellSpanSpec(r: Record)
    ensures CellSpan(r) == 2 <==> exists i :: InfixAt(r.title, "and", i)
    ensures CellSpan(r) == 1 || CellSpan(r) == 2
  {
    HasInfixSpec(r.title, "and");
  }

  /** Every record's span set by the strategy, nothing else changed. */
  function WithSpans(s: seq<Record>, strategy: Record -> nat): (r: seq<Record>)
    ensures |r| == |s|
  {
    seq(|s|, i requires 0 <= i < |s| => s[i].(span := strategy(s[i])))
  }

  /** The total number of cells. */
  function SpanSum(s: seq<Record>): nat
  {
    if s == [] then 0 else SpanSum(s[..|s| - 1]) + s[|s| - 1].span
  }

  function Spans(s: seq<Record>): (r: seq<nat>)
    ensures |r| == |s|
  {
    seq(|s|, i requires 0 <= i < |s| => s[i].span)
  }

  /** With every span one, the total is the number of records; with every span one
      or two, it lies between that number and twice it. */
  lemma {:induction false} SpanSumBounds(s: seq<Record>)
    requires forall i :: 0 <= i < |s| ==> 1 <= s[i].span <= 2
    ensures |s| <= SpanSum(s) <= 2 * |s|
    ensures (forall i :: 0 <= i < |s| ==> s[i].span == 1) ==> SpanSum(s) == |s|
  {
    if s != [] {
      SpanSumBounds(s[..|s| - 1]);
    }
  }

  // ---------------------------------------------------------------------------
  // Category filter and distinct categories

  /** `_.filter(all, n => n[category] === type)`. */
  function OfCategory(s: seq<Record>, t: string): (r: seq<Record>)
    ensures |r| <= |s|
    ensures forall i :: 0 <= i < |r| ==> r[i].category == t
  {
    if s == [] then []
    else OfCategory(s[..|s| - 1], t) + (if s[|s| - 1].category == t then [s[|s| - 1]] else [])
  }

  /** The filter keeps exactly the records of the category... */
  lemma {:induction false} OfCategoryMembers(s: seq<Record>, t: string, x: Record)
    ensures x in OfCategory(s, t) <==> x in s && x.category == t
  {
    if s != [] {
      OfCategoryMembers(s[..|s| - 1], t, x);
      assert s == s[..|s| - 1] + [s[|s| - 1]];
    }
  }

  /** ...and keeps their order: filtering a concatenation filters each part. */
  lemma {:induction false} OfCategoryAppend(a: seq<Record>, b: seq<Record>, t: string)
    ensures OfCategory(a + b, t) == OfCategory(a, t) + OfCategory(b, t)
    decreases |b|
  {
    if b != [] {
      assert (a + b)[..|a + b| - 1] == a + b[..|b| - 1];
      OfCategoryAppend(a, b[..|b| - 1], t);
    } else {
      assert a + b == a;
    }
  }

  /** The working set `updateDataPointsByType` makes from the snapshot. */
  function Selected(all: seq<Record>, t: string): seq<Record>
  {
    if t == "*" then all else OfCategory(all, t)
  }

  function Categories(s: seq<Record>): (r: seq<string>)
    ensures |r| == |s|
  {
    seq(|s|, i requires 0 <= i < |s| => s[i].category)
  }

  predicate NoDuplicates<T(==)>(s: seq<T>)
  {
    forall i, j :: 0 <= i < j < |s| ==> s[i] != s[j]
  }

  /** `_.uniq`: each value once, at its first occurrence. */
  function Uniq<T(==)>(s: seq<T>): seq<T>
  {
    if s == [] then []
    else
      var u := Uniq(s[..|s| - 1]);
      if s[|s| - 1] in u then u else u + [s[|s| - 1]]
  }

  /** `Uniq` holds each value of its input exactly once. */
  lemma {:induction false} UniqSpec<T>(s: seq<T>)
    ensures NoDuplicates(Uniq(s))
    ensures forall x :: x in Uniq(s) <==> x in s
  {
    if s != [] {
      UniqSpec(s[..|s| - 1]);
      assert s == s[..|s| - 1] + [s[|s| - 1]];
    }
  }

  /** First-occurrence order: the distinct values of a prefix come first, in the
      same order. */
  lemma {:induction false} UniqPrefix<T>(s: seq<T>, k: nat)
    requires k <= |s|
    ensures |Uniq(s[..k])| <= |Uniq(s)| && Uniq(s)[..|Uniq(s[..k])|] == Uniq(s[..k])
    decreases |s|
  {
    if k < |s| {
      assert s[..|s| - 1][..k] == s[..k];
      UniqPrefix(s[..|s| - 1], k);
    } else {
      assert s[..k] == s;
    }
  }

  // ---------------------------------------------------------------------------
  // The final callback

  /** What `then` calls once the task list has run: the error handler with the
      error, or the callback with the working set and its distinct categories. */
  datatype Dispatch = HandleError(error: string) | Callback(data: seq<Record>, categories: seq<string>)

  /** A JavaScript truthy error: present and not the empty string. */
  predicate Truthy(err: Option<string>)
  {
    err.Some? && err.value != ""
  }
}
