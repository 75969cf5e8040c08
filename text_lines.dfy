/**
 * Title and description line breaking of `_renderText`: `sliceString` cuts a
 * trimmed text at a separator once it is longer than 10 characters (single-span
 * cells only), and `reArrangeLines` re-cuts pieces that hold a '/' and then
 * greedily joins neighbours with a space while the unspaced concatenation stays
 * within 10 characters.  The two source variants share this code unchanged.
 */
module TextLines {
  import opened JsValues

  // ---------------------------------------------------------------------------
  // String.prototype.split with a one-character separator, and its inverse

  /** `s.split(ch)`: the pieces between occurrences of `ch`, empty pieces included. */
  function Split(s: string, ch: char): (r: seq<string>)
    ensures |r| >= 1
    ensures forall k :: 0 <= k < |r| ==> ch !in r[k]
  {
    if s == [] then [""]
    else
      var rest := Split(s[1..], ch);
      if s[0] == ch then [""] + rest else [[s[0]] + rest[0]] + rest[1..]
  }

  /** `parts.join(sep)`. */
  function Join(parts: seq<string>, sep: string): string
  {
    if parts == [] then ""
    else if |parts| == 1 then parts[0]
    else parts[0] + sep + Join(parts[1..], sep)
  }

  /** Joining the pieces back with the separator gives the original text. */
  lemma {:induction false} SplitJoin(s: string, ch: char)
    ensures Join(Split(s, ch), [ch]) == s
  {
    if s != [] {
      SplitJoin(s[1..], ch);
      var rest := Split(s[1..], ch);
      if s[0] == ch {
        assert s == [ch] + s[1..];
      } else if |rest| == 1 {
        assert s == [s[0]] + s[1..];
      } else {
        assert Join(rest, [ch]) == rest[0] + [ch] + Join(rest[1..], [ch]);
        assert s == [s[0]] + s[1..];
      }
    }
  }

  lemma {:induction false} SplitNoSeparator(a: string, ch: char)
    requires ch !in a
    ensures Split(a, ch) == [a]
  {
    if a != [] {
      SplitNoSeparator(a[1..], ch);
      assert a == [a[0]] + a[1..];
    }
  }

  lemma {:induction false} SplitAfterPiece(a: string, ch: char, t: string)
    requires ch !in a
    ensures Split(a + [ch] + t, ch) == [a] + Split(t, ch)
  {
    if a != [] {
      assert (a + [ch] + t)[1..] == a[1..] + [ch] + t;
      SplitAfterPiece(a[1..], ch, t);
      assert a == [a[0]] + a[1..];
    } else {
      assert (a + [ch] + t)[1..] == t;
    }
  }

  /** Splitting a join of separator-free parts gives the parts back. */
  lemma {:induction false} JoinSplit(parts: seq<string>, ch: char)
    requires |parts| >= 1
    requires forall k :: 0 <= k < |parts| ==> ch !in parts[k]
    ensures Split(Join(parts, [ch]), ch) == parts
  {
    if |parts| == 1 {
      SplitNoSeparator(parts[0], ch);
    } else {
      JoinSplit(parts[1..], ch);
      SplitAfterPiece(parts[0], ch, Join(parts[1..], [ch]));
      assert parts == [parts[0]] + parts[1..];
    }
  }

  // ---------------------------------------------------------------------------
  // sliceString

  /** The `_.forEach` body of `sliceString`: skip empty pieces, trim the others. */
  function Kept(pieces: seq<string>): (r: seq<string>)
    ensures |r| <= |pieces|
  {
    if pieces == [] then []
    else
      var last := pieces[|pieces| - 1];
      Kept(pieces[..|pieces| - 1]) + (if last != "" then [Trim(last)] else [])
  }

  /** Does `sliceString` cut this text at all? */
  predicate Cuts(title: string, span: int)
  {
    |Trim(title)| > 10 && span == 1
  }

  /** `sliceString(title, ch)` for a record whose `numberOfCells` is `span`. */
  function Slices(title: string, ch: char, span: int): seq<string>
  {
    if Cuts(title, span) then Kept(Split(Trim(title), ch)) else [Trim(title)]
  }

  /** `sliceString`, as the source writes it: trim, and when the text is long and
      the cell single-span, collect the trimmed non-empty pieces one by one. */
  method SliceString(title: string, ch: char, span: int) returns (lines: seq<string>)
    ensures lines == Slices(title, ch, span)
  {
    var str := Trim(title);
    if |str| > 10 && span == 1 {
      lines := [];
      var pieces := Split(str, ch);
      var i := 0;
      while i < |pieces|
        invariant 0 <= i <= |pieces|
        invariant lines == Kept(pieces[..i])
      {
        assert pieces[..i + 1][..i] == pieces[..i];
        if |pieces[i]| != 0 {
          lines := lines + [Trim(pieces[i])];
        }
        i := i + 1;
      }
      assert pieces[..i] == pieces;
    } else {
      lines := [str];
    }
  }

  lemma TrimKeepsOut(s: string, ch: char)
    requires ch !in s
    ensures ch !in Trim(s)
  {
    TrimInfix(s);
  }

  /** Every line is trimmed. */
  predicate AllTrimmed(lines: seq<string>)
  {
    forall k :: 0 <= k < |lines| ==> Trimmed(lines[k])
  }

  /** No line holds `ch`. */
  predicate NoneHolds(lines: seq<string>, ch: char)
  {
    forall k :: 0 <= k < |lines| ==> ch !in lines[k]
  }

  lemma {:induction false} KeptTrimmed(pieces: seq<string>)
    ensures AllTrimmed(Kept(pieces))
  {
    if pieces != [] {
      var last := pieces[|pieces| - 1];
      KeptTrimmed(pieces[..|pieces| - 1]);
      if last != "" {
        TrimTrimmed(last);
        assert Kept(pieces) == Kept(pieces[..|pieces| - 1]) + [Trim(last)];
      }
    }
  }

  lemma {:induction false} KeptKeepsOut(pieces: seq<string>, ch: char)
    requires NoneHolds(pieces, ch)
    ensures NoneHolds(Kept(pieces), ch)
  {
    if pieces != [] {
      var last := pieces[|pieces| - 1];
      KeptKeepsOut(pieces[..|pieces| - 1], ch);
      if last != "" {
        TrimKeepsOut(last, ch);
        assert Kept(pieces) == Kept(pieces[..|pieces| - 1]) + [Trim(last)];
      }
    }
  }

  lemma {:induction false} KeptNonEmpty(pieces: seq<string>, j: nat)
    requires j < |pieces| && pieces[j] != ""
    ensures |Kept(pieces)| >= 1
  {
    if j < |pieces| - 1 {
      KeptNonEmpty(pieces[..|pieces| - 1], j);
    }
  }

  /** What `sliceString` returns: one trimmed line when it does not cut; when it
      cuts, trimmed lines none of which holds the separator, and at least one line
      whenever the separator is white space. */
  lemma SlicesLines(title: string, ch: char, span: int)
    ensures !Cuts(title, span) ==> Slices(title, ch, span) == [Trim(title)]
    ensures AllTrimmed(Slices(title, ch, span))
    ensures Cuts(title, span) ==> NoneHolds(Slices(title, ch, span), ch)
    ensures IsSpace(ch) ==> |Slices(title, ch, span)| >= 1
  {
    var str := Trim(title);
    TrimTrimmed(title);
    if Cuts(title, span) {
      var pieces := Split(str, ch);
      if IsSpace(ch) {
        assert str[0] != ch;
        assert pieces[0] != "";
        KeptNonEmpty(pieces, 0);
      }
      KeptTrimmed(pieces);
      KeptKeepsOut(pieces, ch);
    }
  }

  // ---------------------------------------------------------------------------
  // reArrangeLines

  /** A rendered title line: text, or the `undefined` that `step1[0]` yields when
      no fragment survives the '/' pass. */
  datatype Line = Text(s: string) | Undefined

  function AsLines(ss: seq<string>): (r: seq<Line>)
    ensures |r| == |ss| && forall k :: 0 <= k < |ss| ==> r[k] == Text(ss[k])
  {
    seq(|ss|, k requires 0 <= k < |ss| => Text(ss[k]))
  }

  function DropLast(s: seq<string>): seq<string>
  {
    if s == [] then [] else s[..|s| - 1]
  }

  function Suffixed(fragments: seq<string>): (r: seq<string>)
    ensures |r| == |fragments|
  {
    seq(|fragments|, k requires 0 <= k < |fragments| => fragments[k] + "/")
  }

  /** What one title piece contributes to `step1`: a piece with a '/' is re-sliced
      at '/' and every fragment but the last is kept with a '/' appended; any other
      piece passes through. */
  function Fragments(line: string, span: int): seq<string>
  {
    if '/' in line then Suffixed(DropLast(Slices(line, '/', span))) else [line]
  }

  /** Each line's contributions, in order, concatenated. */
  function FlatMap(lines: seq<string>, f: string -> seq<string>): seq<string>
  {
    if lines == [] then []
    else FlatMap(lines[..|lines| - 1], f) + f(lines[|lines| - 1])
  }

  lemma {:induction false} FlatMapAppend(a: seq<string>, b: seq<string>, f: string -> seq<string>)
    ensures FlatMap(a + b, f) == FlatMap(a, f) + FlatMap(b, f)
    decreases |b|
  {
    if b == [] {
      assert a + b == a;
    } else {
      var b' := b[..|b| - 1];
      assert (a + b)[..|a + b| - 1] == a + b';
      assert (a + b)[|a + b| - 1] == b[|b| - 1];
      FlatMapAppend(a, b', f);
    }
  }

  /** `step1` of `reArrangeLines`. */
  function Expand(lines: seq<string>, span: int): seq<string>
  {
    FlatMap(lines, line => Fragments(line, span))
  }

  /** The greedy merge of `reArrangeLines` from accumulator `tmp` on. */
  function MergeFrom(tmp: string, rest: seq<string>): (r: seq<string>)
    ensures |r| >= 1
    decreases |rest|
  {
    if rest == [] then [tmp]
    else if |tmp + rest[0]| > 10 then [tmp] + MergeFrom(rest[0], rest[1..])
    else MergeFrom(tmp + " " + rest[0], rest[1..])
  }

  /** `step2` of `reArrangeLines` (with the final push of `tmp`). */
  function Merged(step1: seq<string>): seq<Line>
  {
    if step1 == [] then [Undefined] else AsLines(MergeFrom(step1[0], step1[1..]))
  }

  /** `reArrangeLines(lines)` for a record whose `numberOfCells` is `span`. */
  function ReArranged(lines: seq<string>, span: int): seq<Line>
  {
    Merged(Expand(lines, span))
  }

  /** `reArrangeLines`, as the source writes it: a pass that re-slices pieces
      holding '/', then a pass that merges neighbours through the accumulator `tmp`. */
  method ReArrangeLines(lines: seq<string>, span: int) returns (step2: seq<Line>)
    ensures step2 == ReArranged(lines, span)
  {
    var step1 := ExpandLines(lines, span);
    step2 := MergeLines(step1);
  }

  /** The first pass of `reArrangeLines`. */
  method ExpandLines(lines: seq<string>, span: int) returns (step1: seq<string>)
    ensures step1 == Expand(lines, span)
  {
    step1 := [];
    var k := 0;
    while k < |lines|
      invariant 0 <= k <= |lines|
      invariant step1 == Expand(lines[..k], span)
    {
      assert lines[..k + 1][..k] == lines[..k];
      var line := lines[k];
      if '/' in line {
        var out := SliceString(line, '/', span);
        step1 := PushFragments(step1, out);
      } else {
        step1 := step1 + [line];
      }
      assert step1 == Expand(lines[..k], span) + Fragments(line, span);
      k := k + 1;
    }
    assert lines[..k] == lines;
  }

  /** The inner `_.forEach` of the first pass: push every fragment but the last,
      each with a '/' appended. */
  method PushFragments(step1: seq<string>, out: seq<string>) returns (r: seq<string>)
    ensures r == step1 + Suffixed(DropLast(out))
  {
    r := step1;
    ghost var kept := DropLast(out);
    var i := 0;
    while i < |out|
      invariant 0 <= i <= |out|
      invariant r == step1 + Suffixed(kept[..if i < |kept| then i else |kept|])
    {
      if i != |out| - 1 {
        assert kept[..i + 1] == kept[..i] + [out[i]];
        r := r + [out[i] + "/"];
      }
      i := i + 1;
    }
    assert kept[..|kept|] == kept;
  }

  /** The second pass of `reArrangeLines`: `tmp` starts as `step1[0]` (undefined
      when `step1` is empty) and is pushed when the next piece would make it too long. */
  method MergeLines(step1: seq<string>) returns (step2: seq<Line>)
    ensures step2 == Merged(step1)
  {
    var acc: seq<string> := [];
    var tmp: Line := if step1 == [] then Undefined else Text(step1[0]);
    var i := 1;
    while i < |step1|
      invariant step1 == [] || 1 <= i <= |step1|
      invariant step1 == [] ==> acc == [] && tmp == Undefined
      invariant step1 != [] ==> tmp.Text? && acc + MergeFrom(tmp.s, step1[i..]) == MergeFrom(step1[0], step1[1..])
    {
      assert step1[i..][1..] == step1[i + 1..];
      if |tmp.s + step1[i]| > 10 {
        acc := acc + [tmp.s];
        tmp := Text(step1[i]);
      } else {
        tmp := Text(tmp.s + " " + step1[i]);
      }
      i := i + 1;
    }
    if step1 != [] {
      assert acc + [tmp.s] == MergeFrom(step1[0], step1[1..]);
    }
    step2 := AsLines(acc) + [tmp];
  }

  // ---------------------------------------------------------------------------
  // What the two passes guarantee

  /** A piece without '/' passes through; a piece with '/' yields fragments that
      each end in '/', one fewer than `sliceString` cut it into (the last
      fragment is dropped). */
  lemma FragmentsShape(line: string, span: int)
    ensures '/' !in line ==> Fragments(line, span) == [line]
    ensures '/' in line ==> |Fragments(line, span)| == (if Slices(line, '/', span) == [] then 0 else |Slices(line, '/', span)| - 1)
    ensures '/' in line ==> forall k :: 0 <= k < |Fragments(line, span)| ==>
      Fragments(line, span)[k] == Slices(line, '/', span)[k] + "/"
  {
  }

  /** `step1` of a single piece is that piece's contribution. */
  lemma ExpandOne(line: string, span: int)
    ensures Expand([line], span) == Fragments(line, span)
  {
    assert Expand([line], span) == FlatMap([], l => Fragments(l, span)) + Fragments(line, span);
  }

  /** `step1` is the concatenation of the per-piece contributions. */
  lemma ExpandAppend(a: seq<string>, b: seq<string>, span: int)
    ensures Expand(a + b, span) == Expand(a, span) + Expand(b, span)
  {
    FlatMapAppend(a, b, line => Fragments(line, span));
  }

  /** Joining a list that starts with `x`. */
  lemma JoinCons(x: string, r: seq<string>, sep: string)
    ensures Join([x] + r, sep) == if r == [] then x else x + sep + Join(r, sep)
  {
    assert ([x] + r)[1..] == r;
  }

  /** Merging never loses or reorders text: the merged lines, joined by spaces,
      are the pieces joined by spaces. */
  lemma {:induction false} MergeKeepsText(tmp: string, rest: seq<string>)
    ensures Join(MergeFrom(tmp, rest), " ") == Join([tmp] + rest, " ")
    decreases |rest|
  {
    if rest == [] {
      JoinCons(tmp, rest, " ");
    } else {
      var head, tail := rest[0], rest[1..];
      assert [head] + tail == rest;
      JoinCons(tmp, rest, " ");
      JoinCons(head, tail, " ");
      if |tmp + head| > 10 {
        var m := MergeFrom(head, tail);
        MergeKeepsText(head, tail);
        JoinCons(tmp, m, " ");
      } else {
        MergeKeepsText(tmp + " " + head, tail);
        JoinCons(tmp + " " + head, tail, " ");
      }
    }
  }

  lemma {:induction false} MergeFirstLine(tmp: string, rest: seq<string>)
    ensures |MergeFrom(tmp, rest)[0]| >= |tmp|
    decreases |rest|
  {
    if rest != [] && |tmp + rest[0]| <= 10 {
      MergeFirstLine(tmp + " " + rest[0], rest[1..]);
    }
  }

  /** The merge is greedy: no two neighbouring output lines could have been
      merged (their lengths sum to more than 10). */
  lemma {:induction false} MergeMaximal(tmp: string, rest: seq<string>)
    ensures forall k :: 0 <= k < |MergeFrom(tmp, rest)| - 1 ==>
      |MergeFrom(tmp, rest)[k]| + |MergeFrom(tmp, rest)[k + 1]| > 10
    decreases |rest|
  {
    if rest != [] {
      if |tmp + rest[0]| > 10 {
        MergeMaximal(rest[0], rest[1..]);
        MergeFirstLine(rest[0], rest[1..]);
      } else {
        MergeMaximal(tmp + " " + rest[0], rest[1..]);
      }
    }
  }

  /** Each output line is one of the pieces or a merge of at most 11 characters
      (10 plus the inserted space). */
  lemma {:induction false} MergeBounded(tmp: string, rest: seq<string>)
    ensures forall k :: 0 <= k < |MergeFrom(tmp, rest)| ==>
      MergeFrom(tmp, rest)[k] in [tmp] + rest || |MergeFrom(tmp, rest)[k]| <= 11
    decreases |rest|
  {
    if rest != [] {
      if |tmp + rest[0]| > 10 {
        MergeBounded(rest[0], rest[1..]);
        assert [rest[0]] + rest[1..] == rest;
      } else {
        MergeBounded(tmp + " " + rest[0], rest[1..]);
        forall k | 0 <= k < |MergeFrom(tmp, rest)|
          ensures MergeFrom(tmp, rest)[k] in [tmp] + rest || |MergeFrom(tmp, rest)[k]| <= 11
        {
          var line := MergeFrom(tmp, rest)[k];
          if line !in [tmp + " " + rest[0]] + rest[1..] {
          } else if line == tmp + " " + rest[0] {
          } else {
            assert line in rest;
          }
        }
      }
    }
  }

  /** What `reArrangeLines` returns: at least one line; a single `undefined` line
      exactly when no piece survives; otherwise text lines that keep all the
      text in order and that no neighbouring pair could be merged further. */
  lemma ReArrangedShape(lines: seq<string>, span: int)
    ensures |ReArranged(lines, span)| >= 1
    ensures Expand(lines, span) == [] <==> ReArranged(lines, span) == [Undefined]
    ensures Expand(lines, span) != [] ==>
      exists merged: seq<string> ::
        ReArranged(lines, span) == AsLines(merged) &&
        Join(merged, " ") == Join(Expand(lines, span), " ") &&
        forall k :: 0 <= k < |merged| - 1 ==> |merged[k]| + |merged[k + 1]| > 10
  {
    var step1 := Expand(lines, span);
    if step1 != [] {
      var merged := MergeFrom(step1[0], step1[1..]);
      MergeKeepsText(step1[0], step1[1..]);
      MergeMaximal(step1[0], step1[1..]);
      assert [step1[0]] + step1[1..] == step1;
      assert ReArranged(lines, span) == AsLines(merged);
    }
  }

  /** The title pipeline of `_renderText`: slice at spaces, then re-arrange. */
  function TitleLines(title: string, span: int): seq<Line>
  {
    ReArranged(Slices(title, ' ', span), span)
  }

  /** An `undefined` title line comes only alone, and exactly when no piece of the
      title survives the '/' pass. */
  lemma UndefinedTitleLine(title: string, span: int)
    ensures Undefined in TitleLines(title, span) <==> Expand(Slices(title, ' ', span), span) == []
    ensures Undefined in TitleLines(title, span) ==> TitleLines(title, span) == [Undefined]
  {
    var step1 := Expand(Slices(title, ' ', span), span);
    if step1 != [] {
      var merged := MergeFrom(step1[0], step1[1..]);
      assert forall k :: 0 <= k < |AsLines(merged)| ==> AsLines(merged)[k].Text?;
    }
  }

  /** A long title `a/b` with no space loses the fragment after its last '/':
      only `a/` is drawn. */
  lemma SlashTitleDropsLastFragment(a: string, b: string)
    requires a != [] && b != [] && Trimmed(a) && Trimmed(b)
    requires '/' !in a && '/' !in b && ' ' !in a && ' ' !in b
    requires |a| + 1 + |b| > 10
    ensures TitleLines(a + "/" + b, 1) == [Text(a + "/")]
  {
    var title := a + "/" + b;
    assert Trimmed(title) && ' ' !in title && title == a + ['/'] + b;
    TrimmedFixed(title);
    assert Slices(title, ' ', 1) == [title] by {
      SplitNoSeparator(title, ' ');
    }
    assert Slices(title, '/', 1) == [a, b] by {
      TrimmedFixed(a);
      TrimmedFixed(b);
      SplitAfterPiece(a, '/', b);
      SplitNoSeparator(b, '/');
      var pieces := Split(title, '/');
      assert pieces == [a, b];
      assert Kept(pieces[..1]) == [a] by {
        assert pieces[..1][..0] == [];
      }
    }
    assert Fragments(title, 1) == [a + "/"] by {
      assert title[|a|] == '/';
      assert Suffixed([a])[0] == a + "/";
    }
    assert Expand([title], 1) == FlatMap([], line => Fragments(line, 1)) + Fragments(title, 1);
  }

  /** "Java/Node.js" is drawn as "Java/" alone. */
  lemma JavaNodeExample()
    ensures TitleLines("Java/Node.js", 1) == [Text("Java/")]
  {
    var a, b := JavaNodeParts();
    SlashTitleDropsLastFragment(a, b);
  }

  /** "Java/Node.js" as `a/b` with the pieces `SlashTitleDropsLastFragment` asks for. */
  lemma JavaNodeParts() returns (a: string, b: string)
    ensures a != [] && b != [] && Trimmed(a) && Trimmed(b)
    ensures '/' !in a && '/' !in b && ' ' !in a && ' ' !in b
    ensures |a| + 1 + |b| > 10
    ensures a + "/" + b == "Java/Node.js" && a + "/" == "Java/"
  {
    a, b := "Java", "Node.js";
  }

  /** A title of three words, separated by single spaces, is cut into the words. */
  lemma ThreeWordSlices(u: string, v: string, w: string)
    requires u != [] && v != [] && w != [] && Trimmed(u) && Trimmed(v) && Trimmed(w)
    requires ' ' !in u && ' ' !in v && ' ' !in w && |u| + 1 + |v| + |w| > 10
    ensures Slices(u + " " + v + " " + w, ' ', 1) == [u, v, w]
  {
    var title := u + " " + v + " " + w;
    var words := [u, v, w];
    assert Trimmed(title) && title == u + [' '] + (v + [' '] + w);
    TrimmedFixed(title);
    TrimmedFixed(u);
    TrimmedFixed(v);
    TrimmedFixed(w);
    SplitNoSeparator(w, ' ');
    SplitAfterPiece(v, ' ', w);
    SplitAfterPiece(u, ' ', v + [' '] + w);
    assert Split(title, ' ') == words;
    assert Kept(words[..2]) == [u, v] by {
      assert words[..2][..1] == [u];
      assert words[..2][..1][..0] == [];
    }
  }

  /** Pieces without '/' pass the '/' pass unchanged. */
  lemma ThreeWordExpand(u: string, v: string, w: string)
    requires '/' !in u && '/' !in v && '/' !in w
    ensures Expand([u, v, w], 1) == [u, v, w]
  {
    ExpandOne(u, 1);
    ExpandOne(v, 1);
    ExpandOne(w, 1);
    FragmentsShape(u, 1);
    FragmentsShape(v, 1);
    FragmentsShape(w, 1);
    ExpandAppend([u], [v], 1);
    ExpandAppend([u, v], [w], 1);
    assert [u] + [v] == [u, v] && [u, v] + [w] == [u, v, w];
  }

  /** Three words of a long title are joined while the joined text, without its
      space, stays within ten characters: the first two share a line when they
      fit, and the third starts a new one. */
  lemma ThreeWordTitle(u: string, v: string, w: string)
    requires u != [] && v != [] && w != [] && Trimmed(u) && Trimmed(v) && Trimmed(w)
    requires '/' !in u && '/' !in v && '/' !in w && ' ' !in u && ' ' !in v && ' ' !in w
    requires |u| + |v| <= 10 && |u| + 1 + |v| + |w| > 10
    ensures TitleLines(u + " " + v + " " + w, 1) == [Text(u + " " + v), Text(w)]
  {
    ThreeWordSlices(u, v, w);
    ThreeWordExpand(u, v, w);
    assert MergeFrom(u, [v, w]) == [u + " " + v, w] by {
      assert |u + v| <= 10;
      assert |u + " " + v + w| > 10;
      assert [v, w][1..] == [w];
      assert MergeFrom(u, [v, w]) == MergeFrom(u + " " + v, [w]);
    }
    assert [u, v, w][1..] == [v, w];
  }

  /** "Ruby on Rails" is drawn as "Ruby on" and "Rails". */
  lemma RubyOnRailsExample()
    ensures TitleLines("Ruby on Rails", 1) == [Text("Ruby on"), Text("Rails")]
  {
    var u, v, w := RubyOnRailsWords();
    ThreeWordTitle(u, v, w);
  }

  /** "Ruby on Rails" as three words with the properties `ThreeWordTitle` asks for. */
  lemma RubyOnRailsWords() returns (u: string, v: string, w: string)
    ensures u != [] && v != [] && w != [] && Trimmed(u) && Trimmed(v) && Trimmed(w)
    ensures '/' !in u && '/' !in v && '/' !in w && ' ' !in u && ' ' !in v && ' ' !in w
    ensures |u| + |v| <= 10 && |u| + 1 + |v| + |w| > 10
    ensures u + " " + v + " " + w == "Ruby on Rails" && u + " " + v == "Ruby on" && w == "Rails"
  {
    u, v, w := "Ruby", "on", "Rails";
  }

  /** A short title holding a '/' is not cut at spaces, and its '/' pass keeps no
      fragment, so the line drawn is `undefined`. */
  lemma ShortSlashTitleExample()
    ensures TitleLines("a/b", 1) == [Undefined]
  {
    TrimmedFixed("a/b");
    assert Slices("a/b", ' ', 1) == ["a/b"];
    assert Slices("a/b", '/', 1) == ["a/b"];
    assert Expand(["a/b"], 1) == FlatMap([], line => Fragments(line, 1)) + Fragments("a/b", 1);
  }
}
