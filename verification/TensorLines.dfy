/** How wide the lines of a printed tensor are. */
module TensorLines {
  import opened TensorStr

  function Max(a: nat, b: nat): nat { if a > b then a else b }
  function Min(a: nat, b: nat): nat { if a < b then a else b }

  /** The widest line of a text whose first character goes in column `col`. */
  function Widest(text: string, col: nat): nat
    decreases |text|
  {
    if text == [] then col
    else if text[0] == '\n' then Max(col, Widest(text[1..], 0))
    else Widest(text[1..], col + 1)
  }

  predicate Flat(s: string) { forall i :: 0 <= i < |s| ==> s[i] != '\n' }

  lemma {:induction false} WidestFlat(a: string, b: string, col: nat)
    requires Flat(a)
    ensures Widest(a + b, col) == Widest(b, col + |a|)
    decreases |a|
  {
    if a == [] {
      assert a + b == b;
    } else {
      WidestFlat(a[1..], b, col + 1);
      assert (a + b)[1..] == a[1..] + b;
    }
  }

  lemma {:induction false} WidestBreak(a: string, b: string, col: nat)
    ensures Widest(a + "\n" + b, col) == Max(Widest(a, col), Widest(b, 0))
    decreases |a|
  {
    var s := a + "\n" + b;
    if a == [] {
      assert s[1..] == b;
    } else {
      assert s[1..] == a[1..] + "\n" + b;
      WidestBreak(a[1..], b, if a[0] == '\n' then 0 else col + 1);
    }
  }

  lemma {:induction false} WidestBlank(breaks: nat, b: string, col: nat)
    requires breaks >= 1
    ensures Widest(Repeat('\n', breaks) + b, col) == Max(col, Widest(b, 0))
  {
    var s := Repeat('\n', breaks) + b;
    if breaks == 1 {
      assert s[1..] == b;
    } else {
      assert s[1..] == Repeat('\n', breaks - 1) + b;
      WidestBlank(breaks - 1, b, 0);
    }
  }

  lemma {:induction false} WidestAtLeast(a: string, col: nat)
    requires Flat(a)
    ensures Widest(a, col) == col + |a|
    decreases |a|
  {
    if a != [] {
      WidestAtLeast(a[1..], col + 1);
    }
  }

  /** A text, a comma, line breaks and an indentation in front of more text. */
  lemma Separated(a: string, breaks: nat, col: nat, rest: string)
    requires breaks >= 1
    ensures Widest(a + ("," + Repeat('\n', breaks) + Repeat(' ', col)) + rest, col)
            == Max(Widest(a + ",", col), Widest(rest, col))
  {
    hide Widest;
    var pad, more := Repeat(' ', col), Repeat('\n', breaks - 1) + (Repeat(' ', col) + rest);
    assert Repeat('\n', breaks) == "\n" + Repeat('\n', breaks - 1);
    assert a + ("," + Repeat('\n', breaks) + pad) + rest == (a + ",") + "\n" + more;
    WidestBreak(a + ",", more, col);
    WidestFlat(pad, rest, 0);
    if breaks == 1 {
      assert more == pad + rest;
    } else {
      WidestBlank(breaks - 1, pad + rest, 0);
    }
  }

  // ------------------------------------------------------------------ the lines of a vector

  /** The characters of a line: every element with a separator or bracket and a blank or bracket. */
  function Total(lens: seq<nat>): nat {
    if lens == [] then 0 else lens[0] + 2 + Total(lens[1..])
  }

  function Lengths(data: seq<string>): seq<nat> {
    seq(|data|, i requires 0 <= i < |data| => |data[i]|)
  }

  /** The widest line of a vector whose elements have these lengths, printed `k` to a line after `indent`
      columns and followed by `after` characters. */
  function LayoutWidest(lens: seq<nat>, k: nat, indent: nat, after: nat): nat
    requires k >= 1
  {
    if |lens| <= k then indent + Total(lens) + after
    else Max(indent + Total(lens[..k]), LayoutWidest(lens[k..], k, indent, after))
  }

  predicate AllFlat(data: seq<string>) {
    forall i :: 0 <= i < |data| ==> Flat(data[i])
  }

  lemma {:induction false} LineLength(line: seq<string>)
    requires line != [] && AllFlat(line)
    ensures |Join(", ", line)| + 2 == Total(Lengths(line)) && Flat(Join(", ", line))
  {
    assert Lengths(line)[1..] == Lengths(line[1..]);
    if |line| > 1 {
      LineLength(line[1..]);
      var tail := Join(", ", line[1..]);
      assert Join(", ", line) == line[0] + ", " + tail;
    }
  }

  lemma JoinFirst(sep: string, data: seq<string>, k: nat)
    requires 1 <= k < |data|
    ensures Join(sep, JoinLines(Lines(data, k)))
            == Join(", ", data[..k]) + sep + Join(sep, JoinLines(Lines(data[k..], k)))
  {
    var lines, more := Lines(data, k), Lines(data[k..], k);
    assert lines == [data[..k]] + more;
    assert more != [];
    assert JoinLines(lines)[1..] == JoinLines(more);
  }

  lemma LastLine(data: seq<string>, indent: nat, tail: string)
    requires data != [] && AllFlat(data) && Flat(tail)
    ensures Widest(Join(", ", data) + "]" + tail, indent + 1) == indent + Total(Lengths(data)) + |tail|
  {
    var line := Join(", ", data);
    LineLength(data);
    WidestAtLeast(line + "]" + tail, indent + 1);
  }

  lemma FirstLine(data: seq<string>, indent: nat, rest: string)
    requires data != [] && AllFlat(data)
    ensures Widest(Join(", ", data) + ("," + "\n" + Repeat(' ', indent + 1)) + rest, indent + 1)
            == Max(indent + Total(Lengths(data)), Widest(rest, indent + 1))
  {
    hide Widest, Join, Total;
    var line := Join(", ", data);
    LineLength(data);
    assert Repeat('\n', 1) == "\n";
    Separated(line, 1, indent + 1, rest);
    WidestAtLeast(line + ",", indent + 1);
  }

  /** The layout of any elements: line by line, from the column after the bracket on. */
  lemma {:induction false} LinesWidest(data: seq<string>, k: nat, indent: nat, tail: string)
    requires data != [] && k >= 1 && AllFlat(data) && Flat(tail)
    ensures Widest(Join("," + "\n" + Repeat(' ', indent + 1), JoinLines(Lines(data, k))) + "]" + tail, indent + 1)
            == LayoutWidest(Lengths(data), k, indent, |tail|)
  {
    hide Widest, Total;
    var sep := "," + "\n" + Repeat(' ', indent + 1);
    if |data| <= k {
      LastLine(data, indent, tail);
      assert JoinLines(Lines(data, k)) == [Join(", ", data)];
    } else {
      hide Join, JoinLines, Lines;
      var first, rest := data[..k], data[k..];
      var line, more := Join(", ", first), Join(sep, JoinLines(Lines(rest, k)));
      LinesWidest(rest, k, indent, tail);
      JoinFirst(sep, data, k);
      assert line + sep + more + "]" + tail == line + sep + (more + "]" + tail);
      FirstLine(first, indent, more + "]" + tail);
      assert Lengths(data)[..k] == Lengths(first) && Lengths(data)[k..] == Lengths(rest);
    }
  }

  lemma VectorWidest(data: seq<string>, k: nat, indent: nat, tail: string)
    requires data != [] && k >= 1 && AllFlat(data) && Flat(tail)
    ensures Widest(VectorText(data, indent, k) + tail, indent) == LayoutWidest(Lengths(data), k, indent, |tail|)
  {
    hide Widest, LayoutWidest;
    var inner := Join("," + "\n" + Repeat(' ', indent + 1), JoinLines(Lines(data, k)));
    LinesWidest(data, k, indent, tail);
    WidestFlat("[", inner + "]" + tail, indent);
    assert VectorText(data, indent, k) + tail == "[" + (inner + "]" + tail);
  }

  // ------------------------------------------------------------------ nested rows

  /** Rows joined by commas and breaks: if the last row with what follows is `widest` wide and no other row
      with its comma is wider, so is the whole. */
  lemma {:induction false} RowsWidest(rows: seq<string>, breaks: nat, col: nat, tail: string, widest: nat)
    requires rows != [] && breaks >= 1
    requires Widest(rows[|rows| - 1] + tail, col) == widest
    requires forall i :: 0 <= i < |rows| - 1 ==> Widest(rows[i] + ",", col) <= widest
    ensures Widest(Join("," + Repeat('\n', breaks) + Repeat(' ', col), rows) + tail, col) == widest
  {
    hide Widest;
    var sep := "," + Repeat('\n', breaks) + Repeat(' ', col);
    if |rows| > 1 {
      var rest := rows[1..];
      forall i | 0 <= i < |rest| - 1 ensures Widest(rest[i] + ",", col) <= widest {
        assert rest[i] == rows[i + 1];
      }
      RowsWidest(rest, breaks, col, tail, widest);
      var more := Join(sep, rest);
      assert Join(sep, rows) + tail == rows[0] + sep + (more + tail);
      Separated(rows[0], breaks, col, more + tail);
      assert Widest(rows[0] + ",", col) <= widest;
    }
  }

  lemma {:induction false} LayoutMonotone(lens: seq<nat>, k: nat, indent: nat, after: nat, after': nat)
    requires k >= 1 && after <= after'
    ensures LayoutWidest(lens, k, indent, after) <= LayoutWidest(lens, k, indent, after')
    decreases |lens|
  {
    hide Total;
    if |lens| > k {
      LayoutMonotone(lens[k..], k, indent, after, after');
    }
  }

  lemma {:induction false} LayoutAtLeast(lens: seq<nat>, k: nat, indent: nat, after: nat)
    requires k >= 1 && lens != [] && forall i :: 0 <= i < |lens| ==> lens[i] >= 1
    ensures LayoutWidest(lens, k, indent, after) >= indent + 3 + after
    decreases |lens|
  {
    if |lens| > k {
      LayoutAtLeast(lens[k..], k, indent, after);
    }
  }

  /** The lengths of the printed elements of a vector of `n` elements of width `w`. */
  function VectorLengths(n: nat, summarize: bool, o: Options, w: nat): seq<nat> {
    Layout(seq(n, _ => w), 4, summarize, o.edgeitems)
  }

  /** Position `i` of `n` is printed. */
  predicate Printed(n: nat, i: nat, summarize: bool, o: Options) {
    i < n && (summarize && n > 2 * o.edgeitems ==> i < o.edgeitems || i >= n - o.edgeitems)
  }

  /** Every printed element fits the width. */
  ghost predicate Covered(t: Tensor, shape: seq<nat>, summarize: bool, o: Options, w: nat)
    requires Regular(t, shape)
    decreases |shape|
  {
    if shape == [] then |IntStr(t.value)| <= w
    else forall i :: 0 <= i < |t.rows| && Printed(|t.rows|, i, summarize, o) ==>
           Regular(t.rows[i], shape[1..]) && Covered(t.rows[i], shape[1..], summarize, o, w)
  }

  lemma FormatFlat(v: int, w: nat)
    ensures Flat(Format(v, w))
  {
  }

  lemma VectorElement(t: Tensor, n: nat, i: nat, summarize: bool, o: Options, w: nat)
    requires Regular(t, [n]) && Covered(t, [n], summarize, o, w) && i < n
    ensures Flat(Format(RowValue(t, n, i), w))
    ensures Printed(n, i, summarize, o) ==> |Format(RowValue(t, n, i), w)| == w
  {
    hide IntStr;
    FormatFlat(RowValue(t, n, i), w);
    assert [n][1..] == [];
  }

  lemma VectorDataLengths(t: Tensor, n: nat, summarize: bool, o: Options, w: nat)
    requires Regular(t, [n]) && Covered(t, [n], summarize, o, w)
    ensures AllFlat(VectorData(t, n, summarize, o, w))
    ensures Lengths(VectorData(t, n, summarize, o, w)) == VectorLengths(n, summarize, o, w)
  {
    hide IntStr, Format, RowValue, Covered, Regular;
    forall i | 0 <= i < n
      ensures Flat(Format(RowValue(t, n, i), w))
      ensures Printed(n, i, summarize, o) ==> |Format(RowValue(t, n, i), w)| == w
    {
      VectorElement(t, n, i, summarize, o, w);
    }
  }

  lemma LayoutEnd<A>(xs: seq<A>, dots: A, summarize: bool, o: Options)
    requires xs != []
    ensures var r := Layout(xs, dots, summarize, o.edgeitems);
            r != [] && r[|r| - 1] == xs[|xs| - 1] && Printed(|xs|, |xs| - 1, summarize, o)
  {
  }

  lemma LayoutAt<A>(xs: seq<A>, dots: A, summarize: bool, o: Options, j: nat)
    requires j < |Layout(xs, dots, summarize, o.edgeitems)|
    ensures var r := Layout(xs, dots, summarize, o.edgeitems);
            r[j] == dots || exists i :: 0 <= i < |xs| && Printed(|xs|, i, summarize, o) && r[j] == xs[i]
  {
    var r, e := Layout(xs, dots, summarize, o.edgeitems), o.edgeitems;
    if summarize && |xs| > 2 * e && j != e {
      var i := if j < e then j else |xs| - (2 * e + 1 - j);
      assert Printed(|xs|, i, summarize, o) && r[j] == xs[i];
    } else if j < |xs| {
      assert r[j] == dots || (Printed(|xs|, j, summarize, o) && r[j] == xs[j]);
    }
  }

  /** The widest line of a printed tensor: rows only add their brackets to the layout of the last dimension. */
  function TextLayout(shape: seq<nat>, indent: nat, summarize: bool, o: Options, w: nat, after: nat): nat
    requires shape != []
  {
    var deep := |shape| - 1;
    LayoutWidest(VectorLengths(shape[deep], summarize, o, w), PerLine(o.linewidth, indent + deep, w),
                 indent + deep, after + deep)
  }

  lemma VectorLayout(n: nat, indent: nat, summarize: bool, o: Options, w: nat, after: nat)
    ensures TextLayout([n], indent, summarize, o, w, after)
            == LayoutWidest(VectorLengths(n, summarize, o, w), PerLine(o.linewidth, indent, w), indent, after)
  {
  }

  lemma InnerLayout(shape: seq<nat>, indent: nat, summarize: bool, o: Options, w: nat, after: nat)
    requires |shape| >= 2
    ensures TextLayout(shape[1..], indent + 1, summarize, o, w, after + 1) == TextLayout(shape, indent, summarize, o, w, after)
  {
    hide LayoutWidest, PerLine, VectorLengths;
  }

  lemma DotsNotWider(shape: seq<nat>, indent: nat, summarize: bool, o: Options, w: nat, after: nat)
    requires |shape| >= 2 && Positive(shape) && w >= 1
    ensures Widest("...,", indent + 1) <= TextLayout(shape, indent, summarize, o, w, after)
  {
    hide LayoutWidest, PerLine;
    var deep := |shape| - 1;
    WidestAtLeast("...,", indent + 1);
    LayoutAtLeast(VectorLengths(shape[deep], summarize, o, w), PerLine(o.linewidth, indent + deep, w), indent + deep,
                  after + deep);
  }

  lemma CommaNotWider(shape: seq<nat>, indent: nat, summarize: bool, o: Options, w: nat, after: nat)
    requires |shape| >= 2
    ensures TextLayout(shape[1..], indent + 1, summarize, o, w, 1) <= TextLayout(shape, indent, summarize, o, w, after)
  {
    hide LayoutWidest, PerLine, VectorLengths;
    InnerLayout(shape, indent, summarize, o, w, after);
    var deep := |shape| - 1;
    LayoutMonotone(VectorLengths(shape[deep], summarize, o, w), PerLine(o.linewidth, indent + deep, w), indent + deep,
                   deep, after + deep);
  }

  /** Rows in brackets, with dots or without: as wide as the last row with what follows it. */
  lemma BracketRows(texts: seq<string>, breaks: nat, indent: nat, summarize: bool, o: Options, tail: string, widest: nat)
    requires texts != [] && breaks >= 1
    requires forall i :: 0 <= i < |texts| && Printed(|texts|, i, summarize, o) ==>
               Widest(texts[i] + ("]" + tail), indent + 1) == widest && Widest(texts[i] + ",", indent + 1) <= widest
    requires Widest("...,", indent + 1) <= widest
    ensures Widest("[" + Join("," + Repeat('\n', breaks) + Repeat(' ', indent + 1), Layout(texts, "...", summarize, o.edgeitems))
                   + "]" + tail, indent) == widest
  {
    hide Widest, Layout, Printed, Join;
    var rows := Layout(texts, "...", summarize, o.edgeitems);
    LayoutEnd(texts, "...", summarize, o);
    forall j | 0 <= j < |rows| - 1 ensures Widest(rows[j] + ",", indent + 1) <= widest {
      LayoutAt(texts, "...", summarize, o, j);
      assert "..." + "," == "...,";
    }
    var joined := Join("," + Repeat('\n', breaks) + Repeat(' ', indent + 1), rows);
    RowsWidest(rows, breaks, indent + 1, "]" + tail, widest);
    WidestFlat("[", joined + ("]" + tail), indent);
    assert "[" + joined + "]" + tail == "[" + (joined + ("]" + tail));
  }

  /** The exact widest line of any printed tensor without empty dimensions, summarized or not. */
  lemma {:induction false} TextWidest(t: Tensor, shape: seq<nat>, indent: nat, summarize: bool, o: Options, w: nat, tail: string)
    requires shape != [] && Regular(t, shape) && Positive(shape) && w >= 1 && Flat(tail)
    requires Covered(t, shape, summarize, o, w)
    ensures Widest(Text(t, shape, indent, summarize, o, w) + tail, indent) == TextLayout(shape, indent, summarize, o, w, |tail|)
    decreases |shape|
  {
    hide Widest, Layout, LayoutWidest, Printed, PerLine, TextLayout, Join;
    if |shape| == 1 {
      var n := shape[0];
      assert shape == [n];
      VectorDataLengths(t, n, summarize, o, w);
      var data := VectorData(t, n, summarize, o, w);
      LayoutEnd(seq(n, i requires 0 <= i < n => Format(RowValue(t, n, i), w)), " ...", summarize, o);
      VectorWidest(data, PerLine(o.linewidth, indent, w), indent, tail);
      VectorLayout(n, indent, summarize, o, w, |tail|);
    } else {
      forall i | 0 <= i < |t.rows| && Printed(|t.rows|, i, summarize, o)
        ensures Widest(RowTexts(t, shape, indent, summarize, o, w)[i] + ("]" + tail), indent + 1)
                == TextLayout(shape[1..], indent + 1, summarize, o, w, |tail| + 1)
        ensures Widest(RowTexts(t, shape, indent, summarize, o, w)[i] + ",", indent + 1)
                == TextLayout(shape[1..], indent + 1, summarize, o, w, 1)
      {
        TextWidest(t.rows[i], shape[1..], indent + 1, summarize, o, w, "]" + tail);
        TextWidest(t.rows[i], shape[1..], indent + 1, summarize, o, w, ",");
      }
      DotsNotWider(shape, indent, summarize, o, w, |tail|);
      CommaNotWider(shape, indent, summarize, o, w, |tail|);
      InnerLayout(shape, indent, summarize, o, w, |tail|);
      BracketRows(RowTexts(t, shape, indent, summarize, o, w), |shape| - 1, indent, summarize, o, tail,
                  TextLayout(shape, indent, summarize, o, w, |tail|));
    }
  }

  // ------------------------------------------------------------------ closed forms

  /** The characters of `count` elements of width `w` with their separators. */
  function Cells(count: nat, w: nat): nat { count * (w + 2) }

  lemma CellsMonotone(a: nat, b: nat, w: nat)
    requires a <= b
    ensures Cells(a, w) <= Cells(b, w)
  {
    assert b * (w + 2) == a * (w + 2) + (b - a) * (w + 2);
  }

  lemma CellsNext(a: nat, w: nat)
    ensures Cells(a + 1, w) == Cells(a, w) + w + 2 && Cells(0, w) == 0
  {
  }

  /** The number of elements on the last of the lines of `k`. */
  function LastOf(n: nat, k: nat): (r: nat)
    requires n >= 1 && k >= 1
    ensures 1 <= r <= Min(n, k)
  {
    if n <= k then n else LastOf(n - k, k)
  }

  /** The place of element `p` in its line of `k`. */
  function Offset(p: nat, k: nat): (r: nat)
    requires k >= 1
    ensures r < k && r <= p
  {
    if p < k then p else Offset(p - k, k)
  }

  lemma {:induction false} TotalEven(n: nat, w: nat)
    ensures Total(seq(n, _ => w)) == Cells(n, w)
  {
    if n > 0 {
      assert seq(n, _ => w)[1..] == seq(n - 1, _ => w);
      TotalEven(n - 1, w);
      CellsNext(n - 1, w);
    }
  }

  lemma {:induction false} TotalConcat(a: seq<nat>, b: seq<nat>)
    ensures Total(a + b) == Total(a) + Total(b)
  {
    if a == [] {
      assert a + b == b;
    } else {
      assert (a + b)[1..] == a[1..] + b;
      TotalConcat(a[1..], b);
    }
  }

  /** Elements of one width: the full lines, and the last one with what follows it. */
  lemma {:induction false} EvenWidest(n: nat, k: nat, indent: nat, after: nat, w: nat)
    requires n >= 1 && k >= 1
    ensures LayoutWidest(seq(n, _ => w), k, indent, after)
            == Max(if n <= k then 0 else indent + Cells(k, w), indent + Cells(LastOf(n, k), w) + after)
    decreases n
  {
    hide Total, Cells;
    var lens := seq(n, _ => w);
    if n <= k {
      TotalEven(n, w);
    } else {
      TotalEven(k, w);
      assert lens[..k] == seq(k, _ => w);
      assert lens[k..] == seq(n - k, _ => w);
      EvenWidest(n - k, k, indent, after, w);
    }
  }

  /** `p` elements, the four characters of the dots, and `q` elements. */
  function Dotted(p: nat, q: nat, w: nat): seq<nat> {
    seq(p, _ => w) + [4] + seq(q, _ => w)
  }

  lemma TotalDotted(p: nat, q: nat, w: nat)
    ensures Total(Dotted(p, q, w)) == Cells(p + q, w) + 6
  {
    TotalEven(p, w);
    TotalEven(q, w);
    TotalConcat(seq(p, _ => w) + [4], seq(q, _ => w));
    TotalConcat(seq(p, _ => w), [4]);
    assert [4][1..] == [] && Total([4]) == 6;
    assert (p + q) * (w + 2) == p * (w + 2) + q * (w + 2);
  }

  /** Cutting off the first line: the dots are on it or come later. */
  lemma DottedCut(p: nat, q: nat, w: nat, k: nat)
    requires 1 <= k < p + 1 + q
    ensures p >= k ==> Dotted(p, q, w)[..k] == seq(k, _ => w) && Dotted(p, q, w)[k..] == Dotted(p - k, q, w)
    ensures p < k ==> Dotted(p, q, w)[..k] == Dotted(p, k - 1 - p, w) && Dotted(p, q, w)[k..] == seq(p + 1 + q - k, _ => w)
  {
  }

  /** The last line of a dotted vector, and the line of its dots. */
  function DottedLast(p: nat, q: nat, k: nat, w: nat): nat
    requires k >= 1
  {
    var r := LastOf(p + 1 + q, k);
    if r > q then Cells(r - 1, w) + 6 else Cells(r, w)
  }

  function DotsLine(p: nat, q: nat, k: nat, w: nat): nat
    requires k >= 1
  {
    Cells(Min(k, Offset(p, k) + 1 + q) - 1, w) + 6
  }

  /** With at least one element after the dots, the last line holds a whole element. */
  lemma LastHoldsOne(p: nat, q: nat, k: nat, w: nat)
    requires k >= 1 && q >= 1
    ensures DottedLast(p, q, k, w) >= w + 2
  {
    var r := LastOf(p + 1 + q, k);
    CellsNext(0, w);
    CellsMonotone(1, if r > q then r - 1 else r, w);
  }

  lemma EvenFits(n: nat, k: nat, indent: nat, after: nat, w: nat, linewidth: int)
    requires k >= 1 && n >= 1
    requires indent + w + 2 <= linewidth ==> indent + Cells(k, w) <= linewidth
    ensures LayoutWidest(seq(n, _ => w), k, indent, after) <= linewidth
            <==> indent + Cells(LastOf(n, k), w) + after <= linewidth
  {
    hide LayoutWidest, Cells;
    EvenWidest(n, k, indent, after, w);
    CellsNext(0, w);
    CellsMonotone(1, LastOf(n, k), w);
  }

  /** The dots are on the first line. */
  lemma DottedFitsNow(p: nat, q: nat, k: nat, indent: nat, after: nat, w: nat, linewidth: int)
    requires q >= 1 && p < k
    requires indent + w + 2 <= linewidth ==> indent + Cells(k, w) <= linewidth
    ensures LayoutWidest(Dotted(p, q, w), k, indent, after) <= linewidth
            <==> indent + DottedLast(p, q, k, w) + after <= linewidth && indent + DotsLine(p, q, k, w) <= linewidth
  {
    hide Total, Cells, Dotted;
    DottedLength(p, q, w);
    if p + 1 + q <= k {
      TotalDotted(p, q, w);
    } else {
      DottedCut(p, q, w, k);
      TotalDotted(p, k - 1 - p, w);
      EvenFits(p + 1 + q - k, k, indent, after, w, linewidth);
    }
  }

  /** If full lines fit whenever one element does, a dotted vector fits exactly when its last line and the
      line of the dots do. */
  lemma {:induction false} DottedFits(p: nat, q: nat, k: nat, indent: nat, after: nat, w: nat, linewidth: int)
    requires k >= 1 && q >= 1
    requires indent + w + 2 <= linewidth ==> indent + Cells(k, w) <= linewidth
    ensures LayoutWidest(Dotted(p, q, w), k, indent, after) <= linewidth
            <==> indent + DottedLast(p, q, k, w) + after <= linewidth && indent + DotsLine(p, q, k, w) <= linewidth
    decreases p
  {
    hide Total, Cells, Dotted;
    if p < k {
      DottedFitsNow(p, q, k, indent, after, w, linewidth);
    } else {
      DottedLength(p, q, w);
      LastHoldsOne(p, q, k, w);
      DottedCut(p, q, w, k);
      TotalEven(k, w);
      DottedFits(p - k, q, k, indent, after, w, linewidth);
    }
  }

  lemma DottedLength(p: nat, q: nat, w: nat)
    ensures |Dotted(p, q, w)| == p + 1 + q
  {
  }

  lemma PerLineFits(linewidth: int, indent: nat, w: nat)
    ensures indent + w + 2 <= linewidth ==> indent + Cells(PerLine(linewidth, indent, w), w) <= linewidth
  {
    var room, unit := linewidth - indent, w + 2;
    if unit <= room {
      FloorProduct(room, unit);
    }
  }

  lemma FloorProduct(room: nat, unit: nat)
    requires unit > 0
    ensures (room / unit) * unit <= room < (room / unit) * unit + unit
  {
    assert room == (room / unit) * unit + room % unit;
  }

  /** The condition for all lines of a printed tensor to stay within the line width, from the shape alone: the
      last line of a row fits with all closing brackets after it, and so does the line of the dots, if any. */
  predicate Fits(shape: seq<nat>, indent: nat, summarize: bool, o: Options, w: nat)
    requires shape != [] && Positive(shape)
  {
    var deep := |shape| - 1;
    var n, e, margin := shape[deep], o.edgeitems, indent + deep;
    var k := PerLine(o.linewidth, margin, w);
    if summarize && n > 2 * e then
      margin + DottedLast(e, e, k, w) + deep <= o.linewidth && margin + DotsLine(e, e, k, w) <= o.linewidth
    else margin + Cells(LastOf(n, k), w) + deep <= o.linewidth
  }

  lemma LayoutFits(shape: seq<nat>, indent: nat, summarize: bool, o: Options, w: nat)
    requires shape != [] && Positive(shape)
    ensures TextLayout(shape, indent, summarize, o, w, 0) <= o.linewidth <==> Fits(shape, indent, summarize, o, w)
  {
    hide LayoutWidest, Cells, PerLine, DottedLast, DotsLine;
    var deep := |shape| - 1;
    var n, e, margin := shape[deep], o.edgeitems, indent + deep;
    var k := PerLine(o.linewidth, margin, w);
    PerLineFits(o.linewidth, margin, w);
    if summarize && n > 2 * e {
      assert VectorLengths(n, summarize, o, w) == Dotted(e, e, w);
      DottedFits(e, e, k, margin, deep, w, o.linewidth);
    } else {
      EvenFits(n, k, margin, deep, w, o.linewidth);
    }
  }

  /** For any rank, summarized or not: all lines stay within the line width exactly when `Fits` says so. */
  lemma FitsExactly(t: Tensor, shape: seq<nat>, indent: nat, summarize: bool, o: Options, w: nat)
    requires shape != [] && Regular(t, shape) && Positive(shape) && w >= 1 && Covered(t, shape, summarize, o, w)
    ensures Widest(Text(t, shape, indent, summarize, o, w), indent) <= o.linewidth <==> Fits(shape, indent, summarize, o, w)
  {
    hide Widest, Text, TextLayout, Fits, Covered;
    TextWidest(t, shape, indent, summarize, o, w, "");
    LayoutFits(shape, indent, summarize, o, w);
    var text := Text(t, shape, indent, summarize, o, w);
    assert text + "" == text;
  }

  // ------------------------------------------------------------------ vectors printed in full, and whole prints

  lemma FullVectorCovered(t: Tensor, n: nat, o: Options, w: nat)
    requires Regular(t, [n])
    requires forall i :: 0 <= i < n ==> |IntStr(RowValue(t, n, i))| <= w
    ensures Covered(t, [n], false, o, w)
  {
    hide IntStr;
    assert [n][1..] == [];
    forall i | 0 <= i < n ensures Regular(t.rows[i], [n][1..]) && |IntStr(t.rows[i].value)| <= w {
      assert |IntStr(RowValue(t, n, i))| <= w;
    }
  }

  /** The widest line of a vector printed in full, counting indentation, brackets and commas. */
  lemma FullVectorWidest(t: Tensor, n: nat, indent: nat, o: Options, w: nat)
    requires Regular(t, [n]) && n >= 1
    requires forall i :: 0 <= i < n ==> |IntStr(RowValue(t, n, i))| <= w
    ensures Widest(Text(t, [n], indent, false, o, w), indent)
            == indent + Min(PerLine(o.linewidth, indent, w), n) * (w + 2)
  {
    hide Widest, Text, TextLayout, IntStr, RowValue, PerLine, LayoutWidest, Covered;
    var k, text := PerLine(o.linewidth, indent, w), Text(t, [n], indent, false, o, w);
    assert 1 <= |IntStr(RowValue(t, n, 0))| <= w;
    FullVectorCovered(t, n, o, w);
    TextWidest(t, [n], indent, false, o, w, "");
    assert text + "" == text;
    VectorLayout(n, indent, false, o, w, 0);
    EvenWidest(n, k, indent, 0, w);
    CellsMonotone(LastOf(n, k), Min(n, k), w);
  }

  /** All lines of a vector printed in full stay within the line width exactly when one element with its
      separator fits after the indentation. */
  lemma FitsIffOneElementFits(t: Tensor, n: nat, indent: nat, o: Options, w: nat)
    requires Regular(t, [n]) && n >= 1
    requires forall i :: 0 <= i < n ==> |IntStr(RowValue(t, n, i))| <= w
    ensures Widest(Text(t, [n], indent, false, o, w), indent) <= o.linewidth <==> indent + w + 2 <= o.linewidth
  {
    hide Widest, IntStr, RowValue, PerLine, Text;
    var k := PerLine(o.linewidth, indent, w);
    FullVectorWidest(t, n, indent, o, w);
    PerLineFits(o.linewidth, indent, w);
    CellsNext(0, w);
    CellsMonotone(1, Min(k, n), w);
    CellsMonotone(Min(k, n), k, w);
  }

  /** For rows the same condition is not enough, because brackets and commas follow the last element: one digit
      per row after `tensor(` is twelve columns wide although one element fits in eleven. */
  lemma BracketOverflow(t: Tensor, o: Options)
    requires Regular(t, [2, 1]) && Covered(t, [2, 1], false, o, 1) && o.linewidth == 11
    ensures Widest(Text(t, [2, 1], 7, false, o, 1), 7) == 12 && 8 + 1 + 2 <= o.linewidth
  {
    hide Widest, Text, Covered, LayoutWidest;
    var text := Text(t, [2, 1], 7, false, o, 1);
    TextWidest(t, [2, 1], 7, false, o, 1, "");
    assert text + "" == text;
    EvenWidest(1, PerLine(11, 8, 1), 8, 1, 1);
  }

  lemma {:induction false} ValuesOfHas(rows: seq<Tensor>, i: nat, v: int)
    requires i < |rows| && v in Values(rows[i])
    ensures v in ValuesOf(rows)
  {
    if i > 0 {
      ValuesOfHas(rows[1..], i - 1, v);
    }
  }

  lemma EdgesHave<A>(xs: seq<A>, o: Options, i: nat) returns (j: nat)
    requires Printed(|xs|, i, true, o)
    ensures j < |Edges(xs, o.edgeitems)| && Edges(xs, o.edgeitems)[j] == xs[i]
  {
    var e := o.edgeitems;
    j := if |xs| > 2 * e && i >= e then 2 * e - (|xs| - i) else i;
  }

  /** A printed row's measured values are measured. */
  lemma RowMeasured(t: Tensor, shape: seq<nat>, summarize: bool, o: Options, i: nat, v: int)
    requires shape != [] && Regular(t, shape) && i < |t.rows| && Printed(|t.rows|, i, summarize, o)
    requires v in Measured(t.rows[i], shape[1..], summarize, o)
    ensures v in Measured(t, shape, summarize, o)
  {
    if summarize {
      var rows := SummarizedRows(t, shape, o.edgeitems);
      var j := EdgesHave(rows, o, i);
      ValuesOfHas(Edges(rows, o.edgeitems), j, v);
    } else {
      ValuesOfHas(t.rows, i, v);
    }
  }

  /** The formatter measures every printed element. */
  lemma {:induction false} MeasuredCovers(t: Tensor, shape: seq<nat>, summarize: bool, o: Options, w: nat)
    requires Regular(t, shape)
    requires forall v :: v in Measured(t, shape, summarize, o) ==> |IntStr(v)| <= w
    ensures Covered(t, shape, summarize, o, w)
    decreases |shape|
  {
    if shape == [] {
      assert t.value in Measured(t, shape, summarize, o);
    } else {
      hide Measured, IntStr, Printed;
      forall i | 0 <= i < |t.rows| && Printed(|t.rows|, i, summarize, o)
        ensures Covered(t.rows[i], shape[1..], summarize, o, w)
      {
        forall v | v in Measured(t.rows[i], shape[1..], summarize, o) ensures |IntStr(v)| <= w {
          RowMeasured(t, shape, summarize, o, i, v);
        }
        MeasuredCovers(t.rows[i], shape[1..], summarize, o, w);
      }
    }
  }

  /** The whole print of any tensor of rank one or more: its exact widest line, and when it fits. */
  lemma StrFits(t: Tensor, shape: seq<nat>, indent: nat, o: Options)
    requires shape != [] && Regular(t, shape) && Numel(shape) > 0
    ensures Positive(shape)
    ensures var summarize := Numel(shape) > o.threshold;
            var w := Width(Measured(t, shape, summarize, o));
            && Widest(Str(t, shape, indent, o), indent) == TextLayout(shape, indent, summarize, o, w, 0)
            && (Widest(Str(t, shape, indent, o), indent) <= o.linewidth <==> Fits(shape, indent, summarize, o, w))
  {
    hide Widest, Text, TextLayout, Fits, Covered, Measured, Width, IntStr;
    var summarize := Numel(shape) > o.threshold;
    var measured := Measured(t, shape, summarize, o);
    var w := Width(measured);
    PositiveNumel(shape);
    forall v | v in measured ensures |IntStr(v)| <= w {
      WidthCovers(measured, v);
    }
    MeasuredCovers(t, shape, summarize, o, w);
    TextWidest(t, shape, indent, summarize, o, w, "");
    FitsExactly(t, shape, indent, summarize, o, w);
    var text := Text(t, shape, indent, summarize, o, w);
    assert text + "" == text;
  }
}
