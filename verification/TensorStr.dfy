/**
 The printer of real integer tensors: the formatter's width, the layout of vectors into lines, the
 nested brackets, and summarization.
 */
module TensorStr {
  /** A tensor as nested rows; `Regular` ties it to a shape. */
  datatype Tensor = Scalar(value: int) | Dim(rows: seq<Tensor>)

  ghost predicate Regular(t: Tensor, shape: seq<nat>)
    decreases |shape|
  {
    if shape == [] then t.Scalar?
    else t.Dim? && |t.rows| == shape[0] && forall i :: 0 <= i < |t.rows| ==> Regular(t.rows[i], shape[1..])
  }

  function Numel(shape: seq<nat>): nat {
    if shape == [] then 1 else shape[0] * Numel(shape[1..])
  }

  predicate Positive(shape: seq<nat>) {
    forall i :: 0 <= i < |shape| ==> shape[i] >= 1
  }

  lemma {:induction false} PositiveNumel(shape: seq<nat>)
    ensures Positive(shape) <==> Numel(shape) > 0
  {
    if shape != [] {
      PositiveNumel(shape[1..]);
      if Positive(shape) {
        ProductPositive(shape[0], Numel(shape[1..]));
      }
    }
  }

  lemma ProductPositive(a: nat, b: nat)
    requires a > 0 && b > 0
    ensures a * b > 0
  {
  }

  /** The elements in row-major order. */
  function Values(t: Tensor): seq<int>
    decreases t, 0
  {
    match t
    case Scalar(v) => [v]
    case Dim(rows) => ValuesOf(rows)
  }

  function ValuesOf(rows: seq<Tensor>): seq<int>
    decreases rows, 1
  {
    if rows == [] then [] else Values(rows[0]) + ValuesOf(rows[1..])
  }

  type pos = x: nat | x >= 1 witness 1

  /** At least one edge item: with none, `self[-0:]` would select everything. */
  datatype Options = Options(threshold: int, edgeitems: pos, linewidth: int)

  // ------------------------------------------------------------------ text

  function Repeat(c: char, n: int): (s: string)
    ensures |s| == if n > 0 then n else 0
    ensures forall i :: 0 <= i < |s| ==> s[i] == c
  {
    if n > 0 then seq(n, _ => c) else ""
  }

  function Join(sep: string, parts: seq<string>): string {
    if parts == [] then "" else if |parts| == 1 then parts[0] else parts[0] + sep + Join(sep, parts[1..])
  }

  function DigitChar(d: nat): (c: char)
    requires d < 10
    ensures IsDigit(c) && DigitValue(c) == d
  {
    '0' + d as char
  }

  predicate IsDigit(c: char) { '0' <= c <= '9' }

  function DigitValue(c: char): nat
    requires IsDigit(c)
  {
    (c - '0') as nat
  }

  function NatStr(n: nat): (s: string)
    ensures |s| >= 1 && forall i :: 0 <= i < |s| ==> IsDigit(s[i])
  {
    if n < 10 then [DigitChar(n)] else NatStr(n / 10) + [DigitChar(n % 10)]
  }

  /** `'{}'.format(value)` for an integer. */
  function IntStr(v: int): (s: string)
    ensures |s| >= 1
  {
    if v < 0 then "-" + NatStr(-v) else NatStr(v)
  }

  // ------------------------------------------------------------------ the formatter

  function Longer(w: nat, v: int): nat {
    if |IntStr(v)| > w then |IntStr(v)| else w
  }

  /** The longest decimal text among the values, and at least one. */
  function Width(values: seq<int>): (w: nat)
    ensures w >= 1
  {
    if values == [] then 1 else Longer(Width(values[..|values| - 1]), values[|values| - 1])
  }

  lemma {:induction false} WidthCovers(values: seq<int>, v: int)
    requires v in values
    ensures |IntStr(v)| <= Width(values)
  {
    hide IntStr;
    var front := values[..|values| - 1];
    if v in front {
      WidthCovers(front, v);
    } else {
      assert v == values[|values| - 1];
    }
  }

  lemma {:induction false} WidthReached(values: seq<int>)
    ensures Width(values) == 1 || exists i :: 0 <= i < |values| && |IntStr(values[i])| == Width(values)
  {
    hide IntStr;
    if values != [] {
      var n := |values| - 1;
      WidthReached(values[..n]);
      if Width(values) == |IntStr(values[n])| {
      } else if Width(values) != 1 {
        var i :| 0 <= i < n && |IntStr(values[..n][i])| == Width(values[..n]);
        assert values[i] == values[..n][i];
      }
    }
  }

  /** The loop of `_Formatter.__init__` on an integer tensor. */
  method FormatterWidth(values: seq<int>) returns (maxWidth: nat)
    ensures maxWidth == Width(values)
  {
    maxWidth := 1;
    for i := 0 to |values|
      invariant maxWidth == Width(values[..i])
    {
      hide IntStr;
      assert values[..i + 1][..i] == values[..i];
      var l := |IntStr(values[i])|;
      if l > maxWidth {
        maxWidth := l;
      }
    }
    assert values[..|values|] == values;
  }

  function Format(v: int, w: nat): (s: string)
    ensures |IntStr(v)| <= w ==> |s| == w
  {
    Repeat(' ', w - |IntStr(v)|) + IntStr(v)
  }

  // ------------------------------------------------------------------ layout

  /** The first and last `edge` entries around `dots` when there are more than twice as many, else all. */
  function Layout<A>(xs: seq<A>, dots: A, summarize: bool, edge: pos): seq<A> {
    if summarize && |xs| > 2 * edge then xs[..edge] + [dots] + xs[|xs| - edge..] else xs
  }

  function PerLine(linewidth: int, indent: nat, w: nat): (k: nat)
    ensures k >= 1
  {
    var fit := (linewidth - indent) / (w + 2);
    if fit > 1 then fit else 1
  }

  /** Cutting the data into lines of `k` elements. */
  function Lines(data: seq<string>, k: nat): seq<seq<string>>
    requires k >= 1
  {
    if data == [] then [] else if |data| <= k then [data] else [data[..k]] + Lines(data[k..], k)
  }

  function JoinLines(lines: seq<seq<string>>): seq<string> {
    seq(|lines|, i requires 0 <= i < |lines| => Join(", ", lines[i]))
  }

  function VectorText(data: seq<string>, indent: nat, k: nat): string
    requires k >= 1
  {
    "[" + Join("," + "\n" + Repeat(' ', indent + 1), JoinLines(Lines(data, k))) + "]"
  }

  /** The printed elements of a vector. */
  function VectorData(t: Tensor, n: nat, summarize: bool, o: Options, w: nat): seq<string>
    requires Regular(t, [n])
  {
    Layout(seq(n, i requires 0 <= i < n => Format(RowValue(t, n, i), w)), " ...", summarize, o.edgeitems)
  }

  function RowValue(t: Tensor, n: nat, i: nat): int
    requires Regular(t, [n]) && i < n
  {
    assert [n][1..] == [] && Regular(t.rows[i], [n][1..]);
    t.rows[i].value
  }

  /** `_tensor_str_with_formatter` with `_scalar_str` and `_vector_str`. */
  function Text(t: Tensor, shape: seq<nat>, indent: nat, summarize: bool, o: Options, w: nat): string
    requires Regular(t, shape)
    decreases |shape|
  {
    if shape == [] then Format(t.value, w)
    else if |shape| == 1 then
      assert shape == [shape[0]];
      VectorText(VectorData(t, shape[0], summarize, o, w), indent, PerLine(o.linewidth, indent, w))
    else
      "[" + Join("," + Repeat('\n', |shape| - 1) + Repeat(' ', indent + 1),
                 Layout(RowTexts(t, shape, indent, summarize, o, w), "...", summarize, o.edgeitems)) + "]"
  }

  function RowTexts(t: Tensor, shape: seq<nat>, indent: nat, summarize: bool, o: Options, w: nat): (r: seq<string>)
    requires shape != [] && Regular(t, shape)
    ensures |r| == |t.rows|
    ensures forall i :: 0 <= i < |t.rows| ==> r[i] == Text(t.rows[i], shape[1..], indent + 1, summarize, o, w)
    decreases |shape|, 0
  {
    seq(|t.rows|, i requires 0 <= i < |t.rows| => Text(t.rows[i], shape[1..], indent + 1, summarize, o, w))
  }

  /** `get_summarized_data` */
  function Summarized(t: Tensor, shape: seq<nat>, edge: pos): Tensor
    requires Regular(t, shape)
    decreases |shape|
  {
    if shape == [] then t else Dim(Edges(SummarizedRows(t, shape, edge), edge))
  }

  function SummarizedRows(t: Tensor, shape: seq<nat>, edge: pos): (r: seq<Tensor>)
    requires shape != [] && Regular(t, shape)
    ensures |r| == |t.rows|
    ensures forall i :: 0 <= i < |t.rows| ==> r[i] == Summarized(t.rows[i], shape[1..], edge)
    decreases |shape|, 0
  {
    seq(|t.rows|, i requires 0 <= i < |t.rows| => Summarized(t.rows[i], shape[1..], edge))
  }

  function Edges<A>(xs: seq<A>, edge: pos): seq<A> {
    if |xs| > 2 * edge then xs[..edge] + xs[|xs| - edge..] else xs
  }

  /** The values whose widths the formatter sees. */
  function Measured(t: Tensor, shape: seq<nat>, summarize: bool, o: Options): seq<int>
    requires Regular(t, shape)
  {
    if summarize then Values(Summarized(t, shape, o.edgeitems)) else Values(t)
  }

  /** `_tensor_str` for an integer tensor. */
  function Str(t: Tensor, shape: seq<nat>, indent: nat, o: Options): string
    requires Regular(t, shape)
  {
    if Numel(shape) == 0 then "[]"
    else
      var summarize := Numel(shape) > o.threshold;
      Text(t, shape, indent, summarize, o, Width(Measured(t, shape, summarize, o)))
  }
}
