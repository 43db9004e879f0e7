/** Where the printer breaks lines: vectors fill their lines, numbers end in fixed columns, and slices are kept
    apart by as many breaks as their rank says. */
module TensorFill {
  import opened Sums
  import opened TensorStr
  import opened TensorLines

  // ------------------------------------------------------------------ the lines of a text

  function LinesOf(text: string): (r: seq<string>)
    ensures |r| >= 1
  {
    if text == "" then [""]
    else
      var rest := LinesOf(text[1..]);
      if text[0] == '\n' then [""] + rest else [[text[0]] + rest[0]] + rest[1..]
  }

  lemma {:induction false} LinesOfFlat(a: string)
    requires Flat(a)
    ensures LinesOf(a) == [a]
  {
    if a != "" {
      LinesOfFlat(a[1..]);
      assert a == [a[0]] + a[1..];
    }
  }

  lemma {:induction false} LinesOfBreak(a: string, b: string)
    requires Flat(a)
    ensures LinesOf(a + "\n" + b) == [a] + LinesOf(b)
  {
    var s := a + "\n" + b;
    if a == "" {
      assert s[1..] == b;
    } else {
      assert s[1..] == a[1..] + "\n" + b;
      LinesOfBreak(a[1..], b);
      assert a == [a[0]] + a[1..];
    }
  }

  // ------------------------------------------------------------------ the lines of a vector

  /** The printed lines: the first after `prefix`, the others after `pad`. */
  function VectorLines(data: seq<string>, k: nat, prefix: string, pad: string): (r: seq<string>)
    requires k >= 1
    ensures |r| >= 1
  {
    if |data| <= k then [prefix + Join(", ", data) + "]"]
    else [prefix + Join(", ", data[..k]) + ","] + VectorLines(data[k..], k, pad, pad)
  }

  lemma {:induction false} LinesOfVector(data: seq<string>, k: nat, prefix: string, indent: nat)
    requires data != [] && k >= 1 && AllFlat(data) && Flat(prefix)
    ensures LinesOf(prefix + Join("," + "\n" + Repeat(' ', indent + 1), JoinLines(Lines(data, k))) + "]")
            == VectorLines(data, k, prefix, Repeat(' ', indent + 1))
  {
    hide LinesOf;
    var pad := Repeat(' ', indent + 1);
    var sep := "," + "\n" + pad;
    if |data| <= k {
      LineLength(data);
      LinesOfFlat(prefix + Join(", ", data) + "]");
      assert JoinLines(Lines(data, k)) == [Join(", ", data)];
    } else {
      hide Join, JoinLines, Lines;
      var line, more := Join(", ", data[..k]), Join(sep, JoinLines(Lines(data[k..], k)));
      LineLength(data[..k]);
      LinesOfVector(data[k..], k, pad, indent);
      JoinFirst(sep, data, k);
      assert prefix + (line + sep + more) + "]" == (prefix + line + ",") + "\n" + (pad + more + "]");
      LinesOfBreak(prefix + line + ",", pad + more + "]");
    }
  }

  lemma LinesOfVectorText(data: seq<string>, k: nat, indent: nat)
    requires data != [] && k >= 1 && AllFlat(data)
    ensures LinesOf(VectorText(data, indent, k)) == VectorLines(data, k, "[", Repeat(' ', indent + 1))
  {
    hide LinesOf, Join, JoinLines, Lines;
    LinesOfVector(data, k, "[", indent);
  }

  /** How many lines of `k` hold `n` elements. */
  function LineCount(n: nat, k: nat): (r: nat)
    requires k >= 1
    ensures r >= 1
  {
    if n <= k then 1 else 1 + LineCount(n - k, k)
  }

  lemma {:induction false} CountLines(data: seq<string>, k: nat, prefix: string, pad: string)
    requires k >= 1
    ensures |VectorLines(data, k, prefix, pad)| == LineCount(|data|, k)
    decreases |data|
  {
    if |data| > k {
      CountLines(data[k..], k, pad, pad);
    }
  }

  /** Every element has `w` characters and no line break. */
  predicate Even(data: seq<string>, w: nat) {
    forall i :: 0 <= i < |data| ==> |data[i]| == w && Flat(data[i])
  }

  lemma EvenLine(line: seq<string>, w: nat)
    requires line != [] && Even(line, w)
    ensures |Join(", ", line)| + 2 == Cells(|line|, w)
  {
    LineLength(line);
    assert Lengths(line) == seq(|line|, _ => w);
    TotalEven(|line|, w);
  }

  /** A line that is not the last holds `k` elements. */
  lemma {:induction false} FullLine(data: seq<string>, k: nat, prefix: string, pad: string, w: nat, l: nat)
    requires k >= 1 && Even(data, w) && l + 1 < |VectorLines(data, k, prefix, pad)|
    ensures |VectorLines(data, k, prefix, pad)[l]| + 1 == (if l == 0 then |prefix| else |pad|) + Cells(k, w)
    decreases |data|
  {
    hide Cells, Join;
    if l == 0 {
      EvenLine(data[..k], w);
    } else {
      FullLine(data[k..], k, pad, pad, w, l - 1);
    }
  }

  /** The column after the last character of a line; the first line starts after the indentation. */
  function EndColumn(lines: seq<string>, l: nat, indent: nat): nat
    requires l < |lines|
  {
    (if l == 0 then indent else 0) + |lines[l]|
  }

  /** The elements per line are the greatest number that fits, and at least one. */
  lemma PerLineGreatest(linewidth: int, indent: nat, w: nat)
    ensures var k := PerLine(linewidth, indent, w);
            if indent + w + 2 <= linewidth
            then indent + Cells(k, w) <= linewidth < indent + Cells(k, w) + w + 2
            else k == 1
  {
    var room, unit := linewidth - indent, w + 2;
    var q := room / unit;
    assert room == q * unit + room % unit;
    QuotientSign(q, room, unit);
  }

  lemma QuotientSign(q: int, room: int, unit: nat)
    requires q * unit <= room < q * unit + unit
    ensures q >= 1 <==> room >= unit
  {
    if q >= 1 {
      assert (q - 1) * unit >= 0;
    } else {
      assert q * unit <= 0;
    }
  }

  lemma FullVectorEven(t: Tensor, n: nat, o: Options, w: nat)
    requires Regular(t, [n])
    requires forall i :: 0 <= i < n ==> |IntStr(RowValue(t, n, i))| <= w
    ensures Even(VectorData(t, n, false, o, w), w) && |VectorData(t, n, false, o, w)| == n
  {
    hide IntStr, RowValue;
    forall i | 0 <= i < n ensures Flat(Format(RowValue(t, n, i), w)) {
      FormatFlat(RowValue(t, n, i), w);
    }
  }

  /** The lines of a vector printed in full. */
  function PrintedLines(t: Tensor, n: nat, indent: nat, o: Options, w: nat): seq<string>
    requires Regular(t, [n])
  {
    LinesOf(Text(t, [n], indent, false, o, w))
  }

  lemma PrintedVectorLines(t: Tensor, n: nat, indent: nat, o: Options, w: nat)
    requires Regular(t, [n]) && n >= 1
    requires forall i :: 0 <= i < n ==> |IntStr(RowValue(t, n, i))| <= w
    ensures var data := VectorData(t, n, false, o, w);
            && Even(data, w) && |data| == n
            && PrintedLines(t, n, indent, o, w)
               == VectorLines(data, PerLine(o.linewidth, indent, w), "[", Repeat(' ', indent + 1))
  {
    hide LinesOf, VectorLines, IntStr, RowValue, PerLine, VectorText;
    FullVectorEven(t, n, o, w);
    LinesOfVectorText(VectorData(t, n, false, o, w), PerLine(o.linewidth, indent, w), indent);
  }

  lemma {:induction false} OneEach(n: nat)
    requires n >= 1
    ensures LineCount(n, 1) == n
  {
    if n > 1 {
      OneEach(n - 1);
    }
  }

  /** Lines are as full as they can be: a vector that fits on one line is on one line, any other line but the last
      would pass the line width with one more element, and where not even one element fits each has its own line. */
  lemma LinesAreFull(t: Tensor, n: nat, indent: nat, o: Options, w: nat)
    requires Regular(t, [n]) && n >= 1
    requires forall i :: 0 <= i < n ==> |IntStr(RowValue(t, n, i))| <= w
    ensures var lines := PrintedLines(t, n, indent, o, w);
            && (indent + n * (w + 2) <= o.linewidth ==> |lines| == 1)
            && (indent + w + 2 <= o.linewidth ==> forall l :: 0 <= l < |lines| - 1 ==>
                  EndColumn(lines, l, indent) <= o.linewidth < EndColumn(lines, l, indent) + w + 2)
            && (indent + w + 2 > o.linewidth ==> |lines| == n)
  {
    hide LinesOf, PrintedLines, VectorLines, IntStr, RowValue, PerLine, Cells, VectorData;
    var k, data, pad := PerLine(o.linewidth, indent, w), VectorData(t, n, false, o, w), Repeat(' ', indent + 1);
    PrintedVectorLines(t, n, indent, o, w);
    PerLineGreatest(o.linewidth, indent, w);
    CountLines(data, k, "[", pad);
    if indent + w + 2 <= o.linewidth {
      WholeFits(n, k, indent, w, o.linewidth);
      forall l | 0 <= l < |VectorLines(data, k, "[", pad)| - 1
        ensures |VectorLines(data, k, "[", pad)[l]| + 1 == (if l == 0 then 1 else indent + 1) + Cells(k, w)
      {
        FullLine(data, k, "[", pad, w, l);
      }
    } else {
      OneEach(n);
      WholeTooWide(n, indent, w, o.linewidth);
    }
  }

  lemma WholeFits(n: nat, k: nat, indent: nat, w: nat, linewidth: int)
    requires linewidth < indent + Cells(k, w) + w + 2
    ensures indent + n * (w + 2) <= linewidth ==> n <= k
  {
    if n > k {
      CellsNext(k, w);
      CellsMonotone(k + 1, n, w);
    }
  }

  lemma WholeTooWide(n: nat, indent: nat, w: nat, linewidth: int)
    requires n >= 1 && indent + w + 2 > linewidth
    ensures indent + n * (w + 2) > linewidth
  {
    CellsNext(0, w);
    CellsMonotone(1, n, w);
  }

  /** If `m` lines of at most `k` hold `n` elements, the count of full lines is no more. */
  lemma {:induction false} CountLeast(n: nat, k: nat, m: nat)
    requires k >= 1 && n >= 1 && n <= m * k
    ensures LineCount(n, k) <= m
    decreases n
  {
    if n > k {
      assert m * k == (m - 1) * k + k;
      assert m >= 1;
      CountLeast(n - k, k, m - 1);
    } else {
      assert m != 0;
    }
  }

  function Count(c: nat): nat { c }

  lemma {:induction false} CutTotal(cut: seq<nat>, k: nat)
    requires forall l :: 0 <= l < |cut| ==> cut[l] <= k
    ensures Sum(Count, cut) <= |cut| * k
  {
    if cut != [] {
      CutTotal(cut[1..], k);
      assert |cut| * k == (|cut| - 1) * k + k;
    }
  }

  /** No cut of the elements into lines within the line width has fewer lines than the print. */
  lemma FewestLines(t: Tensor, n: nat, indent: nat, o: Options, w: nat, cut: seq<nat>)
    requires Regular(t, [n]) && n >= 1
    requires forall i :: 0 <= i < n ==> |IntStr(RowValue(t, n, i))| <= w
    requires Sum<nat>(Count, cut) == n
    requires forall l :: 0 <= l < |cut| ==> indent + cut[l] * (w + 2) <= o.linewidth
    ensures |PrintedLines(t, n, indent, o, w)| <= |cut|
  {
    hide LinesOf, PrintedLines, VectorLines, IntStr, RowValue, PerLine, VectorData;
    var k := PerLine(o.linewidth, indent, w);
    PrintedVectorLines(t, n, indent, o, w);
    CountLines(VectorData(t, n, false, o, w), k, "[", Repeat(' ', indent + 1));
    PerLineGreatest(o.linewidth, indent, w);
    forall l | 0 <= l < |cut| ensures cut[l] <= k {
      if cut[l] >= 1 {
        CellsNext(0, w);
        CellsMonotone(1, cut[l], w);
        WholeFits(cut[l], k, indent, w, o.linewidth);
      }
    }
    CutTotal(cut, k);
    CountLeast(n, k, |cut|);
  }

  // ------------------------------------------------------------------ the columns of the numbers

  /** The line of element `i`. */
  function LineOf(i: nat, k: nat): nat
    requires k >= 1
  {
    if i < k then 0 else 1 + LineOf(i - k, k)
  }

  /** Blanks and then the decimal text, in `w` characters. */
  predicate RightAligned(s: string, v: int, w: nat) {
    var digits := IntStr(v);
    && |s| == w && |digits| <= w && s[w - |digits|..] == digits
    && forall c :: 0 <= c < w - |digits| ==> s[c] == ' '
  }

  lemma FormatAligned(v: int, w: nat)
    requires |IntStr(v)| <= w
    ensures RightAligned(Format(v, w), v, w)
  {
  }

  /** Element `j` of a joined line starts after `j` elements with their separators. */
  lemma {:induction false} JoinAt(line: seq<string>, w: nat, j: nat)
    requires j < |line| && Even(line, w)
    ensures Cells(j, w) + w <= |Join(", ", line)|
    ensures Join(", ", line)[Cells(j, w)..Cells(j, w) + w] == line[j]
  {
    CellsNext(0, w);
    if |line| > 1 {
      var tail := Join(", ", line[1..]);
      var joined := Join(", ", line);
      assert joined == line[0] + ", " + tail;
      if j > 0 {
        JoinAt(line[1..], w, j - 1);
        CellsNext(j - 1, w);
        var c := Cells(j - 1, w);
        assert joined[c + w + 2..c + w + 2 + w] == tail[c..c + w];
      }
    }
  }

  /** Element `i` stands on its line after the prefix and the elements before it. */
  lemma {:induction false} ElementAt(data: seq<string>, k: nat, prefix: string, pad: string, w: nat, i: nat)
    requires k >= 1 && Even(data, w) && i < |data|
    ensures var lines, l := VectorLines(data, k, prefix, pad), LineOf(i, k);
            && l < |lines|
            && var start := (if l == 0 then |prefix| else |pad|) + Cells(Offset(i, k), w);
               start + w <= |lines[l]| && lines[l][start..start + w] == data[i]
    decreases |data|
  {
    hide Cells, Join;
    if i >= k {
      ElementAt(data[k..], k, pad, pad, w, i - k);
    } else {
      var line := if |data| <= k then data else data[..k];
      JoinAt(line, w, i);
      var c := Cells(i, w);
      PastPrefix(prefix, Join(", ", line), if |data| <= k then "]" else ",", c, w);
    }
  }

  lemma PastPrefix(prefix: string, line: string, end: string, c: nat, w: nat)
    requires c + w <= |line|
    ensures (prefix + line + end)[|prefix| + c..|prefix| + c + w] == line[c..c + w]
  {
  }

  /** The number in place `j` of line `l` is right-aligned in the `w` columns after `j` elements and the bracket. */
  predicate InColumn(lines: seq<string>, l: nat, j: nat, indent: nat, w: nat, v: int) {
    && l < |lines|
    && var start := (if l == 0 then 0 else indent) + 1 + Cells(j, w);
       start + w <= |lines[l]| && RightAligned(lines[l][start..start + w], v, w)
  }

  /** In a vector printed in full the numbers stand in columns. */
  lemma NumbersInColumns(t: Tensor, n: nat, indent: nat, o: Options, w: nat, i: nat)
    requires Regular(t, [n]) && i < n
    requires forall i :: 0 <= i < n ==> |IntStr(RowValue(t, n, i))| <= w
    ensures var k := PerLine(o.linewidth, indent, w);
            InColumn(PrintedLines(t, n, indent, o, w), LineOf(i, k), Offset(i, k), indent, w, RowValue(t, n, i))
  {
    hide LinesOf, PrintedLines, VectorLines, IntStr, RowValue, PerLine, RightAligned, Cells;
    var k, data := PerLine(o.linewidth, indent, w), VectorData(t, n, false, o, w);
    PrintedVectorLines(t, n, indent, o, w);
    ElementAt(data, k, "[", Repeat(' ', indent + 1), w, i);
    assert data[i] == Format(RowValue(t, n, i), w);
    FormatAligned(RowValue(t, n, i), w);
  }

  // ------------------------------------------------------------------ the breaks of a print

  function Breaks(text: string): nat {
    if text == "" then 0 else (if text[0] == '\n' then 1 else 0) + Breaks(text[1..])
  }

  lemma {:induction false} BreaksConcat(a: string, b: string)
    ensures Breaks(a + b) == Breaks(a) + Breaks(b)
  {
    if a == "" {
      assert a + b == b;
    } else {
      assert (a + b)[1..] == a[1..] + b;
      BreaksConcat(a[1..], b);
    }
  }

  lemma {:induction false} BreaksFlat(a: string)
    requires Flat(a)
    ensures Breaks(a) == 0
  {
    if a != "" {
      BreaksFlat(a[1..]);
    }
  }

  lemma {:induction false} BreaksRepeated(n: nat)
    ensures Breaks(Repeat('\n', n)) == n
  {
    if n > 0 {
      assert Repeat('\n', n)[1..] == Repeat('\n', n - 1);
      BreaksRepeated(n - 1);
    }
  }

  lemma BreaksSeparator(breaks: nat, pad: nat)
    ensures Breaks("," + Repeat('\n', breaks) + Repeat(' ', pad)) == breaks
  {
    BreaksConcat("," + Repeat('\n', breaks), Repeat(' ', pad));
    BreaksConcat(",", Repeat('\n', breaks));
    BreaksRepeated(breaks);
    BreaksFlat(Repeat(' ', pad));
    BreaksFlat(",");
  }

  lemma BreaksBrackets(inner: string)
    ensures Breaks("[" + inner + "]") == Breaks(inner)
  {
    BreaksConcat("[" + inner, "]");
    BreaksConcat("[", inner);
    BreaksFlat("[");
    BreaksFlat("]");
  }

  /** `count` times `each`, behind a name. */
  function Times(count: nat, each: nat): nat { count * each }

  lemma TimesNext(count: nat, each: nat)
    ensures Times(count + 1, each) == Times(count, each) + each && Times(0, each) == 0
  {
  }

  lemma {:induction false} BreaksJoin(sep: string, parts: seq<string>)
    requires parts != []
    ensures Breaks(Join(sep, parts)) == Sum(Breaks, parts) + Times(|parts| - 1, Breaks(sep))
  {
    hide Times, Breaks;
    TimesNext(0, Breaks(sep));
    if |parts| > 1 {
      var rest := parts[1..];
      BreaksJoin(sep, rest);
      BreaksConcat(parts[0] + sep, Join(sep, rest));
      BreaksConcat(parts[0], sep);
      assert Join(sep, parts) == parts[0] + sep + Join(sep, rest);
      TimesNext(|rest| - 1, Breaks(sep));
    } else {
      assert parts[1..] == [];
    }
  }

  lemma {:induction false} SumEqual(parts: seq<string>, each: nat)
    requires forall i :: 0 <= i < |parts| ==> Breaks(parts[i]) == each
    ensures Sum(Breaks, parts) == Times(|parts|, each)
  {
    hide Times, Breaks;
    TimesNext(0, each);
    if parts != [] {
      SumEqual(parts[1..], each);
      TimesNext(|parts| - 1, each);
    }
  }

  lemma {:induction false} LinesFlat(data: seq<string>, k: nat, l: nat)
    requires data != [] && k >= 1 && AllFlat(data)
    ensures |Lines(data, k)| == LineCount(|data|, k)
    ensures l < |Lines(data, k)| ==> Flat(Join(", ", Lines(data, k)[l]))
    decreases |data|
  {
    if |data| <= k {
      LineLength(data);
    } else {
      LineLength(data[..k]);
      LinesFlat(data[k..], k, if l == 0 then 0 else l - 1);
    }
  }

  lemma BreaksLines(data: seq<string>, k: nat, sep: string)
    requires data != [] && k >= 1 && AllFlat(data)
    ensures Breaks(Join(sep, JoinLines(Lines(data, k)))) == Times(LineCount(|data|, k) - 1, Breaks(sep))
  {
    hide Lines, Join, Breaks;
    var lines := JoinLines(Lines(data, k));
    LinesFlat(data, k, 0);
    forall l | 0 <= l < |lines| ensures Breaks(lines[l]) == 0 {
      LinesFlat(data, k, l);
      BreaksFlat(lines[l]);
    }
    SumEqual(lines, 0);
    BreaksJoin(sep, lines);
  }

  lemma BreaksVector(data: seq<string>, k: nat, indent: nat)
    requires data != [] && k >= 1 && AllFlat(data)
    ensures Breaks(VectorText(data, indent, k)) == LineCount(|data|, k) - 1
  {
    hide Breaks, Join, JoinLines, Lines;
    var sep := "," + "\n" + Repeat(' ', indent + 1);
    assert Repeat('\n', 1) == "\n";
    BreaksSeparator(1, indent + 1);
    BreaksLines(data, k, sep);
    BreaksBrackets(Join(sep, JoinLines(Lines(data, k))));
  }

  /** The breaks of a print by its shape: those of the shown rows, and between any two slices as many as the rank
      less one; the dots stand for a slice without breaks. */
  function TextBreaks(shape: seq<nat>, indent: nat, summarize: bool, o: Options, w: nat): nat
    requires shape != [] && Positive(shape)
  {
    var cut := summarize && shape[0] > 2 * o.edgeitems;
    var rows := if cut then 2 * o.edgeitems else shape[0];
    var slices := if cut then rows + 1 else rows;
    if |shape| == 1 then LineCount(slices, PerLine(o.linewidth, indent, w)) - 1
    else Times(rows, TextBreaks(shape[1..], indent + 1, summarize, o, w)) + Times(slices - 1, |shape| - 1)
  }

  /** The breaks inside the slices of a layout. */
  lemma SumLayout(texts: seq<string>, summarize: bool, o: Options, each: nat)
    requires forall i :: 0 <= i < |texts| && Printed(|texts|, i, summarize, o) ==> Breaks(texts[i]) == each
    ensures Sum(Breaks, Layout(texts, "...", summarize, o.edgeitems))
            == Times(if summarize && |texts| > 2 * o.edgeitems then 2 * o.edgeitems else |texts|, each)
  {
    hide Breaks, Times;
    var e := o.edgeitems;
    if summarize && |texts| > 2 * e {
      var a, b := texts[..e], texts[|texts| - e..];
      SumConcat(Breaks, a + ["..."], b);
      SumConcat(Breaks, a, ["..."]);
      SumConcat(Breaks, a, b);
      SumEqual(a + b, each);
      BreaksFlat("...");
      assert ["..."][1..] == [];
    } else {
      SumEqual(texts, each);
    }
  }

  lemma BreaksSlices(texts: seq<string>, breaks: nat, indent: nat, summarize: bool, o: Options, each: nat)
    requires texts != []
    requires forall i :: 0 <= i < |texts| && Printed(|texts|, i, summarize, o) ==> Breaks(texts[i]) == each
    ensures var cut := summarize && |texts| > 2 * o.edgeitems;
            var rows := if cut then 2 * o.edgeitems else |texts|;
            Breaks("[" + Join("," + Repeat('\n', breaks) + Repeat(' ', indent + 1), Layout(texts, "...", summarize, o.edgeitems))
                   + "]")
            == Times(rows, each) + Times((if cut then rows + 1 else rows) - 1, breaks)
  {
    hide Breaks, Times, Join;
    var sep := "," + Repeat('\n', breaks) + Repeat(' ', indent + 1);
    var slices := Layout(texts, "...", summarize, o.edgeitems);
    SumLayout(texts, summarize, o, each);
    BreaksSeparator(breaks, indent + 1);
    BreaksJoin(sep, slices);
    BreaksBrackets(Join(sep, slices));
  }

  /** The number of line breaks of any print without empty dimensions. */
  lemma {:induction false} TextHasBreaks(t: Tensor, shape: seq<nat>, indent: nat, summarize: bool, o: Options, w: nat)
    requires shape != [] && Regular(t, shape) && Positive(shape) && Covered(t, shape, summarize, o, w)
    ensures Breaks(Text(t, shape, indent, summarize, o, w)) == TextBreaks(shape, indent, summarize, o, w)
    decreases |shape|
  {
    hide Breaks, Times, Join, Printed;
    if |shape| == 1 {
      hide Layout;
      var n := shape[0];
      assert shape == [n];
      VectorDataLengths(t, n, summarize, o, w);
      var data := VectorData(t, n, summarize, o, w);
      SliceCount(n, summarize, o, w);
      assert |Lengths(data)| == |data|;
      BreaksVector(data, PerLine(o.linewidth, indent, w), indent);
    } else {
      hide Layout;
      var each := TextBreaks(shape[1..], indent + 1, summarize, o, w);
      forall i | 0 <= i < |t.rows| && Printed(|t.rows|, i, summarize, o)
        ensures Breaks(RowTexts(t, shape, indent, summarize, o, w)[i]) == each
      {
        TextHasBreaks(t.rows[i], shape[1..], indent + 1, summarize, o, w);
      }
      BreaksSlices(RowTexts(t, shape, indent, summarize, o, w), |shape| - 1, indent, summarize, o, each);
    }
  }

  lemma SliceCount(n: nat, summarize: bool, o: Options, w: nat)
    ensures |VectorLengths(n, summarize, o, w)|
            == if summarize && n > 2 * o.edgeitems then 2 * o.edgeitems + 1 else n
  {
  }
}
