/** Reading printed integer tensors back, and what follows about the printer. */
module TensorReader {
  import opened Wrappers
  import opened TensorStr

  /** What a printed tensor shows. */
  datatype Item = Num(value: int) | List(items: seq<Item>) | Dots

  // ------------------------------------------------------------------ the reader

  predicate IsSpace(c: char) { c == ' ' || c == '\n' }

  /** The text without blanks and line breaks. */
  function Strip(s: string): string {
    if s == [] then [] else if IsSpace(s[0]) then Strip(s[1..]) else [s[0]] + Strip(s[1..])
  }

  function DigitRun(s: string): (k: nat)
    ensures k <= |s|
  {
    if s != [] && IsDigit(s[0]) then 1 + DigitRun(s[1..]) else 0
  }

  function NatOf(s: string): nat
    requires forall i :: 0 <= i < |s| ==> IsDigit(s[i])
  {
    if s == [] then 0 else NatOf(s[..|s| - 1]) * 10 + DigitValue(s[|s| - 1])
  }

  lemma {:induction false} DigitRunDigits(s: string)
    ensures forall i :: 0 <= i < DigitRun(s) ==> IsDigit(s[i])
  {
    if s != [] && IsDigit(s[0]) {
      DigitRunDigits(s[1..]);
      forall i | 0 <= i < DigitRun(s) ensures IsDigit(s[i]) {
        if i > 0 { assert s[i] == s[1..][i - 1]; }
      }
    }
  }

  function ReadNumber(s: string): (r: Option<(Item, string)>)
    ensures r.Some? ==> |r.value.1| < |s|
  {
    var negative := s != [] && s[0] == '-';
    var body := if negative then s[1..] else s;
    var k := DigitRun(body);
    DigitRunDigits(body);
    if k == 0 then None
    else
      var v: int := NatOf(body[..k]);
      Some((Num(if negative then -v else v), body[k..]))
  }

  /** One item at the start of the text, and the rest. */
  function ReadItem(s: string): (r: Option<(Item, string)>)
    ensures r.Some? ==> |r.value.1| < |s|
    decreases |s|, 0
  {
    if s == [] then None
    else if s[0] == '[' then
      match ReadItems(s[1..])
      case None => None
      case Some((items, rest)) => Some((List(items), rest))
    else if |s| >= 3 && s[..3] == "..." then Some((Dots, s[3..]))
    else ReadNumber(s)
  }

  /** Items separated by commas, up to the closing bracket. */
  function ReadItems(s: string): (r: Option<(seq<Item>, string)>)
    ensures r.Some? ==> |r.value.1| < |s|
    decreases |s|, 1
  {
    match ReadItem(s)
    case None => None
    case Some((item, rest)) =>
      if rest == [] then None
      else if rest[0] == ']' then Some(([item], rest[1..]))
      else if rest[0] == ',' then PrependItem(item, ReadItems(rest[1..]))
      else None
  }

  function PrependItem(item: Item, tail: Option<(seq<Item>, string)>): (r: Option<(seq<Item>, string)>)
    ensures r.Some? ==> tail.Some? && r.value.1 == tail.value.1
  {
    match tail
    case None => None
    case Some((items, rest)) => Some(([item] + items, rest))
  }

  function Read(text: string): Option<Item> {
    match ReadItem(Strip(text))
    case None => None
    case Some((item, rest)) => if rest == [] then Some(item) else None
  }

  // ------------------------------------------------------------------ canonical text

  function Canon(item: Item): string
    decreases item, 0
  {
    match item
    case Num(v) => IntStr(v)
    case Dots => "..."
    case List(items) => "[" + Join(",", Canons(items)) + "]"
  }

  function Canons(items: seq<Item>): (r: seq<string>)
    ensures |r| == |items|
    decreases items, 1
  {
    if items == [] then [] else [Canon(items[0])] + Canons(items[1..])
  }

  ghost predicate Readable(item: Item)
    decreases item, 0
  {
    item.List? ==> item.items != [] && AllReadable(item.items)
  }

  ghost predicate AllReadable(items: seq<Item>)
    decreases items, 1
  {
    items != [] ==> Readable(items[0]) && AllReadable(items[1..])
  }

  lemma {:induction false} NatRoundTrip(n: nat)
    ensures NatOf(NatStr(n)) == n
  {
    if n >= 10 {
      NatRoundTrip(n / 10);
      assert NatStr(n)[..|NatStr(n)| - 1] == NatStr(n / 10);
    } else {
      assert NatStr(n)[..0] == [];
    }
  }

  predicate AllDigits(s: string) { forall i :: 0 <= i < |s| ==> IsDigit(s[i]) }

  /** The decimal text is the one shortest digit string with its value: no leading zeros. */
  lemma {:induction false} NatStrShortest(s: string)
    requires s != [] && AllDigits(s)
    ensures |NatStr(NatOf(s))| <= |s|
    ensures |NatStr(NatOf(s))| == |s| ==> NatStr(NatOf(s)) == s
    decreases |s|
  {
    var front, last := s[..|s| - 1], s[|s| - 1];
    var n := NatOf(s);
    assert s == front + [last] && DigitChar(DigitValue(last)) == last;
    if front != [] {
      NatStrShortest(front);
      assert n / 10 == NatOf(front) && n % 10 == DigitValue(last);
    } else {
      assert NatOf(front) == 0 && n == DigitValue(last);
    }
  }

  lemma {:induction false} RunOf(digits: string, rest: string)
    requires forall i :: 0 <= i < |digits| ==> IsDigit(digits[i])
    requires rest == [] || !IsDigit(rest[0])
    ensures DigitRun(digits + rest) == |digits|
  {
    if digits == [] {
      assert digits + rest == rest;
    } else {
      RunOf(digits[1..], rest);
      assert (digits + rest)[1..] == digits[1..] + rest;
    }
  }

  /** The text of a number ends where the next character is no digit. */
  lemma ReadIntStr(v: int, rest: string)
    requires rest == [] || !IsDigit(rest[0])
    ensures ReadNumber(IntStr(v) + rest) == Some((Num(v), rest))
  {
    hide NatStr, NatOf, DigitRun;
    var n: nat := if v < 0 then -v else v;
    var digits := NatStr(n);
    NatRoundTrip(n);
    RunOf(digits, rest);
    var s := IntStr(v) + rest;
    var body := if v < 0 then s[1..] else s;
    assert body == digits + rest;
    assert body[..|digits|] == digits && body[|digits|..] == rest;
  }

  lemma FirstChar(v: int)
    ensures IntStr(v)[0] != '[' && IntStr(v)[0] != '.'
  {
  }

  /** Reading undoes the canonical text, whatever follows it. */
  lemma {:induction false} ReadCanon(item: Item, rest: string)
    requires Readable(item) && (rest == [] || !IsDigit(rest[0]))
    ensures ReadItem(Canon(item) + rest) == Some((item, rest))
    decreases item, 0
  {
    var s := Canon(item) + rest;
    match item
    case Num(v) =>
      FirstChar(v);
      ReadIntStr(v, rest);
      assert s[0] == IntStr(v)[0];
    case Dots =>
      assert s[..3] == "..." && s[3..] == rest;
    case List(items) =>
      var inner := Join(",", Canons(items));
      assert s[1..] == inner + ("]" + rest);
      ReadCanons(items, rest);
  }

  lemma {:induction false} ReadCanons(items: seq<Item>, rest: string)
    requires items != [] && AllReadable(items)
    ensures ReadItems(Join(",", Canons(items)) + ("]" + rest)) == Some((items, rest))
    decreases items, 1
  {
    var head, tail := items[0], items[1..];
    var s := Join(",", Canons(items)) + ("]" + rest);
    if tail == [] {
      assert items == [head];
      assert s == Canon(head) + ("]" + rest);
      ReadCanon(head, "]" + rest);
      assert ("]" + rest)[1..] == rest;
    } else {
      var after := Join(",", Canons(tail)) + ("]" + rest);
      assert Canons(items)[1..] == Canons(tail);
      assert s == Canon(head) + ("," + after);
      ReadCanon(head, "," + after);
      assert ("," + after)[1..] == after;
      ReadCanons(tail, rest);
      assert items == [head] + tail;
    }
  }

  // ------------------------------------------------------------------ stripping the layout

  lemma {:induction false} StripConcat(a: string, b: string)
    ensures Strip(a + b) == Strip(a) + Strip(b)
  {
    if a == [] {
      assert a + b == b;
    } else {
      StripConcat(a[1..], b);
      assert (a + b)[1..] == a[1..] + b && (a + b)[0] == a[0];
      Associate([a[0]], Strip(a[1..]), Strip(b));
    }
  }

  lemma {:induction false} StripBlank(s: string)
    requires forall i :: 0 <= i < |s| ==> IsSpace(s[i])
    ensures Strip(s) == ""
  {
    if s != [] {
      StripBlank(s[1..]);
    }
  }

  lemma {:induction false} StripSolid(s: string)
    requires forall i :: 0 <= i < |s| ==> !IsSpace(s[i])
    ensures Strip(s) == s
  {
    if s != [] {
      StripSolid(s[1..]);
    }
  }

  function StripAll(parts: seq<string>): (r: seq<string>)
    ensures |r| == |parts| && forall i :: 0 <= i < |parts| ==> r[i] == Strip(parts[i])
  {
    seq(|parts|, i requires 0 <= i < |parts| => Strip(parts[i]))
  }

  lemma {:induction false} StripJoin(sep: string, parts: seq<string>)
    ensures Strip(Join(sep, parts)) == Join(Strip(sep), StripAll(parts))
  {
    if |parts| > 1 {
      StripJoin(sep, parts[1..]);
      StripConcat(parts[0] + sep, Join(sep, parts[1..]));
      StripConcat(parts[0], sep);
      assert StripAll(parts)[1..] == StripAll(parts[1..]);
    }
  }

  lemma StripFormat(v: int, w: nat)
    ensures Strip(Format(v, w)) == IntStr(v)
  {
    var pad := Repeat(' ', w - |IntStr(v)|);
    StripConcat(pad, IntStr(v));
    StripBlank(pad);
    StripSolid(IntStr(v));
  }

  lemma {:induction false} JoinConcat(sep: string, a: seq<string>, b: seq<string>)
    requires a != [] && b != []
    ensures Join(sep, a + b) == Join(sep, a) + sep + Join(sep, b)
  {
    if |a| == 1 {
      assert (a + b)[1..] == b;
    } else {
      JoinConcat(sep, a[1..], b);
      assert (a + b)[1..] == a[1..] + b;
      Associate(a[0] + sep, Join(sep, a[1..]) + sep, Join(sep, b));
      Associate(a[0] + sep, Join(sep, a[1..]), sep);
    }
  }

  lemma StripSep()
    ensures Strip("," + "\n") == "," && Strip(", ") == ","
  {
    StripConcat(",", "\n");
    StripConcat(",", " ");
    assert ", " == "," + " ";
    StripSolid(",");
    StripBlank("\n");
    StripBlank(" ");
  }

  /** Cutting the data into lines does not change the comma-separated list. */
  lemma {:induction false} LinesJoinStripped(data: seq<string>, k: nat)
    requires k >= 1 && data != []
    ensures |Lines(data, k)| >= 1
    ensures Join(",", StripAll(JoinLines(Lines(data, k)))) == Join(",", StripAll(data))
  {
    hide Strip;
    if |data| <= k {
      OneLine(data);
      assert Lines(data, k) == [data];
    } else {
      var first, rest := data[..k], data[k..];
      LinesJoinStripped(rest, k);
      OneLine(first);
      var more := StripAll(JoinLines(Lines(rest, k)));
      assert JoinLines([first] + Lines(rest, k)) == JoinLines([first]) + JoinLines(Lines(rest, k));
      assert StripAll(JoinLines([first] + Lines(rest, k))) == StripAll(JoinLines([first])) + more;
      JoinConcat(",", StripAll(JoinLines([first])), more);
      JoinConcat(",", StripAll(first), StripAll(rest));
      assert StripAll(data) == StripAll(first) + StripAll(rest);
    }
  }

  lemma OneLine(line: seq<string>)
    ensures |StripAll(JoinLines([line]))| == 1
    ensures Join(",", StripAll(JoinLines([line]))) == Join(",", StripAll(line))
  {
    hide Strip;
    StripSep();
    StripJoin(", ", line);
    assert JoinLines([line]) == [Join(", ", line)];
  }

  lemma StripSeparator(breaks: string, pad: string)
    requires forall i :: 0 <= i < |breaks| ==> IsSpace(breaks[i])
    requires forall i :: 0 <= i < |pad| ==> IsSpace(pad[i])
    ensures Strip("," + breaks + pad) == ","
  {
    StripConcat("," + breaks, pad);
    StripConcat(",", breaks);
    StripBlank(breaks);
    StripBlank(pad);
    StripSolid(",");
  }

  lemma StripBrackets(inner: string)
    ensures Strip("[" + inner + "]") == "[" + Strip(inner) + "]"
  {
    StripConcat("[" + inner, "]");
    StripConcat("[", inner);
    StripSolid("[");
    StripSolid("]");
  }

  lemma StripVector(data: seq<string>, indent: nat, k: nat)
    requires k >= 1 && data != []
    ensures Strip(VectorText(data, indent, k)) == "[" + Join(",", StripAll(data)) + "]"
  {
    var sep := "," + "\n" + Repeat(' ', indent + 1);
    StripSeparator("\n", Repeat(' ', indent + 1));
    StripBrackets(Join(sep, JoinLines(Lines(data, k))));
    StripJoin(sep, JoinLines(Lines(data, k)));
    LinesJoinStripped(data, k);
  }

  // ------------------------------------------------------------------ what is shown

  function View(t: Tensor, shape: seq<nat>, summarize: bool, edge: pos): Item
    requires Regular(t, shape)
    decreases |shape|
  {
    if shape == [] then Num(t.value) else List(Layout(ViewRows(t, shape, summarize, edge), Dots, summarize, edge))
  }

  function ViewRows(t: Tensor, shape: seq<nat>, summarize: bool, edge: pos): (r: seq<Item>)
    requires shape != [] && Regular(t, shape)
    ensures |r| == |t.rows|
    ensures forall i :: 0 <= i < |t.rows| ==> r[i] == View(t.rows[i], shape[1..], summarize, edge)
    decreases |shape|, 0
  {
    seq(|t.rows|, i requires 0 <= i < |t.rows| => View(t.rows[i], shape[1..], summarize, edge))
  }

  lemma {:induction false} CanonsAt(items: seq<Item>, i: nat)
    requires i < |items|
    ensures Canons(items)[i] == Canon(items[i])
  {
    if i > 0 {
      CanonsAt(items[1..], i - 1);
    }
  }

  /** The layout of the texts is the text of the layout. */
  lemma LayoutCanons(texts: seq<string>, items: seq<Item>, dots: string, summarize: bool, edge: pos)
    requires |texts| == |items| && Strip(dots) == "..."
    requires forall i :: 0 <= i < |texts| ==> Strip(texts[i]) == Canon(items[i])
    ensures StripAll(Layout(texts, dots, summarize, edge)) == Canons(Layout(items, Dots, summarize, edge))
  {
    hide Strip, Canon;
    var shown, laid := Layout(texts, dots, summarize, edge), Layout(items, Dots, summarize, edge);
    CanonDots();
    forall i | 0 <= i < |laid| ensures StripAll(shown)[i] == Canons(laid)[i] {
      CanonsAt(laid, i);
      if summarize && |texts| > 2 * edge && i > edge {
        var j := |items| - 2 * edge - 1 + i;
        assert shown[i] == texts[j] && laid[i] == items[j];
      }
    }
  }

  lemma CanonDots()
    ensures Canon(Dots) == "..."
  {
  }

  lemma StripDots()
    ensures Strip(" ...") == "..." && Strip("...") == "..."
  {
    assert " ..." == " " + "...";
    StripConcat(" ", "...");
    StripBlank(" ");
    StripSolid("...");
  }

  lemma VectorShows(t: Tensor, n: nat, indent: nat, summarize: bool, o: Options, w: nat, k: nat)
    requires Regular(t, [n]) && n >= 1 && k >= 1
    ensures Strip(VectorText(VectorData(t, n, summarize, o, w), indent, k)) == Canon(View(t, [n], summarize, o.edgeitems))
  {
    var shape := [n];
    var texts := seq(n, i requires 0 <= i < n => Format(RowValue(t, n, i), w));
    var items := ViewRows(t, shape, summarize, o.edgeitems);
    forall i | 0 <= i < n ensures Strip(texts[i]) == Canon(items[i]) {
      StripFormat(RowValue(t, n, i), w);
      assert items[i] == View(t.rows[i], shape[1..], summarize, o.edgeitems);
      assert shape[1..] == [];
    }
    StripDots();
    LayoutCanons(texts, items, " ...", summarize, o.edgeitems);
    StripVector(VectorData(t, n, summarize, o, w), indent, k);
  }

  /** Without blanks and breaks, the text is the canonical text of what is shown. */
  lemma {:induction false} TextShows(t: Tensor, shape: seq<nat>, indent: nat, summarize: bool, o: Options, w: nat)
    requires Regular(t, shape) && Positive(shape)
    ensures Strip(Text(t, shape, indent, summarize, o, w)) == Canon(View(t, shape, summarize, o.edgeitems))
    decreases |shape|
  {
    hide Strip, Join, Repeat, VectorText, VectorData;
    if shape == [] {
      StripFormat(t.value, w);
    } else if |shape| == 1 {
      assert shape == [shape[0]];
      VectorShows(t, shape[0], indent, summarize, o, w, PerLine(o.linewidth, indent, w));
    } else {
      var texts, items := RowTexts(t, shape, indent, summarize, o, w), ViewRows(t, shape, summarize, o.edgeitems);
      forall i | 0 <= i < |t.rows| ensures Strip(texts[i]) == Canon(items[i]) {
        TextShows(t.rows[i], shape[1..], indent + 1, summarize, o, w);
      }
      StripDots();
      LayoutCanons(texts, items, "...", summarize, o.edgeitems);
      var breaks, pad := Repeat('\n', |shape| - 1), Repeat(' ', indent + 1);
      StripSeparator(breaks, pad);
      var parts := Layout(texts, "...", summarize, o.edgeitems);
      StripBrackets(Join("," + breaks + pad, parts));
      StripJoin("," + breaks + pad, parts);
    }
  }

  lemma {:induction false} ViewReadable(t: Tensor, shape: seq<nat>, summarize: bool, edge: pos)
    requires Regular(t, shape) && Positive(shape)
    ensures Readable(View(t, shape, summarize, edge))
    decreases |shape|
  {
    if shape != [] {
      var items := ViewRows(t, shape, summarize, edge);
      forall i | 0 <= i < |items| ensures Readable(items[i]) {
        ViewReadable(t.rows[i], shape[1..], summarize, edge);
      }
      var laid := Layout(items, Dots, summarize, edge);
      forall i | 0 <= i < |laid| ensures Readable(laid[i]) {
        if laid[i] != Dots {
          assert laid[i] in items;
        }
      }
      AllReadableFrom(laid);
    }
  }

  lemma {:induction false} AllReadableFrom(items: seq<Item>)
    requires forall i :: 0 <= i < |items| ==> Readable(items[i])
    ensures AllReadable(items)
  {
    if items != [] {
      AllReadableFrom(items[1..]);
    }
  }

  /** The printed text of any tensor without size-0 dimensions, summarized or not, reads back as what it shows. */
  lemma ReadBack(t: Tensor, shape: seq<nat>, indent: nat, summarize: bool, o: Options, w: nat)
    requires Regular(t, shape) && Positive(shape)
    ensures Read(Text(t, shape, indent, summarize, o, w)) == Some(View(t, shape, summarize, o.edgeitems))
  {
    var item := View(t, shape, summarize, o.edgeitems);
    TextShows(t, shape, indent, summarize, o, w);
    ViewReadable(t, shape, summarize, o.edgeitems);
    ReadCanon(item, "");
    assert Canon(item) + "" == Canon(item);
  }

  // ------------------------------------------------------------------ full printing is injective

  function ToTensor(item: Item): Tensor
    decreases item, 0
  {
    match item
    case Num(v) => Scalar(v)
    case List(items) => Dim(ToTensors(items))
    case Dots => Dim([])
  }

  function ToTensors(items: seq<Item>): (r: seq<Tensor>)
    ensures |r| == |items|
    decreases items, 1
  {
    if items == [] then [] else [ToTensor(items[0])] + ToTensors(items[1..])
  }

  lemma {:induction false} ToTensorsAt(items: seq<Item>, i: nat)
    requires i < |items|
    ensures ToTensors(items)[i] == ToTensor(items[i])
  {
    if i > 0 {
      ToTensorsAt(items[1..], i - 1);
    }
  }

  lemma {:induction false} FullViewIsTensor(t: Tensor, shape: seq<nat>, edge: pos)
    requires Regular(t, shape)
    ensures ToTensor(View(t, shape, false, edge)) == t
    decreases |shape|
  {
    if shape != [] {
      var items := ViewRows(t, shape, false, edge);
      forall i | 0 <= i < |items| ensures ToTensors(items)[i] == t.rows[i] {
        ToTensorsAt(items, i);
        FullViewIsTensor(t.rows[i], shape[1..], edge);
      }
      assert ToTensors(items) == t.rows;
    }
  }

  lemma {:induction false} ShapeUnique(t: Tensor, shape: seq<nat>, shape': seq<nat>)
    requires Regular(t, shape) && Positive(shape) && Regular(t, shape') && Positive(shape')
    ensures shape == shape'
    decreases |shape|
  {
    if shape == [] || shape' == [] {
      assert shape == shape';
    } else {
      assert shape[0] == |t.rows| == shape'[0];
      ShapeUnique(t.rows[0], shape[1..], shape'[1..]);
      assert shape == [shape[0]] + shape[1..] && shape' == [shape'[0]] + shape'[1..];
    }
  }

  /** Two nonempty tensors printed in full with the same text have the same shape and the same values,
      whatever the indentation and line width they were printed with. */
  lemma FullPrintInjective(t: Tensor, shape: seq<nat>, indent: nat, o: Options,
                           t': Tensor, shape': seq<nat>, indent': nat, o': Options)
    requires Regular(t, shape) && 0 < Numel(shape) <= o.threshold
    requires Regular(t', shape') && 0 < Numel(shape') <= o'.threshold
    requires Str(t, shape, indent, o) == Str(t', shape', indent', o')
    ensures t == t' && shape == shape'
  {
    hide Text, Width, Measured;
    PositiveNumel(shape);
    PositiveNumel(shape');
    ReadBack(t, shape, indent, false, o, Width(Measured(t, shape, false, o)));
    ReadBack(t', shape', indent', false, o', Width(Measured(t', shape', false, o')));
    FullViewIsTensor(t, shape, o.edgeitems);
    FullViewIsTensor(t', shape', o'.edgeitems);
    ShapeUnique(t, shape, shape');
  }

  // ------------------------------------------------------------------ printing and measuring agree

  /** The numbers of an item in order. */
  function Shown(item: Item): seq<int>
    decreases item, 0
  {
    match item
    case Num(v) => [v]
    case Dots => []
    case List(items) => ShownOf(items)
  }

  function ShownOf(items: seq<Item>): seq<int>
    decreases items, 1
  {
    if items == [] then [] else Shown(items[0]) + ShownOf(items[1..])
  }

  lemma Associate<A>(x: seq<A>, y: seq<A>, z: seq<A>)
    ensures x + (y + z) == (x + y) + z
  {
  }

  lemma {:induction false} ShownConcat(a: seq<Item>, b: seq<Item>)
    ensures ShownOf(a + b) == ShownOf(a) + ShownOf(b)
  {
    if a == [] {
      assert a + b == b;
    } else {
      hide Shown;
      ShownConcat(a[1..], b);
      assert (a + b)[1..] == a[1..] + b && (a + b)[0] == a[0];
      Associate(Shown(a[0]), ShownOf(a[1..]), ShownOf(b));
    }
  }

  lemma {:induction false} ShownMatches(items: seq<Item>, rows: seq<Tensor>)
    requires |items| == |rows|
    requires forall i :: 0 <= i < |items| ==> Shown(items[i]) == Values(rows[i])
    ensures ShownOf(items) == ValuesOf(rows)
  {
    if items != [] {
      ShownMatches(items[1..], rows[1..]);
    }
  }

  lemma ShownDots()
    ensures ShownOf([Dots]) == []
  {
  }

  /** The dots show nothing: laying out the items shows what the edges of the rows hold. */
  lemma LayoutShown(items: seq<Item>, rows: seq<Tensor>, edge: pos)
    requires |items| == |rows|
    requires forall i :: 0 <= i < |items| ==> Shown(items[i]) == Values(rows[i])
    ensures ShownOf(Layout(items, Dots, true, edge)) == ValuesOf(Edges(rows, edge))
  {
    hide Shown, Values, ShownOf, ValuesOf;
    var n := |items|;
    if n > 2 * edge {
      var a, b := items[..edge], items[n - edge..];
      ShownDots();
      ShownConcat(a + [Dots], b);
      ShownConcat(a, [Dots]);
      assert ShownOf(a) + [] == ShownOf(a);
      ShownConcat(a, b);
      ShownMatches(a + b, Edges(rows, edge));
    } else {
      ShownMatches(items, rows);
    }
  }

  /** The values printed, in order, are exactly the elements of the data that the widths were computed from. */
  lemma {:induction false} SummaryAgrees(t: Tensor, shape: seq<nat>, edge: pos)
    requires Regular(t, shape)
    ensures Shown(View(t, shape, true, edge)) == Values(Summarized(t, shape, edge))
    decreases |shape|
  {
    if shape != [] {
      var items, rows := ViewRows(t, shape, true, edge), SummarizedRows(t, shape, edge);
      forall i | 0 <= i < |items| ensures Shown(items[i]) == Values(rows[i]) {
        SummaryAgrees(t.rows[i], shape[1..], edge);
      }
      LayoutShown(items, rows, edge);
    }
  }

  lemma {:induction false} FullAgrees(t: Tensor, shape: seq<nat>, edge: pos)
    requires Regular(t, shape)
    ensures Shown(View(t, shape, false, edge)) == Values(t)
    decreases |shape|
  {
    if shape != [] {
      var items := ViewRows(t, shape, false, edge);
      forall i | 0 <= i < |items| ensures Shown(items[i]) == Values(t.rows[i]) {
        FullAgrees(t.rows[i], shape[1..], edge);
      }
      ShownMatches(items, t.rows);
    }
  }

  /** Reading the text of any nonempty tensor gives exactly the measured values, and each of them was
      padded to exactly the common width. */
  lemma PrintMatchesMeasure(t: Tensor, shape: seq<nat>, indent: nat, o: Options)
    requires Regular(t, shape) && Numel(shape) > 0
    ensures var measured := Measured(t, shape, Numel(shape) > o.threshold, o);
            && Read(Str(t, shape, indent, o)).Some?
            && Shown(Read(Str(t, shape, indent, o)).value) == measured
            && forall v :: v in measured ==> |Format(v, Width(measured))| == Width(measured)
  {
    hide Text, Width, Format, IntStr;
    var summarize := Numel(shape) > o.threshold;
    var measured := Measured(t, shape, summarize, o);
    PositiveNumel(shape);
    ReadBack(t, shape, indent, summarize, o, Width(measured));
    if summarize { SummaryAgrees(t, shape, o.edgeitems); } else { FullAgrees(t, shape, o.edgeitems); }
    forall v | v in measured ensures |Format(v, Width(measured))| == Width(measured) {
      WidthCovers(measured, v);
    }
  }

  lemma EmptyUnreadable()
    ensures Read("[]") == None
  {
    assert Strip("[]") == "[]" by {
      assert "[]"[1..] == "]" && "]"[1..] == "";
    }
    assert "[]"[1..] == "]";
    assert ReadItem("]").None?;
  }

  /** The text `[]` is printed for tensors without elements, and for no others. */
  lemma EmptyPrint(t: Tensor, shape: seq<nat>, indent: nat, o: Options)
    requires Regular(t, shape)
    ensures Str(t, shape, indent, o) == "[]" <==> Numel(shape) == 0
  {
    if Numel(shape) > 0 {
      hide Str, Read, Measured, Format, Width;
      PrintMatchesMeasure(t, shape, indent, o);
      EmptyUnreadable();
    }
  }
}
