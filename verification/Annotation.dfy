/**
 Type annotations as text: the recursive printer `get_annotation_str` and the index-advancing
 resolver inside `createResolutionCallbackFromEnv`.  An exception of the resolver is None.
 */
module Annotation {
  import opened Wrappers

  datatype Ann =
    | Name(id: string)
    | Attribute(value: Ann, attr: string)
    | Subscript(value: Ann, slice: Ann)
    | Tuple(elts: seq<Ann>)

  /** The objects names resolve to: attribute access and subscription may raise. */
  datatype World<!O> = World(
    module_: O,
    none: O,
    emptyTuple: O,
    getattr: (O, string) -> Option<O>,
    subscript: (O, O) -> Option<O>,              // base[part]
    subscriptTuple: (O, seq<O>) -> Option<O>)    // base[tuple(parts)]

  // ------------------------------------------------------------------ the printer

  function Print(a: Ann): string
    decreases a, 0
  {
    match a
    case Name(id) => id
    case Attribute(v, attr) => Print(v) + ("." + attr)
    case Subscript(v, s) => Print(v) + ("[" + (Print(s) + "]"))
    case Tuple(elts) => PrintAll(elts)
  }

  /** The elements joined by commas. */
  function PrintAll(elts: seq<Ann>): string
    decreases elts, 1
  {
    if elts == [] then "" else if |elts| == 1 then Print(elts[0]) else Print(elts[0]) + ("," + PrintAll(elts[1..]))
  }

  // ------------------------------------------------------------------ the resolver

  /** The white space that `str.strip` removes. */
  predicate IsBlank(c: char) {
    || c == ' ' || '\t' <= c <= '\r' || '\U{1C}' <= c <= '\U{1F}' || c == '\U{85}' || c == '\U{A0}'
    || c == '\U{1680}' || '\U{2000}' <= c <= '\U{200A}' || c == '\U{2028}' || c == '\U{2029}'
    || c == '\U{202F}' || c == '\U{205F}' || c == '\U{3000}'
  }

  function StripLeft(s: string): string {
    if s != [] && IsBlank(s[0]) then StripLeft(s[1..]) else s
  }

  function StripRight(s: string): string {
    if s != [] && IsBlank(s[|s| - 1]) then StripRight(s[..|s| - 1]) else s
  }

  function Strip(s: string): string { StripRight(StripLeft(s)) }

  predicate IsStop(c: char) { c == ',' || c == '[' || c == ']' }

  /** The first index at or after `i` holding one of the three stop characters. */
  function Scan(s: string, i: nat): (r: nat)
    requires i <= |s|
    ensures i <= r <= |s|
    decreases |s| - i
  {
    if i < |s| && !IsStop(s[i]) then Scan(s, i + 1) else i
  }

  function FirstDot(s: string): (r: nat)
    ensures r <= |s|
    ensures r < |s| <==> '.' in s
    ensures r < |s| ==> s[r] == '.'
    ensures '.' !in s[..r]
  {
    if s == [] || s[0] == '.' then 0
    else
      var r := FirstDot(s[1..]);
      assert s == [s[0]] + s[1..];
      assert s[..r + 1] == [s[0]] + s[1..][..r];
      r + 1
  }

  /** `lookupInModule` */
  function Lookup<O>(w: World<O>, name: string, base: O): Option<O>
    decreases |name|
  {
    if '.' in name then
      var d := FirstDot(name);
      match w.getattr(base, name[..d])
      case None => None
      case Some(v) => Lookup(w, name[d + 1..], v)
    else w.getattr(base, name)
  }

  /** `parseNestedExpr`: the value and how many characters were used. */
  function Parse<O(==)>(w: World<O>, expr: string): (r: Option<(O, nat)>)
    ensures r.Some? ==> r.value.1 <= |expr|
    decreases |expr|, |expr| + 1
  {
    var i := Scan(expr, 0);
    if expr[..i] == "()" then Some((w.emptyTuple, i))
    else
      match Lookup(w, Strip(expr[..i]), w.module_)
      case None => None
      case Some(base) =>
        if base == w.none then None
        else if i == |expr| || expr[i] != '[' then Some((base, i))
        else Finish(w, base, ParseParts(w, expr, i, []))
  }

  /** The loop over the parts of a subscript; `i` is at the opening bracket or a separator. */
  function ParseParts<O(==)>(w: World<O>, expr: string, i: nat, parts: seq<O>): (r: Option<(seq<O>, nat)>)
    requires i <= |expr|
    ensures r.Some? ==> r.value.1 < |expr|
    decreases |expr|, |expr| - i
  {
    if i == |expr| then None
    else if expr[i] == ']' then Some((parts, i))
    else
      match Parse(w, expr[i + 1..])
      case None => None
      case Some((part, n)) => ParseParts(w, expr, i + 1 + n, parts + [part])
  }

  function Subscribe<O>(w: World<O>, base: O, parts: seq<O>): Option<O> {
    if |parts| > 1 then w.subscriptTuple(base, parts)
    else if |parts| == 1 then w.subscript(base, parts[0])
    else None
  }

  function Finish<O>(w: World<O>, base: O, p: Option<(seq<O>, nat)>): (r: Option<(O, nat)>)
    ensures r.Some? ==> p.Some? && r.value.1 == p.value.1 + 1
  {
    match p
    case None => None
    case Some((parts, i)) =>
      match Subscribe(w, base, parts)
      case None => None
      case Some(v) => Some((v, i + 1))
  }

  /** `parseExpr`: the whole text must be used. */
  function ParseExpr<O(==)>(w: World<O>, expr: string): Option<O> {
    match Parse(w, expr)
    case None => None
    case Some((v, n)) => if n == |expr| then Some(v) else None
  }

  /** `parseNestedExpr` as written: a scanning loop, then a loop that recurses on the remaining text. */
  method ParseNestedExpr<O(==)>(w: World<O>, expr: string) returns (r: Option<(O, nat)>)
    ensures r == Parse(w, expr)
    decreases |expr|
  {
    hide Lookup, Strip;
    var i := 0;
    while i < |expr| && expr[i] != ',' && expr[i] != '[' && expr[i] != ']'
      invariant i <= |expr| && Scan(expr, i) == Scan(expr, 0)
    {
      i := i + 1;
    }
    assert i == Scan(expr, 0);
    if expr[..i] == "()" {
      return Some((w.emptyTuple, i));
    }
    var found := Lookup(w, Strip(expr[..i]), w.module_);
    if found.None? || found.value == w.none {
      return None;
    }
    var base := found.value;
    if i == |expr| || expr[i] != '[' {
      return Some((base, i));
    }
    ghost var start := i;
    var parts: seq<O> := [];
    while i < |expr| && expr[i] != ']'
      invariant start <= i <= |expr|
      invariant ParseParts(w, expr, i, parts) == ParseParts(w, expr, start, [])
      decreases |expr| - i
    {
      var part := ParseNestedExpr(w, expr[i + 1..]);
      if part.None? {
        return None;
      }
      parts := parts + [part.value.0];
      i := i + 1 + part.value.1;
    }
    if i == |expr| {
      return None;  // indexing past the end raises
    }
    var v := Subscribe(w, base, parts);
    r := if v.Some? then Some((v.value, i + 1)) else None;
  }

  // ------------------------------------------------------------------ what an annotation denotes

  /** A name part: no separator, bracket, parenthesis or blank. */
  predicate Ident(s: string) {
    s != [] && forall i :: 0 <= i < |s| ==> PlainChar(s[i])
  }

  predicate PlainChar(c: char) {
    !IsStop(c) && !IsBlank(c) && c != '.' && c != '(' && c != ')'
  }

  /** Letters, digits and underscores belong to names; space, tab and line breaks are blanks. */
  lemma CharClasses(c: char)
    ensures 'a' <= c <= 'z' || 'A' <= c <= 'Z' || '0' <= c <= '9' || c == '_' ==> PlainChar(c)
    ensures c in " \t\n\r" ==> IsBlank(c)
    ensures IsBlank(c) ==> !PlainChar(c) && !IsStop(c)
  {
  }

  predicate Dotted(a: Ann) {
    match a
    case Name(id) => Ident(id)
    case Attribute(v, attr) => Dotted(v) && Ident(attr)
    case _ => false
  }

  /** Dotted names, and subscripts of a dotted name by one expression or by a tuple of two or more. */
  predicate Expr(a: Ann)
    decreases a, 0
  {
    match a
    case Name(_) => Dotted(a)
    case Attribute(_, _) => Dotted(a)
    case Subscript(v, s) =>
      Dotted(v) && (if s.Tuple? then |s.elts| >= 2 && AllExpr(s.elts) else Expr(s))
    case Tuple(_) => false
  }

  predicate AllExpr(elts: seq<Ann>)
    decreases elts, 1
  {
    elts == [] || (Expr(elts[0]) && AllExpr(elts[1..]))
  }

  function Resolve<O>(w: World<O>, a: Ann): Option<O>
    requires Dotted(a)
  {
    match a
    case Name(id) => w.getattr(w.module_, id)
    case Attribute(v, attr) =>
      match Resolve(w, v)
      case None => None
      case Some(o) => w.getattr(o, attr)
  }

  function NotNone<O(==)>(w: World<O>, v: Option<O>): Option<O> {
    if v.Some? && v.value == w.none then None else v
  }

  /** The object an annotation stands for, by recursion on the tree. */
  function Denote<O(==)>(w: World<O>, a: Ann): Option<O>
    requires Expr(a)
    decreases a, 0
  {
    match a
    case Name(_) => NotNone(w, Resolve(w, a))
    case Attribute(_, _) => NotNone(w, Resolve(w, a))
    case Subscript(v, s) =>
      match NotNone(w, Resolve(w, v))
      case None => None
      case Some(base) =>
        if s.Tuple? then SubscribeAll(w, base, DenoteAll(w, s.elts))
        else
          match Denote(w, s)
          case None => None
          case Some(part) => w.subscript(base, part)
  }

  function DenoteAll<O(==)>(w: World<O>, elts: seq<Ann>): (r: Option<seq<O>>)
    requires AllExpr(elts)
    ensures r.Some? ==> |r.value| == |elts|
    decreases elts, 1
  {
    if elts == [] then Some([])
    else
      match Denote(w, elts[0])
      case None => None
      case Some(v) =>
        match DenoteAll(w, elts[1..])
        case None => None
        case Some(vs) => Some([v] + vs)
  }

  function SubscribeAll<O>(w: World<O>, base: O, parts: Option<seq<O>>): Option<O> {
    match parts
    case None => None
    case Some(ps) => Subscribe(w, base, ps)
  }

  // ------------------------------------------------------------------ printing and resolving undo each other

  predicate NoStops(s: string) { forall i :: 0 <= i < |s| ==> !IsStop(s[i]) }
  predicate NoBlanks(s: string) { forall i :: 0 <= i < |s| ==> !IsBlank(s[i]) && s[i] != '(' }

  lemma {:induction false} ScanText(s: string, rest: string, i: nat)
    requires NoStops(s) && i <= |s| && (rest == "" || IsStop(rest[0]))
    ensures Scan(s + rest, i) == |s|
    decreases |s| - i
  {
    if i < |s| {
      ScanText(s, rest, i + 1);
    }
  }

  lemma {:induction false} DottedText(a: Ann)
    requires Dotted(a)
    ensures Print(a) != "" && NoStops(Print(a)) && NoBlanks(Print(a))
  {
    if a.Attribute? {
      DottedText(a.value);
    }
  }

  lemma LookupDot<O>(w: World<O>, p: string, attr: string, base: O)
    requires '.' !in p && '.' !in attr
    ensures Lookup(w, p + ("." + attr), base) ==
            match w.getattr(base, p) case None => None case Some(v) => w.getattr(v, attr)
  {
    hide FirstDot;
    var name := p + ("." + attr);
    FirstDotAt(p, "." + attr);
    CutAt(p, "." + attr, |p|);
    assert name[..|p|] == p && name[|p| + 1..] == attr;
  }

  lemma CutAt(p: string, q: string, d: nat)
    requires d <= |p| && q != ""
    ensures (p + q)[..d] == p[..d]
    ensures d < |p| ==> (p + q)[d + 1..] == p[d + 1..] + q
    ensures d == |p| ==> (p + q)[d + 1..] == q[1..]
    ensures p + q == p[..d] + (p[d..] + q)
  {
  }

  lemma {:induction false} FirstDotAt(p: string, q: string)
    requires '.' !in p && q != "" && q[0] == '.'
    ensures FirstDot(p + q) == |p|
  {
    if p == "" {
      assert p + q == q;
    } else {
      assert p == [p[0]] + p[1..];
      FirstDotAt(p[1..], q);
      assert (p + q)[1..] == p[1..] + q;
    }
  }

  lemma DotsOf(p: string, q: string)
    requires '.' in p && q != ""
    ensures FirstDot(p) < |p| && FirstDot(p + q) == FirstDot(p)
  {
    var d := FirstDot(p);
    FirstDotAt(p[..d], p[d..] + q);
    CutAt(p, q, d);
  }

  /** Looking up a longer dotted name is one more attribute access at the end. */
  lemma {:induction false} LookupSnoc<O>(w: World<O>, p: string, attr: string, base: O)
    requires '.' !in attr
    ensures Lookup(w, p + ("." + attr), base) ==
            match Lookup(w, p, base) case None => None case Some(v) => w.getattr(v, attr)
    decreases |p|
  {
    hide FirstDot;
    if '.' !in p {
      LookupDot(w, p, attr, base);
    } else {
      var d := FirstDot(p);
      DotsOf(p, "." + attr);
      CutAt(p, "." + attr, d);
      assert (p + ("." + attr))[d] == '.';
      match w.getattr(base, p[..d])
      case None =>
      case Some(v) => LookupSnoc(w, p[d + 1..], attr, v);
    }
  }

  lemma {:induction false} DottedLookup<O>(w: World<O>, a: Ann)
    requires Dotted(a)
    ensures Lookup(w, Print(a), w.module_) == Resolve(w, a)
  {
    match a
    case Name(id) =>
    case Attribute(v, attr) =>
      DottedLookup(w, v);
      LookupSnoc(w, Print(v), attr, w.module_);
  }

  // ------------------------------------------------------------------ annotations with blanks

  /** An annotation as written: each dotted name may have blanks before and after it. */
  datatype Layout =
    | Plain(before: string, name: Ann, after: string)
    | Applied(before: string, name: Ann, after: string, parts: seq<Layout>)

  predicate Blank(s: string) { forall i :: 0 <= i < |s| ==> IsBlank(s[i]) }

  predicate Legal(l: Layout)
    decreases l, 0
  {
    && Blank(l.before) && Dotted(l.name) && Blank(l.after)
    && (l.Applied? ==> l.parts != [] && AllLegal(l.parts))
  }

  predicate AllLegal(ls: seq<Layout>)
    decreases ls, 1
  {
    ls == [] || (Legal(ls[0]) && AllLegal(ls[1..]))
  }

  /** The annotation without its blanks. */
  function Erase(l: Layout): Ann
    decreases l, 0
  {
    match l
    case Plain(_, name, _) => name
    case Applied(_, name, _, parts) =>
      var elts := EraseAll(parts);
      Subscript(name, if |elts| == 1 then elts[0] else Tuple(elts))
  }

  function EraseAll(ls: seq<Layout>): (r: seq<Ann>)
    ensures |r| == |ls|
    decreases ls, 1
  {
    if ls == [] then [] else [Erase(ls[0])] + EraseAll(ls[1..])
  }

  /** A dotted name with its blanks. */
  function Head(l: Layout): string { l.before + Print(l.name) + l.after }

  /** The text as written. */
  function Show(l: Layout): string
    decreases l, 0
  {
    match l
    case Plain(_, _, _) => Head(l)
    case Applied(_, _, _, parts) => Head(l) + ("[" + (ShowAll(parts) + "]"))
  }

  function ShowAll(ls: seq<Layout>): string
    decreases ls, 1
  {
    if ls == [] then "" else if |ls| == 1 then Show(ls[0]) else Show(ls[0]) + ("," + ShowAll(ls[1..]))
  }

  lemma StripNothing(s: string)
    requires NoBlanks(s)
    ensures Strip(s) == s
  {
  }

  lemma {:induction false} StripLeftBlank(l: string, s: string)
    requires Blank(l)
    ensures StripLeft(l + s) == StripLeft(s)
    decreases |l|
  {
    if l == "" {
      assert l + s == s;
    } else {
      assert (l + s)[1..] == l[1..] + s;
      StripLeftBlank(l[1..], s);
    }
  }

  lemma {:induction false} StripRightBlank(s: string, r: string)
    requires Blank(r)
    ensures StripRight(s + r) == StripRight(s)
    decreases |r|
  {
    if r == "" {
      assert s + r == s;
    } else {
      assert (s + r)[..|s + r| - 1] == s + r[..|r| - 1];
      StripRightBlank(s, r[..|r| - 1]);
    }
  }

  /** Stripping leaves what stands between the blanks. */
  lemma StripAround(l: string, s: string, r: string)
    requires Blank(l) && Blank(r) && NoBlanks(s) && s != ""
    ensures Strip(l + s + r) == s
  {
    assert l + s + r == l + (s + r);
    StripLeftBlank(l, s + r);
    assert (s + r)[0] == s[0];
    StripRightBlank(s, r);
    StripNothing(s);
  }

  /** The head of a parse: the base is the dotted name without its blanks, found up to the first stop character. */
  lemma ParseHead<O>(w: World<O>, l: Layout, rest: string)
    requires Legal(l) && (rest == "" || IsStop(rest[0]))
    ensures var expr, head := Head(l) + rest, Head(l);
            && Scan(expr, 0) == |head|
            && expr[..|head|] == head != "()"
            && Lookup(w, Strip(head), w.module_) == Resolve(w, l.name)
  {
    hide Print, Lookup, Resolve, Dotted, Strip;
    var name := Print(l.name);
    DottedText(l.name);
    ScanText(Head(l), rest, 0);
    StripAround(l.before, name, l.after);
    DottedLookup(w, l.name);
    assert Head(l)[0] == (l.before + name)[0] != '(';
  }

  function Sized<O>(v: Option<O>, n: nat): Option<(O, nat)> {
    match v
    case None => None
    case Some(o) => Some((o, n))
  }

  predicate Ends(rest: string) { rest == "" || rest[0] == ',' || rest[0] == ']' }

  lemma {:induction false} EraseExpr(l: Layout)
    requires Legal(l)
    ensures Expr(Erase(l))
    decreases l, 0
  {
    if l.Applied? {
      EraseAllExpr(l.parts);
      if |l.parts| == 1 {
        EraseExpr(l.parts[0]);
      }
    }
  }

  lemma {:induction false} EraseAllExpr(ls: seq<Layout>)
    requires AllLegal(ls)
    ensures AllExpr(EraseAll(ls))
    decreases ls, 1
  {
    if ls != [] {
      EraseExpr(ls[0]);
      EraseAllExpr(ls[1..]);
      assert EraseAll(ls)[1..] == EraseAll(ls[1..]);
    }
  }

  lemma ParsePlain<O>(w: World<O>, l: Layout, rest: string)
    requires Legal(l) && l.Plain? && Ends(rest)
    ensures Parse(w, Show(l) + rest) == Sized(NotNone(w, Resolve(w, l.name)), |Show(l)|)
  {
    hide Print, Resolve;
    ParseHead(w, l, rest);
    var expr := Show(l) + rest;
    assert |Show(l)| < |expr| ==> expr[|Show(l)|] == rest[0];
  }

  /** Parsing an annotation as written, whatever legal text follows, gives its denotation and uses all of it. */
  lemma {:induction false} ParseShow<O>(w: World<O>, l: Layout, rest: string)
    requires Legal(l) && Ends(rest)
    ensures Expr(Erase(l))
    ensures Parse(w, Show(l) + rest) == Sized(Denote(w, Erase(l)), |Show(l)|)
    decreases l, 1
  {
    hide Parse, Show, Print, Resolve;
    EraseExpr(l);
    if l.Applied? {
      ParseApplied(w, l, rest);
    } else {
      ParsePlain(w, l, rest);
    }
  }

  lemma {:induction false} ParseApplied<O>(w: World<O>, l: Layout, rest: string)
    requires Legal(l) && l.Applied? && Ends(rest)
    ensures Expr(Erase(l))
    ensures Parse(w, Show(l) + rest) == Sized(Denote(w, Erase(l)), |Show(l)|)
    decreases l, 0
  {
    hide Parse, ParseParts, Scan, Lookup, Print, Head, ShowAll, Erase, EraseAll, Denote, DenoteAll, Strip, Resolve;
    var expr, i := Show(l) + rest, |Head(l)|;
    EraseExpr(l);
    EraseAllExpr(l.parts);
    AppliedLayout(l, rest);
    ParseHead(w, l, "[" + (ShowAll(l.parts) + ("]" + rest)));
    PartsShow(w, expr, i, l.parts, rest, []);
    SubscriptParts(w, l, rest);
  }

  lemma AppliedLayout(l: Layout, rest: string)
    requires l.Applied?
    ensures var expr, i := Show(l) + rest, |Head(l)|;
            && expr == Head(l) + ("[" + (ShowAll(l.parts) + ("]" + rest)))
            && i < |expr| && expr[i] == '[' && expr[i + 1..] == ShowAll(l.parts) + ("]" + rest)
            && |Show(l)| == i + |ShowAll(l.parts)| + 2
  {
    hide Head, ShowAll;
    TextAround(Head(l), ShowAll(l.parts), rest);
  }

  lemma TextAround(p: string, q: string, rest: string)
    ensures var expr := (p + ("[" + (q + "]"))) + rest;
            && expr == p + ("[" + (q + ("]" + rest)))
            && expr[|p|] == '[' && expr[|p| + 1..] == q + ("]" + rest)
  {
    var tail := "[" + (q + ("]" + rest));
    assert ("[" + (q + "]")) + rest == tail;
    assert (p + ("[" + (q + "]"))) + rest == p + tail;
  }

  /** The parts between the brackets, separated by commas. */
  lemma {:induction false} PartsShow<O>(w: World<O>, expr: string, i: nat, ls: seq<Layout>, rest: string, parts: seq<O>)
    requires ls != [] && AllLegal(ls)
    requires i < |expr| && expr[i] != ']' && expr[i + 1..] == ShowAll(ls) + ("]" + rest)
    ensures AllExpr(EraseAll(ls))
    ensures ParseParts(w, expr, i, parts) ==
            match DenoteAll(w, EraseAll(ls))
            case None => None
            case Some(vs) => Some((parts + vs, i + 1 + |ShowAll(ls)|))
    decreases ls, 1
  {
    hide Parse, ParseParts, Show, ShowAll, Erase, EraseAll, Denote, DenoteAll, After;
    var head, tail := ls[0], ls[1..];
    var after := After(tail, rest);
    var j := i + 1 + |Show(head)|;
    EraseAllExpr(ls);
    EraseAllExpr(tail);
    ListLayout(expr, i, ls, rest);
    ParseShow(w, head, after);
    PartsStep(w, expr, i, head, after, parts);
    if tail != [] && Denote(w, Erase(head)).Some? {
      PartsShow(w, expr, j, tail, rest, parts + [Denote(w, Erase(head)).value]);
    }
    PartsTogether(w, expr, i, ls, parts);
  }

  /** What follows the first of several parts. */
  function After(tail: seq<Layout>, rest: string): (r: string)
    ensures r != "" && r[0] == (if tail == [] then ']' else ',')
  {
    if tail == [] then "]" + rest else "," + (ShowAll(tail) + ("]" + rest))
  }

  lemma ListLayout(expr: string, i: nat, ls: seq<Layout>, rest: string)
    requires ls != [] && i < |expr| && expr[i + 1..] == ShowAll(ls) + ("]" + rest)
    ensures var head, tail := ls[0], ls[1..];
            var j := i + 1 + |Show(head)|;
            && expr[i + 1..] == Show(head) + After(tail, rest)
            && j < |expr| && expr[j] == After(tail, rest)[0]
            && (tail != [] ==> expr[j + 1..] == ShowAll(tail) + ("]" + rest))
            && |ShowAll(ls)| == |Show(head)| + (if tail == [] then 0 else 1 + |ShowAll(tail)|)
  {
    var head, tail := ls[0], ls[1..];
    var after := After(tail, rest);
    if tail == [] {
      assert ShowAll(ls) == Show(head);
    } else {
      assert ShowAll(ls) == Show(head) + ("," + ShowAll(tail));
      CommaAssociates(Show(head), ShowAll(tail), "]" + rest);
    }
    hide Show, ShowAll;
    SuffixAt(expr, i, Show(head), after);
  }

  lemma CommaAssociates(p: string, q: string, r: string)
    ensures (p + ("," + q)) + r == p + ("," + (q + r))
  {
  }

  lemma SuffixAt(expr: string, i: nat, p: string, after: string)
    requires i < |expr| && expr[i + 1..] == p + after && after != ""
    ensures i + 1 + |p| < |expr| && expr[i + 1 + |p|] == after[0] && expr[i + 2 + |p|..] == after[1..]
  {
    assert expr[i + 1..][|p|] == after[0];
    assert expr[i + 1..][|p| + 1..] == after[1..];
  }

  /** One turn of the loop over the parts. */
  lemma PartsStep<O>(w: World<O>, expr: string, i: nat, head: Layout, after: string, parts: seq<O>)
    requires Legal(head) && Expr(Erase(head)) && i + 1 + |Show(head)| <= |expr|
    requires expr[i] != ']' && expr[i + 1..] == Show(head) + after
    requires Parse(w, Show(head) + after) == Sized(Denote(w, Erase(head)), |Show(head)|)
    ensures ParseParts(w, expr, i, parts) ==
            match Denote(w, Erase(head))
            case None => None
            case Some(v) => ParseParts(w, expr, i + 1 + |Show(head)|, parts + [v])
  {
    hide Parse, Show, Denote, Erase;
  }

  /** The first part and the parsed rest make up the whole list. */
  lemma PartsTogether<O>(w: World<O>, expr: string, i: nat, ls: seq<Layout>, parts: seq<O>)
    requires ls != [] && AllLegal(ls) && AllExpr(EraseAll(ls)) && Expr(Erase(ls[0]))
    requires var head, tail := ls[0], ls[1..];
             var j := i + 1 + |Show(head)|;
             && j < |expr| && (tail == [] ==> expr[j] == ']')
             && |ShowAll(ls)| == |Show(head)| + (if tail == [] then 0 else 1 + |ShowAll(tail)|)
             && ParseParts(w, expr, i, parts) ==
                (match Denote(w, Erase(head)) case None => None case Some(v) => ParseParts(w, expr, j, parts + [v]))
             && (tail != [] ==> AllExpr(EraseAll(tail)))
             && (tail != [] && Denote(w, Erase(head)).Some? ==>
                   ParseParts(w, expr, j, parts + [Denote(w, Erase(head)).value]) ==
                   match DenoteAll(w, EraseAll(tail)) case None => None
                   case Some(vs) => Some((parts + [Denote(w, Erase(head)).value] + vs, j + 1 + |ShowAll(tail)|)))
    ensures ParseParts(w, expr, i, parts) ==
            match DenoteAll(w, EraseAll(ls))
            case None => None
            case Some(vs) => Some((parts + vs, i + 1 + |ShowAll(ls)|))
  {
    hide Show, ShowAll, Denote, Parse, Erase;
    var head, tail := ls[0], ls[1..];
    assert EraseAll(ls)[1..] == EraseAll(tail);
    if Denote(w, Erase(head)).Some? {
      var v := Denote(w, Erase(head)).value;
      if tail == [] {
        assert [v] + [] == [v];
      } else if DenoteAll(w, EraseAll(tail)).Some? {
        var vs := DenoteAll(w, EraseAll(tail)).value;
        assert parts + [v] + vs == parts + ([v] + vs);
      }
    }
  }

  /** A subscript denotes its name's object applied to the denotations of its parts, one or several. */
  lemma DenoteApplied<O>(w: World<O>, l: Layout)
    requires Legal(l) && l.Applied? && Expr(Erase(l)) && AllExpr(EraseAll(l.parts))
    ensures Denote(w, Erase(l)) ==
            match NotNone(w, Resolve(w, l.name))
            case None => None
            case Some(base) => SubscribeAll(w, base, DenoteAll(w, EraseAll(l.parts)))
  {
    hide Resolve;
    var elts := EraseAll(l.parts);
    if |elts| == 1 {
      assert elts[1..] == [];
      match Denote(w, elts[0])
      case None =>
      case Some(v) => assert [v] + [] == [v];
    }
  }

  lemma SubscriptParts<O>(w: World<O>, l: Layout, rest: string)
    requires Legal(l) && l.Applied? && Expr(Erase(l)) && AllExpr(EraseAll(l.parts))
    requires var expr, i := Show(l) + rest, |Head(l)|;
             && i < |expr| && expr[i] == '[' && Scan(expr, 0) == i && expr[..i] == Head(l) != "()"
             && |Show(l)| == i + |ShowAll(l.parts)| + 2
             && Lookup(w, Strip(Head(l)), w.module_) == Resolve(w, l.name)
             && ParseParts(w, expr, i, []) ==
                (match DenoteAll(w, EraseAll(l.parts)) case None => None
                 case Some(vs) => Some(([] + vs, i + 1 + |ShowAll(l.parts)|)))
    ensures Parse(w, Show(l) + rest) == Sized(Denote(w, Erase(l)), |Show(l)|)
  {
    hide Show, ShowAll, Head, Scan, Lookup, ParseParts, Strip, Resolve, Denote, DenoteAll, Erase;
    DenoteApplied(w, l);
    match DenoteAll(w, EraseAll(l.parts))
    case None =>
    case Some(vs) => assert [] + vs == vs;
  }

  /** The resolver on an annotation written with any blanks around its names gives exactly what the annotation
      denotes; a result means that the whole text was used. */
  lemma SpacedRoundTrip<O>(w: World<O>, l: Layout)
    requires Legal(l)
    ensures Expr(Erase(l)) && ParseExpr(w, Show(l)) == Denote(w, Erase(l))
  {
    ParseShow(w, l, "");
    assert Show(l) + "" == Show(l);
  }

  // ------------------------------------------------------------------ the printed text

  /** The printed text with a gap after each comma. */
  function PrintGap(a: Ann, gap: string): string
    decreases a, 0
  {
    match a
    case Name(id) => id
    case Attribute(v, attr) => Print(v) + ("." + attr)
    case Subscript(v, s) => Print(v) + ("[" + (PrintGap(s, gap) + "]"))
    case Tuple(elts) => PrintGapAll(elts, gap)
  }

  function PrintGapAll(elts: seq<Ann>, gap: string): string
    decreases elts, 1
  {
    if elts == [] then ""
    else if |elts| == 1 then PrintGap(elts[0], gap)
    else PrintGap(elts[0], gap) + ("," + (gap + PrintGapAll(elts[1..], gap)))
  }

  lemma {:induction false} NoGap(a: Ann)
    ensures PrintGap(a, "") == Print(a)
    decreases a, 0
  {
    match a
    case Subscript(v, s) => NoGap(s);
    case Tuple(elts) => NoGapAll(elts);
    case _ =>
  }

  lemma {:induction false} NoGapAll(elts: seq<Ann>)
    ensures PrintGapAll(elts, "") == PrintAll(elts)
    decreases elts, 1
  {
    if elts != [] {
      NoGap(elts[0]);
      NoGapAll(elts[1..]);
      assert "" + PrintAll(elts[1..]) == PrintAll(elts[1..]);
    }
  }

  /** The layout with blanks `before` the whole and `gap` after each comma. */
  function Gapped(a: Ann, before: string, gap: string): Layout
    requires Expr(a)
    decreases a, 0
  {
    if a.Subscript? then
      Applied(before, a.value, "", if a.slice.Tuple? then GappedAll(a.slice.elts, "", gap) else [Gapped(a.slice, "", gap)])
    else Plain(before, a, "")
  }

  function GappedAll(elts: seq<Ann>, before: string, gap: string): (r: seq<Layout>)
    requires AllExpr(elts)
    ensures |r| == |elts|
    decreases elts, 1
  {
    if elts == [] then [] else [Gapped(elts[0], before, gap)] + GappedAll(elts[1..], gap, gap)
  }

  lemma {:induction false} GappedShow(a: Ann, before: string, gap: string)
    requires Expr(a) && Blank(before) && Blank(gap)
    ensures Legal(Gapped(a, before, gap)) && Erase(Gapped(a, before, gap)) == a
    ensures Show(Gapped(a, before, gap)) == before + PrintGap(a, gap)
    decreases a, 0
  {
    var l := Gapped(a, before, gap);
    if a.Subscript? {
      if a.slice.Tuple? {
        GappedAllShow(a.slice.elts, "", gap);
      } else {
        GappedShow(a.slice, "", gap);
        assert l.parts[1..] == [] && EraseAll(l.parts) == [a.slice];
      }
      assert Head(l) == before + Print(a.value);
      assert ShowAll(l.parts) == PrintGap(a.slice, gap);
      JoinText(before, Print(a.value), "[" + (PrintGap(a.slice, gap) + "]"));
    } else {
      assert Head(l) == before + Print(a);
    }
  }

  lemma JoinText(p: string, q: string, r: string)
    ensures (p + q) + r == p + (q + r)
  {
  }

  lemma {:induction false} GappedAllShow(elts: seq<Ann>, before: string, gap: string)
    requires AllExpr(elts) && Blank(before) && Blank(gap)
    ensures AllLegal(GappedAll(elts, before, gap)) && EraseAll(GappedAll(elts, before, gap)) == elts
    ensures elts != [] ==> ShowAll(GappedAll(elts, before, gap)) == before + PrintGapAll(elts, gap)
    decreases elts, 1
  {
    if elts != [] {
      GappedShow(elts[0], before, gap);
      GappedAllShow(elts[1..], gap, gap);
      assert GappedAll(elts, before, gap)[1..] == GappedAll(elts[1..], gap, gap);
      assert elts == [elts[0]] + elts[1..];
      if |elts| > 1 {
        JoinText(before, PrintGap(elts[0], gap), "," + (gap + PrintGapAll(elts[1..], gap)));
      }
    }
  }

  /** Parsing the printed text of an annotation, whatever legal text follows, gives its denotation. */
  lemma ParsePrint<O>(w: World<O>, a: Ann, rest: string)
    requires Expr(a) && Ends(rest)
    ensures Parse(w, Print(a) + rest) == Sized(Denote(w, a), |Print(a)|)
  {
    hide Parse, Print, PrintGap, Show;
    GappedShow(a, "", "");
    NoGap(a);
    assert "" + Print(a) == Print(a);
    ParseShow(w, Gapped(a, "", ""), rest);
  }

  /** The resolver applied to the printed annotation gives exactly what the tree denotes. */
  lemma RoundTrip<O>(w: World<O>, a: Ann)
    requires Expr(a)
    ensures ParseExpr(w, Print(a)) == Denote(w, a)
  {
    ParsePrint(w, a, "");
    assert Print(a) + "" == Print(a);
  }

  /** The same for text with blanks after its commas, as in `Dict[str, int]`. */
  lemma GapRoundTrip<O>(w: World<O>, a: Ann, gap: string)
    requires Expr(a) && Blank(gap)
    ensures ParseExpr(w, PrintGap(a, gap)) == Denote(w, a)
  {
    hide PrintGap, Show, ParseExpr;
    GappedShow(a, "", gap);
    assert "" + PrintGap(a, gap) == PrintGap(a, gap);
    SpacedRoundTrip(w, Gapped(a, "", gap));
  }

  // ------------------------------------------------------------------ the empty tuple

  lemma ParseUnit<O>(w: World<O>)
    ensures Parse(w, "()]") == Some((w.emptyTuple, 2))
  {
    var expr := "()]";
    assert Scan(expr, 2) == 2;
    assert Scan(expr, 1) == 2;
    assert Scan(expr, 0) == 2;
    assert expr[..2] == "()";
  }

  /** As written, `name[()]` is the name's object applied to the empty tuple. */
  lemma EmptyTupleWritten<O>(w: World<O>, v: Ann)
    requires Dotted(v)
    ensures ParseExpr(w, Print(v) + "[()]") ==
            match NotNone(w, Resolve(w, v)) case None => None case Some(base) => w.subscript(base, w.emptyTuple)
  {
    hide Print, Resolve, Lookup, Strip, Dotted, Scan;
    var expr, i := Print(v) + "[()]", |Print(v)|;
    var head := Plain("", v, "");
    assert Head(head) == Print(v);
    ParseHead(w, head, "[()]");
    ParseUnit(w);
    assert expr[i] == '[' && expr[i + 1..] == "()]" && expr[i + 3] == ']' && |expr| == i + 4;
    assert [] + [w.emptyTuple] == [w.emptyTuple];
    assert ParseParts(w, expr, i + 3, [w.emptyTuple]) == Some(([w.emptyTuple], i + 3));
    assert ParseParts(w, expr, i, []) == Some(([w.emptyTuple], i + 3)) by { hide Parse; }
  }

  /** But the printer drops the parentheses, and the resolver then looks up the empty name. */
  lemma EmptyTuplePrinted<O>(w: World<O>, v: Ann)
    requires Dotted(v) && w.getattr(w.module_, "") == None
    ensures Print(Subscript(v, Tuple([]))) == Print(v) + "[]"
    ensures ParseExpr(w, Print(Subscript(v, Tuple([])))) == None
  {
    hide Resolve, Dotted, Scan;
    var expr, i := Print(v) + "[]", |Print(v)|;
    assert Print(Subscript(v, Tuple([]))) == expr;
    var head := Plain("", v, "");
    assert Head(head) == Print(v);
    ParseHead(w, head, "[]");
    ParseNothing(w);
    assert expr[i] == '[' && expr[i + 1..] == "]";
    assert ParseParts(w, expr, i, []) == None by { hide Parse; }
  }

  lemma ParseNothing<O>(w: World<O>)
    requires w.getattr(w.module_, "") == None
    ensures Parse(w, "]") == None
  {
    var expr := "]";
    assert Scan(expr, 0) == 0 && expr[..0] == "";
    assert Strip("") == "" && Lookup(w, "", w.module_) == None;
  }

  // ------------------------------------------------------------------ the printed text is unambiguous

  /** Objects that remember how they were reached. */
  datatype Path = Root | Attr(base: Path, name: string) | Item(base: Path, part: Path)
                | Items(base: Path, parts: seq<Path>) | NoneObject | EmptyTuple

  function Free(): World<Path> {
    World(Root, NoneObject, EmptyTuple,
          (o, n) => Some(Attr(o, n)), (o, x) => Some(Item(o, x)), (o, xs) => Some(Items(o, xs)))
  }

  function Embed(a: Ann): Path
    decreases a, 0
  {
    match a
    case Name(id) => Attr(Root, id)
    case Attribute(v, attr) => Attr(Embed(v), attr)
    case Subscript(v, s) => if s.Tuple? then Items(Embed(v), EmbedAll(s.elts)) else Item(Embed(v), Embed(s))
    case Tuple(_) => EmptyTuple
  }

  function EmbedAll(elts: seq<Ann>): (r: seq<Path>)
    ensures |r| == |elts|
    decreases elts, 1
  {
    if elts == [] then [] else [Embed(elts[0])] + EmbedAll(elts[1..])
  }

  lemma {:induction false} ResolveFree(a: Ann)
    requires Dotted(a)
    ensures Resolve(Free(), a) == Some(Embed(a)) && Embed(a).Attr?
  {
    if a.Attribute? {
      ResolveFree(a.value);
    }
  }

  lemma {:induction false} DenoteFree(a: Ann)
    requires Expr(a)
    ensures Denote(Free(), a) == Some(Embed(a))
    decreases a, 0
  {
    match a
    case Name(_) => ResolveFree(a);
    case Attribute(_, _) => ResolveFree(a);
    case Subscript(v, s) =>
      ResolveFree(v);
      if s.Tuple? { DenoteAllFree(s.elts); } else { DenoteFree(s); }
  }

  lemma {:induction false} DenoteAllFree(elts: seq<Ann>)
    requires AllExpr(elts)
    ensures DenoteAll(Free(), elts) == Some(EmbedAll(elts))
    decreases elts, 1
  {
    if elts != [] {
      DenoteFree(elts[0]);
      DenoteAllFree(elts[1..]);
    }
  }

  lemma {:induction false} EmbedDotted(a: Ann, b: Ann)
    requires Dotted(a) && Dotted(b) && Embed(a) == Embed(b)
    ensures a == b
  {
    if a.Attribute? && b.Attribute? {
      EmbedDotted(a.value, b.value);
    } else if a.Attribute? {
      ResolveFree(a.value);
    } else if b.Attribute? {
      ResolveFree(b.value);
    }
  }

  lemma {:induction false} EmbedInjective(a: Ann, b: Ann)
    requires Expr(a) && Expr(b) && Embed(a) == Embed(b)
    ensures a == b
    decreases a, 0
  {
    if a.Subscript? {
      assert b.Subscript?;
      EmbedDotted(a.value, b.value);
      if a.slice.Tuple? {
        EmbedAllInjective(a.slice.elts, b.slice.elts);
      } else {
        EmbedInjective(a.slice, b.slice);
      }
    } else {
      EmbedDotted(a, b);
    }
  }

  lemma {:induction false} EmbedAllInjective(xs: seq<Ann>, ys: seq<Ann>)
    requires AllExpr(xs) && AllExpr(ys) && EmbedAll(xs) == EmbedAll(ys)
    ensures xs == ys
    decreases xs, 1
  {
    if xs != [] {
      assert EmbedAll(xs)[0] == EmbedAll(ys)[0];
      assert EmbedAll(xs)[1..] == EmbedAll(ys)[1..];
      EmbedInjective(xs[0], ys[0]);
      EmbedAllInjective(xs[1..], ys[1..]);
      assert xs == [xs[0]] + xs[1..] && ys == [ys[0]] + ys[1..];
    }
  }

  /** Two annotations with the same printed text are the same annotation. */
  lemma PrintInjective(a: Ann, b: Ann)
    requires Expr(a) && Expr(b) && Print(a) == Print(b)
    ensures a == b
  {
    hide Print, Embed, ParseExpr;
    RoundTrip(Free(), a);
    RoundTrip(Free(), b);
    DenoteFree(a);
    DenoteFree(b);
    EmbedInjective(a, b);
  }
}
