/**
 Grouping tensors into size-limited chunks of one type (`_take_tensors`) and undoing the
 regrouping (`_reorder_tensors_as`).
 */
module Bucketing {
  import opened Wrappers
  import opened Sums

  /** The name returned by `Tensor.type()`. */
  datatype TypeName = TypeName(name: string)

  datatype Tensor =
    | Dense(typ: TypeName, numel: nat, elementSize: nat, payload: int)
    | Sparse(typ: TypeName, indices: nat, indexSize: nat, values: nat, valueSize: nat, payload: int)

  function Size(t: Tensor): nat {
    match t
    case Dense(_, n, e, _) => n * e
    case Sparse(_, i, ie, v, ve, _) => i * ie + v * ve
  }

  /** The bytes of each stored element; a sparse tensor stores its indices and its values. */
  function Stored(t: Tensor): seq<nat> {
    match t
    case Dense(_, n, e, _) => seq(n, _ => e)
    case Sparse(_, i, ie, v, ve, _) => seq(i, _ => ie) + seq(v, _ => ve)
  }

  function Bytes(elementSize: nat): nat { elementSize }

  lemma {:induction false} SumSame(n: nat, e: nat)
    ensures Sum<nat>(Bytes, seq(n, _ => e)) == n * e
  {
    if n > 0 {
      assert seq(n, _ => e)[1..] == seq(n - 1, _ => e);
      SumSame(n - 1, e);
    }
  }

  /** The size of a tensor is the number of bytes of all its stored elements. */
  lemma SizeIsBytes(t: Tensor)
    ensures Size(t) == Sum<nat>(Bytes, Stored(t))
  {
    match t
    case Dense(_, n, e, _) => SumSame(n, e);
    case Sparse(_, i, ie, v, ve, _) =>
      SumSame(i, ie);
      SumSame(v, ve);
      SumConcat<nat>(Bytes, seq(i, _ => ie), seq(v, _ => ve));
  }

  type Chunk = seq<Tensor>

  function Total(c: Chunk): nat {
    if c == [] then 0 else Total(c[..|c| - 1]) + Size(c[|c| - 1])
  }

  function OfType(ts: seq<Tensor>, t: TypeName): seq<Tensor> {
    if ts == [] then []
    else OfType(ts[..|ts| - 1], t) + (if ts[|ts| - 1].typ == t then [ts[|ts| - 1]] else [])
  }

  function Flatten(cs: seq<Chunk>): seq<Tensor> {
    if cs == [] then [] else Flatten(cs[..|cs| - 1]) + cs[|cs| - 1]
  }

  /** The chunks that hold tensors of type `t`. */
  function ChunksOf(cs: seq<Chunk>, t: TypeName): seq<Chunk> {
    if cs == [] then []
    else
      var last := cs[|cs| - 1];
      ChunksOf(cs[..|cs| - 1], t) + (if last != [] && last[0].typ == t then [last] else [])
  }

  predicate OneType(c: Chunk) {
    c != [] && forall i :: 0 <= i < |c| ==> c[i].typ == c[0].typ
  }

  // ------------------------------------------------------------------ greedy packing of one type

  datatype Packing = Packing(closed: seq<Chunk>, open: Chunk)

  /** The test of `_take_tensors`: the open buffer is yielded before `x` is added. */
  predicate Overflows(open: Chunk, x: Tensor, limit: int) {
    Total(open) + Size(x) > limit && Total(open) > 0
  }

  /** The packing after one more tensor. */
  function Fed(p: Packing, x: Tensor, limit: int): Packing {
    if Overflows(p.open, x, limit) then Packing(p.closed + [p.open], [x]) else Packing(p.closed, p.open + [x])
  }

  function Pack(ts: seq<Tensor>, limit: int): Packing {
    if ts == [] then Packing([], []) else Fed(Pack(ts[..|ts| - 1], limit), ts[|ts| - 1], limit)
  }

  function Chunks(ts: seq<Tensor>, limit: int): seq<Chunk> {
    var p := Pack(ts, limit);
    p.closed + (if p.open == [] then [] else [p.open])
  }

  // ------------------------------------------------------------------ the two functions of the source

  datatype Bucket = Bucket(items: Chunk, size: int)

  /** What `_take_tensors` promises about its yields. */
  ghost predicate Grouped(chunks: seq<Chunk>, tensors: seq<Tensor>, limit: int) {
    && (forall k :: 0 <= k < |chunks| ==> OneType(chunks[k]))
    && (forall t: TypeName :: ChunksOf(chunks, t) == Chunks(OfType(tensors, t), limit))
  }

  lemma TotalSnoc(c: Chunk, x: Tensor)
    ensures Total(c + [x]) == Total(c) + Size(x)
  {
    assert (c + [x])[..|c|] == c;
  }

  lemma OfTypeSnoc(ts: seq<Tensor>, x: Tensor, t: TypeName)
    ensures OfType(ts + [x], t) == OfType(ts, t) + (if x.typ == t then [x] else [])
  {
    assert (ts + [x])[..|ts|] == ts;
  }

  lemma ChunksOfSnoc(cs: seq<Chunk>, c: Chunk, t: TypeName)
    ensures ChunksOf(cs + [c], t) == ChunksOf(cs, t) + (if c != [] && c[0].typ == t then [c] else [])
  {
    assert (cs + [c])[..|cs|] == cs;
  }

  lemma PackSnoc(ts: seq<Tensor>, x: Tensor, limit: int)
    ensures Pack(ts + [x], limit) == Fed(Pack(ts, limit), x, limit)
  {
    assert (ts + [x])[..|ts|] == ts;
  }

  lemma {:induction false} OpenNonempty(ts: seq<Tensor>, limit: int)
    ensures Pack(ts, limit).open == [] <==> ts == []
  {
  }

  ghost predicate BucketOk(b: Bucket, t: TypeName, seen: seq<Tensor>, limit: int) {
    && b.items == Pack(OfType(seen, t), limit).open
    && b.size == Total(b.items)
    && OneType(b.items) && b.items[0].typ == t
  }

  /** What the dictionary and the yields say about one type, after the tensors `seen`. */
  ghost predicate TypeOk(dict: map<TypeName, Bucket>, chunks: seq<Chunk>, seen: seq<Tensor>, limit: int, t: TypeName) {
    && (t in dict <==> OfType(seen, t) != [])
    && (t in dict ==> BucketOk(dict[t], t, seen, limit))
    && ChunksOf(chunks, t) == Pack(OfType(seen, t), limit).closed
  }

  /** The keys of the dictionary in insertion order. */
  ghost predicate OrderOk(dict: map<TypeName, Bucket>, order: seq<TypeName>) {
    && (forall t: TypeName :: t in order <==> t in dict)
    && (forall i, j :: 0 <= i < j < |order| ==> order[i] != order[j])
  }

  ghost predicate Open(dict: map<TypeName, Bucket>, order: seq<TypeName>, chunks: seq<Chunk>, seen: seq<Tensor>, limit: int) {
    && OrderOk(dict, order)
    && (forall t: TypeName :: TypeOk(dict, chunks, seen, limit, t))
    && (forall k :: 0 <= k < |chunks| ==> OneType(chunks[k]))
  }

  /** `_take_tensors`; the yields are collected in order. */
  method TakeTensors(tensors: seq<Tensor>, limit: int) returns (chunks: seq<Chunk>)
    ensures Grouped(chunks, tensors, limit)
  {
    chunks := [];
    var dict: map<TypeName, Bucket> := map[];
    var order: seq<TypeName> := [];
    for i := 0 to |tensors|
      invariant Open(dict, order, chunks, tensors[..i], limit)
    {
      hide OrderOk, TypeOk;
      assert tensors[..i + 1] == tensors[..i] + [tensors[i]];
      dict, order, chunks := AddTensor(dict, order, chunks, tensors[i], limit, tensors[..i]);
    }
    assert tensors[..|tensors|] == tensors;
    chunks := FlushBuckets(dict, order, chunks, tensors, limit);
  }

  /** One turn of the loop over tensors. */
  method AddTensor(dict: map<TypeName, Bucket>, order: seq<TypeName>, chunks: seq<Chunk>, x: Tensor, limit: int,
                   ghost seen: seq<Tensor>)
    returns (dict': map<TypeName, Bucket>, order': seq<TypeName>, chunks': seq<Chunk>)
    requires Open(dict, order, chunks, seen, limit)
    ensures Open(dict', order', chunks', seen + [x], limit)
  {
    hide TypeOk, OrderOk, OneType, Size;
    var t := x.typ;
    dict', order', chunks' := dict, order, chunks;
    if t !in dict' {
      dict' := dict'[t := Bucket([], 0)];
      order' := order' + [t];
    }
    var b := dict'[t];
    var full := b.size + Size(x) > limit && b.size > 0;
    if full {
      chunks' := chunks' + [b.items];
      b := Bucket([], 0);
    }
    b := Bucket(b.items + [x], b.size + Size(x));
    dict' := dict'[t := b];
    assert dict' == dict[t := b];
    assert b == Refilled(BucketFor(dict, t), x, limit);
    assert chunks' == Yielded(BucketFor(dict, t), chunks, x, limit);
    assert TypeOk(dict, chunks, seen, limit, t);
    AddOrder(dict, order, t, b);
    AddChunks(dict, chunks, x, limit, seen);
    forall u: TypeName ensures TypeOk(dict', chunks', seen + [x], limit, u) {
      assert TypeOk(dict, chunks, seen, limit, u);
      if u == t {
        AddSameType(dict, chunks, x, limit, seen);
      } else {
        AddOtherType(dict, chunks, x, limit, seen, u, b);
      }
    }
  }

  function BucketFor(dict: map<TypeName, Bucket>, t: TypeName): Bucket {
    if t in dict then dict[t] else Bucket([], 0)
  }

  predicate Full(b: Bucket, x: Tensor, limit: int) {
    b.size + Size(x) > limit && b.size > 0
  }

  function Yielded(b: Bucket, chunks: seq<Chunk>, x: Tensor, limit: int): seq<Chunk> {
    if Full(b, x, limit) then chunks + [b.items] else chunks
  }

  function Refilled(b: Bucket, x: Tensor, limit: int): Bucket {
    if Full(b, x, limit) then Bucket([] + [x], 0 + Size(x)) else Bucket(b.items + [x], b.size + Size(x))
  }

  lemma AddOrder(dict: map<TypeName, Bucket>, order: seq<TypeName>, t: TypeName, b: Bucket)
    requires OrderOk(dict, order)
    ensures OrderOk(dict[t := b], if t in dict then order else order + [t])
  {
  }

  lemma AddChunks(dict: map<TypeName, Bucket>, chunks: seq<Chunk>, x: Tensor, limit: int, seen: seq<Tensor>)
    requires TypeOk(dict, chunks, seen, limit, x.typ)
    requires forall k :: 0 <= k < |chunks| ==> OneType(chunks[k])
    ensures var out := Yielded(BucketFor(dict, x.typ), chunks, x, limit);
            forall k :: 0 <= k < |out| ==> OneType(out[k])
  {
  }

  lemma AddSameType(dict: map<TypeName, Bucket>, chunks: seq<Chunk>, x: Tensor, limit: int, seen: seq<Tensor>)
    requires TypeOk(dict, chunks, seen, limit, x.typ)
    ensures var b := BucketFor(dict, x.typ);
            TypeOk(dict[x.typ := Refilled(b, x, limit)], Yielded(b, chunks, x, limit), seen + [x], limit, x.typ)
  {
    hide OfType, Pack, ChunksOf, Total, Size;
    var t, b := x.typ, BucketFor(dict, x.typ);
    OfTypeSnoc(seen, x, t);
    PackSnoc(OfType(seen, t), x, limit);
    OpenNonempty(OfType(seen, t), limit);
    ChunksOfSnoc(chunks, b.items, t);
    TotalSnoc([], x);
    TotalSnoc(b.items, x);
    TotalNone();
    assert b.items == Pack(OfType(seen, t), limit).open;
  }

  lemma TotalNone()
    ensures Total([]) == 0
  {
  }

  lemma AddOtherType(dict: map<TypeName, Bucket>, chunks: seq<Chunk>, x: Tensor, limit: int, seen: seq<Tensor>,
                     u: TypeName, b': Bucket)
    requires u != x.typ && TypeOk(dict, chunks, seen, limit, u) && TypeOk(dict, chunks, seen, limit, x.typ)
    ensures TypeOk(dict[x.typ := b'], Yielded(BucketFor(dict, x.typ), chunks, x, limit), seen + [x], limit, u)
  {
    hide OfType, Pack, ChunksOf, Total, Size;
    OfTypeSnoc(seen, x, u);
    ChunksOfSnoc(chunks, BucketFor(dict, x.typ).items, u);
    assert OfType(seen, u) + [] == OfType(seen, u);
    assert ChunksOf(chunks, u) + [] == ChunksOf(chunks, u);
  }

  /** The final loop over the dictionary, in insertion order. */
  method FlushBuckets(dict: map<TypeName, Bucket>, order: seq<TypeName>, chunks: seq<Chunk>,
                      ghost tensors: seq<Tensor>, limit: int)
    returns (out: seq<Chunk>)
    requires Open(dict, order, chunks, tensors, limit)
    ensures Grouped(out, tensors, limit)
  {
    out := chunks;
    forall t: TypeName ensures Flushed(out, tensors, limit, [], t) {
      assert TypeOk(dict, chunks, tensors, limit, t);
    }
    assert order[..0] == [];
    for k := 0 to |order|
      invariant forall j :: 0 <= j < |out| ==> OneType(out[j])
      invariant forall t: TypeName :: Flushed(out, tensors, limit, order[..k], t)
    {
      var b := dict[order[k]];
      assert TypeOk(dict, chunks, tensors, limit, order[k]);
      if |b.items| > 0 {
        var next := out + [b.items];
        ghost var done := order[..k + 1];
        forall t: TypeName ensures Flushed(next, tensors, limit, done, t) {
          assert Flushed(out, tensors, limit, order[..k], t);
          FlushOne(out, tensors, limit, order, k, b, t);
        }
        out := next;
      }
    }
    assert order[..|order|] == order;
    forall t: TypeName ensures ChunksOf(out, t) == Chunks(OfType(tensors, t), limit) {
      assert Flushed(out, tensors, limit, order, t);
      assert TypeOk(dict, chunks, tensors, limit, t);
    }
  }

  ghost predicate Flushed(out: seq<Chunk>, tensors: seq<Tensor>, limit: int, flushed: seq<TypeName>, t: TypeName) {
    ChunksOf(out, t) ==
    (if t in flushed then Chunks(OfType(tensors, t), limit) else Pack(OfType(tensors, t), limit).closed)
  }

  lemma FlushOne(out: seq<Chunk>, tensors: seq<Tensor>, limit: int, order: seq<TypeName>, k: nat, b: Bucket, t: TypeName)
    requires k < |order| && (forall i, j :: 0 <= i < j < |order| ==> order[i] != order[j])
    requires BucketOk(b, order[k], tensors, limit)
    requires Flushed(out, tensors, limit, order[..k], t)
    ensures Flushed(out + [b.items], tensors, limit, order[..k + 1], t)
  {
    hide OfType, Pack, ChunksOf, Total;
    ChunksOfSnoc(out, b.items, t);
    assert order[..k + 1] == order[..k] + [order[k]];
  }

  // ------------------------------------------------------------------ what a chunk looks like

  /** A chunk within the limit, or zero-size tensors followed by exactly one tensor that is over it. */
  predicate Admissible(c: Chunk, limit: int) {
    && c != []
    && (Total(c) <= limit || (Total(c[..|c| - 1]) == 0 && Size(c[|c| - 1]) > limit))
  }

  lemma {:induction false} PackAdmissible(ts: seq<Tensor>, limit: int)
    ensures var p := Pack(ts, limit);
            && (forall k :: 0 <= k < |p.closed| ==> Admissible(p.closed[k], limit))
            && (p.open != [] ==> Admissible(p.open, limit))
  {
    if ts != [] {
      var front, x := ts[..|ts| - 1], ts[|ts| - 1];
      PackAdmissible(front, limit);
      var p := Pack(front, limit);
      TotalSnoc([], x);
      TotalSnoc(p.open, x);
      assert ([] + [x])[..0] == [];
      assert (p.open + [x])[..|p.open|] == p.open;
    }
  }

  /** Each yielded chunk has one type and is admissible for the limit. */
  lemma ChunkShape(chunks: seq<Chunk>, tensors: seq<Tensor>, limit: int, k: nat)
    requires Grouped(chunks, tensors, limit) && k < |chunks|
    ensures OneType(chunks[k]) && Admissible(chunks[k], limit)
  {
    var t := chunks[k][0].typ;
    PackAdmissible(OfType(tensors, t), limit);
    ChunksOfMember(chunks, k, t);
    var j :| 0 <= j < |ChunksOf(chunks, t)| && ChunksOf(chunks, t)[j] == chunks[k];
    assert ChunksOf(chunks, t) == Chunks(OfType(tensors, t), limit);
  }

  lemma {:induction false} ChunksOfMember(cs: seq<Chunk>, k: nat, t: TypeName)
    requires k < |cs| && cs[k] != [] && cs[k][0].typ == t
    ensures exists j :: 0 <= j < |ChunksOf(cs, t)| && ChunksOf(cs, t)[j] == cs[k]
  {
    if k == |cs| - 1 {
      assert ChunksOf(cs, t)[|ChunksOf(cs, t)| - 1] == cs[k];
    } else {
      ChunksOfMember(cs[..|cs| - 1], k, t);
      var front := ChunksOf(cs[..|cs| - 1], t);
      var j :| 0 <= j < |front| && front[j] == cs[k];
      assert ChunksOf(cs, t)[j] == cs[k];
    }
  }

  // ------------------------------------------------------------------ no grouping is shorter

  lemma FlattenSnoc(cs: seq<Chunk>, c: Chunk)
    ensures Flatten(cs + [c]) == Flatten(cs) + c
  {
    assert (cs + [c])[..|cs|] == cs;
  }

  lemma {:induction false} PackFlattens(ts: seq<Tensor>, limit: int)
    ensures Flatten(Pack(ts, limit).closed) + Pack(ts, limit).open == ts
  {
    if ts != [] {
      var front, x := ts[..|ts| - 1], ts[|ts| - 1];
      PackFlattens(front, limit);
      FedFlattens(Pack(front, limit), front, x, limit);
      assert ts == front + [x];
    }
  }

  lemma FedFlattens(p: Packing, front: seq<Tensor>, x: Tensor, limit: int)
    requires Flatten(p.closed) + p.open == front
    ensures Flatten(Fed(p, x, limit).closed) + Fed(p, x, limit).open == front + [x]
  {
    hide Flatten, Overflows;
    if Overflows(p.open, x, limit) {
      FlattenSnoc(p.closed, p.open);
    } else {
      assert Flatten(p.closed) + (p.open + [x]) == (Flatten(p.closed) + p.open) + [x];
    }
  }

  lemma ChunksFlatten(ts: seq<Tensor>, limit: int)
    ensures Flatten(Chunks(ts, limit)) == ts
  {
    PackFlattens(ts, limit);
    var p := Pack(ts, limit);
    if p.open != [] {
      FlattenSnoc(p.closed, p.open);
    } else {
      assert p.closed + [] == p.closed;
    }
  }

  lemma {:induction false} TotalPrefix(c: Chunk, n: nat)
    requires n <= |c|
    ensures Total(c[..n]) <= Total(c)
  {
    if n == |c| {
      assert c[..n] == c;
    } else {
      TotalPrefix(c[..|c| - 1], n);
      assert c[..|c| - 1][..n] == c[..n];
    }
  }

  lemma {:induction false} TotalConcat(c: Chunk, d: Chunk)
    ensures Total(c + d) == Total(c) + Total(d)
  {
    if d == [] {
      assert c + d == c;
    } else {
      TotalConcat(c, d[..|d| - 1]);
      assert (c + d)[..|c + d| - 1] == c + d[..|d| - 1];
    }
  }

  /** Inside an admissible chunk the greedy packer never closes a buffer that it opened there. */
  lemma InsideChunk(c: Chunk, j: nat, n: nat, limit: int)
    requires Admissible(c, limit) && j <= n < |c|
    ensures !Overflows(c[j..n], c[n], limit)
  {
    var front := c[..|c| - 1];
    assert c[..n + 1] == c[..j] + c[j..n + 1];
    TotalConcat(c[..j], c[j..n + 1]);
    TotalPrefix(c, n + 1);
    assert c[j..n + 1][..n - j] == c[j..n];
    assert front[..n] == front[..j] + c[j..n];
    TotalConcat(front[..j], c[j..n]);
    TotalPrefix(front, n);
  }

  /** The packer went from `p` to `q` over the first `n` tensors of `c` without closing a buffer ... */
  predicate Kept(p: Packing, q: Packing, c: Chunk, n: nat)
    requires n <= |c|
  {
    |q.closed| == |p.closed| && q.open == p.open + c[..n]
  }

  /** ... or it closed one, so that the open buffer now starts inside `c`. */
  ghost predicate Reopened(p: Packing, q: Packing, c: Chunk, n: nat)
    requires n <= |c|
  {
    p.open != [] && |q.closed| == |p.closed| + 1 && exists j :: 0 <= j < n && q.open == c[j..n]
  }

  lemma FeedKept(p: Packing, r: Packing, c: Chunk, m: nat, limit: int)
    requires Admissible(c, limit) && m < |c| && Kept(p, r, c, m)
    ensures Kept(p, Fed(r, c[m], limit), c, m + 1) || Reopened(p, Fed(r, c[m], limit), c, m + 1)
  {
    hide Overflows, Admissible;
    if p.open == [] {
      assert r.open == c[0..m];
      InsideChunk(c, 0, m, limit);
    }
    assert [c[m]] == c[m..m + 1];
    assert r.open + [c[m]] == p.open + c[..m + 1];
  }

  lemma FeedReopened(p: Packing, r: Packing, c: Chunk, m: nat, limit: int)
    requires Admissible(c, limit) && m < |c| && Reopened(p, r, c, m)
    ensures Reopened(p, Fed(r, c[m], limit), c, m + 1)
  {
    hide Overflows, Admissible;
    var j :| 0 <= j < m && r.open == c[j..m];
    InsideChunk(c, j, m, limit);
    assert r.open + [c[m]] == c[j..m + 1];
  }

  /** Feeding one admissible chunk to the packer closes at most one buffer, and none when it starts empty. */
  lemma {:induction false} FeedChunk(ts: seq<Tensor>, c: Chunk, n: nat, limit: int)
    requires Admissible(c, limit) && n <= |c|
    ensures Kept(Pack(ts, limit), Pack(ts + c[..n], limit), c, n)
            || Reopened(Pack(ts, limit), Pack(ts + c[..n], limit), c, n)
  {
    hide Overflows, Admissible;
    if n == 0 {
      assert ts + c[..0] == ts;
    } else {
      var m := n - 1;
      FeedChunk(ts, c, m, limit);
      assert ts + c[..n] == (ts + c[..m]) + [c[m]];
      PackSnoc(ts + c[..m], c[m], limit);
      var p, r := Pack(ts, limit), Pack(ts + c[..m], limit);
      if Kept(p, r, c, m) {
        FeedKept(p, r, c, m, limit);
      } else {
        FeedReopened(p, r, c, m, limit);
      }
    }
  }

  /** No way of cutting the tensors of a type into admissible consecutive pieces needs fewer pieces. */
  lemma {:induction false} GreedyIsOptimal(cut: seq<Chunk>, limit: int)
    requires forall k :: 0 <= k < |cut| ==> Admissible(cut[k], limit)
    ensures |Chunks(Flatten(cut), limit)| <= |cut|
  {
    if cut != [] {
      var front, c := cut[..|cut| - 1], cut[|cut| - 1];
      GreedyIsOptimal(front, limit);
      FeedChunk(Flatten(front), c, |c|, limit);
      assert c[..|c|] == c;
      OpenNonempty(Flatten(front), limit);
      OpenNonempty(Flatten(cut), limit);
    }
  }

  /** When every tensor fits the limit, the yields of each type are as few as any consecutive
      grouping of that type within the limit. */
  lemma MinimalWithinLimit(chunks: seq<Chunk>, tensors: seq<Tensor>, limit: int, t: TypeName, cut: seq<Chunk>)
    requires Grouped(chunks, tensors, limit)
    requires Flatten(cut) == OfType(tensors, t)
    requires forall k :: 0 <= k < |cut| ==> cut[k] != [] && Total(cut[k]) <= limit
    ensures |ChunksOf(chunks, t)| <= |cut|
  {
    GreedyIsOptimal(cut, limit);
  }

  // ------------------------------------------------------------------ undoing the regrouping

  datatype ReorderError = MissingType | Exhausted

  /** The position of `ref[i]` among the tensors of its type. */
  function Rank(ref: seq<Tensor>, i: nat): nat
    requires i < |ref|
  {
    |OfType(ref[..i], ref[i].typ)|
  }

  /** Whether the i-th `next` finds a tensor. */
  predicate Served(tensors: seq<Tensor>, ref: seq<Tensor>, i: nat)
    requires i < |ref|
  {
    Rank(ref, i) < |OfType(tensors, ref[i].typ)|
  }

  /** `x` is what the i-th `next` yields. */
  predicate Serves(x: Tensor, tensors: seq<Tensor>, ref: seq<Tensor>, i: nat)
    requires i < |ref|
  {
    Served(tensors, ref, i) && x == OfType(tensors, ref[i].typ)[Rank(ref, i)]
  }

  predicate FirstUnserved(tensors: seq<Tensor>, ref: seq<Tensor>, i: nat, e: ReorderError) {
    && i < |ref| && !Served(tensors, ref, i)
    && (forall j :: 0 <= j < i ==> Served(tensors, ref, j))
    && (e.MissingType? <==> OfType(tensors, ref[i].typ) == [])
  }

  /** `_reorder_tensors_as`.  A type that never occurs raises KeyError; the StopIteration of an iterator that runs
      dry becomes a RuntimeError on its way out of the generator. */
  method ReorderTensorsAs(tensors: seq<Tensor>, ref: seq<Tensor>) returns (r: Result<seq<Tensor>, ReorderError>)
    ensures r.Ok? <==> forall i :: 0 <= i < |ref| ==> Served(tensors, ref, i)
    ensures r.Ok? ==> |r.value| == |ref| && forall i :: 0 <= i < |ref| ==> Serves(r.value[i], tensors, ref, i)
    ensures r.Err? ==> exists i :: FirstUnserved(tensors, ref, i, r.error)
  {
    var typeDict: map<TypeName, seq<Tensor>> := map[];
    for i := 0 to |tensors|
      invariant forall t: TypeName :: t in typeDict <==> OfType(tensors[..i], t) != []
      invariant forall t: TypeName :: t in typeDict ==> typeDict[t] == OfType(tensors[..i], t)
    {
      var x := tensors[i];
      assert tensors[..i + 1] == tensors[..i] + [x];
      forall t: TypeName
        ensures OfType(tensors[..i + 1], t) == OfType(tensors[..i], t) + (if x.typ == t then [x] else [])
      {
        OfTypeSnoc(tensors[..i], x, t);
      }
      var was := if x.typ in typeDict then typeDict[x.typ] else [];
      typeDict := typeDict[x.typ := was + [x]];
    }
    assert tensors[..|tensors|] == tensors;
    r := Drain(typeDict, tensors, ref);
  }

  /** The generator that takes the next tensor of each reference's type. */
  method Drain(typeDict: map<TypeName, seq<Tensor>>, ghost tensors: seq<Tensor>, ref: seq<Tensor>)
    returns (r: Result<seq<Tensor>, ReorderError>)
    requires forall t: TypeName :: t in typeDict <==> OfType(tensors, t) != []
    requires forall t: TypeName :: t in typeDict ==> typeDict[t] == OfType(tensors, t)
    ensures r.Ok? <==> forall i :: 0 <= i < |ref| ==> Served(tensors, ref, i)
    ensures r.Ok? ==> |r.value| == |ref| && forall i :: 0 <= i < |ref| ==> Serves(r.value[i], tensors, ref, i)
    ensures r.Err? ==> exists i :: FirstUnserved(tensors, ref, i, r.error)
  {
    hide OfType;
    var taken: map<TypeName, nat> := map t | t in typeDict :: 0;
    var out: seq<Tensor> := [];
    OfTypeNone();
    assert ref[..0] == [];
    for i := 0 to |ref|
      invariant taken.Keys == typeDict.Keys
      invariant forall t: TypeName :: t in taken ==> taken[t] == |OfType(ref[..i], t)|
      invariant |out| == i
      invariant forall j :: 0 <= j < i ==> Served(tensors, ref, j)
      invariant forall j :: 0 <= j < i ==> Serves(out[j], tensors, ref, j)
    {
      var t := ref[i].typ;
      if t !in typeDict {
        assert FirstUnserved(tensors, ref, i, MissingType);
        return Err(MissingType);
      }
      if taken[t] >= |typeDict[t]| {
        assert FirstUnserved(tensors, ref, i, Exhausted);
        return Err(Exhausted);
      }
      assert Serves(typeDict[t][taken[t]], tensors, ref, i);
      assert ref[..i + 1] == ref[..i] + [ref[i]];
      forall u: TypeName
        ensures |OfType(ref[..i + 1], u)| == |OfType(ref[..i], u)| + (if u == t then 1 else 0)
      {
        OfTypeSnoc(ref[..i], ref[i], u);
      }
      out := out + [typeDict[t][taken[t]]];
      taken := taken[t := taken[t] + 1];
    }
    r := Ok(out);
  }

  lemma OfTypeNone()
    ensures forall t: TypeName :: OfType([], t) == []
  {
  }

  // ------------------------------------------------------------------ the round trip

  ghost predicate KeepsType(f: Tensor -> Tensor) {
    forall x: Tensor :: f(x).typ == x.typ
  }

  function Map(f: Tensor -> Tensor, ts: seq<Tensor>): (r: seq<Tensor>)
    ensures |r| == |ts| && forall i :: 0 <= i < |ts| ==> r[i] == f(ts[i])
  {
    seq(|ts|, i requires 0 <= i < |ts| => f(ts[i]))
  }

  lemma MapSnoc(f: Tensor -> Tensor, ts: seq<Tensor>, x: Tensor)
    ensures Map(f, ts + [x]) == Map(f, ts) + [f(x)]
  {
  }

  lemma {:induction false} MapOfType(f: Tensor -> Tensor, ts: seq<Tensor>, t: TypeName)
    requires KeepsType(f)
    ensures OfType(Map(f, ts), t) == Map(f, OfType(ts, t))
  {
    if ts == [] {
      assert Map(f, ts) == [];
    } else {
      hide OfType, Map;
      var front, x := ts[..|ts| - 1], ts[|ts| - 1];
      MapOfType(f, front, t);
      assert ts == front + [x];
      MapSnoc(f, front, x);
      MapSnoc(f, OfType(front, t), x);
      OfTypeSnoc(Map(f, front), f(x), t);
      OfTypeSnoc(front, x, t);
    }
  }

  lemma {:induction false} OfTypeConcat(a: seq<Tensor>, b: seq<Tensor>, t: TypeName)
    ensures OfType(a + b, t) == OfType(a, t) + OfType(b, t)
  {
    if b == [] {
      assert a + b == a;
    } else {
      OfTypeConcat(a, b[..|b| - 1], t);
      assert (a + b)[..|a + b| - 1] == a + b[..|b| - 1];
    }
  }

  lemma {:induction false} OfTypeUniform(c: Chunk, t: TypeName, u: TypeName)
    requires forall i :: 0 <= i < |c| ==> c[i].typ == u
    ensures OfType(c, t) == if t == u then c else []
  {
    if c != [] {
      OfTypeUniform(c[..|c| - 1], t, u);
    }
  }

  lemma FlattenOfTypeSnoc(front: seq<Chunk>, c: Chunk, t: TypeName)
    requires OneType(c) && OfType(Flatten(front), t) == Flatten(ChunksOf(front, t))
    ensures OfType(Flatten(front + [c]), t) == Flatten(ChunksOf(front + [c], t))
  {
    hide OfType, Flatten, ChunksOf;
    FlattenSnoc(front, c);
    ChunksOfSnoc(front, c, t);
    OfTypeConcat(Flatten(front), c, t);
    OfTypeUniform(c, t, c[0].typ);
    if c[0].typ == t {
      FlattenSnoc(ChunksOf(front, t), c);
    } else {
      assert ChunksOf(front, t) + [] == ChunksOf(front, t);
      assert OfType(Flatten(front), t) + [] == OfType(Flatten(front), t);
    }
  }

  /** Selecting a type commutes with flattening chunks of one type each. */
  lemma {:induction false} FlattenOfType(cs: seq<Chunk>, t: TypeName)
    requires forall k :: 0 <= k < |cs| ==> OneType(cs[k])
    ensures OfType(Flatten(cs), t) == Flatten(ChunksOf(cs, t))
  {
    if cs != [] {
      var front, c := cs[..|cs| - 1], cs[|cs| - 1];
      FlattenOfType(front, t);
      assert cs == front + [c];
      FlattenOfTypeSnoc(front, c, t);
    }
  }

  /** The yields hold, for every type, exactly the original tensors of that type in their original order. */
  lemma YieldsPreserveType(chunks: seq<Chunk>, tensors: seq<Tensor>, limit: int, t: TypeName)
    requires Grouped(chunks, tensors, limit)
    ensures OfType(Flatten(chunks), t) == OfType(tensors, t)
  {
    FlattenOfType(chunks, t);
    ChunksFlatten(OfType(tensors, t), limit);
  }

  /** A sequence is recovered from its selections by type. */
  lemma OfTypeAt(ts: seq<Tensor>, i: nat)
    requires i < |ts|
    ensures Rank(ts, i) < |OfType(ts, ts[i].typ)| && OfType(ts, ts[i].typ)[Rank(ts, i)] == ts[i]
  {
    var t := ts[i].typ;
    assert ts == ts[..i] + ([ts[i]] + ts[i + 1..]);
    OfTypeConcat(ts[..i], [ts[i]] + ts[i + 1..], t);
    OfTypeConcat([ts[i]], ts[i + 1..], t);
    OfTypeUniform([ts[i]], t, t);
  }

  /** Group, apply any type-preserving map to the yields, and reorder: the map applied in the original order. */
  method GroupMapReorder(tensors: seq<Tensor>, limit: int, f: Tensor -> Tensor) returns (r: Result<seq<Tensor>, ReorderError>)
    requires KeepsType(f)
    ensures r == Ok(Map(f, tensors))
  {
    var chunks := TakeTensors(tensors, limit);
    r := ReorderTensorsAs(Map(f, Flatten(chunks)), tensors);
    forall i | 0 <= i < |tensors|
      ensures Serves(f(tensors[i]), Map(f, Flatten(chunks)), tensors, i)
    {
      RoundTrip(chunks, tensors, limit, f, i);
    }
    assert forall i :: 0 <= i < |tensors| ==> Served(Map(f, Flatten(chunks)), tensors, i);
    assert forall i :: 0 <= i < |tensors| ==> Serves(r.value[i], Map(f, Flatten(chunks)), tensors, i);
    assert r.value == Map(f, tensors);
  }

  lemma RoundTrip(chunks: seq<Chunk>, tensors: seq<Tensor>, limit: int, f: Tensor -> Tensor, i: nat)
    requires Grouped(chunks, tensors, limit) && KeepsType(f) && i < |tensors|
    ensures Serves(f(tensors[i]), Map(f, Flatten(chunks)), tensors, i)
  {
    var t := tensors[i].typ;
    MapOfType(f, Flatten(chunks), t);
    YieldsPreserveType(chunks, tensors, limit, t);
    OfTypeAt(tensors, i);
  }
}
