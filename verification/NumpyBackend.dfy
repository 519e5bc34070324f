/** The backend object: prefill and decode over its layer slice and per-request caches. */
module NumpyBackend {
  import opened Sequences
  import opened Transformer
  import opened Wrappers

  /** An array argument or result of one, two or three dimensions, with the width of its rows. */
  datatype Tensor =
    | Flat(data: Vec)
    | Matrix(rows: seq<Vec>, width: nat)
    | Cube(planes: seq<seq<Vec>>, width: nat)

  function Tokens(ids: seq<int>): (t: Tensor) {
    Flat(seq(|ids|, i requires 0 <= i < |ids| => ids[i] as real))
  }

  /** The array read back as ids. */
  function TokenIds(d: Vec): (ids: seq<int>) {
    seq(|d|, i requires 0 <= i < |d| => d[i].Floor)
  }

  lemma TokensRoundTrip(ids: seq<int>)
    ensures TokenIds(Tokens(ids).data) == ids
  {
    var back := TokenIds(Tokens(ids).data);
    forall i | 0 <= i < |ids| ensures back[i] == ids[i] {
      assert Tokens(ids).data[i] == ids[i] as real;
    }
  }

  function Clip(t: int, lo: int, hi: int): int {
    if t < lo then lo else if hi < t then hi else t
  }

  function EmbedRow(m: Model, t: int): (x: Vec)
    ensures |x| == m.hidden
  {
    seq(m.hidden, (j: nat) => m.embed(Clip(t, 0, m.vocab - 1), j))
  }

  function Embed(m: Model, ids: seq<int>): (xs: seq<Vec>)
    ensures |xs| == |ids| && Rows(m, xs)
  {
    seq(|ids|, i requires 0 <= i < |ids| => EmbedRow(m, ids[i]))
  }

  /** The shape test by which `prefill` tells activations from token ids. */
  predicate IsActivations(m: Model, t: Tensor)
    requires m.Valid()
  {
    match t
    case Matrix(_, w) => w == m.hidden
    case Flat(d) => d != [] && |d| % m.hidden == 0
    case Cube(_, _) => false
  }

  predicate WellShaped(t: Tensor) {
    t.Matrix? ==> forall r :: 0 <= r < |t.rows| ==> |t.rows[r]| == t.width
  }

  /** A one-by-one matrix of a token id, which keeps its extra dimension. */
  predicate IsTokenCell(m: Model, t: Tensor) {
    t.Matrix? && |t.rows| == 1 && |t.rows[0]| == t.width == 1 && m.hidden != 1
  }

  /** The inputs `prefill` can work on: ids, activations of at least one row, or a token cell. */
  predicate PrefillInput(m: Model, t: Tensor)
    requires m.Valid()
  {
    WellShaped(t) &&
    match t
    case Matrix(rows, w) => (w == m.hidden && rows != []) || IsTokenCell(m, t)
    case Flat(d) => d != []
    case Cube(_, _) => false
  }

  function Interpret(m: Model, t: Tensor): (xs: seq<Vec>)
    requires m.Valid() && PrefillInput(m, t)
    ensures Rows(m, xs) && xs != []
  {
    match t
    case Matrix(rows, w) => if w == m.hidden then rows else Embed(m, TokenIds(rows[0]))
    case Flat(d) =>
      if IsActivations(m, t) then Reshape(d, m.hidden)
      else Embed(m, TokenIds(d))
  }

  /** A prompt is embedded, one row per token, unless its length is a positive multiple of
      the hidden size; then it is read as activations. */
  lemma PromptEmbedded(m: Model, ids: seq<int>)
    requires m.Valid() && ids != []
    ensures PrefillInput(m, Tokens(ids))
    ensures !IsActivations(m, Tokens(ids)) ==> Interpret(m, Tokens(ids)) == Embed(m, ids)
    ensures |Interpret(m, Tokens(ids))| == |ids| <==> (!IsActivations(m, Tokens(ids)) || m.hidden == 1)
  {
    TokensRoundTrip(ids);
    var d := Tokens(ids).data;
    if IsActivations(m, Tokens(ids)) {
      ReshapeCount(d, m.hidden);
      SameCountIff(|Reshape(d, m.hidden)|, m.hidden, |ids|);
    }
  }

  lemma SameCountIff(rows: nat, width: nat, n: nat)
    requires rows * width == n && n > 0
    ensures rows == n <==> width == 1
  {
    if rows == n {
      assert rows * (width - 1) == 0;
    }
  }

  function Range(m: Model, layerRange: Option<(int, int)>): (int, int) {
    if layerRange.Some? then layerRange.value else (0, |m.layers|)
  }

  predicate RangeOk(m: Model, range: (int, int)) {
    0 <= range.0 && range.1 <= |m.layers|
  }

  predicate Visits(range: (int, int), l: int) {
    range.0 <= l < range.1
  }

  function Clamp(m: Model, range: (int, int)): (r: (int, int))
    ensures RangeOk(m, r)
    ensures RangeOk(m, range) ==> r == range
    ensures forall l :: 0 <= l < |m.layers| ==> (Visits(r, l) <==> Visits(range, l))
  {
    (if range.0 < 0 then 0 else range.0, if |m.layers| < range.1 then |m.layers| else range.1)
  }

  /** The layers `range(start, end)` visits. */
  function Slice(m: Model, range: (int, int)): (ws: seq<LayerWeights>)
    requires RangeOk(m, range)
  {
    if range.0 < range.1 then m.layers[range.0..range.1] else []
  }

  /** The layers in the range, each once and in order. */
  lemma SliceHolds(m: Model, range: (int, int), l: nat)
    requires RangeOk(m, range) && l < |m.layers|
    ensures |Slice(m, range)| == if range.0 < range.1 then range.1 - range.0 else 0
    ensures Visits(range, l) ==> Slice(m, range)[l - range.0] == m.layers[l]
  {
  }

  function Logits(m: Model, x: Vec): (l: Vec)
    ensures |l| == m.vocab
  {
    seq(m.vocab, (j: nat) => m.lmHead(x, j))
  }

  function LogitRows(m: Model, xs: seq<Vec>): (ls: seq<Vec>)
    ensures |ls| == |xs|
  {
    seq(|xs|, r requires 0 <= r < |xs| => Logits(m, xs[r]))
  }

  /** The logits of the top rank; those of a token cell keep the cell's dimension. */
  function TopOut(m: Model, xs: seq<Vec>, cell: bool): (t: Tensor) {
    if cell then Cube([LogitRows(m, xs)], m.vocab) else Matrix(LogitRows(m, xs), m.vocab)
  }

  /** The rank whose slice ends at the top applies the LM head; the others flatten. */
  function Emit(m: Model, range: (int, int), xs: seq<Vec>, cell: bool): (t: Tensor) {
    if range.1 == |m.layers| then TopOut(m, xs, cell) else Flat(Concat(xs))
  }

  function PrefillResult(m: Model, range: (int, int), t: Tensor): (r: (Tensor, seq<KV>))
    requires m.Valid() && RangeOk(m, range) && PrefillInput(m, t)
    ensures AllShaped(m, r.1) && |r.1| == |Slice(m, range)|
  {
    var ws := Slice(m, range);
    var (xs, kvs) := Stack(m, ws, Interpret(m, t), Empties(|ws|));
    (Emit(m, range, xs, IsTokenCell(m, t)), kvs)
  }

  type Caches = map<string, seq<KV>>

  ghost predicate Fits(m: Model, range: (int, int), kvs: seq<KV>)
    requires RangeOk(m, range)
  {
    |kvs| == |Slice(m, range)| && AllShaped(m, kvs)
  }

  ghost predicate CachesFit(m: Model, range: (int, int), kv: Caches, reqIds: seq<string>)
    requires RangeOk(m, range)
  {
    forall id :: id in reqIds ==> id in kv && Fits(m, range, kv[id])
  }

  /** The request loop of `decode`: each request runs one row over its own cache. */
  function DecodeRows(m: Model, range: (int, int), kv: Caches, reqIds: seq<string>, xs: seq<Vec>)
    : (r: (seq<Vec>, Caches))
    requires m.Valid() && RangeOk(m, range) && |reqIds| == |xs| && CachesFit(m, range, kv, reqIds)
    ensures |r.0| == |xs| && kv.Keys == r.1.Keys
    ensures forall id :: id in kv && Fits(m, range, kv[id]) ==> Fits(m, range, r.1[id])
    ensures forall id :: id in kv && id !in reqIds ==> r.1[id] == kv[id]
    decreases |xs|
  {
    if xs == [] then ([], kv) else
      var n := |xs| - 1;
      var (ys, done) := DecodeRows(m, range, kv, reqIds[..n], xs[..n]);
      var (y, kvs) := Stack(m, Slice(m, range), [xs[n]], done[reqIds[n]]);
      (ys + y, done[reqIds[n] := kvs])
  }

  /** What `decode` accepts: entries that are ids, rows of one id or, all of them, activation rows;
      at least one for a request. */
  predicate DecodeInput(m: Model, reqIds: seq<string>, t: Tensor)
    requires m.Valid()
  {
    reqIds != [] && DecodeShape(m, t) && Entries(t) > 0
  }

  /** The requests served: `zip` ends with the shorter of the two. */
  function Served(reqIds: seq<string>, t: Tensor): (ids: seq<string>)
    ensures |ids| <= Entries(t) && ids <= reqIds && (ids == reqIds || |ids| == Entries(t))
  {
    if |reqIds| <= Entries(t) then reqIds else reqIds[..Entries(t)]
  }

  predicate DecodeShape(m: Model, t: Tensor) {
    t.Flat? || (t.Matrix? && WellShaped(t) && (t.width == m.hidden || t.width == 1))
  }

  predicate DecodesActivations(m: Model, t: Tensor) {
    t.Matrix? && t.width == m.hidden
  }

  function Entries(t: Tensor): nat {
    match t
    case Flat(d) => |d|
    case Matrix(rows, _) => |rows|
    case Cube(planes, _) => |planes|
  }

  function DecodeRow(m: Model, t: Tensor, j: nat): (x: Vec)
    requires DecodeShape(m, t) && j < Entries(t)
    ensures |x| == m.hidden
  {
    match t
    case Flat(d) => EmbedRow(m, d[j].Floor)
    case Matrix(rows, w) => if w == m.hidden then rows[j] else EmbedRow(m, rows[j][0].Floor)
  }

  function DecodeXs(m: Model, t: Tensor): (xs: seq<Vec>)
    requires DecodeShape(m, t)
    ensures |xs| == Entries(t) && forall j :: 0 <= j < |xs| ==> xs[j] == DecodeRow(m, t, j)
  {
    seq(Entries(t), (j: nat) requires j < Entries(t) => DecodeRow(m, t, j))
  }

  /** Rows stacked along a new first axis. */
  function Stacked(rows: seq<Vec>): (planes: seq<seq<Vec>>)
    ensures |planes| == |rows|
  {
    seq(|rows|, j requires 0 <= j < |rows| => [rows[j]])
  }

  /** The logits of `decode`: concatenated for tokens; for activation rows stacked, and each
      already a matrix of one row when it went through a layer. */
  function DecodeOut(m: Model, range: (int, int), ys: seq<Vec>, activations: bool): (t: Tensor)
    requires RangeOk(m, range)
  {
    if range.1 == |m.layers| then
      if activations && Slice(m, range) != [] then Cube(Stacked(LogitRows(m, ys)), m.vocab)
      else Matrix(LogitRows(m, ys), m.vocab)
    else if activations then Matrix(ys, m.hidden)
    else Flat(Concat(ys))
  }

  function DecodeResult(m: Model, range: (int, int), kv: Caches, reqIds: seq<string>, t: Tensor): (r: (Tensor, Caches))
    requires m.Valid() && RangeOk(m, range) && DecodeInput(m, reqIds, t)
    requires CachesFit(m, range, kv, Served(reqIds, t))
  {
    var ids := Served(reqIds, t);
    var (ys, done) := DecodeRows(m, range, kv, ids, DecodeXs(m, t)[..|ids|]);
    (DecodeOut(m, range, ys, DecodesActivations(m, t)), done)
  }

  /** The `shape` of an array; of planes without rows the middle dimension is 0. */
  function Shape(t: Tensor): seq<nat> {
    match t
    case Flat(d) => [|d|]
    case Matrix(rows, w) => [|rows|, w]
    case Cube(planes, w) => [|planes|, if planes == [] then 0 else |planes[0]|, w]
  }

  /** `prefill`: rows by vocabulary at the top, one more dimension for a token cell; flat below. */
  lemma PrefillShape(m: Model, range: (int, int), t: Tensor)
    requires m.Valid() && RangeOk(m, range) && PrefillInput(m, t)
    ensures var n := |Interpret(m, t)|;
            Shape(PrefillResult(m, range, t).0) ==
            if range.1 != |m.layers| then [n * m.hidden]
            else if IsTokenCell(m, t) then [1, 1, m.vocab] else [n, m.vocab]
  {
    var ws := Slice(m, range);
    ConcatLength(Stack(m, ws, Interpret(m, t), Empties(|ws|)).0, m.hidden);
  }

  /** `decode` of n requests: n by vocabulary at the top; below it ids give a flat array and
      activation rows rows again. A row that went through a layer is a matrix of one row. */
  lemma DecodedShape(m: Model, range: (int, int), kv: Caches, reqIds: seq<string>, t: Tensor)
    requires m.Valid() && RangeOk(m, range) && DecodeInput(m, reqIds, t) && CachesFit(m, range, kv, Served(reqIds, t))
    ensures var n, rows := |Served(reqIds, t)|, t.Matrix? && t.width == m.hidden;
            Shape(DecodeResult(m, range, kv, reqIds, t).0) ==
            if range.1 == |m.layers| then if rows && range.0 < range.1 then [n, 1, m.vocab] else [n, m.vocab]
            else if rows then [n, m.hidden] else [n * m.hidden]
  {
    var ids := Served(reqIds, t);
    var ys := DecodeRows(m, range, kv, ids, DecodeXs(m, t)[..|ids|]).0;
    DecodedRows(m, range, kv, ids, DecodeXs(m, t)[..|ids|]);
    ConcatLength(ys, m.hidden);
  }

  lemma {:induction false} DecodedRows(m: Model, range: (int, int), kv: Caches, reqIds: seq<string>, xs: seq<Vec>)
    requires m.Valid() && RangeOk(m, range) && |reqIds| == |xs| && CachesFit(m, range, kv, reqIds) && Rows(m, xs)
    ensures Rows(m, DecodeRows(m, range, kv, reqIds, xs).0)
    decreases |xs|
  {
    if xs != [] {
      var n := |xs| - 1;
      DecodedRows(m, range, kv, reqIds[..n], xs[..n]);
    }
  }

  /** A flat array of ids is decoded like a column of them. */
  lemma FlatIsColumn(m: Model, range: (int, int), kv: Caches, reqIds: seq<string>, d: Vec)
    requires m.Valid() && RangeOk(m, range) && m.hidden != 1 && DecodeInput(m, reqIds, Flat(d))
    ensures var column := Matrix(seq(|d|, i requires 0 <= i < |d| => [d[i]]), 1);
            DecodeInput(m, reqIds, column) && Served(reqIds, column) == Served(reqIds, Flat(d)) &&
            (CachesFit(m, range, kv, Served(reqIds, Flat(d))) ==>
               DecodeResult(m, range, kv, reqIds, column) == DecodeResult(m, range, kv, reqIds, Flat(d)))
  {
    var column := Matrix(seq(|d|, i requires 0 <= i < |d| => [d[i]]), 1);
    assert DecodeXs(m, column) == DecodeXs(m, Flat(d));
  }

  /** The layer loop after k layers: what it has, and what the rest of the stack makes of it. */
  ghost predicate LoopAt(m: Model, ws: seq<LayerWeights>, past: seq<KV>, k: nat, x: seq<Vec>, all: seq<KV>,
                         y: seq<Vec>, kvs: seq<KV>)
    requires m.Valid() && |past| == |ws| == |kvs| && AllShaped(m, past)
  {
    k <= |ws| && all == kvs[..k] && Stack(m, ws[k..], x, past[k..]) == (y, kvs[k..])
  }

  lemma OneLayerOn(m: Model, ws: seq<LayerWeights>, past: seq<KV>, k: nat, x: seq<Vec>, all: seq<KV>, y: seq<Vec>,
                   kvs: seq<KV>)
    requires m.Valid() && |past| == |ws| == |kvs| && AllShaped(m, past) && k < |ws|
    requires LoopAt(m, ws, past, k, x, all, y, kvs)
    ensures var (x', kv) := Layer(m, ws[k], x, past[k]);
            LoopAt(m, ws, past, k + 1, x', all + [kv], y, kvs)
  {
    var (x', kv) := Layer(m, ws[k], x, past[k]);
    StackAt(m, ws, x, past, k);
    var rest := Stack(m, ws[k + 1..], x', past[k + 1..]).1;
    assert kvs[k..] == [kv] + rest;
    assert kvs[k] == kvs[k..][0] == kv;
    assert kvs[k + 1..] == kvs[k..][1..] == rest;
    assert all + [kv] == kvs[..k + 1];
  }

  lemma OneRequestOn(m: Model, range: (int, int), kv: Caches, reqIds: seq<string>, xs: seq<Vec>, j: nat,
                     outs: seq<Vec>, done: Caches)
    requires m.Valid() && RangeOk(m, range) && |reqIds| == |xs| && CachesFit(m, range, kv, reqIds) && j < |xs|
    requires DecodeRows(m, range, kv, reqIds[..j], xs[..j]) == (outs, done)
    ensures reqIds[j] in done && Fits(m, range, done[reqIds[j]])
    ensures var (y, kvs) := Stack(m, Slice(m, range), [xs[j]], done[reqIds[j]]);
            DecodeRows(m, range, kv, reqIds[..j + 1], xs[..j + 1]) == (outs + y, done[reqIds[j] := kvs])
  {
    assert reqIds[..j + 1][..j] == reqIds[..j] && xs[..j + 1][..j] == xs[..j];
    assert reqIds[j] in reqIds;
  }

  class Backend {
    const model: Model
    var layerRange: Option<(int, int)>
    var kv: Caches

    ghost predicate Valid()
      reads this
    {
      model.Valid() && RangeOk(model, Range(model, layerRange)) &&
      forall id :: id in kv ==> AllShaped(model, kv[id])
    }

    constructor (m: Model)
      requires m.Valid()
      ensures Valid() && model == m && layerRange == None && kv == map[]
    {
      model := m;
      layerRange := None;
      kv := map[];
    }

    method OffloadLayers(layers: seq<(int, int)>)
      requires Valid()
      modifies `layerRange
      ensures Valid()
      ensures layerRange == if layers == [] then old(layerRange) else Some(Clamp(model, layers[0]))
    {
      if layers == [] {
        return;
      }
      var (start, end) := layers[0];
      layerRange := Some((if 0 < start then start else 0, if end < |model.layers| then end else |model.layers|));
    }

    /** The loop over the assigned layers. */
    method RunSlice(range: (int, int), xs: seq<Vec>, past: seq<KV>) returns (x: seq<Vec>, all: seq<KV>)
      requires model.Valid() && RangeOk(model, range)
      requires |past| == |Slice(model, range)| && AllShaped(model, past)
      ensures (x, all) == Stack(model, Slice(model, range), xs, past)
    {
      var (start, end) := range;
      ghost var ws := Slice(model, range);
      ghost var (y, kvs) := Stack(model, ws, xs, past);
      x, all := xs, [];
      var j := 0;
      assert ws[0..] == ws && past[0..] == past && kvs[0..] == kvs;
      while start + j < end
        invariant 0 <= j <= |ws| && LoopAt(model, ws, past, j, x, all, y, kvs)
      {
        OneLayerOn(model, ws, past, j, x, all, y, kvs);
        assert ws[j] == model.layers[start + j];
        var (x', kv) := Layer(model, model.layers[start + j], x, past[j]);
        x, all, j := x', all + [kv], j + 1;
      }
      assert j == |ws| && kvs[..|ws|] == kvs;
    }

    method Prefill(reqId: string, ids: Tensor) returns (out: Tensor)
      requires Valid() && PrefillInput(model, ids)
      modifies `kv
      ensures Valid()
      ensures var (t, kvs) := PrefillResult(model, Range(model, layerRange), ids);
              out == t && kv == old(kv)[reqId := kvs]
    {
      var range := Range(model, layerRange);
      var x := Interpret(model, ids);
      var all: seq<KV>;
      x, all := RunSlice(range, x, Empties(|Slice(model, range)|));
      kv := kv[reqId := all];
      if range.1 == |model.layers| {
        out := TopOut(model, x, IsTokenCell(model, ids));
      } else {
        out := Flat(Concat(x));
      }
    }

    /** The loop over the batched requests. */
    method RunRequests(range: (int, int), caches: Caches, reqIds: seq<string>, xs: seq<Vec>)
      returns (outs: seq<Vec>, done: Caches)
      requires model.Valid() && RangeOk(model, range)
      requires |reqIds| == |xs| && CachesFit(model, range, caches, reqIds)
      ensures DecodeRows(model, range, caches, reqIds, xs) == (outs, done)
    {
      outs, done := [], caches;
      for j := 0 to |xs|
        invariant DecodeRows(model, range, caches, reqIds[..j], xs[..j]) == (outs, done)
      {
        OneRequestOn(model, range, caches, reqIds, xs, j, outs, done);
        var y, newKvs := RunSlice(range, [xs[j]], done[reqIds[j]]);
        outs, done := outs + y, done[reqIds[j] := newKvs];
      }
      assert xs[..|xs|] == xs && reqIds[..|xs|] == reqIds;
    }

    method Decode(reqIds: seq<string>, inputIds: Tensor) returns (out: Tensor)
      requires Valid() && DecodeInput(model, reqIds, inputIds)
      requires CachesFit(model, Range(model, layerRange), kv, Served(reqIds, inputIds))
      modifies `kv
      ensures Valid()
      ensures DecodeResult(model, Range(model, layerRange), old(kv), reqIds, inputIds) == (out, kv)
    {
      var range := Range(model, layerRange);
      var outs;
      var ids := Served(reqIds, inputIds);
      outs, kv := RunRequests(range, kv, ids, DecodeXs(model, inputIds)[..|ids|]);
      out := DecodeOut(model, range, outs, DecodesActivations(model, inputIds));
    }
  }

  lemma BatchSnoc(m: Model, range: (int, int), kv: Caches, ids: seq<string>, xs: seq<Vec>, id: string, x: Vec)
    requires m.Valid() && RangeOk(m, range) && |ids| == |xs| && CachesFit(m, range, kv, ids + [id])
    ensures CachesFit(m, range, kv, ids)
    ensures var (ys, mid) := DecodeRows(m, range, kv, ids, xs);
            id in mid && Fits(m, range, mid[id]) &&
            var (y, kvs) := Stack(m, Slice(m, range), [x], mid[id]);
            DecodeRows(m, range, kv, ids + [id], xs + [x]) == (ys + y, mid[id := kvs])
  {
    assert (ids + [id])[..|ids|] == ids && (xs + [x])[..|xs|] == xs;
    assert id in ids + [id] && forall i :: i in ids ==> i in ids + [id];
  }

  lemma FitAfter(m: Model, range: (int, int), kv: Caches, a: seq<string>, xa: seq<Vec>, b: seq<string>)
    requires m.Valid() && RangeOk(m, range) && |a| == |xa| && CachesFit(m, range, kv, a + b)
    ensures CachesFit(m, range, kv, a) && CachesFit(m, range, DecodeRows(m, range, kv, a, xa).1, b)
  {
    assert forall id :: id in a + b <==> id in a || id in b;
  }

  /** A batch is served in order, each request on the caches the ones before it left: a request
      that comes twice decodes its second row after its first. */
  lemma {:induction false} BatchInOrder(m: Model, range: (int, int), kv: Caches, a: seq<string>, xa: seq<Vec>,
                                        b: seq<string>, xb: seq<Vec>)
    requires m.Valid() && RangeOk(m, range) && |a| == |xa| && |b| == |xb| && CachesFit(m, range, kv, a + b)
    ensures CachesFit(m, range, kv, a) && CachesFit(m, range, DecodeRows(m, range, kv, a, xa).1, b)
    ensures var (ya, mid) := DecodeRows(m, range, kv, a, xa);
            var (yb, done) := DecodeRows(m, range, mid, b, xb);
            DecodeRows(m, range, kv, a + b, xa + xb) == (ya + yb, done)
    decreases |b|
  {
    FitAfter(m, range, kv, a, xa, b);
    var (ya, mid) := DecodeRows(m, range, kv, a, xa);
    if b == [] {
      assert a + b == a && xa + xb == xa && ya + [] == ya;
    } else {
      var n := |b| - 1;
      var b', xb', id, x := b[..n], xb[..n], b[n], xb[n];
      assert b' + [id] == b && xb' + [x] == xb && (a + b') + [id] == a + b && (xa + xb') + [x] == xa + xb;
      BatchSnoc(m, range, kv, a + b', xa + xb', id, x);
      BatchInOrder(m, range, kv, a, xa, b', xb');
      BatchSnoc(m, range, mid, b', xb', id, x);
      var (yb', done') := DecodeRows(m, range, mid, b', xb');
      Reassociate(ya, yb', Stack(m, Slice(m, range), [x], done'[id]).0);
    }
  }

  /** One request: its row through the slice on its cache. */
  lemma BatchOfOne(m: Model, range: (int, int), kv: Caches, id: string, x: Vec)
    requires m.Valid() && RangeOk(m, range) && CachesFit(m, range, kv, [id])
    ensures id in [id]
    ensures var (y, kvs) := Stack(m, Slice(m, range), [x], kv[id]);
            DecodeRows(m, range, kv, [id], [x]) == (y, kv[id := kvs])
  {
    assert [id][..0] == [] && [x][..0] == [];
    assert DecodeRows(m, range, kv, [], []) == ([], kv);
    var y := Stack(m, Slice(m, range), [x], kv[id]).0;
    assert [] + y == y;
  }

  /** Batched requests with distinct ids do not influence each other: request j gets the row
      and the cache it would get alone. */
  lemma {:induction false} BatchIsIndependent(m: Model, range: (int, int), kv: Caches, reqIds: seq<string>,
                                              xs: seq<Vec>, j: nat)
    requires m.Valid() && RangeOk(m, range) && |reqIds| == |xs| && CachesFit(m, range, kv, reqIds)
    requires forall i, k :: 0 <= i < k < |reqIds| ==> reqIds[i] != reqIds[k]
    requires j < |xs|
    ensures reqIds[j] in reqIds
    ensures var (ys, done) := DecodeRows(m, range, kv, reqIds, xs);
            Stack(m, Slice(m, range), [xs[j]], kv[reqIds[j]]) == ([ys[j]], done[reqIds[j]])
    decreases |xs|
  {
    var n := |xs| - 1;
    var (ys, mid) := DecodeRows(m, range, kv, reqIds[..n], xs[..n]);
    var (all, done) := DecodeRows(m, range, kv, reqIds, xs);
    if j < n {
      BatchIsIndependent(m, range, kv, reqIds[..n], xs[..n], j);
      assert all[j] == ys[j] && reqIds[j] != reqIds[n] && done[reqIds[j]] == mid[reqIds[j]];
    } else {
      assert reqIds[n] !in reqIds[..n];
      assert mid[reqIds[n]] == kv[reqIds[n]];
      assert all[n..] == [all[n]];
    }
  }
}
