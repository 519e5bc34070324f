/** What the caches and the pipeline are for: cached decoding and sliced execution give the
    plain full-sequence, full-stack forward pass. */
module Parity {
  import opened Transformer
  import opened NumpyBackend
  import opened Sequences
  import opened Wrappers
  import opened Softmax
  import Arith
  import Forward
  import Planner

  // ---------------------------------------------------------------- cached decoding

  /** A prefill over rows a followed by single-row decodes of b ends with the outputs and the
      caches of one prefill over a + b, for every slice of layers. */
  lemma CachedDecoding(m: Model, ws: seq<LayerWeights>, a: seq<Vec>, b: seq<Vec>)
    requires m.Valid()
    ensures var (ya, ka) := Stack(m, ws, a, Empties(|ws|));
            var (yb, kb) := RowByRow(m, ws, b, ka);
            Stack(m, ws, a + b, Empties(|ws|)) == (ya + yb, kb)
  {
    var (ya, ka) := Stack(m, ws, a, Empties(|ws|));
    RowByRowIsStack(m, ws, b, ka);
    StackInChunks(m, ws, a, b, Empties(|ws|));
  }

  lemma UpdateTwice<K, V>(m: map<K, V>, k: K, v: V, w: V)
    ensures m[k := v][k := w] == m[k := w]
  {
  }

  function OneToken(t: int): Tensor {
    Matrix([[t as real]], 1)
  }

  /** The row a single id is read as: its embedding, or with hidden size 1 the id itself. */
  function TokenRow(m: Model, t: int): (x: Vec)
    ensures |x| == m.hidden
  {
    if m.hidden == 1 then [t as real] else EmbedRow(m, t)
  }

  function TokenRows(m: Model, ts: seq<int>): (xs: seq<Vec>)
    ensures |xs| == |ts| && Rows(m, xs)
  {
    seq(|ts|, i requires 0 <= i < |ts| => TokenRow(m, ts[i]))
  }

  /** The logits `logits[-1]` ends with, whatever the dimensions. */
  function LastLogits(t: Tensor): Vec {
    match t
    case Flat(d) => d
    case Matrix(rows, _) => if rows == [] then [] else rows[|rows| - 1]
    case Cube(planes, _) =>
      if planes == [] || planes[|planes| - 1] == [] then [] else
        var rows := planes[|planes| - 1]; rows[|rows| - 1]
  }

  /** Successive `decode([id], [[t]])` calls. */
  function DecodeMany(m: Model, range: (int, int), kv: Caches, id: string, ts: seq<int>): (r: (seq<Tensor>, Caches))
    requires m.Valid() && RangeOk(m, range) && CachesFit(m, range, kv, [id])
    ensures |r.0| == |ts|
  {
    if ts == [] then ([], kv) else
      var (out, kv') := DecodeResult(m, range, kv, [id], OneToken(ts[0]));
      assert id in [id];
      var (outs, done) := DecodeMany(m, range, kv', id, ts[1..]);
      ([out] + outs, done)
  }

  /** One request's row through `decode`. */
  lemma DecodeAlone(m: Model, range: (int, int), kv: Caches, id: string, t: Tensor)
    requires m.Valid() && RangeOk(m, range) && CachesFit(m, range, kv, [id]) && DecodeInput(m, [id], t)
    ensures id in kv && Fits(m, range, kv[id])
    ensures var (y, kvs) := Stack(m, Slice(m, range), [DecodeRow(m, t, 0)], kv[id]);
            y == [y[0]] &&
            DecodeResult(m, range, kv, [id], t) == (DecodeOut(m, range, y, DecodesActivations(m, t)), kv[id := kvs])
  {
    assert id in [id];
    var xs := DecodeXs(m, t)[..1];
    assert Served([id], t) == [id] && xs == [DecodeRow(m, t, 0)];
    assert DecodeRows(m, range, kv, [id][..0], xs[..0]).1 == kv;
    var y := Stack(m, Slice(m, range), xs, kv[id]).0;
    assert [] + y == y == [y[0]];
  }

  lemma TopLogits(m: Model, range: (int, int), y: seq<Vec>, activations: bool)
    requires RangeOk(m, range) && range.1 == |m.layers| && |y| == 1
    ensures LastLogits(DecodeOut(m, range, y, activations)) == Logits(m, y[0])
  {
  }

  lemma DecodeOneToken(m: Model, range: (int, int), kv: Caches, id: string, t: int)
    requires m.Valid() && RangeOk(m, range) && CachesFit(m, range, kv, [id]) && range.1 == |m.layers|
    ensures id in kv && Fits(m, range, kv[id])
    ensures var (y, kvs) := Stack(m, Slice(m, range), [TokenRow(m, t)], kv[id]);
            var (out, kv') := DecodeResult(m, range, kv, [id], OneToken(t));
            |y| == 1 && LastLogits(out) == Logits(m, y[0]) && kv' == kv[id := kvs]
  {
    assert DecodeRow(m, OneToken(t), 0) == TokenRow(m, t);
    DecodeAlone(m, range, kv, id, OneToken(t));
    var y := Stack(m, Slice(m, range), [TokenRow(m, t)], kv[id]).0;
    TopLogits(m, range, y, DecodesActivations(m, OneToken(t)));
  }

  /** The outputs of single-row calls end with the logits of these rows. */
  ghost predicate EndWith(m: Model, outs: seq<Tensor>, ys: seq<Vec>) {
    |outs| == |ys| && forall j :: 0 <= j < |outs| ==> LastLogits(outs[j]) == Logits(m, ys[j])
  }

  lemma EndWithFirst(m: Model, out: Tensor, outs: seq<Tensor>, y: seq<Vec>, ys: seq<Vec>)
    requires |y| == 1 && LastLogits(out) == Logits(m, y[0]) && EndWith(m, outs, ys)
    ensures EndWith(m, [out] + outs, y + ys)
  {
  }

  lemma {:induction false} DecodeManyIsRowByRow(m: Model, range: (int, int), kv: Caches, id: string, ts: seq<int>)
    requires m.Valid() && RangeOk(m, range) && CachesFit(m, range, kv, [id]) && range.1 == |m.layers|
    ensures id in kv && Fits(m, range, kv[id])
    ensures var (ys, kvs) := RowByRow(m, Slice(m, range), TokenRows(m, ts), kv[id]);
            var (outs, kv') := DecodeMany(m, range, kv, id, ts);
            EndWith(m, outs, ys) && kv' == kv[id := kvs]
    decreases |ts|
  {
    assert id in [id];
    if ts == [] {
      assert kv == kv[id := kv[id]];
    } else {
      DecodeOneToken(m, range, kv, id, ts[0]);
      var ws, xs := Slice(m, range), TokenRows(m, ts);
      assert xs[..1] == [TokenRow(m, ts[0])] && xs[1..] == TokenRows(m, ts[1..]);
      var (y, kvs) := Stack(m, ws, xs[..1], kv[id]);
      var (ys, end) := RowByRow(m, ws, xs[1..], kvs);
      var out := DecodeResult(m, range, kv, [id], OneToken(ts[0])).0;
      DecodeManyIsRowByRow(m, range, kv[id := kvs], id, ts[1..]);
      EndWithFirst(m, out, DecodeMany(m, range, kv[id := kvs], id, ts[1..]).0, y, ys);
      UpdateTwice(kv, id, kvs, end);
    }
  }

  // ---------------------------------------------------------------- how arrays are read

  lemma {:induction false} ReshapeByOne(d: Vec)
    ensures |d| % 1 == 0 && Reshape(d, 1) == seq(|d|, i requires 0 <= i < |d| => [d[i]])
    decreases |d|
  {
    if d != [] {
      ReshapeByOne(d[1..]);
      assert d[..1] == [d[0]];
    }
  }

  /** A token array is read row per token exactly when it is not taken for activations, or when
      that makes no difference. */
  lemma TokensRead(m: Model, p: seq<int>)
    requires m.Valid() && p != []
    ensures PrefillInput(m, Tokens(p))
    ensures m.hidden == 1 || !IsActivations(m, Tokens(p)) ==> Interpret(m, Tokens(p)) == TokenRows(m, p)
    ensures m.hidden != 1 && IsActivations(m, Tokens(p)) ==> |Interpret(m, Tokens(p))| < |p|
  {
    PromptEmbedded(m, p);
    if m.hidden == 1 {
      ReshapeByOne(Tokens(p).data);
      assert Interpret(m, Tokens(p)) == TokenRows(m, p);
    } else if IsActivations(m, Tokens(p)) {
      var n := |Interpret(m, Tokens(p))|;
      ReshapeCount(Tokens(p).data, m.hidden);
      assert n * m.hidden == |p|;
      Arith.Scale(2, m.hidden, n);
    } else {
      assert Embed(m, p) == TokenRows(m, p);
    }
  }

  /** Every layer's cache grows by the rows. */
  lemma {:induction false} CacheLengths(m: Model, ws: seq<LayerWeights>, xs: seq<Vec>, past: seq<KV>, j: nat)
    requires m.Valid() && |past| == |ws| && AllShaped(m, past) && j < |ws|
    ensures |Stack(m, ws, xs, past).1[j].k| == |past[j].k| + |xs|
    decreases |ws|
  {
    if j > 0 {
      var y := Layer(m, ws[0], xs, past[0]).0;
      CacheLengths(m, ws[1..], y, past[1..], j - 1);
    }
  }

  // ---------------------------------------------------------------- decode parity

  /** Decode outputs and caches, against the logits and caches of one prefill of n positions and
      then one per output. */
  ghost predicate Agree(outs: seq<Tensor>, done: Caches, logits: Tensor, kvs: seq<KV>, kv: Caches, id: string, n: nat) {
    logits.Matrix? && |logits.rows| == n + |outs| && done == kv[id := kvs] &&
    forall j :: 0 <= j < |outs| ==> LastLogits(outs[j]) == logits.rows[n + j]
  }

  lemma AgreeIff(m: Model, outs: seq<Tensor>, yb: seq<Vec>, logits: Tensor, kb: seq<KV>, kvs: seq<KV>, kv: Caches,
                 id: string, n: nat)
    requires EndWith(m, outs, yb)
    ensures Agree(outs, kv[id := kb], logits, kvs, kv, id, n) <==>
            logits.Matrix? && |logits.rows| == n + |yb| && kb == kvs &&
            forall j :: 0 <= j < |yb| ==> logits.rows[n + j] == Logits(m, yb[j])
  {
    if kb != kvs {
      DifferentUpdates(kv, id, kb, kvs);
    }
  }

  /** Prefill of p and one decode per token of ts, against one prefill of all of them: the logits
      of every position and the caches. */
  ghost predicate DecodesLikePrefill(m: Model, range: (int, int), kv: Caches, id: string, p: seq<int>, ts: seq<int>)
    requires m.Valid() && RangeOk(m, range) && PrefillInput(m, Tokens(p)) && PrefillInput(m, Tokens(p + ts))
  {
    var kv' := kv[id := PrefillResult(m, range, Tokens(p)).1];
    var (logits, kvs) := PrefillResult(m, range, Tokens(p + ts));
    assert CachesFit(m, range, kv', [id]);
    var (outs, done) := DecodeMany(m, range, kv', id, ts);
    Agree(outs, done, logits, kvs, kv, id, |p|)
  }

  /** What that takes, in terms of the rows the two arrays are read as. */
  ghost predicate RowsAgree(m: Model, range: (int, int), a: seq<Vec>, b: seq<Vec>, whole: Tensor, n: nat)
    requires m.Valid() && RangeOk(m, range) && PrefillInput(m, whole)
  {
    var ws := Slice(m, range);
    var ka := Stack(m, ws, a, Empties(|ws|)).1;
    var (yb, kb) := Stack(m, ws, b, ka);
    var (logits, kvs) := PrefillResult(m, range, whole);
    logits.Matrix? && |logits.rows| == n + |b| && kb == kvs &&
    forall j :: 0 <= j < |b| ==> logits.rows[n + j] == Logits(m, yb[j])
  }

  lemma DecodesFrom(m: Model, range: (int, int), kv: Caches, id: string, ka: seq<KV>, ts: seq<int>)
    requires m.Valid() && RangeOk(m, range) && range.1 == |m.layers| && Fits(m, range, ka)
    ensures CachesFit(m, range, kv[id := ka], [id])
    ensures var (yb, kb) := Stack(m, Slice(m, range), TokenRows(m, ts), ka);
            var (outs, done) := DecodeMany(m, range, kv[id := ka], id, ts);
            EndWith(m, outs, yb) && done == kv[id := kb]
  {
    assert CachesFit(m, range, kv[id := ka], [id]);
    DecodeManyIsRowByRow(m, range, kv[id := ka], id, ts);
    RowByRowIsStack(m, Slice(m, range), TokenRows(m, ts), ka);
    UpdateTwice(kv, id, ka, Stack(m, Slice(m, range), TokenRows(m, ts), ka).1);
  }

  lemma DecodesByRows(m: Model, range: (int, int), kv: Caches, id: string, p: seq<int>, ts: seq<int>)
    requires m.Valid() && RangeOk(m, range) && range.1 == |m.layers|
    requires PrefillInput(m, Tokens(p)) && PrefillInput(m, Tokens(p + ts))
    ensures DecodesLikePrefill(m, range, kv, id, p, ts) <==>
            RowsAgree(m, range, Interpret(m, Tokens(p)), TokenRows(m, ts), Tokens(p + ts), |p|)
  {
    var ws, b := Slice(m, range), TokenRows(m, ts);
    var ka := Stack(m, ws, Interpret(m, Tokens(p)), Empties(|ws|)).1;
    DecodesFrom(m, range, kv, id, ka, ts);
    var (yb, kb) := Stack(m, ws, b, ka);
    var (logits, kvs) := PrefillResult(m, range, Tokens(p + ts));
    AgreeIff(m, DecodeMany(m, range, kv[id := ka], id, ts).0, yb, logits, kb, kvs, kv, id, |p|);
  }

  lemma TokenRowsJoin(m: Model, p: seq<int>, ts: seq<int>)
    ensures TokenRows(m, p + ts) == TokenRows(m, p) + TokenRows(m, ts)
  {
  }

  /** An input read as a + b: cached evaluation is exact. */
  lemma ReadAlike(m: Model, range: (int, int), a: seq<Vec>, b: seq<Vec>, whole: Tensor)
    requires m.Valid() && RangeOk(m, range) && range.1 == |m.layers| && PrefillInput(m, whole)
    requires Interpret(m, whole) == a + b && !IsTokenCell(m, whole)
    ensures RowsAgree(m, range, a, b, whole, |a|)
  {
    var ws := Slice(m, range);
    var (ya, ka) := Stack(m, ws, a, Empties(|ws|));
    StackInChunks(m, ws, a, b, Empties(|ws|));
    LaterLogits(m, ya, Stack(m, ws, b, ka).0);
  }

  lemma LaterLogits(m: Model, ya: seq<Vec>, yb: seq<Vec>)
    ensures forall j :: 0 <= j < |yb| ==> LogitRows(m, ya + yb)[|ya| + j] == Logits(m, yb[j])
  {
  }

  /** Without layers there is nothing to cache, and only the whole array has to be read rightly. */
  lemma NoLayersAlike(m: Model, range: (int, int), a: seq<Vec>, c: seq<Vec>, b: seq<Vec>, whole: Tensor)
    requires m.Valid() && RangeOk(m, range) && range.1 == |m.layers| <= range.0 && PrefillInput(m, whole)
    requires Interpret(m, whole) == c + b && !IsTokenCell(m, whole)
    ensures RowsAgree(m, range, a, b, whole, |c|)
  {
    LaterLogits(m, c, b);
  }

  /** With a layer, a prompt read as fewer rows leaves too short a cache. */
  lemma ShortCache(m: Model, range: (int, int), a: seq<Vec>, b: seq<Vec>, whole: Tensor, n: nat)
    requires m.Valid() && RangeOk(m, range) && range.0 < range.1 == |m.layers| && PrefillInput(m, whole)
    requires |a| < n && |Interpret(m, whole)| == n + |b|
    ensures !RowsAgree(m, range, a, b, whole, n)
  {
    var ws := Slice(m, range);
    TwoLengths(m, ws, a, b);
    CacheLengths(m, ws, Interpret(m, whole), Empties(|ws|), 0);
  }

  lemma TwoLengths(m: Model, ws: seq<LayerWeights>, a: seq<Vec>, b: seq<Vec>)
    requires m.Valid() && ws != []
    ensures var ka := Stack(m, ws, a, Empties(|ws|)).1;
            |Stack(m, ws, b, ka).1[0].k| == |a| + |b|
  {
    var ka := Stack(m, ws, a, Empties(|ws|)).1;
    CacheLengths(m, ws, a, Empties(|ws|), 0);
    CacheLengths(m, ws, b, ka, 0);
  }

  lemma DifferentUpdates<K, V>(m: map<K, V>, k: K, v: V, w: V)
    requires v != w
    ensures m[k := v] != m[k := w]
  {
    assert m[k := v][k] == v && m[k := w][k] == w;
  }

  /** On the rank that ends the stack, for every nonempty prompt: decoding after a prefill agrees
      with the full-sequence prefill exactly when the hidden size divides neither the number of all
      tokens nor, if there is a layer to cache for, that of the prompt's; with hidden size 1 always. */
  lemma DecodeMatchesPrefillIff(m: Model, range: (int, int), kv: Caches, id: string, p: seq<int>, ts: seq<int>)
    requires m.Valid() && RangeOk(m, range) && range.1 == |m.layers| && p != []
    ensures PrefillInput(m, Tokens(p)) && PrefillInput(m, Tokens(p + ts))
    ensures DecodesLikePrefill(m, range, kv, id, p, ts) <==>
            m.hidden == 1 ||
            (|p + ts| % m.hidden != 0 && (range.0 >= range.1 || |p| % m.hidden != 0))
  {
    TokensRead(m, p);
    TokensRead(m, p + ts);
    DecodesByRows(m, range, kv, id, p, ts);
    TokenRowsJoin(m, p, ts);
    var a, b, whole := Interpret(m, Tokens(p)), TokenRows(m, ts), Tokens(p + ts);
    if m.hidden == 1 || (!IsActivations(m, Tokens(p)) && !IsActivations(m, whole)) {
      ReadAlike(m, range, a, b, whole);
    } else if IsActivations(m, whole) {
      assert |PrefillResult(m, range, whole).0.rows| == |Interpret(m, whole)|;
    } else if range.0 >= range.1 {
      NoLayersAlike(m, range, a, TokenRows(m, p), b, whole);
    } else {
      ShortCache(m, range, a, b, whole, |p|);
    }
  }

  /** Row r of the logits holds the LM head of row r of the plain forward pass over these tokens. */
  ghost predicate ForwardLogits(m: Model, range: (int, int), ids: seq<int>, r: nat, logits: Vec)
    requires m.Valid() && RangeOk(m, range) && r < |ids|
  {
    var row := Forward.Forward(m, Slice(m, range), Embed(m, ids))[r];
    |logits| == m.vocab && forall i: nat :: i < m.vocab ==> logits[i] == m.lmHead(row, i)
  }

  lemma PromptIsForward(m: Model, range: (int, int), ids: seq<int>, r: nat)
    requires m.Valid() && RangeOk(m, range) && range.1 == |m.layers| && Exponential(m.exp)
    requires r < |ids| && |ids| % m.hidden != 0
    ensures PrefillInput(m, Tokens(ids))
    ensures var out := PrefillResult(m, range, Tokens(ids)).0;
            out.Matrix? && |out.rows| == |ids| && var ok := ForwardLogits(m, range, ids, r, out.rows[r]); ok
  {
    TokensRead(m, ids);
    PromptEmbedded(m, ids);
    Forward.PrefillIsForward(m, range, Tokens(ids));
  }

  lemma LikePrefillAt(m: Model, range: (int, int), kv: Caches, id: string, p: seq<int>, ts: seq<int>, j: nat)
    requires m.Valid() && RangeOk(m, range) && PrefillInput(m, Tokens(p)) && PrefillInput(m, Tokens(p + ts))
    requires j < |ts| && DecodesLikePrefill(m, range, kv, id, p, ts)
    ensures var kv' := kv[id := PrefillResult(m, range, Tokens(p)).1];
            var out := PrefillResult(m, range, Tokens(p + ts)).0;
            CachesFit(m, range, kv', [id]) &&
            (out.Matrix? && |out.rows| == |p + ts| ==>
               LastLogits(DecodeMany(m, range, kv', id, ts).0[j]) == out.rows[|p| + j])
  {
  }

  /** Each decoded token's logits are the LM head of the plain forward pass over all tokens. */
  lemma DecodeIsForward(m: Model, range: (int, int), kv: Caches, id: string, p: seq<int>, ts: seq<int>, j: nat)
    requires m.Valid() && RangeOk(m, range) && range.1 == |m.layers| && p != [] && j < |ts| && Exponential(m.exp)
    requires |p + ts| % m.hidden != 0 && |p| % m.hidden != 0
    ensures PrefillInput(m, Tokens(p))
    ensures var kv' := kv[id := PrefillResult(m, range, Tokens(p)).1];
            CachesFit(m, range, kv', [id]) &&
            var ok := ForwardLogits(m, range, p + ts, |p| + j, LastLogits(DecodeMany(m, range, kv', id, ts).0[j])); ok
  {
    DecodeMatchesPrefillIff(m, range, kv, id, p, ts);
    PromptIsForward(m, range, p + ts, |p| + j);
    LikePrefillAt(m, range, kv, id, p, ts, j);
  }

  // ---------------------------------------------------------------- the pipeline ring

  /** What an intermediate rank pushes on: several rows are cut to the last, then flattened. */
  function Hop(out: Tensor): (t: Tensor) {
    match out
    case Flat(_) => out
    case Matrix(rows, _) => if |rows| > 1 then Flat(rows[|rows| - 1]) else Flat(Concat(rows))
    case Cube(planes, _) =>
      if planes == [] then Flat([]) else Flat(Concat(planes[|planes| - 1]))
  }

  /** What the final rank pushes to the root: the logits of the last position. */
  function Final(out: Tensor): (t: Tensor) {
    match out
    case Flat(_) => out
    case Matrix(rows, _) => if |rows| > 1 then Flat(rows[|rows| - 1]) else out
    case Cube(planes, w) => if |planes| > 1 then Matrix(planes[|planes| - 1], w) else out
  }

  lemma ConcatOne(row: Vec)
    ensures Concat([row]) == row
  {
    assert [row][1..] == [] && row + [] == row;
  }

  /** Rows, or planes of one row each; at least one. */
  predicate HasRows(out: Tensor) {
    !out.Flat? && Shape(out)[0] > 0 && (out.Cube? ==> forall i :: 0 <= i < |out.planes| ==> |out.planes[i]| == 1)
  }

  /** An intermediate rank sends the last row of what it computed, the final rank the logits of the
      last position: of several along the first dimension only the last, which loses it. */
  lemma LastIsSent(out: Tensor)
    requires HasRows(out)
    ensures Hop(out) == Flat(LastLogits(out)) && LastLogits(Final(out)) == LastLogits(out)
    ensures |Shape(Final(out))| == if Shape(out)[0] > 1 then |Shape(out)| - 1 else |Shape(out)|
  {
    match out
    case Matrix(rows, _) =>
      if |rows| == 1 {
        assert rows == [rows[0]];
        ConcatOne(rows[0]);
      }
    case Cube(planes, _) =>
      var last := planes[|planes| - 1];
      assert last == [last[0]];
      ConcatOne(last[0]);
  }

  /** Each rank prefills its slice on what the previous one pushed; None when a rank is handed
      something it cannot read. Also returns the caches of all ranks, in rank order. */
  function Ring(m: Model, ranges: seq<(int, int)>, t: Tensor): (r: (Option<Tensor>, seq<KV>))
    requires m.Valid() && ranges != []
    decreases |ranges|
  {
    if !PrefillInput(m, t) then (None, []) else
      var (out, kvs) := PrefillResult(m, Clamp(m, ranges[0]), t);
      if |ranges| == 1 then (Some(Final(out)), kvs) else
        var (last, rest) := Ring(m, ranges[1..], Hop(out));
        (last, kvs + rest)
  }

  function PlanRanges(nodes: seq<Planner.NodeSpec>, layers: nat): (rs: seq<(int, int)>)
    requires nodes != []
    ensures |rs| == |nodes|
  {
    var plan := Planner.PipelinePlan(nodes, layers);
    seq(|nodes|, i requires 0 <= i < |nodes| => plan.perNode[i].ppLayers[0])
  }

  /** Emit and read back: activations survive the wire. */
  lemma HopPreservesRows(m: Model, xs: seq<Vec>)
    requires m.Valid() && Rows(m, xs) && xs != []
    ensures PrefillInput(m, Flat(Concat(xs))) && Interpret(m, Flat(Concat(xs))) == xs
  {
    ReshapeInvertsFlatten(xs, m.hidden);
    assert Concat(xs) != [] by { assert |xs[0]| == m.hidden; }
  }

  lemma RingStep(m: Model, ranges: seq<(int, int)>, t: Tensor)
    requires m.Valid() && PrefillInput(m, t) && |ranges| > 1
    requires RangeOk(m, ranges[0]) && ranges[0].1 < |m.layers|
    ensures var ws := Slice(m, ranges[0]);
            var (ys, kvs) := Stack(m, ws, Interpret(m, t), Empties(|ws|));
            var next := Flat(Concat(ys));
            var (last, rest) := Ring(m, ranges[1..], next);
            PrefillInput(m, next) && Interpret(m, next) == ys && Ring(m, ranges, t) == (last, kvs + rest)
  {
    var ws := Slice(m, ranges[0]);
    var ys := Stack(m, ws, Interpret(m, t), Empties(|ws|)).0;
    HopPreservesRows(m, ys);
  }

  /** Adjacent slices from layer s up to the top, only the last of which reaches it. */
  ghost predicate Chained(ranges: seq<(int, int)>, s: int, layers: nat) {
    ranges != [] && 0 <= s && ranges[0].0 == s <= ranges[0].1 <= layers &&
    if |ranges| == 1 then ranges[0].1 == layers
    else ranges[0].1 < layers && Chained(ranges[1..], ranges[0].1, layers)
  }

  lemma {:induction false} PlanIsChained(nodes: seq<Planner.NodeSpec>, layers: nat, i: nat)
    requires i < |nodes| && (|nodes| <= layers || |nodes| == 1)
    ensures Chained(PlanRanges(nodes, layers)[i..], Planner.Start(layers, |nodes|, i), layers)
    decreases |nodes| - i
  {
    var n := |nodes|;
    Planner.SlicesCover(layers, n);
    Planner.StartMonotone(layers, n, 0, i);
    Planner.StartMonotone(layers, n, i, i + 1);
    if i + 1 < n {
      Planner.OneRankEndsTheStack(layers, n);
      assert PlanRanges(nodes, layers)[i..][1..] == PlanRanges(nodes, layers)[i + 1..];
      PlanIsChained(nodes, layers, i + 1);
    }
  }

  lemma PlanStartsAtTheBottom(nodes: seq<Planner.NodeSpec>, layers: nat)
    requires nodes != [] && (|nodes| <= layers || |nodes| == 1)
    ensures Chained(PlanRanges(nodes, layers), 0, layers)
  {
    PlanIsChained(nodes, layers, 0);
    Planner.SlicesCover(layers, |nodes|);
    assert PlanRanges(nodes, layers)[0..] == PlanRanges(nodes, layers);
  }

  lemma CutLayers(m: Model, s: nat, e: nat)
    requires s <= e <= |m.layers|
    ensures m.layers[s..e] + m.layers[e..] == m.layers[s..]
    ensures Empties(e - s) + Empties(|m.layers| - e) == Empties(|m.layers| - s)
  {
  }

  lemma SplitAt(m: Model, s: nat, e: nat, xs: seq<Vec>)
    requires m.Valid() && s <= e <= |m.layers|
    ensures var (y, ku) := Stack(m, m.layers[s..e], xs, Empties(e - s));
            var (z, kw) := Stack(m, m.layers[e..], y, Empties(|m.layers| - e));
            Stack(m, m.layers[s..], xs, Empties(|m.layers| - s)) == (z, ku + kw)
  {
    StackSplits(m, m.layers[s..e], m.layers[e..], xs, Empties(e - s), Empties(|m.layers| - e));
    CutLayers(m, s, e);
  }

  lemma {:induction false} RingFrom(m: Model, ranges: seq<(int, int)>, s: nat, t: Tensor)
    requires m.Valid() && PrefillInput(m, t) && Chained(ranges, s, |m.layers|)
    ensures var (ys, kvs) := Stack(m, m.layers[s..], Interpret(m, t), Empties(|m.layers| - s));
            Ring(m, ranges, t) == (Some(Final(TopOut(m, ys, |ranges| == 1 && IsTokenCell(m, t)))), kvs)
    decreases |ranges|
  {
    var e := ranges[0].1;
    assert Slice(m, (s, e)) == m.layers[s..e];
    if |ranges| == 1 {
      assert m.layers[s..e] == m.layers[s..];
    } else {
      var xs := Interpret(m, t);
      var ys := Stack(m, m.layers[s..e], xs, Empties(e - s)).0;
      RingStep(m, ranges, t);
      RingFrom(m, ranges[1..], e, Flat(Concat(ys)));
      SplitAt(m, s, e, xs);
    }
  }

  lemma WholePrefill(m: Model, t: Tensor)
    requires m.Valid() && PrefillInput(m, t)
    ensures var (ys, kvs) := Stack(m, m.layers[0..], Interpret(m, t), Empties(|m.layers| - 0));
            PrefillResult(m, (0, |m.layers|), t) == (TopOut(m, ys, IsTokenCell(m, t)), kvs)
  {
    assert m.layers[0..] == m.layers == Slice(m, (0, |m.layers|));
  }

  /** The ring gives the single node's logits of the last position and its caches, in rank order;
      also in the single node's form, unless several ranks flattened a token cell on the way. */
  ghost predicate LikeSingleNode(m: Model, ranges: seq<(int, int)>, t: Tensor)
    requires m.Valid() && PrefillInput(m, t) && ranges != []
  {
    var (single, kvs) := PrefillResult(m, (0, |m.layers|), t);
    var (out, held) := Ring(m, ranges, t);
    out.Some? && held == kvs && LastLogits(out.value) == LastLogits(single) &&
    (|ranges| == 1 || !IsTokenCell(m, t) ==> out.value == Final(single))
  }

  lemma FinalLogits(m: Model, ys: seq<Vec>, cell: bool)
    requires ys != []
    ensures LastLogits(Final(TopOut(m, ys, cell))) == Logits(m, ys[|ys| - 1]) == LastLogits(TopOut(m, ys, cell))
  {
  }

  lemma RingOverChain(m: Model, ranges: seq<(int, int)>, t: Tensor)
    requires m.Valid() && PrefillInput(m, t) && Chained(ranges, 0, |m.layers|)
    ensures LikeSingleNode(m, ranges, t)
  {
    RingFrom(m, ranges, 0, t);
    WholePrefill(m, t);
    var (ys, kvs) := Stack(m, m.layers[0..], Interpret(m, t), Empties(|m.layers| - 0));
    SameLast(m, ranges, t, ys, kvs);
  }

  lemma SameLast(m: Model, ranges: seq<(int, int)>, t: Tensor, ys: seq<Vec>, kvs: seq<KV>)
    requires m.Valid() && PrefillInput(m, t) && ranges != [] && ys != []
    requires Ring(m, ranges, t) == (Some(Final(TopOut(m, ys, |ranges| == 1 && IsTokenCell(m, t)))), kvs)
    requires PrefillResult(m, (0, |m.layers|), t) == (TopOut(m, ys, IsTokenCell(m, t)), kvs)
    ensures LikeSingleNode(m, ranges, t)
  {
    FinalLogits(m, ys, |ranges| == 1 && IsTokenCell(m, t));
    FinalLogits(m, ys, IsTokenCell(m, t));
  }

  // ---------------------------------------------------------------- more ranks than layers

  /** A model of one hidden unit whose layers forget their input and whose LM head adds one. */
  function Forgetful(layers: nat): (m: Model)
    ensures m.Valid() && |m.layers| == layers
  {
    var w := LayerWeights((_, _) => 0.0, (_, _) => 0.0, (_, _) => 0.0, (_, _, _) => 0.0);
    Model(seq(layers, _ => w), 1, 1, 1, 1, 1, (_, _) => 0.0, (x, _) => if x == [] then 1.0 else x[0] + 1.0,
          (_, _) => 0.0, _ => 1.0)
  }

  lemma {:induction false} LayersForget(layers: nat, ws: seq<LayerWeights>, x: real, past: seq<KV>)
    requires |past| == |ws| && AllShaped(Forgetful(layers), past)
    requires forall i :: 0 <= i < |ws| ==> ws[i] in Forgetful(layers).layers
    ensures Stack(Forgetful(layers), ws, [[x]], past).0 == if ws == [] then [[x]] else [[0.0]]
    decreases |ws|
  {
    var m := Forgetful(layers);
    if ws != [] {
      var y := Layer(m, ws[0], [[x]], past[0]).0;
      assert y[0] == [0.0];
      assert y == [[0.0]];
      LayersForget(layers, ws[1..], 0.0, past[1..]);
    }
  }

  predicate OneNumber(t: Tensor, v: real) {
    t == Flat([v]) || t == Matrix([[v]], 1)
  }

  /** One rank of the forgetful model on one number: x, or the logit x + 1 at the top. */
  lemma ForgetfulRank(layers: nat, range: (int, int), t: Tensor, v: real) returns (x: real)
    requires RangeOk(Forgetful(layers), range) && OneNumber(t, v)
    ensures PrefillInput(Forgetful(layers), t) && (x == v || x == 0.0) && (range.0 >= range.1 ==> x == v)
    ensures range.0 < range.1 ==> x == 0.0
    ensures PrefillResult(Forgetful(layers), range, t).0 ==
            if range.1 == layers then Matrix([[x + 1.0]], 1) else Flat([x])
  {
    var m := Forgetful(layers);
    ReshapeByOne([v]);
    assert Reshape([v], 1) == [[v]];
    assert Interpret(m, t) == [[v]];
    var ws := Slice(m, range);
    LayersForget(layers, ws, v, Empties(|ws|));
    x := if ws == [] then v else 0.0;
    var xs := Stack(m, ws, Interpret(m, t), Empties(|ws|)).0;
    assert xs == [[x]];
    assert LogitRows(m, xs) == [[x + 1.0]] by {
      assert Logits(m, [x]) == [x + 1.0];
    }
    assert Concat([[x]]) == [x] + Concat([]) == [x];
  }

  lemma RingNext(m: Model, ranges: seq<(int, int)>, t: Tensor)
    requires m.Valid() && ranges != [] && RangeOk(m, ranges[0]) && PrefillInput(m, t)
    ensures var out := PrefillResult(m, ranges[0], t).0;
            Ring(m, ranges, t).0 == if |ranges| == 1 then Some(Final(out)) else Ring(m, ranges[1..], Hop(out)).0
  {
  }

  predicate Within(range: (int, int), layers: nat) {
    0 <= range.0 && range.1 <= layers
  }

  lemma ClimbStep(layers: nat, ranges: seq<(int, int)>, t: Tensor, v: real) returns (y: real)
    requires |ranges| > 1 && Within(ranges[0], layers) && OneNumber(t, v) && v >= 0.0
    ensures y >= 0.0 && (ranges[0].1 == layers ==> y >= 1.0)
    ensures Ring(Forgetful(layers), ranges, t).0 == Ring(Forgetful(layers), ranges[1..], Flat([y])).0
  {
    var m := Forgetful(layers);
    var x := ForgetfulRank(layers, ranges[0], t, v);
    y := if ranges[0].1 == layers then x + 1.0 else x;
    assert Concat([[y]]) == [y] + Concat([]) == [y];
    assert Hop(PrefillResult(m, ranges[0], t).0) == Flat([y]);
    RingNext(m, ranges, t);
  }

  lemma ClimbEnd(layers: nat, t: Tensor, v: real)
    requires OneNumber(t, v)
    ensures Ring(Forgetful(layers), [(layers, layers)], t).0 == Some(Matrix([[v + 1.0]], 1))
  {
    var x := ForgetfulRank(layers, (layers, layers), t, v);
    RingNext(Forgetful(layers), [(layers, layers)], t);
  }

  /** The last rank has no layers, and the one before ends at the top too; or the input comes from
      such a rank. */
  predicate TopTwice(layers: nat, ranges: seq<(int, int)>, v: real) {
    ranges != [] && v >= 0.0 && (forall i :: 0 <= i < |ranges| ==> Within(ranges[i], layers)) &&
    ranges[|ranges| - 1] == (layers, layers) &&
    if |ranges| == 1 then v >= 1.0 else ranges[|ranges| - 2].1 == layers
  }

  lemma TopTwiceOn(layers: nat, ranges: seq<(int, int)>, v: real, y: real)
    requires TopTwice(layers, ranges, v) && |ranges| > 1 && y >= 0.0 && (ranges[0].1 == layers ==> y >= 1.0)
    ensures TopTwice(layers, ranges[1..], y)
  {
  }

  predicate Climbed(out: Option<Tensor>) {
    out.Some? && |LastLogits(out.value)| == 1 && LastLogits(out.value)[0] >= 2.0
  }

  /** Two ranks at the top: the LM head is applied to its own logits. */
  lemma {:induction false} RingClimbs(layers: nat, ranges: seq<(int, int)>, t: Tensor, v: real)
    requires OneNumber(t, v) && TopTwice(layers, ranges, v)
    ensures Climbed(Ring(Forgetful(layers), ranges, t).0)
    decreases |ranges|
  {
    if |ranges| == 1 {
      assert ranges == [(layers, layers)];
      ClimbEnd(layers, t, v);
    } else {
      var y := ClimbStep(layers, ranges, t, v);
      TopTwiceOn(layers, ranges, v, y);
      RingClimbs(layers, ranges[1..], Flat([y]), y);
    }
  }

  lemma TooManyRanks(nodes: seq<Planner.NodeSpec>, layers: nat)
    requires layers < |nodes| && 1 < |nodes|
    ensures PrefillInput(Forgetful(layers), Flat([0.0]))
    ensures !LikeSingleNode(Forgetful(layers), PlanRanges(nodes, layers), Flat([0.0]))
  {
    var m, ranges, n := Forgetful(layers), PlanRanges(nodes, layers), |nodes|;
    Planner.SlicesCover(layers, n);
    Arith.QuotientUnique(layers, n, 0, layers);
    forall i | 0 <= i < n ensures Within(ranges[i], layers) {
      assert ranges[i] == (Planner.Start(layers, n, i), Planner.Start(layers, n, i + 1));
    }
    assert ranges[n - 1] == (layers, layers) && ranges[n - 2].1 == layers;
    var x := ForgetfulRank(layers, (0, layers), Flat([0.0]), 0.0);
    RingClimbs(layers, ranges, Flat([0.0]), 0.0);
  }

  /** For these nodes and this number of layers: the pipeline prefill is the single-node prefill,
      for every model and input, exactly when there are no more ranks than layers, or one rank. */
  lemma RingIsSingleNodeIff(nodes: seq<Planner.NodeSpec>, layers: nat)
    requires nodes != []
    ensures (forall m: Model, t: Tensor | m.Valid() && |m.layers| == layers && PrefillInput(m, t) ::
              LikeSingleNode(m, PlanRanges(nodes, layers), t)) <==> |nodes| <= layers || |nodes| == 1
  {
    if |nodes| <= layers || |nodes| == 1 {
      PlanStartsAtTheBottom(nodes, layers);
      forall m: Model, t: Tensor | m.Valid() && |m.layers| == layers && PrefillInput(m, t)
        ensures LikeSingleNode(m, PlanRanges(nodes, layers), t)
      {
        RingOverChain(m, PlanRanges(nodes, layers), t);
      }
    } else {
      TooManyRanks(nodes, layers);
    }
  }

  // ---------------------------------------------------------------- sliced decoding

  /** One decode step through the ranks on activation rows, each over its own caches. */
  function RankByRank(m: Model, slices: seq<seq<LayerWeights>>, xs: seq<Vec>, pasts: seq<seq<KV>>)
    : (r: (seq<Vec>, seq<seq<KV>>))
    requires m.Valid() && |slices| == |pasts|
    requires forall i :: 0 <= i < |slices| ==> |pasts[i]| == |slices[i]| && AllShaped(m, pasts[i])
    decreases |slices|
  {
    if slices == [] then (xs, []) else
      var (y, kvs) := Stack(m, slices[0], xs, pasts[0]);
      var (z, rest) := RankByRank(m, slices[1..], y, pasts[1..]);
      (z, [kvs] + rest)
  }

  /** Sliced decoding equals unsliced decoding over the concatenated caches. */
  lemma {:induction false} SlicedDecoding(m: Model, slices: seq<seq<LayerWeights>>, xs: seq<Vec>, pasts: seq<seq<KV>>)
    requires m.Valid() && |slices| == |pasts|
    requires forall i :: 0 <= i < |slices| ==> |pasts[i]| == |slices[i]| && AllShaped(m, pasts[i])
    ensures |Concat(pasts)| == |Concat(slices)| && AllShaped(m, Concat(pasts))
    ensures var (y, kvs) := RankByRank(m, slices, xs, pasts);
            Stack(m, Concat(slices), xs, Concat(pasts)) == (y, Concat(kvs))
    decreases |slices|
  {
    if slices != [] {
      var (y, kvs) := Stack(m, slices[0], xs, pasts[0]);
      SlicedDecoding(m, slices[1..], y, pasts[1..]);
      StackSplits(m, slices[0], Concat(slices[1..]), xs, pasts[0], Concat(pasts[1..]));
      var rest := RankByRank(m, slices[1..], y, pasts[1..]).1;
      assert ([kvs] + rest)[0] == kvs && ([kvs] + rest)[1..] == rest;
    }
  }

  // ---------------------------------------------------------------- the decode ring

  ghost predicate RankFits(m: Model, range: (int, int), cache: Caches, id: string) {
    RangeOk(m, range) && id in cache && Fits(m, range, cache[id])
  }

  ghost predicate RanksFit(m: Model, ranges: seq<(int, int)>, caches: seq<Caches>, id: string) {
    |caches| == |ranges| && forall i :: 0 <= i < |ranges| ==> RankFits(m, ranges[i], caches[i], id)
  }

  lemma RankDecodes(m: Model, range: (int, int), cache: Caches, id: string, x: Vec)
    requires m.Valid() && RankFits(m, range, cache, id) && |x| == m.hidden
    ensures CachesFit(m, range, cache, [id]) && DecodeInput(m, [id], Matrix([x], m.hidden))
    ensures var (y, kvs) := Stack(m, Slice(m, range), [x], cache[id]);
            |y[0]| == m.hidden && y == [y[0]] &&
            DecodeResult(m, range, cache, [id], Matrix([x], m.hidden)) ==
                (DecodeOut(m, range, y, true), cache[id := kvs])
  {
    assert CachesFit(m, range, cache, [id]);
    DecodeAlone(m, range, cache, id, Matrix([x], m.hidden));
    assert Rows(m, [x]);
  }

  /** `decode([id], [x])` for one activation row. */
  function RankDecode(m: Model, range: (int, int), cache: Caches, id: string, x: Vec): (r: (Tensor, Caches))
    requires m.Valid() && RankFits(m, range, cache, id) && |x| == m.hidden
  {
    RankDecodes(m, range, cache, id, x);
    DecodeResult(m, range, cache, [id], Matrix([x], m.hidden))
  }

  /** One activation row through `decode` on every rank, each over its own caches; also the
      caches the ranks end with. */
  function DecodeRing(m: Model, ranges: seq<(int, int)>, caches: seq<Caches>, id: string, x: Vec)
    : (r: (Tensor, seq<seq<KV>>))
    requires m.Valid() && |x| == m.hidden && ranges != [] && RanksFit(m, ranges, caches, id)
    decreases |ranges|
  {
    RankDecodes(m, ranges[0], caches[0], id, x);
    var (out, kv) := DecodeResult(m, ranges[0], caches[0], [id], Matrix([x], m.hidden));
    if |ranges| == 1 || ranges[0].1 == |m.layers| then (out, [kv[id]]) else
      var (last, rest) := DecodeRing(m, ranges[1..], caches[1..], id, out.rows[0]);
      (last, [kv[id]] + rest)
  }

  /** The request's caches on the ranks. */
  function Held(caches: seq<Caches>, id: string): (kvs: seq<seq<KV>>)
    requires forall i :: 0 <= i < |caches| ==> id in caches[i]
    ensures |kvs| == |caches|
  {
    seq(|caches|, i requires 0 <= i < |caches| => caches[i][id])
  }

  function Slices(m: Model, ranges: seq<(int, int)>): (slices: seq<seq<LayerWeights>>)
    requires forall i :: 0 <= i < |ranges| ==> RangeOk(m, ranges[i])
    ensures |slices| == |ranges|
  {
    seq(|ranges|, i requires 0 <= i < |ranges| => Slice(m, ranges[i]))
  }

  ghost predicate Paired(m: Model, slices: seq<seq<LayerWeights>>, pasts: seq<seq<KV>>) {
    |slices| == |pasts| && forall i :: 0 <= i < |slices| ==> |pasts[i]| == |slices[i]| && AllShaped(m, pasts[i])
  }

  lemma RanksPaired(m: Model, ranges: seq<(int, int)>, caches: seq<Caches>, id: string)
    requires RanksFit(m, ranges, caches, id)
    ensures Paired(m, Slices(m, ranges), Held(caches, id))
  {
    forall i | 0 <= i < |ranges|
      ensures |Held(caches, id)[i]| == |Slices(m, ranges)[i]| && AllShaped(m, Held(caches, id)[i])
    {
      assert RankFits(m, ranges[i], caches[i], id);
    }
  }

  lemma FirstRank(m: Model, ranges: seq<(int, int)>, caches: seq<Caches>, id: string)
    requires RanksFit(m, ranges, caches, id) && ranges != []
    ensures RankFits(m, ranges[0], caches[0], id) && RanksFit(m, ranges[1..], caches[1..], id)
    ensures Slices(m, ranges)[0] == Slice(m, ranges[0]) && Slices(m, ranges)[1..] == Slices(m, ranges[1..])
    ensures Held(caches, id)[0] == caches[0][id] && Held(caches, id)[1..] == Held(caches[1..], id)
  {
  }

  lemma {:induction false} DecodeRingIsRankByRank(m: Model, ranges: seq<(int, int)>, s: nat, caches: seq<Caches>,
                                                  id: string, x: Vec)
    requires m.Valid() && |x| == m.hidden && RanksFit(m, ranges, caches, id) && Chained(ranges, s, |m.layers|)
    ensures Paired(m, Slices(m, ranges), Held(caches, id))
    ensures var (y, kvs) := RankByRank(m, Slices(m, ranges), [x], Held(caches, id));
            var (out, held) := DecodeRing(m, ranges, caches, id, x);
            |y| == 1 && LastLogits(out) == Logits(m, y[0]) && held == kvs
    decreases |ranges|
  {
    RanksPaired(m, ranges, caches, id);
    FirstRank(m, ranges, caches, id);
    RankDecodes(m, ranges[0], caches[0], id, x);
    var (y, kvs) := Stack(m, Slice(m, ranges[0]), [x], caches[0][id]);
    if |ranges| == 1 {
      assert RankByRank(m, Slices(m, ranges)[1..], y, Held(caches, id)[1..]) == (y, []);
      assert [kvs] + [] == [kvs];
      TopLogits(m, ranges[0], y, true);
    } else {
      DecodeRingIsRankByRank(m, ranges[1..], ranges[0].1, caches[1..], id, y[0]);
    }
  }

  lemma {:induction false} SlicesJoin(m: Model, ranges: seq<(int, int)>, s: nat)
    requires Chained(ranges, s, |m.layers|) && forall i :: 0 <= i < |ranges| ==> RangeOk(m, ranges[i])
    ensures Concat(Slices(m, ranges)) == m.layers[s..]
    decreases |ranges|
  {
    var e := ranges[0].1;
    assert Slices(m, ranges)[0] == m.layers[s..e];
    if |ranges| == 1 {
      assert Slices(m, ranges)[1..] == [];
    } else {
      assert Slices(m, ranges)[1..] == Slices(m, ranges[1..]);
      SlicesJoin(m, ranges[1..], e);
    }
  }

  lemma DecodeRingIsStack(m: Model, ranges: seq<(int, int)>, caches: seq<Caches>, id: string, x: Vec)
    requires m.Valid() && |x| == m.hidden && RanksFit(m, ranges, caches, id) && Chained(ranges, 0, |m.layers|)
    ensures |Concat(Held(caches, id))| == |m.layers| && AllShaped(m, Concat(Held(caches, id)))
    ensures var (y, kvs) := Stack(m, m.layers, [x], Concat(Held(caches, id)));
            var (last, held) := DecodeRing(m, ranges, caches, id, x);
            |y| == 1 && LastLogits(last) == Logits(m, y[0]) && Concat(held) == kvs
  {
    DecodeRingIsRankByRank(m, ranges, 0, caches, id, x);
    SlicedDecoding(m, Slices(m, ranges), [x], Held(caches, id));
    SlicesJoin(m, ranges, 0);
    assert m.layers[0..] == m.layers;
  }

  lemma DecodeRingOverChain(m: Model, ranges: seq<(int, int)>, caches: seq<Caches>, id: string, x: Vec, single: Caches)
    requires m.Valid() && |x| == m.hidden && RanksFit(m, ranges, caches, id) && Chained(ranges, 0, |m.layers|)
    requires id in single && single[id] == Concat(Held(caches, id))
    ensures RankFits(m, (0, |m.layers|), single, id)
    ensures var (out, kv) := RankDecode(m, (0, |m.layers|), single, id, x);
            var (last, held) := DecodeRing(m, ranges, caches, id, x);
            LastLogits(last) == LastLogits(out) && kv == single[id := Concat(held)]
  {
    DecodeRingIsStack(m, ranges, caches, id, x);
    assert m.layers == Slice(m, (0, |m.layers|));
    RankDecodes(m, (0, |m.layers|), single, id, x);
    TopLogits(m, (0, |m.layers|), Stack(m, m.layers, [x], single[id]).0, true);
  }

  /** Pipeline decode of an activation row is the single-node decode over the concatenated
      caches, and the ranks' new caches concatenate to the single node's. */
  lemma DecodeRingIsSingleNode(m: Model, nodes: seq<Planner.NodeSpec>, ranges: seq<(int, int)>, caches: seq<Caches>,
                               id: string, x: Vec, single: Caches)
    requires m.Valid() && |x| == m.hidden && nodes != [] && (|nodes| <= |m.layers| || |nodes| == 1)
    requires ranges == PlanRanges(nodes, |m.layers|) && RanksFit(m, ranges, caches, id)
    requires id in single && single[id] == Concat(Held(caches, id))
    ensures RankFits(m, (0, |m.layers|), single, id)
    ensures var (out, kv) := RankDecode(m, (0, |m.layers|), single, id, x);
            var (last, held) := DecodeRing(m, ranges, caches, id, x);
            LastLogits(last) == LastLogits(out) && kv == single[id := Concat(held)]
  {
    PlanStartsAtTheBottom(nodes, |m.layers|);
    DecodeRingOverChain(m, ranges, caches, id, x, single);
  }
}
