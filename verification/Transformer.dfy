/** The decoder arithmetic of the numpy backend: one attention layer over a key/value
    cache, a stack of layers, and the flatten/reshape pair that carries activations
    between ranks. Per-row maps (norms, projections, feed-forward, embedding, LM head)
    are the function fields of a Model; everything that mixes rows is concrete. */
module Transformer {
  import Arith
  import opened Sequences
  import opened Softmax

  type Vec = seq<real>
  type Heads = seq<Vec>

  /** One block's per-row maps, column by column. `finish` is the residual sum, the
      output projection and the gated feed-forward of one row. */
  datatype LayerWeights = LayerWeights(
    wq: (Vec, nat) -> real,
    wk: (Vec, nat) -> real,
    wv: (Vec, nat) -> real,
    finish: (Vec, Vec, nat) -> real)

  datatype Model = Model(
    layers: seq<LayerWeights>,
    hidden: nat,
    heads: nat,
    kvHeads: nat,
    headDim: nat,
    vocab: nat,
    embed: (int, nat) -> real,
    lmHead: (Vec, nat) -> real,
    score: (Vec, Vec) -> real,
    exp: real -> Positive)
  {
    predicate Valid() {
      0 < hidden && 0 < kvHeads && 0 < headDim && 0 < vocab &&
      heads % kvHeads == 0 && heads * headDim == hidden
    }

    /** np.repeat along the head axis: attention head h reads key/value head h / repeats. */
    function KvHead(h: nat): (g: nat)
      requires Valid() && h < heads
      ensures g < kvHeads
    {
      Repeats(heads, kvHeads, h);
      h / (heads / kvHeads)
    }
  }

  lemma Repeats(heads: nat, kvHeads: nat, h: nat)
    requires 0 < kvHeads && heads % kvHeads == 0 && h < heads
    ensures 0 < heads / kvHeads
    ensures h / (heads / kvHeads) < kvHeads
  {
    var r := heads / kvHeads;
    assert heads == kvHeads * r;
    assert r != 0;
    var g := h / r;
    assert r * g <= h;
    assert r * g < r * kvHeads;
  }

  /** The per-layer cache: one key row and one value row per position. */
  datatype KV = KV(k: seq<Heads>, v: seq<Heads>)

  const EMPTY := KV([], [])

  ghost predicate HeadsShaped(rows: seq<Heads>, n: nat, dim: nat) {
    forall c :: 0 <= c < |rows| ==> |rows[c]| == n && forall h :: 0 <= h < n ==> |rows[c][h]| == dim
  }

  ghost predicate Shaped(m: Model, kv: KV) {
    |kv.k| == |kv.v| && HeadsShaped(kv.k, m.kvHeads, m.headDim) && HeadsShaped(kv.v, m.kvHeads, m.headDim)
  }

  ghost predicate AllShaped(m: Model, kvs: seq<KV>) {
    forall j :: 0 <= j < |kvs| ==> Shaped(m, kvs[j])
  }

  // ---------------------------------------------------------------- weighted values

  /** One lane of `attn @ v`: the probabilities against one column of values. */
  function Mix(p: seq<real>, v: seq<real>): real
    requires |p| == |v|
  {
    if p == [] then 0.0 else Mix(p[..|p|-1], v[..|v|-1]) + p[|p|-1] * v[|v|-1]
  }

  lemma {:induction false} MixIgnoresZeroTail(p: seq<real>, v: seq<real>, w: seq<real>)
    requires |p| == |v|
    ensures Mix(p + Zeros(|w|), v + w) == Mix(p, v)
  {
    if w == [] {
      assert p + Zeros(0) == p && v + w == v;
    } else {
      var n := |w|;
      assert (p + Zeros(n))[..|p| + n - 1] == p + Zeros(n - 1);
      assert (v + w)[..|v| + n - 1] == v + w[..n-1];
      MixIgnoresZeroTail(p, v, w[..n-1]);
    }
  }

  // ---------------------------------------------------------------- attention

  /** `(a @ W).reshape(n, heads, dim)` for one row: head h, lane d is column h * dim + d. */
  function Project(w: (Vec, nat) -> real, x: Vec, heads: nat, dim: nat): (p: Heads)
    ensures |p| == heads && forall h :: 0 <= h < heads ==> |p[h]| == dim
  {
    seq(heads, (h: nat) => seq(dim, (d: nat) => w(x, h * dim + d)))
  }

  /** The scores of one query row against every cached key; `triu(k = q_off + 1)`
      excludes column c exactly when c > r + q_off = limit. */
  function Scores(m: Model, q: Vec, keys: seq<Heads>, g: nat, limit: nat): (s: seq<Score>)
    requires g < m.kvHeads && HeadsShaped(keys, m.kvHeads, m.headDim)
    ensures |s| == |keys|
  {
    seq(|keys|, c requires 0 <= c < |keys| => if c > limit then Excluded else At(m.score(q, keys[c][g])))
  }

  function Lane(m: Model, vals: seq<Heads>, g: nat, d: nat): (l: seq<real>)
    requires g < m.kvHeads && d < m.headDim && HeadsShaped(vals, m.kvHeads, m.headDim)
    ensures |l| == |vals|
  {
    seq(|vals|, c requires 0 <= c < |vals| => vals[c][g][d])
  }

  function HeadOut(m: Model, q: Vec, kv: KV, g: nat, limit: nat): (o: Vec)
    requires Shaped(m, kv) && kv.k != [] && g < m.kvHeads
    ensures |o| == m.headDim
  {
    var s := Scores(m, q, kv.k, g, limit);
    assert s[0].At?;
    var p := Probabilities(m.exp, s);
    seq(m.headDim, d requires 0 <= d < m.headDim => Mix(p, Lane(m, kv.v, g, d)))
  }

  function Attend(m: Model, q: Heads, kv: KV, limit: nat): (o: Vec)
    requires m.Valid() && Shaped(m, kv) && kv.k != [] && |q| == m.heads
  {
    Concat(seq(m.heads, h requires 0 <= h < m.heads => HeadOut(m, q[h], kv, m.KvHead(h), limit)))
  }

  function Append(a: KV, b: KV): KV {
    KV(a.k + b.k, a.v + b.v)
  }

  /** Causality of one head: columns beyond the limit do not influence the row. */
  lemma HeadIsCausal(m: Model, q: Vec, kv: KV, later: KV, g: nat, limit: nat)
    requires Shaped(m, kv) && Shaped(m, later) && g < m.kvHeads && limit < |kv.k|
    ensures Shaped(m, Append(kv, later))
    ensures HeadOut(m, q, Append(kv, later), g, limit) == HeadOut(m, q, kv, g, limit)
  {
    var all, n := Append(kv, later), |later.k|;
    var s := Scores(m, q, kv.k, g, limit);
    assert s[0].At?;
    assert Scores(m, q, all.k, g, limit) == s + Masked(n);
    SoftmaxIgnoresMaskedTail(m.exp, s, n);
    var p := Probabilities(m.exp, s);
    var x, y := HeadOut(m, q, all, g, limit), HeadOut(m, q, kv, g, limit);
    forall d | 0 <= d < m.headDim ensures x[d] == y[d] {
      assert Lane(m, all.v, g, d) == Lane(m, kv.v, g, d) + Lane(m, later.v, g, d);
      MixIgnoresZeroTail(p, Lane(m, kv.v, g, d), Lane(m, later.v, g, d));
    }
  }

  lemma AttendIsCausal(m: Model, q: Heads, kv: KV, later: KV, limit: nat)
    requires m.Valid() && Shaped(m, kv) && Shaped(m, later) && |q| == m.heads && limit < |kv.k|
    ensures Shaped(m, Append(kv, later))
    ensures Attend(m, q, Append(kv, later), limit) == Attend(m, q, kv, limit)
  {
    var all := Append(kv, later);
    assert Shaped(m, all);
    var a := seq(m.heads, h requires 0 <= h < m.heads => HeadOut(m, q[h], all, m.KvHead(h), limit));
    var b := seq(m.heads, h requires 0 <= h < m.heads => HeadOut(m, q[h], kv, m.KvHead(h), limit));
    forall h | 0 <= h < m.heads ensures a[h] == b[h] {
      HeadIsCausal(m, q[h], kv, later, m.KvHead(h), limit);
    }
    assert a == b;
  }

  // ---------------------------------------------------------------- layers

  function NewKV(m: Model, w: LayerWeights, xs: seq<Vec>): (kv: KV)
    ensures Shaped(m, kv) && |kv.k| == |xs|
  {
    KV(seq(|xs|, r requires 0 <= r < |xs| => Project(w.wk, xs[r], m.kvHeads, m.headDim)),
       seq(|xs|, r requires 0 <= r < |xs| => Project(w.wv, xs[r], m.kvHeads, m.headDim)))
  }

  function RowOut(m: Model, w: LayerWeights, x: Vec, kv: KV, limit: nat): (y: Vec)
    requires m.Valid() && Shaped(m, kv) && kv.k != []
    ensures |y| == m.hidden
  {
    var o := Attend(m, Project(w.wq, x, m.heads, m.headDim), kv, limit);
    seq(m.hidden, (j: nat) => w.finish(x, o, j))
  }

  function LayerRows(m: Model, w: LayerWeights, xs: seq<Vec>, kv: KV, offset: nat): (ys: seq<Vec>)
    requires m.Valid() && Shaped(m, kv) && (xs != [] ==> kv.k != [])
    ensures |ys| == |xs|
    ensures Rows(m, ys)
  {
    seq(|xs|, (r: nat) requires r < |xs| => RowOut(m, w, xs[r], kv, offset + r))
  }

  ghost predicate Rows(m: Model, xs: seq<Vec>) {
    forall r :: 0 <= r < |xs| ==> |xs[r]| == m.hidden
  }

  /** `_layer`: extends the cache by the new rows and returns the new hidden rows. */
  function Layer(m: Model, w: LayerWeights, xs: seq<Vec>, past: KV): (r: (seq<Vec>, KV))
    requires m.Valid() && Shaped(m, past)
    ensures |r.0| == |xs| && Rows(m, r.0)
    ensures Shaped(m, r.1) && |r.1.k| == |past.k| + |xs|
  {
    var kv := Append(past, NewKV(m, w, xs));
    (LayerRows(m, w, xs, kv, |past.k|), kv)
  }

  lemma ChunkedCache(m: Model, w: LayerWeights, a: seq<Vec>, b: seq<Vec>, past: KV)
    ensures Append(past, NewKV(m, w, a + b)) == Append(Append(past, NewKV(m, w, a)), NewKV(m, w, b))
  {
    var ka, kb, k := NewKV(m, w, a), NewKV(m, w, b), NewKV(m, w, a + b);
    assert k.k == ka.k + kb.k && k.v == ka.v + kb.v;
    assert past.k + (ka.k + kb.k) == (past.k + ka.k) + kb.k;
    assert past.v + (ka.v + kb.v) == (past.v + ka.v) + kb.v;
  }

  /** Later rows do not influence the rows of a. */
  lemma EarlierRows(m: Model, w: LayerWeights, a: seq<Vec>, kv: KV, later: KV, offset: nat)
    requires m.Valid() && Shaped(m, kv) && Shaped(m, later) && |kv.k| == offset + |a|
    ensures Shaped(m, Append(kv, later))
    ensures LayerRows(m, w, a, Append(kv, later), offset) == LayerRows(m, w, a, kv, offset)
  {
    assert Shaped(m, Append(kv, later));
    var x, y := LayerRows(m, w, a, Append(kv, later), offset), LayerRows(m, w, a, kv, offset);
    forall r | 0 <= r < |a| ensures x[r] == y[r] {
      AttendIsCausal(m, Project(w.wq, a[r], m.heads, m.headDim), kv, later, offset + r);
    }
  }

  lemma RowsConcat(m: Model, w: LayerWeights, a: seq<Vec>, b: seq<Vec>, kv: KV, offset: nat)
    requires m.Valid() && Shaped(m, kv) && (a + b != [] ==> kv.k != [])
    ensures LayerRows(m, w, a + b, kv, offset) == LayerRows(m, w, a, kv, offset) + LayerRows(m, w, b, kv, offset + |a|)
  {
    var x, y := LayerRows(m, w, a + b, kv, offset), LayerRows(m, w, a, kv, offset);
    var z := LayerRows(m, w, b, kv, offset + |a|);
    forall r | 0 <= r < |x| ensures x[r] == (y + z)[r] {
      if r >= |a| {
        assert offset + r == offset + |a| + (r - |a|) && (a + b)[r] == b[r - |a|];
      }
    }
  }

  /** Running rows a and then rows b over the extended cache is running a + b. */
  lemma LayerInChunks(m: Model, w: LayerWeights, a: seq<Vec>, b: seq<Vec>, past: KV)
    requires m.Valid() && Shaped(m, past)
    ensures var (ya, ka) := Layer(m, w, a, past);
            var (yb, kb) := Layer(m, w, b, ka);
            Layer(m, w, a + b, past) == (ya + yb, kb)
  {
    ChunkedCache(m, w, a, b, past);
    var ka := Append(past, NewKV(m, w, a));
    EarlierRows(m, w, a, ka, NewKV(m, w, b), |past.k|);
    RowsConcat(m, w, a, b, Append(ka, NewKV(m, w, b)), |past.k|);
  }

  /** The layer loop shared by `prefill` (past caches empty) and `decode`. */
  function Stack(m: Model, ws: seq<LayerWeights>, xs: seq<Vec>, past: seq<KV>): (r: (seq<Vec>, seq<KV>))
    requires m.Valid() && |past| == |ws| && AllShaped(m, past)
    ensures |r.0| == |xs| && |r.1| == |ws| && AllShaped(m, r.1)
    ensures Rows(m, xs) || ws != [] ==> Rows(m, r.0)
    decreases |ws|
  {
    if ws == [] then (xs, []) else
      var (y, kv) := Layer(m, ws[0], xs, past[0]);
      var (z, kvs) := Stack(m, ws[1..], y, past[1..]);
      (z, [kv] + kvs)
  }

  lemma StackAt(m: Model, ws: seq<LayerWeights>, xs: seq<Vec>, past: seq<KV>, k: nat)
    requires m.Valid() && |past| == |ws| && AllShaped(m, past) && k < |ws|
    ensures var (y, kv) := Layer(m, ws[k], xs, past[k]);
            var (z, kvs) := Stack(m, ws[k + 1..], y, past[k + 1..]);
            Stack(m, ws[k..], xs, past[k..]) == (z, [kv] + kvs)
  {
    assert ws[k..][0] == ws[k] && ws[k..][1..] == ws[k + 1..];
    assert past[k..][0] == past[k] && past[k..][1..] == past[k + 1..];
  }

  function Empties(n: nat): (kvs: seq<KV>)
    ensures |kvs| == n
    ensures forall j :: 0 <= j < n ==> kvs[j] == EMPTY
  {
    seq(n, _ => EMPTY)
  }

  /** Causality of the whole stack, on any cache: chunked evaluation is exact. */
  lemma {:induction false} StackInChunks(m: Model, ws: seq<LayerWeights>, a: seq<Vec>, b: seq<Vec>, past: seq<KV>)
    requires m.Valid() && |past| == |ws| && AllShaped(m, past)
    ensures var (ya, ka) := Stack(m, ws, a, past);
            var (yb, kb) := Stack(m, ws, b, ka);
            Stack(m, ws, a + b, past) == (ya + yb, kb)
    decreases |ws|
  {
    if ws != [] {
      LayerInChunks(m, ws[0], a, b, past[0]);
      var (ya, ka) := Layer(m, ws[0], a, past[0]);
      var (yb, kb) := Layer(m, ws[0], b, ka);
      StackInChunks(m, ws[1..], ya, yb, past[1..]);
      var (za, ca) := Stack(m, ws[1..], ya, past[1..]);
      assert ([ka] + ca)[0] == ka && ([ka] + ca)[1..] == ca;
    }
  }

  /** A stack split between two ranks: rows flow through, caches concatenate. */
  lemma {:induction false} StackSplits(m: Model, u: seq<LayerWeights>, w: seq<LayerWeights>, xs: seq<Vec>,
                                       pu: seq<KV>, pw: seq<KV>)
    requires m.Valid() && |pu| == |u| && |pw| == |w| && AllShaped(m, pu) && AllShaped(m, pw)
    ensures AllShaped(m, pu + pw)
    ensures var (y, ku) := Stack(m, u, xs, pu);
            var (z, kw) := Stack(m, w, y, pw);
            Stack(m, u + w, xs, pu + pw) == (z, ku + kw)
    decreases |u|
  {
    if u == [] {
      assert u + w == w && pu + pw == pw;
      var (z, kw) := Stack(m, w, xs, pw);
      assert [] + kw == kw;
    } else {
      assert (u + w)[0] == u[0] && (u + w)[1..] == u[1..] + w;
      assert (pu + pw)[0] == pu[0] && (pu + pw)[1..] == pu[1..] + pw;
      var (y, kv) := Layer(m, u[0], xs, pu[0]);
      StackSplits(m, u[1..], w, y, pu[1..], pw);
      var (y', ku) := Stack(m, u[1..], y, pu[1..]);
      var (z, kw) := Stack(m, w, y', pw);
      assert [kv] + (ku + kw) == ([kv] + ku) + kw;
    }
  }

  /** Feeding rows one at a time, as successive single-token `decode` calls do. */
  function RowByRow(m: Model, ws: seq<LayerWeights>, xs: seq<Vec>, past: seq<KV>): (r: (seq<Vec>, seq<KV>))
    requires m.Valid() && |past| == |ws| && AllShaped(m, past)
    ensures |r.0| == |xs| && |r.1| == |ws| && AllShaped(m, r.1)
  {
    if xs == [] then ([], past) else
      var (y, kvs) := Stack(m, ws, xs[..1], past);
      var (ys, done) := RowByRow(m, ws, xs[1..], kvs);
      (y + ys, done)
  }

  lemma {:induction false} StackOfNothing(m: Model, ws: seq<LayerWeights>, past: seq<KV>)
    requires m.Valid() && |past| == |ws| && AllShaped(m, past)
    ensures Stack(m, ws, [], past) == ([], past)
    decreases |ws|
  {
    if ws != [] {
      var (y, kv) := Layer(m, ws[0], [], past[0]);
      assert y == [] && kv == past[0];
      StackOfNothing(m, ws[1..], past[1..]);
      assert [past[0]] + past[1..] == past;
    }
  }

  /** Row-at-a-time evaluation over any cache equals evaluating all rows at once. */
  lemma {:induction false} RowByRowIsStack(m: Model, ws: seq<LayerWeights>, xs: seq<Vec>, past: seq<KV>)
    requires m.Valid() && |past| == |ws| && AllShaped(m, past)
    ensures RowByRow(m, ws, xs, past) == Stack(m, ws, xs, past)
    decreases |xs|
  {
    if xs == [] {
      StackOfNothing(m, ws, past);
    } else {
      var (y, kvs) := Stack(m, ws, xs[..1], past);
      RowByRowIsStack(m, ws, xs[1..], kvs);
      StackInChunks(m, ws, xs[..1], xs[1..], past);
      assert xs == xs[..1] + xs[1..];
    }
  }

  // ---------------------------------------------------------------- flatten and reshape

  function Reshape(v: Vec, width: nat): (rows: seq<Vec>)
    requires 0 < width && |v| % width == 0
    ensures forall r :: 0 <= r < |rows| ==> |rows[r]| == width
    decreases |v|
  {
    if v == [] then [] else
      Arith.OneLess(|v|, width);
      [v[..width]] + Reshape(v[width..], width)
  }

  lemma {:induction false} ConcatLength(rows: seq<Vec>, width: nat)
    requires 0 < width && forall r :: 0 <= r < |rows| ==> |rows[r]| == width
    ensures |Concat(rows)| == |rows| * width
    ensures |Concat(rows)| % width == 0
  {
    Arith.WholeMultiple(|rows|, width);
    if rows != [] {
      ConcatLength(rows[1..], width);
      assert |rows| * width == (|rows| - 1) * width + width;
    }
  }

  lemma {:induction false} ReshapeInvertsFlatten(rows: seq<Vec>, width: nat)
    requires 0 < width && forall r :: 0 <= r < |rows| ==> |rows[r]| == width
    ensures |Concat(rows)| % width == 0
    ensures Reshape(Concat(rows), width) == rows
  {
    ConcatLength(rows, width);
    if rows != [] {
      ReshapeInvertsFlatten(rows[1..], width);
      var f := Concat(rows);
      assert f[..width] == rows[0] && f[width..] == Concat(rows[1..]);
      assert f != [];
      assert rows == [rows[0]] + rows[1..];
    }
  }

  lemma {:induction false} ReshapeCount(v: Vec, width: nat)
    requires 0 < width && |v| % width == 0
    ensures |Reshape(v, width)| * width == |v|
    decreases |v|
  {
    if v != [] {
      Arith.OneLess(|v|, width);
      ReshapeCount(v[width..], width);
    }
  }
}
