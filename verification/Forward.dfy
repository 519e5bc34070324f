/** The plain forward pass, without caches, masks, shifts or slices: what the backend's layers
    compute. */
module Forward {
  import opened Transformer
  import opened NumpyBackend
  import opened Sequences
  import opened Softmax
  import opened Wrappers
  import Arith

  // ---------------------------------------------------------------- attention as a weighted mean

  /** The exponentials of one query's scores against the first n keys. */
  function Mass(m: Model, q: Vec, keys: seq<Vec>, n: nat): real
    requires n <= |keys|
  {
    if n == 0 then 0.0 else Mass(m, q, keys, n - 1) + m.exp(m.score(q, keys[n - 1]))
  }

  /** And the first n values weighted by them. */
  function Blend(m: Model, q: Vec, keys: seq<Vec>, vals: seq<real>, n: nat): real
    requires n <= |keys| && n <= |vals|
  {
    if n == 0 then 0.0 else Blend(m, q, keys, vals, n - 1) + m.exp(m.score(q, keys[n - 1])) * vals[n - 1]
  }

  lemma {:induction false} MassPositive(m: Model, q: Vec, keys: seq<Vec>, n: nat)
    requires 0 < n <= |keys|
    ensures Mass(m, q, keys, n) > 0.0
  {
    if n > 1 {
      MassPositive(m, q, keys, n - 1);
    }
  }

  /** The keys of one key/value head. */
  function HeadKeys(m: Model, keys: seq<Heads>, g: nat): (ks: seq<Vec>)
    requires g < m.kvHeads && HeadsShaped(keys, m.kvHeads, m.headDim)
    ensures |ks| == |keys|
  {
    seq(|keys|, c requires 0 <= c < |keys| => keys[c][g])
  }

  lemma TimesQuotient(a: real, t: real, v: real)
    requires t > 0.0
    ensures (a / t) * v == (a * v) / t
  {
    var x := a / t;
    assert x * t == a;
    assert (x * v) * t == (x * t) * v;
  }

  /** With all columns included. */
  lemma {:induction false} MixIsBlend(m: Model, q: Vec, keys: seq<Vec>, vals: seq<real>, p: seq<real>, t: real, n: nat)
    requires |p| == |vals| == |keys| && t > 0.0 && n <= |keys|
    requires forall c :: 0 <= c < |keys| ==> p[c] == m.exp(m.score(q, keys[c])) / t
    ensures Mix(p[..n], vals[..n]) == Blend(m, q, keys, vals, n) / t
  {
    if n == 0 {
      Quotients(0.0, 0.0, t);
    } else {
      MixIsBlend(m, q, keys, vals, p, t, n - 1);
      assert p[..n][..n - 1] == p[..n - 1] && vals[..n][..n - 1] == vals[..n - 1];
      var e := m.exp(m.score(q, keys[n - 1]));
      TimesQuotient(e, t, vals[n - 1]);
      Quotients(Blend(m, q, keys, vals, n - 1), e * vals[n - 1], t);
    }
  }

  lemma {:induction false} DenominatorIsMass(m: Model, q: Vec, keys: seq<Vec>, s: seq<Score>, n: nat)
    requires |s| == |keys| && n <= |s| && forall c :: 0 <= c < |s| ==> s[c] == At(m.score(q, keys[c]))
    ensures Denominator(m.exp, s, n) == Mass(m, q, keys, n)
  {
    if n > 0 {
      DenominatorIsMass(m, q, keys, s, n - 1);
    }
  }

  /** A head over a cache that ends with the row's own column. */
  lemma WholeHead(m: Model, q: Vec, kv: KV, g: nat, d: nat)
    requires Shaped(m, kv) && kv.k != [] && g < m.kvHeads && d < m.headDim && Exponential(m.exp)
    ensures var n, ks := |kv.k|, HeadKeys(m, kv.k, g);
            Mass(m, q, ks, n) > 0.0 &&
            HeadOut(m, q, kv, g, n - 1)[d] == Blend(m, q, ks, Lane(m, kv.v, g, d), n) / Mass(m, q, ks, n)
  {
    var n, ks, vs := |kv.k|, HeadKeys(m, kv.k, g), Lane(m, kv.v, g, d);
    var s := Scores(m, q, kv.k, g, n - 1);
    assert s[0].At?;
    DenominatorIsMass(m, q, ks, s, n);
    MassPositive(m, q, ks, n);
    var p := Probabilities(m.exp, s);
    forall c | 0 <= c < n ensures p[c] == m.exp(m.score(q, ks[c])) / Mass(m, q, ks, n) {
      SoftmaxIsExponentials(m.exp, s, c);
    }
    MixIsBlend(m, q, ks, vs, p, Mass(m, q, ks, n), n);
    assert p[..n] == p && vs[..n] == vs;
  }

  function Prefix(kv: KV, n: nat): KV
    requires n <= |kv.k| && n <= |kv.v|
  {
    KV(kv.k[..n], kv.v[..n])
  }

  lemma {:induction false} SameMass(m: Model, q: Vec, a: seq<Vec>, b: seq<Vec>, n: nat)
    requires n <= |a| && n <= |b| && a[..n] == b[..n]
    ensures Mass(m, q, a, n) == Mass(m, q, b, n)
  {
    if n > 0 {
      assert a[..n - 1] == a[..n][..n - 1] == b[..n - 1] && a[n - 1] == a[..n][n - 1] == b[n - 1];
      SameMass(m, q, a, b, n - 1);
    }
  }

  lemma {:induction false} SameBlend(m: Model, q: Vec, a: seq<Vec>, b: seq<Vec>, u: seq<real>, v: seq<real>, n: nat)
    requires n <= |a| && n <= |b| && n <= |u| && n <= |v| && a[..n] == b[..n] && u[..n] == v[..n]
    ensures Blend(m, q, a, u, n) == Blend(m, q, b, v, n)
  {
    if n > 0 {
      assert a[..n - 1] == a[..n][..n - 1] == b[..n - 1] && a[n - 1] == a[..n][n - 1] == b[n - 1];
      assert u[..n - 1] == u[..n][..n - 1] == v[..n - 1] && u[n - 1] == u[..n][n - 1] == v[n - 1];
      SameBlend(m, q, a, b, u, v, n - 1);
    }
  }

  /** One head of one row is the mean of the values of exactly the columns 0..limit, weighted by
      the exponentials of their scores. */
  lemma HeadIsWeightedMean(m: Model, q: Vec, kv: KV, g: nat, limit: nat, d: nat)
    requires Shaped(m, kv) && limit < |kv.k| && g < m.kvHeads && d < m.headDim && Exponential(m.exp)
    ensures var n, ks := limit + 1, HeadKeys(m, kv.k, g);
            Mass(m, q, ks, n) > 0.0 &&
            HeadOut(m, q, kv, g, limit)[d] == Blend(m, q, ks, Lane(m, kv.v, g, d), n) / Mass(m, q, ks, n)
  {
    var n := limit + 1;
    var own, later := Prefix(kv, n), KV(kv.k[n..], kv.v[n..]);
    assert Append(own, later) == kv;
    HeadIsCausal(m, q, own, later, g, limit);
    WholeHead(m, q, own, g, d);
    var ks, ks' := HeadKeys(m, kv.k, g), HeadKeys(m, own.k, g);
    MassPositive(m, q, ks, n);
    SameMass(m, q, ks', ks, n);
    SameBlend(m, q, ks', ks, Lane(m, own.v, g, d), Lane(m, kv.v, g, d), n);
  }

  // ---------------------------------------------------------------- the plain layer

  /** Columns h * dim .. h * dim + dim - 1 of a projected row. */
  function Lanes(w: (Vec, nat) -> real, x: Vec, h: nat, dim: nat): (l: Vec)
    ensures |l| == dim
  {
    seq(dim, (d: nat) => w(x, h * dim + d))
  }

  function RowKeys(m: Model, w: LayerWeights, xs: seq<Vec>, g: nat): (ks: seq<Vec>)
    ensures |ks| == |xs|
  {
    seq(|xs|, c requires 0 <= c < |xs| => Lanes(w.wk, xs[c], g, m.headDim))
  }

  function RowValues(m: Model, w: LayerWeights, xs: seq<Vec>, g: nat, d: nat): (vs: seq<real>)
    ensures |vs| == |xs|
  {
    seq(|xs|, c requires 0 <= c < |xs| => w.wv(xs[c], g * m.headDim + d))
  }

  /** Lane d of head h of row r: over rows 0..r, with the key/value head h shares. */
  function PlainLane(m: Model, w: LayerWeights, xs: seq<Vec>, r: nat, h: nat, d: nat): real
    requires m.Valid() && r < |xs| && h < m.heads
  {
    Repeats(m.heads, m.kvHeads, h);
    var g := h / (m.heads / m.kvHeads);
    var q, ks := Lanes(w.wq, xs[r], h, m.headDim), RowKeys(m, w, xs, g);
    MassPositive(m, q, ks, r + 1);
    Blend(m, q, ks, RowValues(m, w, xs, g, d), r + 1) / Mass(m, q, ks, r + 1)
  }

  function PlainAttention(m: Model, w: LayerWeights, xs: seq<Vec>, r: nat): (o: Vec)
    requires m.Valid() && r < |xs|
    ensures |o| == m.hidden
  {
    seq(m.hidden, (i: nat) requires i < m.hidden =>
      LaneOf(m, i);
      PlainLane(m, w, xs, r, i / m.headDim, i % m.headDim))
  }

  function PlainLayer(m: Model, w: LayerWeights, xs: seq<Vec>): (ys: seq<Vec>)
    requires m.Valid()
    ensures |ys| == |xs| && Rows(m, ys)
  {
    seq(|xs|, (r: nat) requires r < |xs| =>
      var o := PlainAttention(m, w, xs, r); seq(m.hidden, (j: nat) => w.finish(xs[r], o, j)))
  }

  /** All layers over the whole sequence. */
  function Forward(m: Model, ws: seq<LayerWeights>, xs: seq<Vec>): (ys: seq<Vec>)
    requires m.Valid()
    ensures |ys| == |xs|
    decreases |ws|
  {
    if ws == [] then xs else PlainLayer(m, ws[|ws| - 1], Forward(m, ws[..|ws| - 1], xs))
  }

  lemma LaneOf(m: Model, i: nat)
    requires m.Valid() && i < m.hidden
    ensures i / m.headDim < m.heads && i % m.headDim < m.headDim
  {
    Arith.Euclid(i, m.headDim);
    if i / m.headDim >= m.heads {
      Arith.Scale(m.heads, i / m.headDim, m.headDim);
    }
  }

  // ---------------------------------------------------------------- the layer computes it

  lemma {:induction false} ConcatAt(rows: seq<Vec>, width: nat, a: nat, b: nat, i: nat)
    requires 0 < width && forall r :: 0 <= r < |rows| ==> |rows[r]| == width
    requires a < |rows| && b < width && i == a * width + b
    ensures i < |Concat(rows)| && Concat(rows)[i] == rows[a][b]
    decreases |rows|
  {
    if a > 0 {
      assert i - width == (a - 1) * width + b;
      ConcatAt(rows[1..], width, a - 1, b, i - width);
    }
  }

  lemma AttendLane(m: Model, q: Heads, kv: KV, limit: nat, i: nat)
    requires m.Valid() && Shaped(m, kv) && kv.k != [] && |q| == m.heads && i < m.hidden
    ensures i / m.headDim < m.heads && i % m.headDim < m.headDim && |Attend(m, q, kv, limit)| == m.hidden
    ensures var h := i / m.headDim;
            Attend(m, q, kv, limit)[i] == HeadOut(m, q[h], kv, m.KvHead(h), limit)[i % m.headDim]
  {
    var parts := seq(m.heads, h requires 0 <= h < m.heads => HeadOut(m, q[h], kv, m.KvHead(h), limit));
    LaneOf(m, i);
    Arith.Euclid(i, m.headDim);
    ConcatLength(parts, m.headDim);
    ConcatAt(parts, m.headDim, i / m.headDim, i % m.headDim, i);
  }

  /** One row of keys and values per row of hidden state, head by head. */
  ghost predicate CacheOf(m: Model, w: LayerWeights, xs: seq<Vec>, kv: KV) {
    |kv.k| == |kv.v| == |xs| &&
    forall c, g :: 0 <= c < |xs| && 0 <= g < m.kvHeads ==>
      |kv.k[c]| == |kv.v[c]| == m.kvHeads &&
      kv.k[c][g] == Lanes(w.wk, xs[c], g, m.headDim) && kv.v[c][g] == Lanes(w.wv, xs[c], g, m.headDim)
  }

  lemma NewRowsCached(m: Model, w: LayerWeights, xs: seq<Vec>)
    ensures CacheOf(m, w, xs, NewKV(m, w, xs)) && Append(EMPTY, NewKV(m, w, xs)) == NewKV(m, w, xs)
  {
    var kv := NewKV(m, w, xs);
    forall c, g | 0 <= c < |xs| && 0 <= g < m.kvHeads
      ensures kv.k[c][g] == Lanes(w.wk, xs[c], g, m.headDim) && kv.v[c][g] == Lanes(w.wv, xs[c], g, m.headDim)
    {
    }
    assert EMPTY.k + kv.k == kv.k && EMPTY.v + kv.v == kv.v;
  }

  lemma HeadOfRows(m: Model, w: LayerWeights, xs: seq<Vec>, kv: KV, g: nat, d: nat)
    requires Shaped(m, kv) && CacheOf(m, w, xs, kv) && g < m.kvHeads && d < m.headDim
    ensures HeadKeys(m, kv.k, g) == RowKeys(m, w, xs, g) && Lane(m, kv.v, g, d) == RowValues(m, w, xs, g, d)
  {
    var a, b := Lane(m, kv.v, g, d), RowValues(m, w, xs, g, d);
    forall c | 0 <= c < |xs| ensures a[c] == b[c] {
      assert kv.v[c][g] == Lanes(w.wv, xs[c], g, m.headDim);
    }
  }

  lemma LaneIsPlain(m: Model, w: LayerWeights, xs: seq<Vec>, kv: KV, r: nat, i: nat)
    requires m.Valid() && Shaped(m, kv) && CacheOf(m, w, xs, kv) && r < |xs| && i < m.hidden && Exponential(m.exp)
    ensures |Attend(m, Project(w.wq, xs[r], m.heads, m.headDim), kv, r)| == m.hidden
    ensures Attend(m, Project(w.wq, xs[r], m.heads, m.headDim), kv, r)[i] == PlainAttention(m, w, xs, r)[i]
  {
    LaneOf(m, i);
    var q, h, d := Project(w.wq, xs[r], m.heads, m.headDim), i / m.headDim, i % m.headDim;
    AttendLane(m, q, kv, r, i);
    assert q[h] == Lanes(w.wq, xs[r], h, m.headDim);
    HeadIsWeightedMean(m, q[h], kv, m.KvHead(h), r, d);
    HeadOfRows(m, w, xs, kv, m.KvHead(h), d);
  }

  /** One layer from an empty cache: row r attends to exactly the rows 0..r, and what is cached are
      the rows' keys and values. */
  lemma LayerIsPlain(m: Model, w: LayerWeights, xs: seq<Vec>)
    requires m.Valid() && Exponential(m.exp)
    ensures Layer(m, w, xs, EMPTY).0 == PlainLayer(m, w, xs)
    ensures CacheOf(m, w, xs, Layer(m, w, xs, EMPTY).1)
  {
    NewRowsCached(m, w, xs);
    var kv := NewKV(m, w, xs);
    var ys, zs := Layer(m, w, xs, EMPTY).0, PlainLayer(m, w, xs);
    forall r: nat | r < |xs| ensures ys[r] == zs[r] {
      var o := Attend(m, Project(w.wq, xs[r], m.heads, m.headDim), kv, r);
      LaneIsPlain(m, w, xs, kv, r, 0);
      forall i: nat | i < m.hidden ensures o[i] == PlainAttention(m, w, xs, r)[i] {
        LaneIsPlain(m, w, xs, kv, r, i);
      }
      assert o == PlainAttention(m, w, xs, r);
    }
  }

  // ---------------------------------------------------------------- the stack and the prefill

  /** Every layer's cache holds the keys and values of what the layers below it computed. */
  ghost predicate CachesOf(m: Model, ws: seq<LayerWeights>, xs: seq<Vec>, kvs: seq<KV>)
    requires m.Valid()
  {
    |kvs| == |ws| && forall l :: 0 <= l < |ws| ==> CacheOf(m, ws[l], Forward(m, ws[..l], xs), kvs[l])
  }

  lemma StackOfOne(m: Model, w: LayerWeights, xs: seq<Vec>)
    requires m.Valid()
    ensures var (y, kv) := Layer(m, w, xs, EMPTY); Stack(m, [w], xs, [EMPTY]) == (y, [kv])
  {
    var (y, kv) := Layer(m, w, xs, EMPTY);
    assert [w][1..] == [] && [EMPTY][1..] == [] && Stack(m, [], y, []) == (y, []);
    assert [kv] + [] == [kv];
  }

  lemma TopLayer(m: Model, below: seq<LayerWeights>, top: LayerWeights, xs: seq<Vec>)
    requires m.Valid()
    ensures var (y, ks) := Stack(m, below, xs, Empties(|below|));
            var (z, kv) := Layer(m, top, y, EMPTY);
            Stack(m, below + [top], xs, Empties(|below| + 1)) == (z, ks + [kv])
  {
    var y := Stack(m, below, xs, Empties(|below|)).0;
    StackSplits(m, below, [top], xs, Empties(|below|), [EMPTY]);
    assert Empties(|below|) + [EMPTY] == Empties(|below| + 1);
    StackOfOne(m, top, y);
  }

  /** A stack from empty caches is the plain forward pass, for any slice of layers. */
  lemma {:induction false} StackIsForward(m: Model, ws: seq<LayerWeights>, xs: seq<Vec>)
    requires m.Valid() && Exponential(m.exp)
    ensures var (ys, kvs) := Stack(m, ws, xs, Empties(|ws|));
            ys == Forward(m, ws, xs) && CachesOf(m, ws, xs, kvs)
    decreases |ws|
  {
    if ws != [] {
      var n := |ws| - 1;
      var below, top := ws[..n], ws[n];
      StackIsForward(m, below, xs);
      var (y, ks) := Stack(m, below, xs, Empties(n));
      TopLayer(m, below, top, xs);
      assert below + [top] == ws;
      LayerIsPlain(m, top, y);
      LowerCaches(m, ws, xs, ks, Layer(m, top, y, EMPTY).1);
    }
  }

  lemma LowerCaches(m: Model, ws: seq<LayerWeights>, xs: seq<Vec>, ks: seq<KV>, kv: KV)
    requires m.Valid() && ws != [] && CachesOf(m, ws[..|ws| - 1], xs, ks)
    requires CacheOf(m, ws[|ws| - 1], Forward(m, ws[..|ws| - 1], xs), kv)
    ensures CachesOf(m, ws, xs, ks + [kv])
  {
    var n := |ws| - 1;
    forall l | 0 <= l < |ws| ensures CacheOf(m, ws[l], Forward(m, ws[..l], xs), (ks + [kv])[l]) {
      if l < n {
        assert ws[..n][..l] == ws[..l] && ws[..n][l] == ws[l];
      }
    }
  }

  /** The vocabulary row a token id is embedded as: ids outside the vocabulary take the nearest. */
  function Nearest(m: Model, t: int): int {
    if t < 0 then 0 else if t >= m.vocab then m.vocab - 1 else t
  }

  /** The rows of a prompt that is not taken for activations. */
  lemma PromptRows(m: Model, p: seq<int>)
    requires m.Valid() && p != [] && |p| % m.hidden != 0
    ensures PrefillInput(m, Tokens(p)) && |Interpret(m, Tokens(p))| == |p|
    ensures forall r, j: nat :: 0 <= r < |p| && j < m.hidden ==>
              Interpret(m, Tokens(p))[r][j] == m.embed(Nearest(m, p[r]), j)
  {
    PromptEmbedded(m, p);
  }

  /** What `prefill` returns on the rank that ends the stack: for every row the LM head of the
      plain forward pass; and what it stores. */
  lemma PrefillIsForward(m: Model, range: (int, int), t: Tensor)
    requires m.Valid() && Exponential(m.exp) && RangeOk(m, range) && range.1 == |m.layers| && PrefillInput(m, t)
    requires !IsTokenCell(m, t)
    ensures var ws, xs := Slice(m, range), Interpret(m, t);
            var (out, kvs) := PrefillResult(m, range, t);
            out.Matrix? && out.width == m.vocab && |out.rows| == |xs| && CachesOf(m, ws, xs, kvs) &&
            forall r :: 0 <= r < |xs| ==>
              |out.rows[r]| == m.vocab &&
              forall j: nat :: j < m.vocab ==> out.rows[r][j] == m.lmHead(Forward(m, ws, xs)[r], j)
  {
    StackIsForward(m, Slice(m, range), Interpret(m, t));
  }

  /** And on a rank below the top: the rows of its slice, one after the other. */
  lemma SliceIsForward(m: Model, range: (int, int), t: Tensor)
    requires m.Valid() && Exponential(m.exp) && RangeOk(m, range) && range.1 != |m.layers| && PrefillInput(m, t)
    ensures var ws, xs := Slice(m, range), Interpret(m, t);
            var (out, kvs) := PrefillResult(m, range, t);
            out == Flat(Concat(Forward(m, ws, xs))) && CachesOf(m, ws, xs, kvs)
  {
    StackIsForward(m, Slice(m, range), Interpret(m, t));
  }
}
