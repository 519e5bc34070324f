/** The paged key/value cache as a state machine over block ids, and what it refines: a flat
    table (request, layer, position) -> (k, v). */
module KvCache {
  import Arith
  import opened Sequences
  import opened Wrappers

  datatype Config<V> = Config(blockSize: nat, layers: nat, zero: V) {
    predicate Valid() { 0 < blockSize }
  }

  type Table = seq<seq<int>>

  /** Free pools, next fresh id, the two storages and the block tables. A block holds
      blockSize key rows followed by blockSize value rows; -1 is the sentinel slot. */
  datatype Cache<V> = Cache(
    freeDevice: seq<int>, freeHost: seq<int>, next: nat,
    device: map<int, seq<V>>, host: map<int, seq<V>>,
    tables: map<string, Table>)

  predicate Stored<V>(c: Cache<V>, id: int) {
    id in c.device || id in c.host
  }

  predicate Free<V>(c: Cache<V>, id: int) {
    id in c.freeDevice || id in c.freeHost
  }

  /** The ids 0..next-1 are split exactly among the two pools and the two storages. */
  ghost predicate Pools<V>(c: Cache<V>) {
    NoDup(c.freeDevice) && NoDup(c.freeHost) &&
    (forall id :: id in c.freeDevice ==> id !in c.freeHost) &&
    (forall id :: id in c.device ==> id !in c.host) &&
    (forall id :: Free(c, id) ==> !Stored(c, id)) &&
    (forall id :: Free(c, id) || Stored(c, id) <==> 0 <= id < c.next)
  }

  ghost predicate Blocks<V>(p: Config<V>, c: Cache<V>) {
    (forall id :: id in c.device ==> |c.device[id]| == 2 * p.blockSize) &&
    (forall id :: id in c.host ==> |c.host[id]| == 2 * p.blockSize)
  }

  predicate Holds<V>(c: Cache<V>, id: int, r: string, l: int, i: int) {
    r in c.tables && 0 <= l < |c.tables[r]| && 0 <= i < |c.tables[r][l]| && c.tables[r][l][i] == id
  }

  /** Every stored id occurs in exactly one table slot, and slots hold stored ids or -1. */
  ghost predicate Tables<V>(p: Config<V>, c: Cache<V>) {
    (forall r :: r in c.tables ==> |c.tables[r]| == p.layers) &&
    (forall id, r, l, i :: Holds(c, id, r, l, i) ==> id == -1 || Stored(c, id)) &&
    (forall id :: Stored(c, id) ==> exists r, l, i :: Holds(c, id, r, l, i)) &&
    (forall id, r, l, i, r', l', i' :: Holds(c, id, r, l, i) && Holds(c, id, r', l', i') && id != -1 ==>
      r == r' && l == l' && i == i')
  }

  /** The invariant inside an operation, and the one between operations: no sentinel is left. */
  ghost predicate Mid<V>(p: Config<V>, c: Cache<V>) {
    p.Valid() && Pools(c) && Blocks(p, c) && Tables(p, c)
  }

  ghost predicate Inv<V>(p: Config<V>, c: Cache<V>) {
    Mid(p, c) && forall r, l, i :: !Holds(c, -1, r, l, i)
  }

  // ---------------------------------------------------------------- the flat view

  type Flat<V> = map<string, seq<seq<(V, V)>>>

  /** Lane `off` of a block, key and value; a sentinel reads as zeros. Device wins, as in
      get_block_array. */
  function Cell<V>(p: Config<V>, c: Cache<V>, id: int, off: nat): (V, V)
    requires Blocks(p, c) && off < p.blockSize
  {
    if id in c.device then (c.device[id][off], c.device[id][p.blockSize + off])
    else if id in c.host then (c.host[id][off], c.host[id][p.blockSize + off])
    else (p.zero, p.zero)
  }

  lemma InBlock<V>(p: Config<V>, n: nat, pos: nat)
    requires p.Valid() && pos < n * p.blockSize
    ensures pos / p.blockSize < n && 0 <= pos % p.blockSize < p.blockSize
  {
    Arith.Euclid(pos, p.blockSize);
    if pos / p.blockSize >= n {
      Arith.Scale(n, pos / p.blockSize, p.blockSize);
      assert false;
    }
  }

  function Row<V>(p: Config<V>, c: Cache<V>, ids: seq<int>): (row: seq<(V, V)>)
    requires p.Valid() && Blocks(p, c)
    ensures |row| == |ids| * p.blockSize
  {
    seq(|ids| * p.blockSize, (pos: nat) requires pos < |ids| * p.blockSize =>
      InBlock(p, |ids|, pos);
      Cell(p, c, ids[pos / p.blockSize], pos % p.blockSize))
  }

  function View<V>(p: Config<V>, c: Cache<V>): (f: Flat<V>)
    requires p.Valid() && Blocks(p, c)
    ensures f.Keys == c.tables.Keys
  {
    map r | r in c.tables :: seq(|c.tables[r]|, l requires 0 <= l < |c.tables[r]| => Row(p, c, c.tables[r][l]))
  }

  // ---------------------------------------------------------------- operations

  /** `_alloc_block` with its zeroed storage: the pool chosen, its last id popped. */
  function Alloc<V>(p: Config<V>, c: Cache<V>, prefer: bool): (r: (Cache<V>, int)) {
    var zeros := seq(2 * p.blockSize, _ => p.zero);
    if prefer && c.freeDevice != [] then
      var n := |c.freeDevice| - 1;
      (c.(freeDevice := c.freeDevice[..n], device := c.device[c.freeDevice[n] := zeros]), c.freeDevice[n])
    else if c.freeHost != [] then
      var n := |c.freeHost| - 1;
      (c.(freeHost := c.freeHost[..n], host := c.host[c.freeHost[n] := zeros]), c.freeHost[n])
    else
      (c.(next := c.next + 1, host := c.host[c.next := zeros]), c.next)
  }

  function SetSlot(t: Table, l: int, i: int, id: int): Table
    requires 0 <= l < |t| && 0 <= i < |t[l]|
  {
    t[l := t[l][i := id]]
  }

  function Place<V>(p: Config<V>, c: Cache<V>, r: string, l: int, i: int, prefer: bool): Cache<V>
    requires Holds(c, -1, r, l, i)
  {
    var (a, id) := Alloc(p, c, prefer);
    a.(tables := c.tables[r := SetSlot(c.tables[r], l, i, id)])
  }

  function Sentinels(n: int): (s: seq<int>)
    ensures |s| == if n < 0 then 0 else n
    ensures forall i :: 0 <= i < |s| ==> s[i] == -1
  {
    seq(if n < 0 then 0 else n, _ => -1)
  }

  /** The padding loop of one layer. */
  function Pad<V>(c: Cache<V>, r: string, l: int, n: nat): Cache<V>
    requires r in c.tables && 0 <= l < |c.tables[r]|
  {
    var t := c.tables[r];
    c.(tables := c.tables[r := t[l := t[l] + Sentinels(n - |t[l]|)]])
  }

  function FillLayer<V>(p: Config<V>, c: Cache<V>, r: string, l: int, i: nat, n: nat, prefer: bool): Cache<V>
    requires r in c.tables && 0 <= l < |c.tables[r]| && n <= |c.tables[r][l]|
    decreases n - i
  {
    if i >= n then c
    else FillLayer(p, if c.tables[r][l][i] == -1 then Place(p, c, r, l, i, prefer) else c, r, l, i + 1, n, prefer)
  }

  lemma {:induction false} FillLayerShape<V>(p: Config<V>, c: Cache<V>, r: string, l: int, i: nat, n: nat, prefer: bool)
    requires r in c.tables && 0 <= l < |c.tables[r]| && n <= |c.tables[r][l]|
    ensures var d := FillLayer(p, c, r, l, i, n, prefer);
            d.tables.Keys == c.tables.Keys && |d.tables[r]| == |c.tables[r]|
    decreases n - i
  {
    if i < n {
      FillLayerShape(p, if c.tables[r][l][i] == -1 then Place(p, c, r, l, i, prefer) else c, r, l, i + 1, n, prefer);
    }
  }

  function EnsureFrom<V>(p: Config<V>, c: Cache<V>, r: string, l: nat, n: nat, prefer: bool): Cache<V>
    requires r in c.tables
    decreases |c.tables[r]| - l
  {
    if l >= |c.tables[r]| then c
    else
      var padded := Pad(c, r, l, n);
      FillLayerShape(p, padded, r, l, 0, n, prefer);
      EnsureFrom(p, FillLayer(p, padded, r, l, 0, n, prefer), r, l + 1, n, prefer)
  }

  function BlocksFor<V>(p: Config<V>, seqLen: nat): (n: nat)
    requires p.Valid()
    ensures n * p.blockSize >= seqLen && (n - 1) * p.blockSize < seqLen
  {
    var n := (seqLen + p.blockSize - 1) / p.blockSize;
    Arith.Euclid(seqLen + p.blockSize - 1, p.blockSize);
    n
  }

  function Register<V>(p: Config<V>, c: Cache<V>, r: string, n: nat): Cache<V> {
    if r in c.tables then c else c.(tables := c.tables[r := seq(p.layers, _ => Sentinels(n))])
  }

  function Ensure<V>(p: Config<V>, c: Cache<V>, r: string, seqLen: nat, prefer: bool): Cache<V>
    requires p.Valid()
  {
    var n := BlocksFor(p, seqLen);
    EnsureFrom(p, Register(p, c, r, n), r, 0, n, prefer)
  }

  /** Python indexing: i counts from the end when negative. */
  predicate Indexes(i: int, n: int) { -n <= i < n }

  function Wrap(i: int, n: int): int { if i < 0 then i + n else i }

  /** The calls `write` and `read` accept without a KeyError or IndexError. */
  predicate Addressed<V>(p: Config<V>, c: Cache<V>, r: string, l: int, pos: int)
    requires p.Valid()
  {
    r in c.tables && Indexes(l, |c.tables[r]|) &&
    Indexes(pos, |c.tables[r][Wrap(l, |c.tables[r]|)]| * p.blockSize)
  }

  /** The layer and the position such a call addresses. */
  function Target<V>(p: Config<V>, c: Cache<V>, r: string, l: int, pos: int): (t: (int, int))
    requires p.Valid() && Addressed(p, c, r, l, pos)
    ensures Covered(p, c, r, t.0, t.1)
  {
    var layer := Wrap(l, |c.tables[r]|);
    (layer, Wrap(pos, |c.tables[r][layer]| * p.blockSize))
  }

  /** The block and the lane that `pos // block_size` and `pos % block_size` find. */
  lemma WrapBlock(pos: int, n: int, w: int)
    requires 0 < w && 0 <= n && Indexes(pos, n * w)
    ensures Indexes(pos / w, n)
    ensures Wrap(pos, n * w) / w == Wrap(pos / w, n) && Wrap(pos, n * w) % w == pos % w
  {
    var b, off := pos / w, pos % w;
    assert pos == w * b + off;
    if pos < 0 {
      assert w * (b + n) == w * b + w * n;
      Arith.QuotientUnique(pos + n * w, w, b + n, off);
      if b < -n {
        Arith.Scale(b + 1, -n, w);
      }
      if b >= 0 {
        Arith.Scale(0, b, w);
      }
    } else if b >= n {
      Arith.Scale(n, b, w);
    } else if b < 0 {
      Arith.Scale(b, -1, w);
    }
  }

  /** A position inside the covered range of a layer. */
  predicate Covered<V>(p: Config<V>, c: Cache<V>, r: string, l: int, pos: int)
    requires p.Valid()
  {
    r in c.tables && 0 <= l < |c.tables[r]| && 0 <= pos < |c.tables[r][l]| * p.blockSize
  }

  /** The block id `write` and `read` look up for a position. */
  function SlotOf<V>(p: Config<V>, c: Cache<V>, r: string, l: int, pos: nat): (id: int)
    requires p.Valid() && Covered(p, c, r, l, pos)
    ensures Holds(c, id, r, l, pos / p.blockSize) && pos % p.blockSize < p.blockSize
  {
    InBlock(p, |c.tables[r][l]|, pos);
    c.tables[r][l][pos / p.blockSize]
  }

  function SetCell<V>(p: Config<V>, b: seq<V>, off: nat, k: V, v: V): seq<V>
    requires off < p.blockSize && |b| == 2 * p.blockSize
  {
    b[off := k][p.blockSize + off := v]
  }

  function Write<V>(p: Config<V>, c: Cache<V>, r: string, l: int, pos: nat, k: V, v: V): Cache<V>
    requires p.Valid() && Blocks(p, c) && Covered(p, c, r, l, pos) && Stored(c, SlotOf(p, c, r, l, pos))
  {
    var id, off := SlotOf(p, c, r, l, pos), pos % p.blockSize;
    if id in c.device then c.(device := c.device[id := SetCell(p, c.device[id], off, k, v)])
    else c.(host := c.host[id := SetCell(p, c.host[id], off, k, v)])
  }

  function ReleaseOne<V>(c: Cache<V>, id: int): Cache<V> {
    if id in c.device then c.(device := c.device - {id}, freeDevice := c.freeDevice + [id])
    else if id in c.host then c.(host := c.host - {id}, freeHost := c.freeHost + [id])
    else c
  }

  /** The deletion loop of `free`, over a request's ids. */
  function Release<V>(c: Cache<V>, ids: seq<int>): Cache<V>
    decreases |ids|
  {
    if ids == [] then c else Release(ReleaseOne(c, ids[0]), ids[1..])
  }

  function FreeRequest<V>(c: Cache<V>, r: string): Cache<V> {
    if r in c.tables then Release(c.(tables := c.tables - {r}), Concat(c.tables[r])) else c
  }

  // ---------------------------------------------------------------- allocation

  lemma PopLast<T>(s: seq<T>)
    requires s != [] && NoDup(s)
    ensures var n := |s| - 1;
            NoDup(s[..n]) && s[n] in s && forall x :: x in s[..n] <==> x in s && x != s[n]
  {
    var n := |s| - 1;
    forall x | x in s && x != s[n] ensures x in s[..n] {
      var i :| 0 <= i < |s| && s[i] == x;
      assert s[..n][i] == x;
    }
  }

  /** Allocation hands out an id nobody owns, with zeroed storage, and disturbs no other block. */
  lemma AllocIsFresh<V>(p: Config<V>, c: Cache<V>, prefer: bool)
    requires Pools(c) && Blocks(p, c)
    ensures var (a, id) := Alloc(p, c, prefer);
            Pools(a) && Blocks(p, a) && a.tables == c.tables &&
            id >= 0 && !Stored(c, id) && Stored(a, id) &&
            (forall x :: x != id ==> (x in a.device <==> x in c.device) && (x in a.host <==> x in c.host)) &&
            (forall x :: x in c.device ==> a.device[x] == c.device[x]) &&
            (forall x :: x in c.host ==> a.host[x] == c.host[x]) &&
            (forall off: nat :: off < p.blockSize ==> Cell(p, a, id, off) == (p.zero, p.zero))
  {
    if prefer && c.freeDevice != [] {
      PopLast(c.freeDevice);
      assert Free(c, c.freeDevice[|c.freeDevice| - 1]);
    } else if c.freeHost != [] {
      PopLast(c.freeHost);
      assert Free(c, c.freeHost[|c.freeHost| - 1]);
    }
    var (a, id) := Alloc(p, c, prefer);
    assert !Free(c, c.next) && !Stored(c, c.next);
    assert forall x :: x != id ==> (Free(a, x) <==> Free(c, x)) && (Stored(a, x) <==> Stored(c, x));
    assert !Free(a, id) && Stored(a, id);
  }

  lemma Retable<V>(p: Config<V>, c: Cache<V>, tables: map<string, Table>)
    requires Pools(c) && Blocks(p, c)
    ensures var d := c.(tables := tables);
            Pools(d) && Blocks(p, d) &&
            (forall x :: Stored(d, x) <==> Stored(c, x)) && (forall x :: Free(d, x) <==> Free(c, x))
  {
    var d := c.(tables := tables);
    assert forall x :: Stored(d, x) <==> Stored(c, x);
    assert forall x :: Free(d, x) <==> Free(c, x);
  }

  /** Filling one sentinel slot touches that slot only. */
  lemma PlaceSlots<V>(p: Config<V>, c: Cache<V>, r: string, l: int, i: int, prefer: bool)
    requires Holds(c, -1, r, l, i)
    ensures var (d, id) := (Place(p, c, r, l, i, prefer), Alloc(p, c, prefer).1);
            Holds(d, id, r, l, i) && SameShape(c, d) &&
            (forall x, r', l', i' :: (r' != r || l' != l || i' != i) ==>
                (Holds(d, x, r', l', i') <==> Holds(c, x, r', l', i'))) &&
            (forall x :: Holds(d, x, r, l, i) ==> x == id)
  {
  }

  /** One sentinel slot gets the only new stored id. */
  lemma TablesWithOneMore<V>(p: Config<V>, c: Cache<V>, d: Cache<V>, r: string, l: int, i: int, id: int)
    requires Tables(p, c) && SameShape(c, d) && id != -1 && !Stored(c, id) && !Stored(c, -1)
    requires forall x :: Stored(d, x) <==> Stored(c, x) || x == id
    requires Holds(c, -1, r, l, i) && Holds(d, id, r, l, i) && forall x :: Holds(d, x, r, l, i) ==> x == id
    requires forall x, r', l', i' :: (r' != r || l' != l || i' != i) ==>
               (Holds(d, x, r', l', i') <==> Holds(c, x, r', l', i'))
    ensures Tables(p, d)
  {
    forall x | Stored(d, x) ensures exists r', l', i' :: Holds(d, x, r', l', i') {
      if x == id {
        assert Holds(d, x, r, l, i);
      } else {
        assert Stored(c, x) && x != -1;
        var r', l', i' :| Holds(c, x, r', l', i');
        assert Holds(d, x, r', l', i');
      }
    }
  }

  lemma PlaceKeepsTables<V>(p: Config<V>, c: Cache<V>, r: string, l: int, i: int, prefer: bool)
    requires Mid(p, c) && Holds(c, -1, r, l, i)
    ensures Mid(p, Place(p, c, r, l, i, prefer))
  {
    var (d, id) := (Place(p, c, r, l, i, prefer), Alloc(p, c, prefer).1);
    AllocIsFresh(p, c, prefer);
    PlaceSlots(p, c, r, l, i, prefer);
    Retable(p, Alloc(p, c, prefer).0, d.tables);
    TablesWithOneMore(p, c, d, r, l, i, id);
  }

  ghost predicate SameShape<V>(c: Cache<V>, d: Cache<V>) {
    c.tables.Keys == d.tables.Keys &&
    (forall r :: r in c.tables ==> |c.tables[r]| == |d.tables[r]|) &&
    (forall r, l :: r in c.tables && 0 <= l < |c.tables[r]| ==> |c.tables[r][l]| == |d.tables[r][l]|)
  }

  /** Two caches of one shape with equal cells slot by slot have one view. */
  lemma SameCellsSameRow<V>(p: Config<V>, c: Cache<V>, d: Cache<V>, ids: seq<int>, ids': seq<int>)
    requires p.Valid() && Blocks(p, c) && Blocks(p, d) && |ids| == |ids'|
    requires forall i, off :: 0 <= i < |ids| && 0 <= off < p.blockSize ==>
        Cell(p, d, ids'[i], off) == Cell(p, c, ids[i], off)
    ensures Row(p, d, ids') == Row(p, c, ids)
  {
    var x, y := Row(p, d, ids'), Row(p, c, ids);
    forall pos: nat | pos < |x| ensures x[pos] == y[pos] {
      InBlock(p, |ids|, pos);
      var i, off := pos / p.blockSize, pos % p.blockSize;
      assert x[pos] == Cell(p, d, ids'[i], off) && y[pos] == Cell(p, c, ids[i], off);
    }
  }

  lemma SameCellsSameView<V>(p: Config<V>, c: Cache<V>, d: Cache<V>)
    requires p.Valid() && Blocks(p, c) && Blocks(p, d) && SameShape(c, d)
    requires forall id, r, l, i, off :: Holds(c, id, r, l, i) && 0 <= off < p.blockSize ==>
               Cell(p, d, d.tables[r][l][i], off) == Cell(p, c, id, off)
    ensures View(p, d) == View(p, c)
  {
    forall r | r in c.tables ensures View(p, d)[r] == View(p, c)[r] {
      forall l | 0 <= l < |c.tables[r]| ensures Row(p, d, d.tables[r][l]) == Row(p, c, c.tables[r][l]) {
        var ids, ids' := c.tables[r][l], d.tables[r][l];
        forall i, off | 0 <= i < |ids| && 0 <= off < p.blockSize
          ensures Cell(p, d, ids'[i], off) == Cell(p, c, ids[i], off)
        {
          assert Holds(c, ids[i], r, l, i);
        }
        SameCellsSameRow(p, c, d, ids, ids');
      }
    }
  }

  /** Allocating the block of a sentinel slot is invisible: the slot read as zeros before. */
  lemma PlaceKeepsView<V>(p: Config<V>, c: Cache<V>, r: string, l: int, i: int, prefer: bool)
    requires Mid(p, c) && Holds(c, -1, r, l, i)
    ensures Mid(p, Place(p, c, r, l, i, prefer)) && View(p, Place(p, c, r, l, i, prefer)) == View(p, c)
  {
    AllocIsFresh(p, c, prefer);
    PlaceKeepsTables(p, c, r, l, i, prefer);
    PlaceSlots(p, c, r, l, i, prefer);
    var d := Place(p, c, r, l, i, prefer);
    assert !Stored(c, -1);
    forall x, r', l', i', off | Holds(c, x, r', l', i') && 0 <= off < p.blockSize
      ensures Cell(p, d, d.tables[r'][l'][i'], off) == Cell(p, c, x, off)
    {
      if !(r' == r && l' == l && i' == i) {
        assert Holds(d, x, r', l', i');
      }
    }
    SameCellsSameView(p, c, d);
  }

  // ---------------------------------------------------------------- ensure_sequence

  function ZeroCells<V>(p: Config<V>, n: int): (z: seq<(V, V)>)
    ensures |z| == if n < 0 then 0 else n
  {
    seq(if n < 0 then 0 else n, _ => (p.zero, p.zero))
  }

  function Padded<V>(p: Config<V>, row: seq<(V, V)>, len: nat): seq<(V, V)> {
    row + ZeroCells(p, len - |row|)
  }

  /** The flat meaning of covering `len` positions on layers from.. of one request. */
  function FlatGrow<V>(p: Config<V>, f: Flat<V>, r: string, from: nat, len: nat): Flat<V>
    requires r in f
  {
    f[r := seq(|f[r]|, j requires 0 <= j < |f[r]| => if j < from then f[r][j] else Padded(p, f[r][j], len))]
  }

  function FlatEnsure<V>(p: Config<V>, f: Flat<V>, r: string, len: nat): Flat<V> {
    if r in f then FlatGrow(p, f, r, 0, len) else f[r := seq(p.layers, _ => ZeroCells(p, len))]
  }

  /** From c to d exactly the sentinels of slots i..n-1 of one row may have gone, and nothing
      visible changed. */
  ghost predicate Filled<V>(p: Config<V>, c: Cache<V>, d: Cache<V>, r: string, l: int, i: nat, n: nat) {
    Mid(p, c) && Mid(p, d) && SameShape(c, d) && View(p, d) == View(p, c) &&
    forall r', l', i' :: Holds(d, -1, r', l', i') ==> Holds(c, -1, r', l', i') && !(r' == r && l' == l && i <= i' < n)
  }

  lemma FillOne<V>(p: Config<V>, c: Cache<V>, r: string, l: int, i: nat, prefer: bool)
    requires Mid(p, c) && r in c.tables && 0 <= l < |c.tables[r]| && i < |c.tables[r][l]|
    ensures Filled(p, c, if c.tables[r][l][i] == -1 then Place(p, c, r, l, i, prefer) else c, r, l, i, i + 1)
  {
    if c.tables[r][l][i] == -1 {
      PlaceKeepsView(p, c, r, l, i, prefer);
      PlaceSlots(p, c, r, l, i, prefer);
      AllocIsFresh(p, c, prefer);
    }
  }

  lemma FillMore<V>(p: Config<V>, c: Cache<V>, e: Cache<V>, d: Cache<V>, r: string, l: int, i: nat, n: nat)
    requires Filled(p, c, e, r, l, i, i + 1) && Filled(p, e, d, r, l, i + 1, n)
    ensures Filled(p, c, d, r, l, i, n)
  {
  }

  lemma {:induction false} FillLayerRefines<V>(p: Config<V>, c: Cache<V>, r: string, l: int, i: nat, n: nat,
                                               prefer: bool)
    requires Mid(p, c) && r in c.tables && 0 <= l < |c.tables[r]| && n <= |c.tables[r][l]|
    ensures Filled(p, c, FillLayer(p, c, r, l, i, n, prefer), r, l, i, n)
    decreases n - i
  {
    if i < n {
      var e := if c.tables[r][l][i] == -1 then Place(p, c, r, l, i, prefer) else c;
      FillOne(p, c, r, l, i, prefer);
      FillLayerRefines(p, e, r, l, i + 1, n, prefer);
      FillMore(p, c, e, FillLayer(p, e, r, l, i + 1, n, prefer), r, l, i, n);
    }
  }

  lemma PadSlots<V>(c: Cache<V>, r: string, l: int, n: nat)
    requires r in c.tables && 0 <= l < |c.tables[r]|
    ensures var d := Pad(c, r, l, n);
            (forall x, r', l', i' :: Holds(c, x, r', l', i') ==> Holds(d, x, r', l', i')) &&
            (forall x, r', l', i' :: Holds(d, x, r', l', i') ==>
              Holds(c, x, r', l', i') || (x == -1 && r' == r && l' == l && |c.tables[r][l]| <= i' < n))
  {
  }

  lemma PadKeepsMid<V>(p: Config<V>, c: Cache<V>, r: string, l: int, n: nat)
    requires Mid(p, c) && r in c.tables && 0 <= l < |c.tables[r]|
    ensures Mid(p, Pad(c, r, l, n))
  {
    var d := Pad(c, r, l, n);
    PadSlots(c, r, l, n);
    Retable(p, c, d.tables);
    forall x | Stored(d, x) ensures exists r', l', i' :: Holds(d, x, r', l', i') {
      assert Stored(c, x);
      var r', l', i' :| Holds(c, x, r', l', i');
      assert Holds(d, x, r', l', i');
    }
  }

  lemma InBlockIff<V>(p: Config<V>, n: nat, pos: nat)
    requires p.Valid()
    ensures pos / p.blockSize < n <==> pos < n * p.blockSize
  {
    Arith.Euclid(pos, p.blockSize);
    if pos / p.blockSize < n {
      Arith.Scale(pos / p.blockSize + 1, n, p.blockSize);
    } else {
      Arith.Scale(n, pos / p.blockSize, p.blockSize);
    }
  }

  /** A padded row, position by position. */
  lemma PadCell<V>(p: Config<V>, c: Cache<V>, ids: seq<int>, more: seq<int>, pos: nat)
    requires p.Valid() && Blocks(p, c) && !Stored(c, -1) && ids <= more
    requires (forall i :: |ids| <= i < |more| ==> more[i] == -1) && pos < |more| * p.blockSize
    ensures Row(p, c, more)[pos] == if pos < |ids| * p.blockSize then Row(p, c, ids)[pos] else (p.zero, p.zero)
  {
    InBlock(p, |more|, pos);
    InBlockIff(p, |ids|, pos);
    var i := pos / p.blockSize;
    if i < |ids| {
      assert more[i] == ids[i];
    }
  }

  lemma PadRow<V>(p: Config<V>, c: Cache<V>, ids: seq<int>, n: nat)
    requires p.Valid() && Blocks(p, c) && !Stored(c, -1)
    ensures Row(p, c, ids + Sentinels(n - |ids|)) == Padded(p, Row(p, c, ids), n * p.blockSize)
  {
    var more := ids + Sentinels(n - |ids|);
    var x, y := Row(p, c, more), Padded(p, Row(p, c, ids), n * p.blockSize);
    assert |x| == |y| by {
      if n > |ids| {
        Arith.Scale(|ids|, n, p.blockSize);
      } else {
        Arith.Scale(n, |ids|, p.blockSize);
      }
    }
    forall pos: nat | pos < |x| ensures x[pos] == y[pos] {
      PadCell(p, c, ids, more, pos);
    }
  }

  lemma RetableRow<V>(p: Config<V>, c: Cache<V>, tables: map<string, Table>, ids: seq<int>)
    requires p.Valid() && Pools(c) && Blocks(p, c)
    ensures Blocks(p, c.(tables := tables)) && Row(p, c.(tables := tables), ids) == Row(p, c, ids)
  {
    Retable(p, c, tables);
    SameCellsSameRow(p, c, c.(tables := tables), ids, ids);
  }

  lemma OneRowChanged<V>(f: Flat<V>, g: Flat<V>, r: string, l: nat, row: seq<(V, V)>)
    requires r in f && l < |f[r]| && f.Keys == g.Keys
    requires forall r' :: r' in f ==> |g[r']| == |f[r']|
    requires forall r', l' :: r' in f && 0 <= l' < |f[r']| ==>
        g[r'][l'] == if r' == r && l' == l then row else f[r'][l']
    ensures g == f[r := f[r][l := row]]
  {
    assert forall r' :: r' in f && r' != r ==> g[r'] == f[r'];
    assert g[r] == f[r][l := row];
  }

  lemma PadView<V>(p: Config<V>, c: Cache<V>, r: string, l: int, n: nat)
    requires Mid(p, c) && r in c.tables && 0 <= l < |c.tables[r]|
    ensures Mid(p, Pad(c, r, l, n))
    ensures var f := View(p, c);
            View(p, Pad(c, r, l, n)) == f[r := f[r][l := Padded(p, f[r][l], n * p.blockSize)]]
  {
    PadKeepsMid(p, c, r, l, n);
    var d, f := Pad(c, r, l, n), View(p, c);
    var g := View(p, d);
    forall r', l' | r' in c.tables && 0 <= l' < |c.tables[r']|
      ensures g[r'][l'] == if r' == r && l' == l then Padded(p, f[r][l], n * p.blockSize) else f[r'][l']
    {
      RetableRow(p, c, d.tables, d.tables[r'][l']);
      if r' == r && l' == l {
        PadRow(p, c, c.tables[r][l], n);
      }
    }
    OneRowChanged(f, g, r, l, Padded(p, f[r][l], n * p.blockSize));
  }

  lemma GrowNext<V>(p: Config<V>, f: Flat<V>, r: string, l: nat, len: nat)
    requires r in f && l < |f[r]|
    ensures FlatGrow(p, f[r := f[r][l := Padded(p, f[r][l], len)]], r, l + 1, len) == FlatGrow(p, f, r, l, len)
  {
    var f' := f[r := f[r][l := Padded(p, f[r][l], len)]];
    assert FlatGrow(p, f', r, l + 1, len)[r] == FlatGrow(p, f, r, l, len)[r];
  }

  /** One layer padded and filled. */
  lemma EnsureLayerRefines<V>(p: Config<V>, c: Cache<V>, r: string, l: nat, n: nat, prefer: bool)
    requires Mid(p, c) && r in c.tables && l < |c.tables[r]|
    ensures var f, d := View(p, c), FillLayer(p, Pad(c, r, l, n), r, l, 0, n, prefer);
            Mid(p, d) && r in d.tables && |d.tables[r]| == |c.tables[r]| &&
            View(p, d) == f[r := f[r][l := Padded(p, f[r][l], n * p.blockSize)]] &&
            forall r', l', i' :: Holds(d, -1, r', l', i') ==>
              Holds(c, -1, r', l', i') && !(r' == r && l' == l && i' < n)
  {
    PadView(p, c, r, l, n);
    PadSlots(c, r, l, n);
    FillLayerRefines(p, Pad(c, r, l, n), r, l, 0, n, prefer);
  }

  lemma {:induction false} EnsureFromRefines<V>(p: Config<V>, c: Cache<V>, r: string, l: nat, n: nat, prefer: bool)
    requires Mid(p, c) && r in c.tables && l <= |c.tables[r]|
    ensures var d := EnsureFrom(p, c, r, l, n, prefer);
            (var mid := Mid(p, d); mid) && View(p, d) == FlatGrow(p, View(p, c), r, l, n * p.blockSize) &&
            forall r', l', i' :: Holds(d, -1, r', l', i') ==>
              (Holds(c, -1, r', l', i') && !(r' == r && l' >= l && i' < n))
    decreases |c.tables[r]| - l
  {
    if l == |c.tables[r]| {
      assert FlatGrow(p, View(p, c), r, l, n * p.blockSize)[r] == View(p, c)[r];
    } else {
      EnsureLayerRefines(p, c, r, l, n, prefer);
      EnsureFromRefines(p, FillLayer(p, Pad(c, r, l, n), r, l, 0, n, prefer), r, l + 1, n, prefer);
      GrowNext(p, View(p, c), r, l, n * p.blockSize);
    }
  }

  lemma RegisterKeepsMid<V>(p: Config<V>, c: Cache<V>, r: string, n: nat)
    requires Inv(p, c) && r !in c.tables
    ensures var d := Register(p, c, r, n);
            Mid(p, d) && forall r', l', i' :: Holds(d, -1, r', l', i') ==> r' == r && i' < n
  {
    var d := Register(p, c, r, n);
    Retable(p, c, d.tables);
    assert forall x, r', l', i' :: Holds(c, x, r', l', i') ==> Holds(d, x, r', l', i');
    assert forall x, r', l', i' :: Holds(d, x, r', l', i') ==>
        Holds(c, x, r', l', i') || (r' == r && i' < n && x == -1);
    forall x | Stored(d, x) ensures exists r', l', i' :: Holds(d, x, r', l', i') {
      assert Stored(c, x);
      var r', l', i' :| Holds(c, x, r', l', i');
      assert Holds(d, x, r', l', i');
    }
  }

  lemma SentinelRow<V>(p: Config<V>, c: Cache<V>, n: nat)
    requires p.Valid() && Blocks(p, c) && !Stored(c, -1)
    ensures Row(p, c, Sentinels(n)) == ZeroCells(p, n * p.blockSize)
  {
    PadRow(p, c, [], n);
    assert [] + Sentinels(n) == Sentinels(n);
    assert Padded(p, Row(p, c, []), n * p.blockSize) == ZeroCells(p, n * p.blockSize);
  }

  lemma RegisterView<V>(p: Config<V>, c: Cache<V>, r: string, n: nat)
    requires Inv(p, c) && r !in c.tables && Mid(p, Register(p, c, r, n))
    ensures View(p, Register(p, c, r, n)) == View(p, c)[r := seq(p.layers, _ => ZeroCells(p, n * p.blockSize))]
  {
    var d := Register(p, c, r, n);
    forall r', l | r' in c.tables && 0 <= l < |c.tables[r']| ensures View(p, d)[r'][l] == View(p, c)[r'][l] {
      RetableRow(p, c, d.tables, d.tables[r'][l]);
    }
    assert forall r' :: r' in c.tables ==> View(p, d)[r'] == View(p, c)[r'];
    SentinelRow(p, d, n);
    assert View(p, d)[r] == seq(p.layers, _ => ZeroCells(p, n * p.blockSize));
  }

  lemma GrowIsIdle<V>(p: Config<V>, f: Flat<V>, r: string, len: nat)
    requires r in f && forall l :: 0 <= l < |f[r]| ==> |f[r][l]| >= len
    ensures FlatGrow(p, f, r, 0, len) == f
  {
    forall l | 0 <= l < |f[r]| ensures Padded(p, f[r][l], len) == f[r][l] {
    }
    assert FlatGrow(p, f, r, 0, len)[r] == f[r];
  }

  /** `ensure_sequence`: covers whole blocks on every layer, keeps what was written, adds zeros,
      leaves no sentinel, and changes no other request. */
  lemma EnsureRefines<V>(p: Config<V>, c: Cache<V>, r: string, seqLen: nat, prefer: bool)
    requires Inv(p, c)
    ensures Inv(p, Ensure(p, c, r, seqLen, prefer))
    ensures View(p, Ensure(p, c, r, seqLen, prefer)) == FlatEnsure(p, View(p, c), r, BlocksFor(p, seqLen) * p.blockSize)
  {
    var n := BlocksFor(p, seqLen);
    var d := Register(p, c, r, n);
    if r !in c.tables {
      RegisterKeepsMid(p, c, r, n);
      RegisterView(p, c, r, n);
      GrowIsIdle(p, View(p, d), r, n * p.blockSize);
    }
    EnsureFromRefines(p, d, r, 0, n, prefer);
  }

  // ---------------------------------------------------------------- write and read

  function FlatWrite<V>(f: Flat<V>, r: string, l: int, pos: nat, k: V, v: V): Flat<V>
    requires r in f && 0 <= l < |f[r]| && pos < |f[r][l]|
  {
    f[r := f[r][l := f[r][l][pos := (k, v)]]]
  }

  lemma WriteKeepsInv<V>(p: Config<V>, c: Cache<V>, r: string, l: int, pos: nat, k: V, v: V)
    requires Inv(p, c) && Covered(p, c, r, l, pos)
    ensures var d := Write(p, c, r, l, pos, k, v);
            Inv(p, d) && d.tables == c.tables && d.next == c.next &&
            d.freeDevice == c.freeDevice && d.freeHost == c.freeHost &&
            d.device.Keys == c.device.Keys && d.host.Keys == c.host.Keys
  {
    InBlock(p, |c.tables[r][l]|, pos);
    assert Holds(c, c.tables[r][l][pos / p.blockSize], r, l, pos / p.blockSize);
    var d := Write(p, c, r, l, pos, k, v);
    assert forall x :: Stored(d, x) <==> Stored(c, x);
    assert forall x :: Free(d, x) <==> Free(c, x);
    assert forall x, r', l', i' :: Holds(d, x, r', l', i') <==> Holds(c, x, r', l', i');
    forall x | Stored(d, x) ensures exists r', l', i' :: Holds(d, x, r', l', i') {
      var r', l', i' :| Holds(c, x, r', l', i');
      assert Holds(d, x, r', l', i');
    }
  }

  lemma WriteCells<V>(p: Config<V>, c: Cache<V>, r: string, l: int, pos: nat, k: V, v: V, id: int, off: nat)
    requires Inv(p, c) && Covered(p, c, r, l, pos) && off < p.blockSize
    ensures var d := Write(p, c, r, l, pos, k, v);
            pos / p.blockSize < |c.tables[r][l]| && Blocks(p, d) &&
            Cell(p, d, id, off) ==
              if id == c.tables[r][l][pos / p.blockSize] && off == pos % p.blockSize then (k, v)
              else Cell(p, c, id, off)
  {
    InBlock(p, |c.tables[r][l]|, pos);
    WriteKeepsInv(p, c, r, l, pos, k, v);
    assert Holds(c, c.tables[r][l][pos / p.blockSize], r, l, pos / p.blockSize);
  }

  /** `write` changes exactly one (request, layer, position), key and value together. */
  lemma WriteRefines<V>(p: Config<V>, c: Cache<V>, r: string, l: int, pos: nat, k: V, v: V)
    requires Inv(p, c) && Covered(p, c, r, l, pos)
    ensures Inv(p, Write(p, c, r, l, pos, k, v))
    ensures View(p, Write(p, c, r, l, pos, k, v)) == FlatWrite(View(p, c), r, l, pos, k, v)
  {
    WriteKeepsInv(p, c, r, l, pos, k, v);
    var d, f := Write(p, c, r, l, pos, k, v), View(p, c);
    var g := FlatWrite(f, r, l, pos, k, v);
    forall r', l' | r' in c.tables && 0 <= l' < |c.tables[r']| ensures View(p, d)[r'][l'] == g[r'][l'] {
      var ids := c.tables[r'][l'];
      var x, y := Row(p, d, ids), g[r'][l'];
      forall pos': nat | pos' < |x| ensures x[pos'] == y[pos'] {
        WriteAt(p, c, r, l, pos, k, v, r', l', pos');
      }
      assert x == y;
    }
    assert forall r' :: r' in c.tables ==> View(p, d)[r'] == g[r'];
  }

  lemma RowAt<V>(p: Config<V>, c: Cache<V>, ids: seq<int>, pos: nat)
    requires p.Valid() && Blocks(p, c) && pos < |ids| * p.blockSize
    ensures pos / p.blockSize < |ids| && pos % p.blockSize < p.blockSize
    ensures Row(p, c, ids)[pos] == Cell(p, c, ids[pos / p.blockSize], pos % p.blockSize)
  {
    InBlock(p, |ids|, pos);
  }

  /** Two covered positions share a block and a lane only when they are one position. */
  lemma OneLane<V>(p: Config<V>, c: Cache<V>, r: string, l: int, pos: nat, r': string, l': int, pos': nat)
    requires Inv(p, c) && Covered(p, c, r, l, pos) && Covered(p, c, r', l', pos')
    ensures SlotOf(p, c, r', l', pos') == SlotOf(p, c, r, l, pos) && pos' % p.blockSize == pos % p.blockSize <==>
            r' == r && l' == l && pos' == pos
  {
    assert Holds(c, SlotOf(p, c, r, l, pos), r, l, pos / p.blockSize);
    assert Holds(c, SlotOf(p, c, r', l', pos'), r', l', pos' / p.blockSize);
    Arith.SamePlace(pos, pos', p.blockSize);
  }

  lemma WriteAt<V>(p: Config<V>, c: Cache<V>, r: string, l: int, pos: nat, k: V, v: V, r': string, l': int, pos': nat)
    requires Inv(p, c) && Covered(p, c, r, l, pos) && Covered(p, c, r', l', pos')
    ensures var d := Write(p, c, r, l, pos, k, v);
            Blocks(p, d) &&
            Row(p, d, c.tables[r'][l'])[pos'] ==
              if r' == r && l' == l && pos' == pos then (k, v) else Row(p, c, c.tables[r'][l'])[pos']
  {
    var ids := c.tables[r'][l'];
    WriteCells(p, c, r, l, pos, k, v, SlotOf(p, c, r', l', pos'), pos' % p.blockSize);
    RowAt(p, c, ids, pos');
    RowAt(p, Write(p, c, r, l, pos, k, v), ids, pos');
    OneLane(p, c, r, l, pos, r', l', pos');
  }

  // ---------------------------------------------------------------- free

  /** The ids of one storage, in release order. */
  function Those(keys: set<int>, ids: seq<int>): seq<int> {
    if ids == [] then []
    else if ids[0] in keys then [ids[0]] + Those(keys, ids[1..])
    else Those(keys, ids[1..])
  }

  /** m' is m without the given ids. */
  ghost predicate Without<V>(m: map<int, seq<V>>, m': map<int, seq<V>>, ids: seq<int>) {
    (forall x :: x in m' <==> x in m && x !in ids) && (forall x :: x in m' ==> m'[x] == m[x])
  }

  lemma ReleaseOneKeepsPools<V>(c: Cache<V>, id: int)
    requires Pools(c) && Stored(c, id)
    ensures var d := ReleaseOne(c, id);
            Pools(d) && forall x :: Stored(d, x) <==> Stored(c, x) && x != id
  {
    var d := ReleaseOne(c, id);
    assert !Free(c, id);
    assert forall x :: x != id ==> (Stored(d, x) <==> Stored(c, x)) && (Free(d, x) <==> Free(c, x));
    assert Free(d, id) && !Stored(d, id);
  }

  lemma {:induction false} ReleaseKeepsPools<V>(c: Cache<V>, ids: seq<int>)
    requires Pools(c) && NoDup(ids) && forall x :: x in ids ==> Stored(c, x)
    ensures Pools(Release(c, ids))
    decreases |ids|
  {
    if ids != [] {
      assert ids[0] in ids;
      ReleaseOneKeepsPools(c, ids[0]);
      assert forall x :: x in ids[1..] ==> x in ids && x != ids[0];
      ReleaseKeepsPools(ReleaseOne(c, ids[0]), ids[1..]);
    }
  }

  lemma {:induction false} ReleaseDeletes<V>(c: Cache<V>, ids: seq<int>)
    requires forall id :: id in c.device ==> id !in c.host
    ensures var d := Release(c, ids);
            d.tables == c.tables && d.next == c.next && Without(c.device, d.device, ids) && Without(c.host, d.host, ids)
    decreases |ids|
  {
    if ids != [] {
      assert forall x :: x in ids <==> x == ids[0] || x in ids[1..];
      ReleaseDeletes(ReleaseOne(c, ids[0]), ids[1..]);
    }
  }

  lemma ReturnOne<V>(c: Cache<V>, ids: seq<int>)
    requires ids != [] && forall id :: id in c.device ==> id !in c.host
    ensures var c1 := ReleaseOne(c, ids[0]);
            c1.freeDevice + Those(c.device.Keys, ids[1..]) == c.freeDevice + Those(c.device.Keys, ids) &&
            c1.freeHost + Those(c.host.Keys, ids[1..]) == c.freeHost + Those(c.host.Keys, ids)
  {
    Reassociate(c.freeDevice, [ids[0]], Those(c.device.Keys, ids[1..]));
    Reassociate(c.freeHost, [ids[0]], Those(c.host.Keys, ids[1..]));
  }

  lemma {:induction false} ReleaseReturns<V>(c: Cache<V>, ids: seq<int>)
    requires NoDup(ids) && forall id :: id in c.device ==> id !in c.host
    ensures Release(c, ids).freeDevice == c.freeDevice + Those(c.device.Keys, ids)
    ensures Release(c, ids).freeHost == c.freeHost + Those(c.host.Keys, ids)
    decreases |ids|
  {
    if ids != [] {
      var c1 := ReleaseOne(c, ids[0]);
      assert forall i :: 0 <= i < |ids[1..]| ==> ids[1..][i] != ids[0];
      ThoseElsewhere(c.device.Keys, c1.device.Keys, ids[1..]);
      ThoseElsewhere(c.host.Keys, c1.host.Keys, ids[1..]);
      ReturnOne(c, ids);
      ReleaseReturns(c1, ids[1..]);
    }
  }

  lemma {:induction false} ThoseElsewhere(a: set<int>, b: set<int>, ids: seq<int>)
    requires forall i :: 0 <= i < |ids| ==> (ids[i] in a <==> ids[i] in b)
    ensures Those(a, ids) == Those(b, ids)
  {
    if ids != [] {
      ThoseElsewhere(a, b, ids[1..]);
    }
  }

  lemma {:induction false} InIds(t: Table, l: int, i: int)
    requires 0 <= l < |t| && 0 <= i < |t[l]|
    ensures t[l][i] in Concat(t)
  {
    if l > 0 {
      InIds(t[1..], l - 1, i);
    }
  }

  lemma {:induction false} FromIds(t: Table, x: int) returns (l: int, i: int)
    requires x in Concat(t)
    ensures 0 <= l < |t| && 0 <= i < |t[l]| && t[l][i] == x
  {
    if x in t[0] {
      l := 0;
      i :| 0 <= i < |t[0]| && t[0][i] == x;
    } else {
      l, i := FromIds(t[1..], x);
      l := l + 1;
    }
  }

  ghost predicate Injective(t: Table) {
    forall l, i, l', i' |
      0 <= l < |t| && 0 <= i < |t[l]| && 0 <= l' < |t| && 0 <= i' < |t[l']| && t[l][i] == t[l'][i'] ::
      l == l' && i == i'
  }

  lemma {:induction false} IdsDistinct(t: Table)
    requires Injective(t)
    ensures NoDup(Concat(t))
  {
    if t != [] {
      var head, rest := t[0], t[1..];
      forall l, i, l', i' | 0 <= l < |rest| && 0 <= i < |rest[l]| && 0 <= l' < |rest| && 0 <= i' < |rest[l']| &&
          rest[l][i] == rest[l'][i']
        ensures l == l' && i == i'
      {
        assert t[l + 1][i] == t[l' + 1][i'];
      }
      IdsDistinct(rest);
      forall x | x in Concat(rest) ensures x !in head {
        var l, i := FromIds(rest, x);
        assert t[l + 1][i] == x;
        forall j | 0 <= j < |head| ensures head[j] != x {
          assert t[0][j] == head[j];
        }
      }
      forall i, j | 0 <= i < j < |head| ensures head[i] != head[j] {
        assert t[0][i] == head[i] && t[0][j] == head[j];
      }
      DistinctConcat(head, Concat(rest));
    }
  }

  lemma DistinctConcat<T>(a: seq<T>, b: seq<T>)
    requires NoDup(a) && NoDup(b) && forall x :: x in a ==> x !in b
    ensures NoDup(a + b)
  {
    forall i, j | 0 <= i < j < |a + b| ensures (a + b)[i] != (a + b)[j] {
      if i < |a| <= j {
        assert a[i] in a && b[j - |a|] in b;
      }
    }
  }

  lemma FreeKeepsInv<V>(p: Config<V>, c: Cache<V>, r: string)
    requires Inv(p, c) && r in c.tables
    ensures var d, ids := FreeRequest(c, r), Concat(c.tables[r]);
            Inv(p, d) && d.next == c.next && d.tables == c.tables - {r} &&
            Without(c.device, d.device, ids) && Without(c.host, d.host, ids) &&
            d.freeDevice == c.freeDevice + Those(c.device.Keys, ids) &&
                d.freeHost == c.freeHost + Those(c.host.Keys, ids)
  {
    var ids, c1 := Concat(c.tables[r]), c.(tables := c.tables - {r});
    FreedIds(p, c, r);
    Retable(p, c, c1.tables);
    ReleaseKeepsPools(c1, ids);
    ReleaseDeletes(c1, ids);
    ReleaseReturns(c1, ids);
    var d := FreeRequest(c, r);
    assert forall x :: Stored(d, x) <==> Stored(c, x) && x !in ids;
    assert forall x, r', l', i' :: Holds(d, x, r', l', i') <==> Holds(c, x, r', l', i') && r' != r;
    forall x | Stored(d, x) ensures exists r', l', i' :: Holds(d, x, r', l', i') {
      var r', l', i' :| Holds(c, x, r', l', i');
      if r' == r {
        InIds(c.tables[r], l', i');
      }
      assert Holds(d, x, r', l', i');
    }
  }

  /** `free`: the request disappears, every other request keeps its contents, and exactly the
      request's blocks go back, each to the pool of the tier it was stored in. */
  lemma FreeRefines<V>(p: Config<V>, c: Cache<V>, r: string)
    requires Inv(p, c)
    ensures var d := FreeRequest(c, r);
            Inv(p, d) && View(p, d) == View(p, c) - {r} && d.next == c.next &&
            (r in c.tables ==>
              d.freeDevice == c.freeDevice + Those(c.device.Keys, Concat(c.tables[r])) &&
              d.freeHost == c.freeHost + Those(c.host.Keys, Concat(c.tables[r])))
  {
    if r !in c.tables {
      assert View(p, c) - {r} == View(p, c);
    } else {
      FreeKeepsInv(p, c, r);
      FreedIds(p, c, r);
      var d := FreeRequest(c, r);
      forall r', l' | r' in d.tables && 0 <= l' < |d.tables[r']|
        ensures Row(p, d, d.tables[r'][l']) == Row(p, c, c.tables[r'][l'])
      {
        var row := c.tables[r'][l'];
        forall i | 0 <= i < |row| ensures row[i] !in Concat(c.tables[r]) {
          assert Holds(c, row[i], r', l', i);
        }
        SameCellsSameRow(p, c, d, row, row);
      }
      assert forall r' :: r' in d.tables ==> View(p, d)[r'] == View(p, c)[r'];
    }
  }

  lemma {:induction false} ReleaseKeepsTables<V>(c: Cache<V>, ids: seq<int>)
    ensures Release(c, ids).tables == c.tables
    decreases |ids|
  {
    if ids != [] {
      ReleaseKeepsTables(ReleaseOne(c, ids[0]), ids[1..]);
    }
  }

  /** Whatever ids its table names, a freed request has no table left. */
  lemma FreedIsGone<V>(p: Config<V>, c: Cache<V>, r: string)
    ensures FreeRequest(c, r).tables == c.tables - {r}
  {
    if r in c.tables {
      ReleaseKeepsTables(c.(tables := c.tables - {r}), Concat(c.tables[r]));
    } else {
      assert c.tables - {r} == c.tables;
    }
  }

  lemma FreedIds<V>(p: Config<V>, c: Cache<V>, r: string)
    requires Inv(p, c) && r in c.tables
    ensures NoDup(Concat(c.tables[r]))
    ensures forall x :: x in Concat(c.tables[r]) ==> Stored(c, x)
    ensures forall x, r', l', i' :: Holds(c, x, r', l', i') && x in Concat(c.tables[r]) ==> r' == r
  {
    var t := c.tables[r];
    forall l, i, l', i' | 0 <= l < |t| && 0 <= i < |t[l]| && 0 <= l' < |t| && 0 <= i' < |t[l']| && t[l][i] == t[l'][i']
      ensures l == l' && i == i'
    {
      assert Holds(c, t[l][i], r, l, i) && Holds(c, t[l][i], r, l', i');
    }
    IdsDistinct(t);
    forall x | x in Concat(t)
      ensures Stored(c, x) && forall r', l', i' :: Holds(c, x, r', l', i') ==> r' == r
    {
      var l, i := FromIds(t, x);
      assert Holds(c, x, r, l, i);
    }
  }

  // ---------------------------------------------------------------- whole runs

  function Numbered(from: int, n: nat): (s: seq<int>)
    ensures |s| == n && forall i :: 0 <= i < n ==> s[i] == from + i
  {
    seq(n, i => from + i)
  }

  /** The constructor's state, with host ids numbered from hostBase; the source uses 0. */
  function Initial<V>(deviceBlocks: nat, hostBlocks: nat, hostBase: nat): Cache<V> {
    Cache(Numbered(0, deviceBlocks), Numbered(hostBase, hostBlocks), deviceBlocks + hostBlocks, map[], map[], map[])
  }

  /** Both pools numbered from 0 collide unless one of them is empty: with hostBase == 0 the
      ids are globally distinct exactly when there are no host blocks or no device blocks. */
  lemma InitialIsSound<V>(p: Config<V>, deviceBlocks: nat, hostBlocks: nat, hostBase: nat)
    requires p.Valid()
    ensures Inv<V>(p, Initial(deviceBlocks, hostBlocks, hostBase)) <==> hostBlocks == 0 || hostBase == deviceBlocks
    ensures View<V>(p, Initial(deviceBlocks, hostBlocks, hostBase)) == map[]
  {
    var c: Cache<V> := Initial(deviceBlocks, hostBlocks, hostBase);
    if hostBlocks == 0 || hostBase == deviceBlocks {
      forall id | 0 <= id < c.next ensures Free(c, id) {
        if id < deviceBlocks {
          assert c.freeDevice[id] == id;
        } else {
          assert c.freeHost[id - deviceBlocks] == id;
        }
      }
    } else if hostBase < deviceBlocks {
      assert c.freeDevice[hostBase] == c.freeHost[0] == hostBase;
      assert hostBase in c.freeDevice && hostBase in c.freeHost;
    } else {
      assert c.freeHost[hostBlocks - 1] == hostBase + hostBlocks - 1;
      assert Free(c, hostBase + hostBlocks - 1);
    }
  }

  datatype Op<V> =
    | EnsureOp(r: string, seqLen: nat, prefer: bool)
    | WriteOp(r: string, l: int, pos: int, k: V, v: V)
    | FreeOp(r: string)

  /** A position whose block is found; a call for any other raises before anything changes. */
  ghost predicate Located<V>(p: Config<V>, c: Cache<V>, r: string, l: int, pos: int)
    requires p.Valid()
  {
    Blocks(p, c) && Addressed(p, c, r, l, pos) &&
    var (layer, at) := Target(p, c, r, l, pos); Stored(c, SlotOf(p, c, r, layer, at))
  }

  /** What `read` returns for a position, None when it raises. */
  ghost function ReadOf<V>(p: Config<V>, c: Cache<V>, r: string, l: int, pos: int): Option<(V, V)>
    requires p.Valid()
  {
    if Located(p, c, r, l, pos) then
      var (layer, at) := Target(p, c, r, l, pos); Some(Row(p, c, c.tables[r][layer])[at])
    else None
  }

  /** One call, on any state. */
  ghost function Step<V>(p: Config<V>, c: Cache<V>, op: Op<V>): Cache<V>
    requires p.Valid()
  {
    match op
    case EnsureOp(r, seqLen, prefer) => Ensure(p, c, r, seqLen, prefer)
    case WriteOp(r, l, pos, k, v) =>
      if Located(p, c, r, l, pos) then
        var (layer, at) := Target(p, c, r, l, pos); Write(p, c, r, layer, at, k, v)
      else c
    case FreeOp(r) => FreeRequest(c, r)
  }

  predicate InFlat<V>(f: Flat<V>, r: string, l: int, pos: int) {
    r in f && 0 <= l < |f[r]| && 0 <= pos < |f[r][l]|
  }

  predicate FlatAddressed<V>(f: Flat<V>, r: string, l: int, pos: int) {
    r in f && Indexes(l, |f[r]|) && Indexes(pos, |f[r][Wrap(l, |f[r]|)]|)
  }

  function FlatTarget<V>(f: Flat<V>, r: string, l: int, pos: int): (t: (int, int))
    requires FlatAddressed(f, r, l, pos)
    ensures InFlat(f, r, t.0, t.1)
  {
    var layer := Wrap(l, |f[r]|);
    (layer, Wrap(pos, |f[r][layer]|))
  }

  function FlatStep<V>(p: Config<V>, f: Flat<V>, op: Op<V>): Flat<V>
    requires p.Valid()
  {
    match op
    case EnsureOp(r, seqLen, _) => FlatEnsure(p, f, r, BlocksFor(p, seqLen) * p.blockSize)
    case WriteOp(r, l, pos, k, v) =>
      if FlatAddressed(f, r, l, pos) then
        var (layer, at) := FlatTarget(f, r, l, pos); FlatWrite(f, r, layer, at, k, v)
      else f
    case FreeOp(r) => f - {r}
  }

  lemma SameAddresses<V>(p: Config<V>, c: Cache<V>, r: string, l: int, pos: int)
    requires p.Valid() && Blocks(p, c)
    ensures Addressed(p, c, r, l, pos) <==> FlatAddressed(View(p, c), r, l, pos)
    ensures Addressed(p, c, r, l, pos) ==> Target(p, c, r, l, pos) == FlatTarget(View(p, c), r, l, pos)
  {
    if r in c.tables && Indexes(l, |c.tables[r]|) {
      var layer := Wrap(l, |c.tables[r]|);
      assert View(p, c)[r][layer] == Row(p, c, c.tables[r][layer]);
    }
  }

  function FlatReadOf<V>(f: Flat<V>, r: string, l: int, pos: int): Option<(V, V)> {
    if FlatAddressed(f, r, l, pos) then var (layer, at) := FlatTarget(f, r, l, pos); Some(f[r][layer][at]) else None
  }

  /** On a sound state every addressed position has its block, and reads as the flat table has it. */
  lemma ReadRefines<V>(p: Config<V>, c: Cache<V>, r: string, l: int, pos: int)
    requires Inv(p, c)
    ensures Located(p, c, r, l, pos) <==> Addressed(p, c, r, l, pos)
    ensures ReadOf(p, c, r, l, pos) == FlatReadOf(View(p, c), r, l, pos)
  {
    SameAddresses(p, c, r, l, pos);
    if Addressed(p, c, r, l, pos) {
      var (layer, at) := Target(p, c, r, l, pos);
      assert Holds(c, SlotOf(p, c, r, layer, at), r, layer, at / p.blockSize);
    }
  }

  /** From a sound state one call keeps the invariant and refines the flat table. */
  lemma StepRefines<V>(p: Config<V>, c: Cache<V>, op: Op<V>)
    requires Inv(p, c)
    ensures Inv(p, Step(p, c, op)) && View(p, Step(p, c, op)) == FlatStep(p, View(p, c), op)
  {
    match op
    case EnsureOp(r, seqLen, prefer) => EnsureRefines(p, c, r, seqLen, prefer);
    case WriteOp(r, l, pos, k, v) =>
      SameAddresses(p, c, r, l, pos);
      if Addressed(p, c, r, l, pos) {
        var (layer, at) := Target(p, c, r, l, pos);
        assert Holds(c, SlotOf(p, c, r, layer, at), r, layer, at / p.blockSize);
        WriteRefines(p, c, r, layer, at, k, v);
      }
    case FreeOp(r) => FreeRefines(p, c, r);
  }

  /** The state after the first n calls. */
  ghost function Run<V>(p: Config<V>, c: Cache<V>, ops: seq<Op<V>>, n: nat): Cache<V>
    requires p.Valid() && n <= |ops|
  {
    if n == 0 then c else Step(p, Run(p, c, ops, n - 1), ops[n - 1])
  }

  function FlatRun<V>(p: Config<V>, ops: seq<Op<V>>, n: nat): Flat<V>
    requires p.Valid() && n <= |ops|
  {
    if n == 0 then map[] else FlatStep(p, FlatRun(p, ops, n - 1), ops[n - 1])
  }

  /** Every run of calls from a sound initial state keeps the invariant and refines the flat
      table. */
  lemma {:induction false} RunRefines<V>(p: Config<V>, deviceBlocks: nat, hostBlocks: nat, hostBase: nat,
                                         ops: seq<Op<V>>, n: nat)
    requires p.Valid() && (hostBlocks == 0 || hostBase == deviceBlocks) && n <= |ops|
    ensures var c := Run(p, Initial(deviceBlocks, hostBlocks, hostBase), ops, n);
            Inv(p, c) && View(p, c) == FlatRun(p, ops, n)
  {
    InitialIsSound(p, deviceBlocks, hostBlocks, hostBase);
    if n > 0 {
      RunRefines(p, deviceBlocks, hostBlocks, hostBase, ops, n - 1);
      StepRefines(p, Run(p, Initial(deviceBlocks, hostBlocks, hostBase), ops, n - 1), ops[n - 1]);
    }
  }

  /** The last accepted write to a position since its request was last freed, else zeros. */
  function LastWritten<V>(p: Config<V>, ops: seq<Op<V>>, n: nat, r: string, l: int, pos: nat): (V, V)
    requires p.Valid() && n <= |ops|
  {
    if n == 0 then (p.zero, p.zero) else
      var f, op := FlatRun(p, ops, n - 1), ops[n - 1];
      if op.WriteOp? && op.r == r && FlatAddressed(f, r, op.l, op.pos) && FlatTarget(f, r, op.l, op.pos) == (l, pos)
      then (op.k, op.v)
      else if op.FreeOp? && op.r == r then (p.zero, p.zero)
      else LastWritten(p, ops, n - 1, r, l, pos)
  }

  lemma {:induction false} FlatRunIsLastWrite<V>(p: Config<V>, ops: seq<Op<V>>, n: nat, r: string, l: int, pos: nat)
    requires p.Valid() && n <= |ops|
    ensures LastWritten(p, ops, n, r, l, pos) ==
              if InFlat(FlatRun(p, ops, n), r, l, pos) then FlatRun(p, ops, n)[r][l][pos] else (p.zero, p.zero)
  {
    if n > 0 {
      FlatRunIsLastWrite(p, ops, n - 1, r, l, pos);
    }
  }

  /** After n calls position pos reads as its last write, or zeros. */
  ghost predicate ReadsBack<V>(p: Config<V>, c: Cache<V>, ops: seq<Op<V>>, n: nat, r: string, l: int, pos: nat)
    requires p.Valid() && n <= |ops|
  {
    Covered(p, c, r, l, pos) ==>
      Blocks(p, c) && Row(p, c, c.tables[r][l])[pos] == LastWritten(p, ops, n, r, l, pos)
  }

  ghost predicate Refines<V>(p: Config<V>, c: Cache<V>, f: Flat<V>)
    requires p.Valid()
  {
    Blocks(p, c) && View(p, c) == f
  }

  lemma RefinedReads<V>(p: Config<V>, c: Cache<V>, ops: seq<Op<V>>, n: nat, r: string, l: int, pos: nat)
    requires p.Valid() && n <= |ops| && Refines(p, c, FlatRun(p, ops, n))
    ensures ReadsBack(p, c, ops, n, r, l, pos)
  {
    FlatRunIsLastWrite(p, ops, n, r, l, pos);
    if Covered(p, c, r, l, pos) {
      assert View(p, c)[r][l] == Row(p, c, c.tables[r][l]);
    }
  }

  /** `read` over any run from a sound initial state. */
  lemma ReadIsLastWrite<V>(p: Config<V>, deviceBlocks: nat, hostBlocks: nat, hostBase: nat, ops: seq<Op<V>>, n: nat,
                           r: string, l: int, pos: nat)
    requires p.Valid() && (hostBlocks == 0 || hostBase == deviceBlocks) && n <= |ops|
    ensures ReadsBack(p, Run(p, Initial(deviceBlocks, hostBlocks, hostBase), ops, n), ops, n, r, l, pos)
  {
    RunRefines(p, deviceBlocks, hostBlocks, hostBase, ops, n);
    RefinedReads(p, Run(p, Initial(deviceBlocks, hostBlocks, hostBase), ops, n), ops, n, r, l, pos);
  }

  // ---------------------------------------------------------------- the pools of the source

  /** What a cache keeps while slots are filled: block sizes, device ids and every filled slot. */
  ghost predicate Grown<V>(p: Config<V>, c: Cache<V>, d: Cache<V>) {
    (Blocks(p, c) ==> Blocks(p, d)) && c.device.Keys <= d.device.Keys &&
    forall x, r, l, i :: Holds(c, x, r, l, i) && x != -1 ==> Holds(d, x, r, l, i)
  }

  lemma PlaceGrows<V>(p: Config<V>, c: Cache<V>, r: string, l: int, i: int, prefer: bool)
    requires Holds(c, -1, r, l, i)
    ensures Grown(p, c, Place(p, c, r, l, i, prefer))
  {
    PlaceSlots(p, c, r, l, i, prefer);
  }

  lemma {:induction false} FillLayerGrows<V>(p: Config<V>, c: Cache<V>, r: string, l: int, i: nat, n: nat, prefer: bool)
    requires r in c.tables && 0 <= l < |c.tables[r]| && n <= |c.tables[r][l]|
    ensures Grown(p, c, FillLayer(p, c, r, l, i, n, prefer))
    decreases n - i
  {
    if i < n {
      if c.tables[r][l][i] == -1 {
        PlaceGrows(p, c, r, l, i, prefer);
        FillLayerGrows(p, Place(p, c, r, l, i, prefer), r, l, i + 1, n, prefer);
      } else {
        FillLayerGrows(p, c, r, l, i + 1, n, prefer);
      }
    }
  }

  lemma {:induction false} EnsureFromGrows<V>(p: Config<V>, c: Cache<V>, r: string, l: nat, n: nat, prefer: bool)
    requires r in c.tables
    ensures Grown(p, c, EnsureFrom(p, c, r, l, n, prefer))
    decreases |c.tables[r]| - l
  {
    if l < |c.tables[r]| {
      var padded := Pad(c, r, l, n);
      PadSlots(c, r, l, n);
      FillLayerShape(p, padded, r, l, 0, n, prefer);
      FillLayerGrows(p, padded, r, l, 0, n, prefer);
      EnsureFromGrows(p, FillLayer(p, padded, r, l, 0, n, prefer), r, l + 1, n, prefer);
    }
  }

  /** Filling the first layer from slot i on, with both pools numbered from 0: what is left. */
  ghost predicate Filling<V>(c: Cache<V>, r: string, l: int, i: nat, deviceBlocks: nat, hostBlocks: nat) {
    r in c.tables && 0 <= l < |c.tables[r]| && i <= |c.tables[r][l]| == deviceBlocks + hostBlocks &&
    (forall j :: i <= j < deviceBlocks + hostBlocks ==> c.tables[r][l][j] == -1) &&
    c.freeDevice == Numbered(0, if i < deviceBlocks then deviceBlocks - i else 0) &&
    c.freeHost == Numbered(0, if i < deviceBlocks then hostBlocks else deviceBlocks + hostBlocks - i)
  }

  lemma FillingOn<V>(p: Config<V>, c: Cache<V>, r: string, l: int, i: nat, deviceBlocks: nat, hostBlocks: nat)
    requires i < deviceBlocks + hostBlocks && Filling(c, r, l, i, deviceBlocks, hostBlocks)
    ensures Holds(c, -1, r, l, i) && Filling(Place(p, c, r, l, i, true), r, l, i + 1, deviceBlocks, hostBlocks)
    ensures i == deviceBlocks - 1 ==>
        Holds(Place(p, c, r, l, i, true), 0, r, l, i) && 0 in Place(p, c, r, l, i, true).device
    ensures i >= deviceBlocks && i == deviceBlocks + hostBlocks - 1 ==> Holds(Place(p, c, r, l, i, true), 0, r, l, i)
  {
    PlaceSlots(p, c, r, l, i, true);
  }

  /** The last slot filled from either pool gets id 0. */
  lemma {:induction false} BothPoolsGiveZero<V>(p: Config<V>, c: Cache<V>, r: string, l: int, i: nat,
                                                deviceBlocks: nat, hostBlocks: nat)
    requires i <= deviceBlocks + hostBlocks && 0 < hostBlocks && Filling(c, r, l, i, deviceBlocks, hostBlocks)
    ensures var d := FillLayer(p, c, r, l, i, deviceBlocks + hostBlocks, true);
            (i < deviceBlocks ==> Holds(d, 0, r, l, deviceBlocks - 1) && 0 in d.device) &&
            (i < deviceBlocks + hostBlocks ==> Holds(d, 0, r, l, deviceBlocks + hostBlocks - 1))
    decreases deviceBlocks + hostBlocks - i
  {
    var n := deviceBlocks + hostBlocks;
    if i < n {
      FillingOn(p, c, r, l, i, deviceBlocks, hostBlocks);
      var e := Place(p, c, r, l, i, true);
      BothPoolsGiveZero(p, e, r, l, i + 1, deviceBlocks, hostBlocks);
      FillLayerGrows(p, e, r, l, i + 1, n, true);
    }
  }

  lemma WholeBlocks<V>(p: Config<V>, n: nat)
    requires p.Valid()
    ensures BlocksFor(p, n * p.blockSize) == n
  {
    var b := BlocksFor(p, n * p.blockSize);
    if b < n {
      Arith.Scale(b + 1, n, p.blockSize);
    } else if b > n {
      Arith.Scale(n, b - 1, p.blockSize);
    }
  }

  /** A sequence that takes every block of both pools has id 0 in two slots of its first layer. */
  lemma SharedBlock<V>(p: Config<V>, deviceBlocks: nat, hostBlocks: nat, r: string)
    requires p.Valid() && p.layers > 0 && deviceBlocks > 0 && hostBlocks > 0
    ensures var all := (deviceBlocks + hostBlocks) * p.blockSize;
            var c := Ensure(p, Initial(deviceBlocks, hostBlocks, 0), r, all, true);
            Blocks(p, c) && 0 in c.device &&
            Holds(c, 0, r, 0, deviceBlocks - 1) && Holds(c, 0, r, 0, deviceBlocks + hostBlocks - 1)
  {
    var n := deviceBlocks + hostBlocks;
    WholeBlocks(p, n);
    var c0: Cache<V> := Initial(deviceBlocks, hostBlocks, 0);
    var c1 := Register(p, c0, r, n);
    var c2 := Pad(c1, r, 0, n);
    assert c1.tables[r][0] == Sentinels(n) && c2.tables[r][0] == Sentinels(n) + Sentinels(0) == Sentinels(n);
    BothPoolsGiveZero(p, c2, r, 0, 0, deviceBlocks, hostBlocks);
    FillLayerShape(p, c2, r, 0, 0, n, true);
    FillLayerGrows(p, c2, r, 0, 0, n, true);
    EnsureFromGrows(p, FillLayer(p, c2, r, 0, 0, n, true), r, 1, n, true);
  }

  /** What the collision does, for any two nonempty pools and any number of layers: writing the
      last covered block of the first layer also changes the last block on the device. */
  lemma CollidingPoolsAlias<V>(p: Config<V>, deviceBlocks: nat, hostBlocks: nat, r: string, k: V, v: V, at: nat,
                               last: nat)
    requires p.Valid() && p.layers > 0 && deviceBlocks > 0 && hostBlocks > 0
    requires at == (deviceBlocks - 1) * p.blockSize && last == (deviceBlocks + hostBlocks - 1) * p.blockSize
    ensures var all := (deviceBlocks + hostBlocks) * p.blockSize;
            var c := Ensure(p, Initial(deviceBlocks, hostBlocks, 0), r, all, true);
            Located(p, c, r, 0, last) && at < last &&
            var d := Step(p, c, WriteOp(r, 0, last, k, v));
            Blocks(p, d) && Covered(p, d, r, 0, at) && Row(p, d, d.tables[r][0])[at] == (k, v)
  {
    var n, w := deviceBlocks + hostBlocks, p.blockSize;
    SharedBlock(p, deviceBlocks, hostBlocks, r);
    var c := Ensure(p, Initial(deviceBlocks, hostBlocks, 0), r, n * w, true);
    var ids := c.tables[r][0];
    Arith.Scale(n, |ids|, w);
    Arith.Scale(deviceBlocks, n - 1, w);
    Arith.WholeMultiple(n - 1, w);
    Arith.WholeMultiple(deviceBlocks - 1, w);
    assert last == n * w - w && at == deviceBlocks * w - w;
    assert SlotOf(p, c, r, 0, last) == 0;
    var d := Step(p, c, WriteOp(r, 0, last, k, v));
    assert d == Write(p, c, r, 0, last, k, v);
    RowAt(p, d, ids, at);
  }

  /** The run that shows it: cover, then write the last position. */
  function AliasRun<V>(p: Config<V>, deviceBlocks: nat, hostBlocks: nat, k: V): (ops: seq<Op<V>>) {
    var n := deviceBlocks + hostBlocks;
    [EnsureOp("r", n * p.blockSize, true), WriteOp("r", 0, (n - 1) * p.blockSize, k, k)]
  }

  lemma AliasRunReads<V>(p: Config<V>, deviceBlocks: nat, hostBlocks: nat, k: V) returns (at: nat)
    requires p.Valid() && p.layers > 0 && deviceBlocks > 0 && hostBlocks > 0 && k != p.zero
    ensures var ops := AliasRun(p, deviceBlocks, hostBlocks, k);
            var c := Run(p, Initial(deviceBlocks, hostBlocks, 0), ops, 2);
            Blocks(p, c) && Covered(p, c, "r", 0, at) && Row(p, c, c.tables["r"][0])[at] == (k, k) &&
            LastWritten(p, ops, 2, "r", 0, at) == (p.zero, p.zero)
  {
    var n, w := deviceBlocks + hostBlocks, p.blockSize;
    Arith.Scale(0, deviceBlocks - 1, w);
    Arith.Scale(0, n - 1, w);
    at := (deviceBlocks - 1) * w;
    var last := (n - 1) * w;
    CollidingPoolsAlias(p, deviceBlocks, hostBlocks, "r", k, k, at, last);
    var ops, c := AliasRun(p, deviceBlocks, hostBlocks, k), Initial(deviceBlocks, hostBlocks, 0);
    assert Run(p, c, ops, 1) == Step(p, Run(p, c, ops, 0), ops[0]);
    assert Run(p, c, ops, 2) == Step(p, Run(p, c, ops, 1), ops[1]);
    WrittenElsewhere(p, n * w, last, at, k);
  }

  lemma WrittenElsewhere<V>(p: Config<V>, seqLen: nat, last: nat, at: nat, k: V)
    requires p.Valid() && at != last
    ensures LastWritten(p, [EnsureOp("r", seqLen, true), WriteOp("r", 0, last, k, k)], 2, "r", 0, at) ==
        (p.zero, p.zero)
  {
    var ops := [EnsureOp("r", seqLen, true), WriteOp("r", 0, last, k, k)];
    assert LastWritten(p, ops, 1, "r", 0, at) == LastWritten(p, ops, 0, "r", 0, at);
  }

  /** The whole run, from pools that are both numbered from 0. */
  ghost predicate SourceRefines<V>(p: Config<V>, deviceBlocks: nat, hostBlocks: nat, ops: seq<Op<V>>)
    requires p.Valid()
  {
    Refines(p, Run(p, Initial(deviceBlocks, hostBlocks, 0), ops, |ops|), FlatRun(p, ops, |ops|))
  }

  ghost predicate SourceReadsBack<V>(p: Config<V>, deviceBlocks: nat, hostBlocks: nat, ops: seq<Op<V>>,
                                     r: string, l: int, pos: nat)
    requires p.Valid()
  {
    ReadsBack(p, Run(p, Initial(deviceBlocks, hostBlocks, 0), ops, |ops|), ops, |ops|, r, l, pos)
  }

  /** With the source's pools, both numbered from 0: every run refines the flat table exactly
      when one of the pools is empty. */
  lemma SourceRunsRefineIff<V>(p: Config<V>, deviceBlocks: nat, hostBlocks: nat, k: V)
    requires p.Valid() && p.layers > 0 && k != p.zero
    ensures (forall ops: seq<Op<V>> :: SourceRefines(p, deviceBlocks, hostBlocks, ops)) <==>
            deviceBlocks == 0 || hostBlocks == 0
  {
    if deviceBlocks == 0 || hostBlocks == 0 {
      forall ops: seq<Op<V>> ensures SourceRefines(p, deviceBlocks, hostBlocks, ops) {
        RunRefines(p, deviceBlocks, hostBlocks, 0, ops, |ops|);
      }
    } else {
      var at := AliasRunReads(p, deviceBlocks, hostBlocks, k);
      var ops := AliasRun(p, deviceBlocks, hostBlocks, k);
      if SourceRefines(p, deviceBlocks, hostBlocks, ops) {
        RefinedReads(p, Run(p, Initial(deviceBlocks, hostBlocks, 0), ops, 2), ops, 2, "r", 0, at);
      }
    }
  }

  /** And every covered position reads as its last write exactly then. */
  lemma SourceReadsBackIff<V>(p: Config<V>, deviceBlocks: nat, hostBlocks: nat, k: V)
    requires p.Valid() && p.layers > 0 && k != p.zero
    ensures (forall ops: seq<Op<V>>, r: string, l: int, pos: nat ::
               SourceReadsBack(p, deviceBlocks, hostBlocks, ops, r, l, pos)) <==>
            deviceBlocks == 0 || hostBlocks == 0
  {
    if deviceBlocks == 0 || hostBlocks == 0 {
      forall ops: seq<Op<V>>, r: string, l: int, pos: nat
        ensures SourceReadsBack(p, deviceBlocks, hostBlocks, ops, r, l, pos)
      {
        ReadIsLastWrite(p, deviceBlocks, hostBlocks, 0, ops, |ops|, r, l, pos);
      }
    } else {
      var at := AliasRunReads(p, deviceBlocks, hostBlocks, k);
      assert !SourceReadsBack(p, deviceBlocks, hostBlocks, AliasRun(p, deviceBlocks, hostBlocks, k), "r", 0, at);
    }
  }

  // ---------------------------------------------------------------- buffers on any state

  lemma {:induction false} ReleaseKeepsBlocks<V>(p: Config<V>, c: Cache<V>, ids: seq<int>)
    requires Blocks(p, c)
    ensures Blocks(p, Release(c, ids))
    decreases |ids|
  {
    if ids != [] {
      ReleaseKeepsBlocks(p, ReleaseOne(c, ids[0]), ids[1..]);
    }
  }

  /** Whatever the pools, every call keeps all stored blocks at their size. */
  lemma StepKeepsBlocks<V>(p: Config<V>, c: Cache<V>, op: Op<V>)
    requires p.Valid() && Blocks(p, c)
    ensures Blocks(p, Step(p, c, op))
  {
    match op
    case EnsureOp(r, seqLen, prefer) =>
      EnsureFromGrows(p, Register(p, c, r, BlocksFor(p, seqLen)), r, 0, BlocksFor(p, seqLen), prefer);
    case WriteOp(r, l, pos, k, v) =>
    case FreeOp(r) =>
      if r in c.tables {
        ReleaseKeepsBlocks(p, c.(tables := c.tables - {r}), Concat(c.tables[r]));
      }
  }

  lemma {:induction false} SpillKeepsBlocks<V>(p: Config<V>, c: Cache<V>, n: int, order: seq<int>)
    requires Blocks(p, c)
    ensures Blocks(p, Spill(c, n, order))
    decreases |order|
  {
    if !(n <= 0 || order == [] || order[0] !in c.device) {
      SpillKeepsBlocks(p, SpillOne(c, order[0]), n - 1, order[1..]);
    }
  }

  // ---------------------------------------------------------------- spill

  function SpillOne<V>(c: Cache<V>, id: int): Cache<V>
    requires id in c.device
  {
    c.(device := c.device - {id}, host := c.host[id := c.device[id]], freeDevice := c.freeDevice + [id])
  }

  /** `spill_cold_blocks`: up to n device blocks, in the storage's insertion order, change tier
      under the same id, and that id is put back in the device pool. */
  function Spill<V>(c: Cache<V>, n: int, order: seq<int>): Cache<V>
    decreases |order|
  {
    if n <= 0 || order == [] || order[0] !in c.device then c else
      Spill(SpillOne(c, order[0]), n - 1, order[1..])
  }

  /** The ids a spill moves: the first n of the order, or all. */
  function Moved(n: int, order: seq<int>): seq<int> {
    if n <= 0 then [] else if n < |order| then order[..n] else order
  }

  /** Exactly these blocks have changed tier, with their contents, and their ids are in the device pool. */
  ghost predicate ChangedTier<V>(c: Cache<V>, d: Cache<V>, moved: seq<int>) {
    d.freeDevice == c.freeDevice + moved && d.freeHost == c.freeHost && d.next == c.next && d.tables == c.tables &&
    (forall id :: id in moved ==> id in c.device) &&
    (forall id :: id in d.device <==> id in c.device && id !in moved) &&
    (forall id | id in d.device :: d.device[id] == c.device[id]) &&
    (forall id :: id in d.host <==> id in c.host || id in moved) &&
    (forall id | id in d.host :: d.host[id] == if id in moved then c.device[id] else c.host[id])
  }

  lemma OneMoreChanged<V>(c: Cache<V>, d: Cache<V>, id: int, rest: seq<int>)
    requires id in c.device && id !in rest
    requires var ok := ChangedTier(SpillOne(c, id), d, rest); ok
    ensures var ok := ChangedTier(c, d, [id] + rest); ok
  {
    Reassociate(c.freeDevice, [id], rest);
    assert forall x :: x in [id] + rest <==> x == id || x in rest;
  }

  lemma MovedSplits(n: int, order: seq<int>)
    requires 0 < n && order != []
    ensures Moved(n, order) == [order[0]] + Moved(n - 1, order[1..])
    ensures forall id :: id in Moved(n - 1, order[1..]) ==> id in order[1..]
  {
  }

  lemma RestOnDevice<V>(c: Cache<V>, order: seq<int>)
    requires order != [] && NoDup(order) && forall i :: 0 <= i < |order| ==> order[i] in c.device
    ensures var rest, d := order[1..], SpillOne(c, order[0]);
            order[0] !in rest && NoDup(rest) && forall i :: 0 <= i < |rest| ==> rest[i] in d.device
  {
    var rest := order[1..];
    assert forall i :: 0 <= i < |rest| ==> rest[i] == order[i + 1] && rest[i] != order[0];
  }

  lemma {:induction false} SpillMovesFirst<V>(c: Cache<V>, n: int, order: seq<int>)
    requires NoDup(order) && forall i :: 0 <= i < |order| ==> order[i] in c.device
    ensures var ok := ChangedTier(c, Spill(c, n, order), Moved(n, order)); ok
    decreases |order|
  {
    if 0 < n && order != [] {
      var id, rest := order[0], order[1..];
      RestOnDevice(c, order);
      SpillMovesFirst(SpillOne(c, id), n - 1, rest);
      MovedSplits(n, order);
      OneMoreChanged(c, Spill(c, n, order), id, Moved(n - 1, rest));
    } else {
      assert c.freeDevice + [] == c.freeDevice;
    }
  }

  /** Immediately after a spill everything still reads as before. */
  lemma {:induction false} SpillKeepsView<V>(p: Config<V>, c: Cache<V>, n: int, order: seq<int>)
    requires p.Valid() && Blocks(p, c) && forall id :: id in c.device ==> id !in c.host
    ensures Blocks(p, Spill(c, n, order)) && View(p, Spill(c, n, order)) == View(p, c)
    decreases |order|
  {
    if !(n <= 0 || order == [] || order[0] !in c.device) {
      var id, d := order[0], SpillOne(c, order[0]);
      SameCellsSameView(p, c, d);
      SpillKeepsView(p, d, n - 1, order[1..]);
    }
  }

  lemma {:induction false} SpillFrees<V>(c: Cache<V>, n: int, order: seq<int>)
    ensures c.freeDevice <= Spill(c, n, order).freeDevice && Spill(c, n, order).tables == c.tables
    ensures forall id :: Stored(Spill(c, n, order), id) <==> Stored(c, id)
    ensures forall id :: id in Spill(c, n, order).freeDevice ==> id in c.freeDevice || id in c.device
    ensures n > 0 && order != [] && order[0] in c.device ==> |Spill(c, n, order).freeDevice| > |c.freeDevice|
    decreases |order|
  {
    if !(n <= 0 || order == [] || order[0] !in c.device) {
      var id, d := order[0], SpillOne(c, order[0]);
      assert forall x :: Stored(d, x) <==> Stored(c, x);
      SpillFrees(d, n - 1, order[1..]);
    }
  }

  /** Spilling keeps the invariant exactly when it moves nothing; a spill that moves a block
      leaves its id both free and in a table, and the next device allocation hands that block
      out again, so a covered slot reads as zeros. */
  lemma SpillIsSoundOnlyWhenIdle<V>(p: Config<V>, c: Cache<V>, n: int, order: seq<int>)
    requires Inv(p, c) && forall id :: id in order <==> id in c.device
    ensures Inv(p, Spill(c, n, order)) <==> n <= 0 || order == []
    ensures n > 0 && order != [] ==>
              var (a, id) := Alloc(p, Spill(c, n, order), true);
              a.tables == c.tables && Blocks(p, a) && (exists r, l, i :: Holds(c, id, r, l, i)) &&
              forall off: nat :: off < p.blockSize ==> Cell(p, a, id, off) == (p.zero, p.zero)
  {
    var d := Spill(c, n, order);
    SpillFrees(c, n, order);
    SpillKeepsView(p, c, n, order);
    if order != [] {
      FirstOnDevice(c, order);
      if n > 0 {
        SpilledLast(c, n, order);
        var id := d.freeDevice[|d.freeDevice| - 1];
        assert id in d.freeDevice;
        assert Stored(c, id) && Stored(d, id) && Free(d, id);
      } else {
        assert d == c;
      }
    } else {
      assert d == c;
    }
  }

  lemma FirstOnDevice<V>(c: Cache<V>, order: seq<int>)
    requires order != [] && forall id :: id in order ==> id in c.device
    ensures order[0] in c.device
  {
    var first := order[0];
    assert first in order;
    assert first in c.device;
  }

  lemma {:induction false} SpilledLast<V>(c: Cache<V>, n: int, order: seq<int>)
    requires n > 0 && order != [] && order[0] in c.device
    ensures var f := Spill(c, n, order).freeDevice; f != [] && f[|f| - 1] in c.device
    decreases |order|
  {
    var d := SpillOne(c, order[0]);
    if !(n - 1 <= 0 || order[1..] == [] || order[1..][0] !in d.device) {
      SpilledLast(d, n - 1, order[1..]);
    }
  }
}
