/** The cache object: block arrays updated in place, tables and pools reassigned. Every method
    is proved against the state machine of KvCache. */
module PagedKVCache {
  import opened KvCache
  import Arith
  import opened Sequences
  import opened Wrappers

  /** The contents of a storage dict. */
  ghost function Contents<V>(m: map<int, array<V>>): (c: map<int, seq<V>>)
    reads m.Values
  {
    map id | id in m :: m[id][..]
  }

  lemma ContentsAfterStore<V>(m: map<int, array<V>>, id: int, buf: array<V>)
    ensures Contents(m[id := buf]) == Contents(m)[id := buf[..]]
  {
  }

  lemma ContentsUnchanged<V>(m: map<int, array<V>>, c: map<int, seq<V>>)
    requires m.Keys == c.Keys && forall x :: x in m ==> m[x][..] == c[x]
    ensures Contents(m) == c
  {
    var d := Contents(m);
    assert d.Keys == c.Keys;
    assert forall x :: x in d ==> x in c && d[x] == c[x];
  }

  lemma ContentsChangedAt<V>(m: map<int, array<V>>, c: map<int, seq<V>>, id: int)
    requires m.Keys == c.Keys && id in m && forall x :: x in m && x != id ==> m[x][..] == c[x]
    ensures Contents(m) == c[id := m[id][..]]
  {
    var d, e := Contents(m), c[id := m[id][..]];
    assert d.Keys == e.Keys;
    assert forall x :: x in d ==> x in e && d[x] == e[x];
  }

  /** Appending one sentinel is a step of the padding loop, which stops at n slots. */
  lemma PadStep<V>(c: Cache<V>, r: string, l: int, n: nat)
    requires r in c.tables && 0 <= l < |c.tables[r]|
    ensures var t := c.tables[r];
            if |t[l]| < n then Pad(c.(tables := c.tables[r := t[l := t[l] + [-1]]]), r, l, n) == Pad(c, r, l, n)
            else Pad(c, r, l, n) == c
  {
    var t := c.tables[r];
    if |t[l]| < n {
      var row, t' := t[l] + Sentinels(n - |t[l]|), t[l := t[l] + [-1]];
      assert t'[l] + Sentinels(n - |t'[l]|) == row;
      assert t'[l := row] == t[l := row];
      assert c.tables[r := t'][r := t[l := row]] == c.tables[r := t[l := row]];
    } else {
      assert t[l] + Sentinels(n - |t[l]|) == t[l];
      assert t[l := t[l]] == t;
    }
  }

  /** After i of the ids have moved, the rest of the spill of n leads to `done`. */
  ghost predicate Spilling<V>(c: Cache<V>, n: int, order: seq<int>, i: nat, done: Cache<V>) {
    i <= |order| && (forall j :: i <= j < |order| ==> order[j] in c.device) && Spill(c, n - i, order[i..]) == done
  }

  lemma SpillStarts<V>(c: Cache<V>, n: int, order: seq<int>)
    requires forall id :: id in order ==> id in c.device
    ensures Spilling(c, n, order, 0, Spill(c, n, order))
  {
    assert order[0..] == order;
    forall j | 0 <= j < |order| ensures order[j] in c.device {
      var id := order[j];
      assert id in order;
    }
  }

  /** Whether `blocks[pos // block_size]` is in range. */
  lemma InRowIff(pos: int, n: int, w: int)
    requires 0 < w && 0 <= n
    ensures Indexes(pos / w, n) <==> Indexes(pos, n * w)
  {
    var b := pos / w;
    assert pos == w * b + pos % w;
    if Indexes(pos, n * w) {
      WrapBlock(pos, n, w);
    } else if pos >= n * w {
      if b < n {
        Arith.Scale(b + 1, n, w);
      }
    } else if b >= -n {
      Arith.Scale(-n, b, w);
    }
  }

  lemma SpillingOn<V>(c: Cache<V>, n: int, order: seq<int>, i: nat, done: Cache<V>)
    requires NoDup(order) && i < |order| && i < n && Spilling(c, n, order, i, done)
    ensures Spilling(SpillOne(c, order[i]), n, order, i + 1, done)
  {
    assert order[i..][0] == order[i] && order[i..][1..] == order[i + 1..];
    assert n - i - 1 == n - (i + 1);
  }

  lemma SpillingEnds<V>(c: Cache<V>, n: int, order: seq<int>, i: nat, done: Cache<V>)
    requires Spilling(c, n, order, i, done) && (i == |order| || n <= i)
    ensures c == done
  {
    assert i == |order| ==> order[i..] == [];
  }

  method ZeroBuffer<V(0)>(n: nat, zero: V) returns (buf: array<V>)
    ensures fresh(buf) && buf[..] == seq(n, _ => zero)
  {
    buf := new V[n](_ => zero);
  }

  /** No two ids share a buffer. */
  ghost predicate Apart<V>(d: map<int, array<V>>, h: map<int, array<V>>) {
    (forall a, b :: a in d && b in d && a != b ==> d[a] != d[b]) &&
    (forall a, b :: a in h && b in h && a != b ==> h[a] != h[b]) &&
    (forall a, b :: a in d && b in h ==> d[a] != h[b])
  }

  lemma StillApart<V>(d: map<int, array<V>>, h: map<int, array<V>>, id: int, buf: array<V>)
    requires Apart(d, h) && buf !in d.Values && buf !in h.Values
    ensures Apart(d[id := buf], h) && Apart(d, h[id := buf])
  {
    assert forall a :: a in d ==> d[a] in d.Values;
    assert forall a :: a in h ==> h[a] in h.Values;
  }

  class PagedKVCache<V(0)> {
    const p: Config<V>
    var freeDevice: seq<int>
    var freeHost: seq<int>
    var nextBlock: nat
    var storageDevice: map<int, array<V>>
    var storageHost: map<int, array<V>>
    var seqBlocks: map<string, Table>

    ghost function Abs(): Cache<V>
      reads this, storageDevice.Values, storageHost.Values
    {
      Cache(freeDevice, freeHost, nextBlock, Contents(storageDevice), Contents(storageHost), seqBlocks)
    }

    ghost predicate Valid()
      reads this, storageDevice.Values, storageHost.Values
    {
      Apart(storageDevice, storageHost) && Inv(p, Abs())
    }

    /** Every stored block has its own buffer, of the block's size. Holds on any pools. */
    ghost predicate Usable()
      reads this, storageDevice.Values, storageHost.Values
    {
      p.Valid() && Apart(storageDevice, storageHost) && Blocks(p, Abs())
    }

    constructor (config: Config<V>, numBlocksDevice: nat, numBlocksHost: nat, hostBase: nat)
      requires config.Valid()
      ensures p == config && Abs() == Initial(numBlocksDevice, numBlocksHost, hostBase) && Usable()
      ensures Valid() <==> numBlocksHost == 0 || hostBase == numBlocksDevice
      ensures storageDevice == map[] && storageHost == map[]
    {
      p := config;
      freeDevice := Numbered(0, numBlocksDevice);
      freeHost := Numbered(hostBase, numBlocksHost);
      nextBlock := numBlocksDevice + numBlocksHost;
      storageDevice, storageHost, seqBlocks := map[], map[], map[];
      new;
      InitialIsSound(p, numBlocksDevice, numBlocksHost, hostBase);
      assert Abs() == Initial(numBlocksDevice, numBlocksHost, hostBase);
    }

    /** `_alloc_block`: the id and whether it belongs to the device tier. */
    method AllocBlock(prefer: bool) returns (idx: int, onDevice: bool)
      modifies `freeDevice, `freeHost, `nextBlock
      ensures onDevice <==> prefer && old(freeDevice) != []
      ensures var (a, id) := Alloc(p, old(Abs()), prefer);
              idx == id && freeDevice == a.freeDevice && freeHost == a.freeHost && nextBlock == a.next
    {
      if prefer && freeDevice != [] {
        idx, onDevice := freeDevice[|freeDevice| - 1], true;
        freeDevice := freeDevice[..|freeDevice| - 1];
      } else if freeHost != [] {
        idx, onDevice := freeHost[|freeHost| - 1], false;
        freeHost := freeHost[..|freeHost| - 1];
      } else {
        idx, onDevice := nextBlock, false;
        nextBlock := nextBlock + 1;
      }
    }

    /** `storage[idx] = np.zeros(...)` in the chosen tier. */
    method NewStorage(idx: int, onDevice: bool)
      requires Apart(storageDevice, storageHost)
      modifies `storageDevice, `storageHost
      ensures Apart(storageDevice, storageHost)
      ensures var z := seq(2 * p.blockSize, _ => p.zero);
              var d, h := old(Contents(storageDevice)), old(Contents(storageHost));
              if onDevice then Contents(storageDevice) == d[idx := z] && Contents(storageHost) == h
              else Contents(storageDevice) == d && Contents(storageHost) == h[idx := z]
    {
      var zeros := ZeroBuffer(2 * p.blockSize, p.zero);
      StillApart(storageDevice, storageHost, idx, zeros);
      if onDevice {
        ContentsAfterStore(storageDevice, idx, zeros);
        storageDevice := storageDevice[idx := zeros];
      } else {
        ContentsAfterStore(storageHost, idx, zeros);
        storageHost := storageHost[idx := zeros];
      }
    }

    /** Allocates the block of one sentinel slot and zeroes its storage. */
    method FillSlot(reqId: string, l: nat, i: nat, prefer: bool)
      requires Apart(storageDevice, storageHost) && Holds(Abs(), -1, reqId, l, i)
      modifies this
      ensures Apart(storageDevice, storageHost)
      ensures Abs() == Place(p, old(Abs()), reqId, l, i, prefer)
    {
      var idx, onDevice := AllocBlock(prefer);
      seqBlocks := seqBlocks[reqId := SetSlot(seqBlocks[reqId], l, i, idx)];
      NewStorage(idx, onDevice);
    }

    /** One layer of `ensure_sequence`: the padding loop, then a block for every sentinel. */
    method EnsureLayer(reqId: string, l: nat, n: nat, prefer: bool)
      requires Apart(storageDevice, storageHost) && reqId in seqBlocks && l < |seqBlocks[reqId]|
      modifies this
      ensures Apart(storageDevice, storageHost)
      ensures Abs() == FillLayer(p, Pad(old(Abs()), reqId, l, n), reqId, l, 0, n, prefer)
    {
      PadRow(reqId, l, n);
      ghost var c := Abs();
      var i := 0;
      while i < n
        invariant Apart(storageDevice, storageHost)
        invariant reqId in seqBlocks && l < |seqBlocks[reqId]| && n <= |seqBlocks[reqId][l]|
        invariant 0 <= i <= n
        invariant FillLayer(p, Abs(), reqId, l, i, n, prefer) == FillLayer(p, c, reqId, l, 0, n, prefer)
      {
        if seqBlocks[reqId][l][i] == -1 {
          FillSlot(reqId, l, i, prefer);
        }
        i := i + 1;
      }
    }

    method PadRow(reqId: string, l: nat, n: nat)
      requires reqId in seqBlocks && l < |seqBlocks[reqId]|
      modifies `seqBlocks
      ensures Abs() == Pad(old(Abs()), reqId, l, n)
    {
      PadStep(Abs(), reqId, l, n);
      while |seqBlocks[reqId][l]| < n
        invariant reqId in seqBlocks && l < |seqBlocks[reqId]|
        invariant Pad(Abs(), reqId, l, n) == Pad(old(Abs()), reqId, l, n)
        invariant |seqBlocks[reqId][l]| >= n ==> Abs() == Pad(Abs(), reqId, l, n)
        decreases n - |seqBlocks[reqId][l]|
      {
        PadStep(Abs(), reqId, l, n);
        var t := seqBlocks[reqId];
        seqBlocks := seqBlocks[reqId := t[l := t[l] + [-1]]];
        PadStep(Abs(), reqId, l, n);
      }
    }

    method EnsureLayers(reqId: string, n: nat, prefer: bool)
      requires Apart(storageDevice, storageHost) && reqId in seqBlocks
      modifies this
      ensures Apart(storageDevice, storageHost)
      ensures Abs() == EnsureFrom(p, old(Abs()), reqId, 0, n, prefer)
    {
      ghost var c := Abs();
      var l := 0;
      while l < |seqBlocks[reqId]|
        invariant Apart(storageDevice, storageHost) && reqId in seqBlocks && 0 <= l <= |seqBlocks[reqId]|
        invariant EnsureFrom(p, Abs(), reqId, l, n, prefer) == EnsureFrom(p, c, reqId, 0, n, prefer)
        decreases |seqBlocks[reqId]| - l
      {
        FillLayerShape(p, Pad(Abs(), reqId, l, n), reqId, l, 0, n, prefer);
        EnsureLayer(reqId, l, n, prefer);
        l := l + 1;
      }
    }

    method EnsureTable(reqId: string, seqLen: nat, prefer: bool)
      requires p.Valid() && Apart(storageDevice, storageHost)
      modifies this
      ensures Apart(storageDevice, storageHost) && Abs() == Ensure(p, old(Abs()), reqId, seqLen, prefer)
    {
      var n := BlocksFor(p, seqLen);
      if reqId !in seqBlocks {
        seqBlocks := seqBlocks[reqId := seq(p.layers, _ => Sentinels(n))];
      }
      assert Abs() == Register(p, old(Abs()), reqId, n);
      EnsureLayers(reqId, n, prefer);
    }

    method EnsureSequence(reqId: string, seqLen: nat, prefer: bool)
      requires p.Valid() && Apart(storageDevice, storageHost)
      modifies this
      ensures Apart(storageDevice, storageHost) && Abs() == Ensure(p, old(Abs()), reqId, seqLen, prefer)
      ensures old(Usable()) ==> Usable()
      ensures old(Valid()) ==>
                Valid() &&
                View(p, Abs()) == FlatEnsure(p, old(View(p, Abs())), reqId, BlocksFor(p, seqLen) * p.blockSize)
    {
      if Usable() {
        StepKeepsBlocks(p, Abs(), EnsureOp(reqId, seqLen, prefer));
      }
      if Valid() {
        EnsureRefines(p, Abs(), reqId, seqLen, prefer);
      }
      EnsureTable(reqId, seqLen, prefer);
    }

    /** Whether `get_block_array` finds the block. */
    predicate HasBlock(blockIdx: int)
      reads this
    {
      blockIdx in storageDevice || blockIdx in storageHost
    }

    method GetBlockArray(blockIdx: int) returns (arr: array<V>)
      requires Stored(Abs(), blockIdx)
      ensures arr == if blockIdx in storageDevice then storageDevice[blockIdx] else storageHost[blockIdx]
    {
      if blockIdx in storageDevice {
        arr := storageDevice[blockIdx];
      } else {
        arr := storageHost[blockIdx];
      }
    }

    /** The two in-place stores of `write`. */
    method UpdateBlock(id: int, off: nat, k: V, v: V)
      requires p.Valid() && Apart(storageDevice, storageHost) && Stored(Abs(), id)
      requires off < p.blockSize && Blocks(p, Abs())
      modifies storageDevice.Values, storageHost.Values
      ensures var d, h := old(Contents(storageDevice)), old(Contents(storageHost));
              if id in storageDevice then
                Contents(storageDevice) == d[id := SetCell(p, d[id], off, k, v)] && Contents(storageHost) == h
              else
                Contents(storageDevice) == d && Contents(storageHost) == h[id := SetCell(p, h[id], off, k, v)]
    {
      var arr := GetBlockArray(id);
      ghost var d, h := Contents(storageDevice), Contents(storageHost);
      assert arr[..] == if id in storageDevice then d[id] else h[id];
      arr[off] := k;
      arr[p.blockSize + off] := v;
      assert arr[..] == SetCell(p, old(arr[..]), off, k, v);
      if id in storageDevice {
        assert forall x :: x in storageDevice && x != id ==> storageDevice[x] != arr;
        ContentsChangedAt(storageDevice, d, id);
        ContentsUnchanged(storageHost, h);
      } else {
        assert forall x :: x in storageHost && x != id ==> storageHost[x] != arr;
        ContentsUnchanged(storageDevice, d);
        ContentsChangedAt(storageHost, h, id);
      }
    }

    /** The table lookup of one position: None is a KeyError or an IndexError. */
    method Lookup(reqId: string, layer: int, pos: int) returns (found: Option<(int, nat)>)
      requires p.Valid()
      ensures found.Some? <==> Addressed(p, Abs(), reqId, layer, pos)
      ensures found.Some? ==>
                var (l, at) := Target(p, Abs(), reqId, layer, pos);
                found.value == (SlotOf(p, Abs(), reqId, l, at), at % p.blockSize)
    {
      if reqId !in seqBlocks || !Indexes(layer, |seqBlocks[reqId]|) {
        return None;
      }
      var row := seqBlocks[reqId][Wrap(layer, |seqBlocks[reqId]|)];
      var b, off := pos / p.blockSize, pos % p.blockSize;
      InRowIff(pos, |row|, p.blockSize);
      if !Indexes(b, |row|) {
        return None;
      }
      WrapBlock(pos, |row|, p.blockSize);
      found := Some((row[Wrap(b, |row|)], off));
    }

    /** The body of `write`; its branch for a sentinel block finds the table long enough and does
        nothing. */
    method Store(reqId: string, layer: int, pos: int, k: V, v: V) returns (ok: bool)
      requires Usable()
      modifies storageDevice.Values, storageHost.Values
      ensures ok == Located(p, old(Abs()), reqId, layer, pos)
      ensures Abs() == Step(p, old(Abs()), WriteOp(reqId, layer, pos, k, v))
    {
      var found := Lookup(reqId, layer, pos);
      if found.None? || !HasBlock(found.value.0) {
        return false;
      }
      var (id, off) := found.value;
      ghost var c := Abs();
      ghost var (l, at) := Target(p, c, reqId, layer, pos);
      UpdateBlock(id, off, k, v);
      assert Abs() == KvCache.Write(p, c, reqId, l, at, k, v);
      ok := true;
    }

    /** `write`, on any pools; false when it raises, and then nothing has changed. */
    method Write(reqId: string, layer: int, pos: int, k: V, v: V) returns (ok: bool)
      requires Usable()
      modifies storageDevice.Values, storageHost.Values
      ensures Usable() && ok == Located(p, old(Abs()), reqId, layer, pos)
      ensures Abs() == Step(p, old(Abs()), WriteOp(reqId, layer, pos, k, v))
      ensures old(Valid()) ==>
                Valid() && ok == Addressed(p, old(Abs()), reqId, layer, pos) &&
                View(p, Abs()) == FlatStep(p, old(View(p, Abs())), WriteOp(reqId, layer, pos, k, v))
    {
      StepKeepsBlocks(p, Abs(), WriteOp(reqId, layer, pos, k, v));
      if Valid() {
        StepRefines(p, Abs(), WriteOp(reqId, layer, pos, k, v));
        ReadRefines(p, Abs(), reqId, layer, pos);
      }
      ok := Store(reqId, layer, pos, k, v);
    }

    /** One pass through the loop body of `read`. */
    method ReadOne(reqId: string, layer: int, pos: int) returns (cell: Option<(V, V)>)
      requires Usable()
      ensures cell == ReadOf(p, Abs(), reqId, layer, pos)
    {
      var found := Lookup(reqId, layer, pos);
      if found.None? || !HasBlock(found.value.0) {
        return None;
      }
      var (id, off) := found.value;
      ghost var (l, at) := Target(p, Abs(), reqId, layer, pos);
      RowAt(p, Abs(), seqBlocks[reqId][l], at);
      var arr := GetBlockArray(id);
      cell := Some((arr[off], arr[p.blockSize + off]));
    }

    /** `read`, on any pools: None when a position raises, or when there is none to stack. */
    method Read(reqId: string, layer: int, start: int, end: int) returns (cells: Option<(seq<V>, seq<V>)>)
      requires Usable()
      ensures cells.Some? <==>
                start < end && forall pos :: start <= pos < end ==> ReadOf(p, Abs(), reqId, layer, pos).Some?
      ensures cells.Some? ==>
                var (ks, vs) := cells.value;
                |ks| == |vs| == end - start &&
                forall i :: 0 <= i < end - start ==> ReadOf(p, Abs(), reqId, layer, start + i) == Some((ks[i], vs[i]))
    {
      var ks: seq<V>, vs: seq<V> := [], [];
      var pos := start;
      while pos < end
        invariant start <= pos && (pos <= end || pos == start) && |ks| == |vs| == pos - start
        invariant forall q :: start <= q < pos ==>
                    ReadOf(p, Abs(), reqId, layer, q) == Some((ks[q - start], vs[q - start]))
      {
        var cell := ReadOne(reqId, layer, pos);
        if cell.None? {
          return None;
        }
        ks, vs, pos := ks + [cell.value.0], vs + [cell.value.1], pos + 1;
      }
      cells := if start < end then Some((ks, vs)) else None;
    }

    method FreeBlock(idx: int)
      requires Apart(storageDevice, storageHost)
      modifies this
      ensures Apart(storageDevice, storageHost) && Abs() == ReleaseOne(old(Abs()), idx)
    {
      if idx in storageDevice {
        storageDevice := storageDevice - {idx};
        freeDevice := freeDevice + [idx];
        assert Contents(storageDevice) == old(Contents(storageDevice)) - {idx};
      } else if idx in storageHost {
        storageHost := storageHost - {idx};
        freeHost := freeHost + [idx];
        assert Contents(storageHost) == old(Contents(storageHost)) - {idx};
      }
    }

    /** The deletion loop. */
    method FreeBlocks(ids: seq<int>)
      requires Apart(storageDevice, storageHost)
      modifies this
      ensures Apart(storageDevice, storageHost) && Abs() == Release(old(Abs()), ids)
    {
      ghost var c := Abs();
      var i := 0;
      assert ids[0..] == ids;
      while i < |ids|
        invariant 0 <= i <= |ids| && Apart(storageDevice, storageHost)
        invariant Release(Abs(), ids[i..]) == Release(c, ids)
      {
        assert ids[i..][0] == ids[i] && ids[i..][1..] == ids[i + 1..];
        FreeBlock(ids[i]);
        i := i + 1;
      }
      assert ids[i..] == [];
    }

    method FreeTable(reqId: string)
      requires Apart(storageDevice, storageHost)
      modifies this
      ensures Apart(storageDevice, storageHost) && Abs() == FreeRequest(old(Abs()), reqId)
    {
      if reqId !in seqBlocks {
        return;
      }
      var ids := Concat(seqBlocks[reqId]);
      seqBlocks := seqBlocks - {reqId};
      FreeBlocks(ids);
    }

    method Free(reqId: string)
      requires p.Valid() && Apart(storageDevice, storageHost)
      modifies this
      ensures Apart(storageDevice, storageHost) && Abs() == FreeRequest(old(Abs()), reqId)
      ensures old(Usable()) ==> Usable()
      ensures old(Valid()) ==> Valid() && View(p, Abs()) == old(View(p, Abs())) - {reqId}
    {
      if Usable() {
        StepKeepsBlocks(p, Abs(), FreeOp(reqId));
      }
      if Valid() {
        FreeRefines(p, Abs(), reqId);
      }
      FreeTable(reqId);
    }

    /** One pass through the loop body of `spill_cold_blocks`: the block changes tier under its id,
        with its buffer. */
    method SpillBlock(idx: int)
      requires Apart(storageDevice, storageHost) && idx in storageDevice
      modifies this
      ensures Apart(storageDevice, storageHost) && Abs() == SpillOne(old(Abs()), idx)
    {
      var arr := storageDevice[idx];
      storageDevice := storageDevice - {idx};
      storageHost := storageHost[idx := arr];
      freeDevice := freeDevice + [idx];
      ContentsAfterStore(old(storageHost), idx, arr);
      assert Contents(storageDevice) == old(Contents(storageDevice)) - {idx};
    }

    method SpillLoop(n: int, order: seq<int>) returns (moved: nat)
      requires Apart(storageDevice, storageHost) && NoDup(order) && forall id :: id in order ==> id in storageDevice
      modifies this
      ensures Apart(storageDevice, storageHost) && Abs() == Spill(old(Abs()), n, order)
      ensures moved == if n <= 0 then 0 else if n < |order| then n else |order|
    {
      ghost var done := Spill(Abs(), n, order);
      SpillStarts(Abs(), n, order);
      moved := 0;
      while moved < |order| && moved < n
        invariant moved <= |order| && (moved <= n || moved == 0) && Apart(storageDevice, storageHost)
        invariant Spilling(Abs(), n, order, moved, done)
      {
        SpillingOn(Abs(), n, order, moved, done);
        SpillBlock(order[moved]);
        moved := moved + 1;
      }
      SpillingEnds(Abs(), n, order, moved, done);
    }

    /** `order` is the device dict's iteration order. A valid cache stays valid only when nothing
        moved. */
    method SpillColdBlocks(n: int, order: seq<int>) returns (moved: nat)
      requires Apart(storageDevice, storageHost) && NoDup(order) && forall id :: id in order <==> id in storageDevice
      modifies this
      ensures Apart(storageDevice, storageHost) && Abs() == Spill(old(Abs()), n, order)
      ensures moved == if n <= 0 then 0 else if n < |order| then n else |order|
      ensures old(Usable()) ==> Usable()
      ensures old(Valid()) ==> (Valid() <==> moved == 0)
    {
      if Usable() {
        SpillKeepsBlocks(p, Abs(), n, order);
      }
      if Valid() {
        SpillIsSoundOnlyWhenIdle(p, Abs(), n, order);
      }
      moved := SpillLoop(n, order);
    }
  }
}
