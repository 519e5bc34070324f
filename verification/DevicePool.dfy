/** Runs that the device pool is large enough for: they refine the flat table whatever the numbers
    of the host blocks, also the colliding ones of the source. */
module DevicePool {
  import opened KvCache
  import opened Sequences

  /** The same cache beside another host pool and id counter. */
  function Beside<V>(c: Cache<V>, pool: seq<int>, next: nat): Cache<V> {
    c.(freeHost := pool, next := next)
  }

  // ---------------------------------------------------------------- what a call allocates

  /** The sentinels among slots i..n-1. */
  function Holes(row: seq<int>, i: nat, n: nat): nat
    requires n <= |row|
    decreases n - i
  {
    if i >= n then 0 else (if row[i] == -1 then 1 else 0) + Holes(row, i + 1, n)
  }

  function PadTo(row: seq<int>, n: nat): (padded: seq<int>)
    ensures |padded| >= n
  {
    row + Sentinels(n - |row|)
  }

  /** The blocks that covering n slots in each layer from l on allocates. */
  function Demand(t: Table, l: nat, n: nat): nat
    decreases |t| - l
  {
    if l >= |t| then 0 else Holes(PadTo(t[l], n), 0, n) + Demand(t, l + 1, n)
  }

  /** An `ensure_sequence` that prefers the device and finds enough free blocks there. */
  predicate Roomy<V>(p: Config<V>, c: Cache<V>, op: Op<V>)
    requires p.Valid()
  {
    op.EnsureOp? ==>
      var n := BlocksFor(p, op.seqLen);
      op.prefer && Demand(Register(p, c, op.r, n).tables[op.r], 0, n) <= |c.freeDevice|
  }

  lemma {:induction false} SameHoles(row: seq<int>, row': seq<int>, i: nat, n: nat)
    requires n <= |row| && n <= |row'| && forall j :: i <= j < n ==> row[j] == row'[j]
    ensures Holes(row, i, n) == Holes(row', i, n)
    decreases n - i
  {
    if i < n {
      SameHoles(row, row', i + 1, n);
    }
  }

  lemma {:induction false} SameDemand(t: Table, t': Table, l: nat, n: nat)
    requires |t| == |t'| && forall k :: l <= k < |t| ==> t[k] == t'[k]
    ensures Demand(t, l, n) == Demand(t', l, n)
    decreases |t| - l
  {
    if l < |t| {
      SameDemand(t, t', l + 1, n);
    }
  }

  // ---------------------------------------------------------------- one call

  /** Only row l of this request's table may differ. */
  ghost predicate OneRow<V>(c: Cache<V>, d: Cache<V>, r: string, l: nat) {
    r in c.tables && r in d.tables && |d.tables[r]| == |c.tables[r]| && l < |c.tables[r]| &&
    forall k :: 0 <= k < |c.tables[r]| && k != l ==> d.tables[r][k] == c.tables[r][k]
  }

  lemma PlaceOnDevice<V>(p: Config<V>, c: Cache<V>, pool: seq<int>, next: nat, r: string, l: nat, i: nat)
    requires Holds(c, -1, r, l, i) && c.freeDevice != []
    ensures var d := Place(p, c, r, l, i, true);
            Place(p, Beside(c, pool, next), r, l, i, true) == Beside(d, pool, next) && d.host == c.host &&
            |d.freeDevice| == |c.freeDevice| - 1 && OneRow(c, d, r, l) &&
            |d.tables[r][l]| == |c.tables[r][l]| &&
            forall j :: 0 <= j < |c.tables[r][l]| && j != i ==> d.tables[r][l][j] == c.tables[r][l][j]
  {
  }

  lemma {:induction false} FillOnDevice<V>(p: Config<V>, c: Cache<V>, pool: seq<int>, next: nat, r: string, l: nat,
                                           i: nat, n: nat)
    requires r in c.tables && l < |c.tables[r]| && n <= |c.tables[r][l]|
    requires Holes(c.tables[r][l], i, n) <= |c.freeDevice|
    ensures var d := FillLayer(p, c, r, l, i, n, true);
            FillLayer(p, Beside(c, pool, next), r, l, i, n, true) == Beside(d, pool, next) && d.host == c.host &&
            |d.freeDevice| + Holes(c.tables[r][l], i, n) == |c.freeDevice| && OneRow(c, d, r, l)
    decreases n - i
  {
    if i < n {
      if c.tables[r][l][i] == -1 {
        var d := Place(p, c, r, l, i, true);
        PlaceOnDevice(p, c, pool, next, r, l, i);
        SameHoles(c.tables[r][l], d.tables[r][l], i + 1, n);
        FillOnDevice(p, d, pool, next, r, l, i + 1, n);
      } else {
        FillOnDevice(p, c, pool, next, r, l, i + 1, n);
      }
    }
  }

  lemma {:induction false} EnsureOnDevice<V>(p: Config<V>, c: Cache<V>, pool: seq<int>, next: nat, r: string, l: nat,
                                             n: nat)
    requires r in c.tables && Demand(c.tables[r], l, n) <= |c.freeDevice|
    ensures var d := EnsureFrom(p, c, r, l, n, true);
            EnsureFrom(p, Beside(c, pool, next), r, l, n, true) == Beside(d, pool, next) && d.host == c.host
    decreases |c.tables[r]| - l
  {
    if l < |c.tables[r]| {
      var padded := Pad(c, r, l, n);
      assert Pad(Beside(c, pool, next), r, l, n) == Beside(padded, pool, next);
      FillOnDevice(p, padded, pool, next, r, l, 0, n);
      var d := FillLayer(p, padded, r, l, 0, n, true);
      SameDemand(c.tables[r], d.tables[r], l + 1, n);
      EnsureOnDevice(p, d, pool, next, r, l + 1, n);
    }
  }

  lemma {:induction false} ReleaseToDevice<V>(c: Cache<V>, pool: seq<int>, next: nat, ids: seq<int>)
    requires c.host == map[]
    ensures Release(Beside(c, pool, next), ids) == Beside(Release(c, ids), pool, next) && Release(c, ids).host == map[]
    decreases |ids|
  {
    if ids != [] {
      ReleaseToDevice(ReleaseOne(c, ids[0]), pool, next, ids[1..]);
    }
  }

  lemma StepOnDevice<V>(p: Config<V>, c: Cache<V>, pool: seq<int>, next: nat, op: Op<V>)
    requires p.Valid() && c.host == map[] && Roomy(p, c, op)
    ensures Step(p, Beside(c, pool, next), op) == Beside(Step(p, c, op), pool, next) && Step(p, c, op).host == map[]
  {
    match op
    case EnsureOp(r, seqLen, prefer) =>
      var n := BlocksFor(p, seqLen);
      EnsureOnDevice(p, Register(p, c, r, n), pool, next, r, 0, n);
    case WriteOp(r, l, pos, k, v) =>
    case FreeOp(r) =>
      if r in c.tables {
        ReleaseToDevice(c.(tables := c.tables - {r}), pool, next, Concat(c.tables[r]));
      }
  }

  // ---------------------------------------------------------------- whole runs

  ghost predicate RoomyAt<V>(p: Config<V>, start: Cache<V>, ops: seq<Op<V>>, k: nat)
    requires p.Valid() && k < |ops|
  {
    Roomy(p, Run(p, start, ops, k), ops[k])
  }

  lemma SameRoom<V>(p: Config<V>, c: Cache<V>, pool: seq<int>, next: nat, op: Op<V>)
    requires p.Valid()
    ensures Roomy(p, Beside(c, pool, next), op) <==> Roomy(p, c, op)
  {
  }

  lemma {:induction false} RunOnDevice<V>(p: Config<V>, deviceBlocks: nat, hostBlocks: nat, hostBase: nat,
                                          ops: seq<Op<V>>, n: nat)
    requires p.Valid() && n <= |ops|
    requires forall k: nat :: k < n ==> RoomyAt(p, Initial(deviceBlocks, hostBlocks, hostBase), ops, k)
    ensures var c := Run(p, Initial(deviceBlocks, 0, 0), ops, n);
            c.host == map[] &&
            Run(p, Initial(deviceBlocks, hostBlocks, hostBase), ops, n) ==
              Beside(c, Numbered(hostBase, hostBlocks), deviceBlocks + hostBlocks)
  {
    var start, pool, next := Initial<V>(deviceBlocks, hostBlocks, hostBase), Numbered(hostBase, hostBlocks),
      deviceBlocks + hostBlocks;
    if n == 0 {
      assert start == Beside(Initial(deviceBlocks, 0, 0), pool, next);
    } else {
      RunOnDevice(p, deviceBlocks, hostBlocks, hostBase, ops, n - 1);
      var c := Run(p, Initial(deviceBlocks, 0, 0), ops, n - 1);
      assert RoomyAt(p, start, ops, n - 1);
      SameRoom(p, c, pool, next, ops[n - 1]);
      StepOnDevice(p, c, pool, next, ops[n - 1]);
    }
  }

  lemma BesideRefines<V>(p: Config<V>, c: Cache<V>, d: Cache<V>, pool: seq<int>, next: nat, f: Flat<V>)
    requires p.Valid() && c == Beside(d, pool, next) && Refines(p, d, f)
    ensures Refines(p, c, f)
  {
    SameCellsSameView(p, d, c);
  }

  lemma DeviceRunRefines<V>(p: Config<V>, deviceBlocks: nat, ops: seq<Op<V>>, n: nat)
    requires p.Valid() && n <= |ops|
    ensures Refines(p, Run(p, Initial(deviceBlocks, 0, 0), ops, n), FlatRun(p, ops, n))
  {
    RunRefines(p, deviceBlocks, 0, 0, ops, n);
  }

  /** However the host blocks are numbered, also from 0 as in the source: a run in which every
      `ensure_sequence` prefers the device and finds enough free blocks there refines the flat
      table, and leaves the host tier empty. */
  lemma RoomyRunsRefine<V>(p: Config<V>, deviceBlocks: nat, hostBlocks: nat, hostBase: nat, ops: seq<Op<V>>, n: nat)
    requires p.Valid() && n <= |ops|
    requires forall k: nat :: k < n ==> RoomyAt(p, Initial(deviceBlocks, hostBlocks, hostBase), ops, k)
    ensures var c := Run(p, Initial(deviceBlocks, hostBlocks, hostBase), ops, n);
            Refines(p, c, FlatRun(p, ops, n)) && c.host == map[]
  {
    RunOnDevice(p, deviceBlocks, hostBlocks, hostBase, ops, n);
    DeviceRunRefines(p, deviceBlocks, ops, n);
    BesideRefines(p, Run(p, Initial(deviceBlocks, hostBlocks, hostBase), ops, n),
                  Run(p, Initial(deviceBlocks, 0, 0), ops, n), Numbered(hostBase, hostBlocks),
                  deviceBlocks + hostBlocks, FlatRun(p, ops, n));
  }

  /** And every covered position reads as its last write. */
  lemma RoomyReadsBack<V>(p: Config<V>, deviceBlocks: nat, hostBlocks: nat, hostBase: nat, ops: seq<Op<V>>, n: nat,
                          r: string, l: int, pos: nat)
    requires p.Valid() && n <= |ops|
    requires forall k: nat :: k < n ==> RoomyAt(p, Initial(deviceBlocks, hostBlocks, hostBase), ops, k)
    ensures ReadsBack(p, Run(p, Initial(deviceBlocks, hostBlocks, hostBase), ops, n), ops, n, r, l, pos)
  {
    RoomyRunsRefine(p, deviceBlocks, hostBlocks, hostBase, ops, n);
    RefinedReads(p, Run(p, Initial(deviceBlocks, hostBlocks, hostBase), ops, n), ops, n, r, l, pos);
  }
}
