/** Length-prefixed tensor frames: the printer `pack` and the parser `read_frame`. */
module Framing {
  import opened Arith
  import opened Wrappers

  type byte = x: int | 0 <= x < 256 witness 0
  type Bytes = seq<byte>

  const MAGIC := 0x4E58

  /** An array on the wire: encoded name and dtype string, dimensions, raw contents. */
  datatype Frame = Frame(name: Bytes, dtype: Bytes, shape: seq<nat>, data: Bytes)

  /** What numpy and the text decoders accept: decodable names and dtypes, and contents that
      the dtype and the shape can be laid over. */
  datatype Codec = Codec(utf8: Bytes -> bool, ascii: Bytes -> bool, lays: (Bytes, seq<nat>, Bytes) -> bool)
  {
    predicate Accepts(f: Frame) {
      utf8(f.name) && ascii(f.dtype) && lays(f.dtype, f.shape, f.data)
    }
  }

  // ---------------------------------------------------------------- little-endian integers

  function Pow256(w: nat): (p: nat)
    ensures p > 0
  {
    if w == 0 then 1 else 256 * Pow256(w - 1)
  }

  function LE(n: nat, w: nat): (b: Bytes)
    ensures |b| == w
  {
    if w == 0 then [] else [n % 256] + LE(n / 256, w - 1)
  }

  function FromLE(b: Bytes): (n: nat)
    ensures n < Pow256(|b|)
  {
    if b == [] then 0 else b[0] + 256 * FromLE(b[1..])
  }

  lemma {:induction false} FromLEInvertsLE(n: nat, w: nat)
    requires n < Pow256(w)
    ensures FromLE(LE(n, w)) == n
  {
    if w > 0 {
      FromLEInvertsLE(n / 256, w - 1);
      assert LE(n, w)[1..] == LE(n / 256, w - 1);
    }
  }

  lemma {:induction false} LEInvertsFromLE(b: Bytes)
    ensures LE(FromLE(b), |b|) == b
  {
    if b != [] {
      var n, high := FromLE(b), FromLE(b[1..]);
      assert n % 256 == b[0] && n / 256 == high;
      LEInvertsFromLE(b[1..]);
      assert [b[0]] + b[1..] == b;
    }
  }

  /** The least significant byte comes first. */
  lemma {:induction false} DigitAt(n: nat, w: nat, i: nat)
    requires i < w
    ensures LE(n, w)[i] == n / Pow256(i) % 256
  {
    if i > 0 {
      DigitAt(n / 256, w - 1, i - 1);
      DivideTwice(n, 256, Pow256(i - 1));
    }
  }

  lemma Widths()
    ensures Pow256(2) == 0x1_0000 && Pow256(4) == 0x1_0000_0000 && Pow256(8) == 0x1_0000_0000_0000_0000
  {
    assert Pow256(1) == 256 && Pow256(3) == 256 * Pow256(2) && Pow256(4) == 256 * Pow256(3);
    assert Pow256(5) == 256 * Pow256(4) && Pow256(6) == 256 * Pow256(5) && Pow256(7) == 256 * Pow256(6);
  }

  function Dims(shape: seq<nat>): (b: Bytes)
    ensures |b| == 8 * |shape|
  {
    if shape == [] then [] else LE(shape[0], 8) + Dims(shape[1..])
  }

  function UnDims(b: Bytes): (shape: seq<nat>)
    requires |b| % 8 == 0
    ensures 8 * |shape| == |b|
  {
    if b == [] then [] else [FromLE(b[..8])] + UnDims(b[8..])
  }

  lemma {:induction false} UnDimsInvertsDims(shape: seq<nat>)
    requires forall i :: 0 <= i < |shape| ==> shape[i] < Pow256(8)
    ensures UnDims(Dims(shape)) == shape
  {
    if shape != [] {
      FromLEInvertsLE(shape[0], 8);
      UnDimsInvertsDims(shape[1..]);
      assert Dims(shape)[..8] == LE(shape[0], 8) && Dims(shape)[8..] == Dims(shape[1..]);
    }
  }

  lemma {:induction false} DimsInvertsUnDims(b: Bytes)
    requires |b| % 8 == 0
    ensures Dims(UnDims(b)) == b
    ensures forall i :: 0 <= i < |UnDims(b)| ==> UnDims(b)[i] < Pow256(8)
  {
    if b != [] {
      LEInvertsFromLE(b[..8]);
      DimsInvertsUnDims(b[8..]);
      assert b == b[..8] + b[8..];
    }
  }

  // ---------------------------------------------------------------- pack

  function Header(f: Frame): (b: Bytes)
    ensures |b| == 8
  {
    LE(MAGIC, 2) + LE(|f.name|, 2) + LE(|f.shape|, 4)
  }

  function Payload(f: Frame): (b: Bytes)
    ensures |b| == 12 + |f.name| + |f.dtype| + 8 * |f.shape| + |f.data|
  {
    Header(f) + (f.name + (LE(|f.dtype|, 4) + (f.dtype + (Dims(f.shape) + f.data))))
  }

  /** The field widths struct.pack enforces. */
  predicate Fits(f: Frame) {
    |f.name| < Pow256(2) && |f.shape| < Pow256(4) && |f.dtype| < Pow256(4) && |Payload(f)| < Pow256(4) &&
    forall i :: 0 <= i < |f.shape| ==> f.shape[i] < Pow256(8)
  }

  function Pack(f: Frame): (b: Bytes)
    requires Fits(f)
    ensures |b| == 4 + |Payload(f)|
  {
    LE(|Payload(f)|, 4) + Payload(f)
  }

  /** The bytes of a frame: size, "XN", name length, number of dimensions, name, dtype length, dtype,
      dimensions, contents. */
  lemma Layout(f: Frame)
    requires Fits(f)
    ensures Pack(f) == LE(12 + |f.name| + |f.dtype| + 8 * |f.shape| + |f.data|, 4) + [0x58, 0x4E] +
                       LE(|f.name|, 2) + LE(|f.shape|, 4) + f.name + LE(|f.dtype|, 4) + f.dtype + Dims(f.shape) + f.data
  {
    assert LE(MAGIC, 2) == [0x58, 0x4E];
    PayloadJoins(f);
    var size, h, n, l := LE(|Payload(f)|, 4), Header(f), f.name, LE(|f.dtype|, 4);
    assert size + [0x58, 0x4E] + LE(|n|, 2) + LE(|f.shape|, 4) == size + h;
    assert size + h + n + l + f.dtype + Dims(f.shape) + f.data
        == size + (h + n + l + f.dtype + Dims(f.shape) + f.data);
  }

  /** What fits: 16 bits for the name length, 32 for the others and the whole, 64 for a dimension. */
  lemma FitsIff(f: Frame)
    ensures Fits(f) <==>
              |f.name| < 0x1_0000 && 12 + |f.name| + |f.dtype| + 8 * |f.shape| + |f.data| < 0x1_0000_0000 &&
              forall i :: 0 <= i < |f.shape| ==> f.shape[i] < 0x1_0000_0000_0000_0000
  {
    Widths();
  }

  lemma PayloadJoins(f: Frame)
    ensures Header(f) + f.name + LE(|f.dtype|, 4) + f.dtype + Dims(f.shape) + f.data == Payload(f)
  {
    var tail4 := Dims(f.shape) + f.data;
    var tail3 := f.dtype + tail4;
    var tail2 := LE(|f.dtype|, 4) + tail3;
    assert Header(f) + f.name + LE(|f.dtype|, 4) + f.dtype + Dims(f.shape) + f.data
        == Header(f) + f.name + LE(|f.dtype|, 4) + f.dtype + tail4
        == Header(f) + f.name + LE(|f.dtype|, 4) + tail3
        == Header(f) + f.name + tail2;
  }

  /** `struct.pack("<Q...", *shape)`. */
  method PackDims(shape: seq<nat>) returns (r: Option<Bytes>)
    ensures r.Some? <==> forall i :: 0 <= i < |shape| ==> shape[i] < Pow256(8)
    ensures r.Some? ==> r.value == Dims(shape)
  {
    var dims: Bytes := [];
    var i := |shape|;
    assert shape[i..] == [];
    while i > 0
      invariant 0 <= i <= |shape| && dims == Dims(shape[i..])
      invariant forall j :: i <= j < |shape| ==> shape[j] < Pow256(8)
    {
      i := i - 1;
      if shape[i] >= Pow256(8) {
        return None;
      }
      assert shape[i..][1..] == shape[i + 1..];
      dims := LE(shape[i], 8) + dims;
    }
    assert shape[0..] == shape;
    r := Some(dims);
  }

  /** None is the struct.error raised for a field that does not fit. */
  method PackFrame(f: Frame) returns (r: Option<Bytes>)
    ensures r.Some? <==> Fits(f)
    ensures r.Some? ==> r.value == Pack(f)
  {
    var dims := PackDims(f.shape);
    if dims.None? || |f.name| >= Pow256(2) || |f.shape| >= Pow256(4) || |f.dtype| >= Pow256(4) {
      return None;
    }
    var parts := Header(f) + f.name;
    parts := parts + LE(|f.dtype|, 4);
    parts := parts + f.dtype;
    parts := parts + dims.value;
    parts := parts + f.data;
    PayloadJoins(f);
    if |parts| >= Pow256(4) {
      return None;
    }
    r := Some(LE(|parts|, 4) + parts);
  }

  // ---------------------------------------------------------------- read_frame

  /** `buf.read(n)`: up to n bytes, fewer at the end. */
  function Take(b: Bytes, n: nat): Bytes {
    if n <= |b| then b[..n] else b
  }

  function Rest(b: Bytes, n: nat): Bytes {
    if n <= |b| then b[n..] else []
  }

  /** What follows the name: dtype length, dtype, dimensions, contents. */
  function ParseBody(c: Codec, name: Bytes, ndim: nat, r2: Bytes): Option<Frame> {
    var l, r3 := Take(r2, 4), Rest(r2, 4);
    if |l| != 4 then None else
      var dtype, r4 := Take(r3, FromLE(l)), Rest(r3, FromLE(l));
      var dims, data := Take(r4, 8 * ndim), Rest(r4, 8 * ndim);
      if !c.ascii(dtype) || |dims| != 8 * ndim then None else
        var shape := UnDims(dims);
        if c.lays(dtype, shape, data) then Some(Frame(name, dtype, shape, data)) else None
  }

  /** None when struct.unpack, the magic test, a decoder or numpy raises. */
  function ParsePayload(c: Codec, p: Bytes): Option<Frame> {
    var h, r1 := Take(p, 8), Rest(p, 8);
    if |h| != 8 || FromLE(h[..2]) != MAGIC then None else
      var nameLen, ndim := FromLE(h[2..4]), FromLE(h[4..8]);
      var name := Take(r1, nameLen);
      if c.utf8(name) then ParseBody(c, name, ndim, Rest(r1, nameLen)) else None
  }

  datatype ReadResult = Incomplete | Bad(rest: Bytes) | Got(frame: Frame, rest: Bytes)

  /** `read_frame` on the bytes a stream will still deliver. */
  function ReadFrame(c: Codec, stream: Bytes): (r: ReadResult)
    ensures !r.Incomplete? ==> |r.rest| < |stream|
  {
    if |stream| < 4 then Incomplete else
      var size := FromLE(stream[..4]);
      if |stream| - 4 < size then Incomplete else
        var rest := stream[4 + size..];
        match ParsePayload(c, stream[4..4 + size])
        case None => Bad(rest)
        case Some(f) => Got(f, rest)
  }

  class StreamReader {
    var unread: Bytes

    constructor (bytes: Bytes)
      ensures unread == bytes
    {
      unread := bytes;
    }

    /** `readexactly`: None is IncompleteReadError. */
    method ReadExactly(n: nat) returns (r: Option<Bytes>)
      modifies this
      ensures if n <= |old(unread)| then r == Some(old(unread)[..n]) && unread == old(unread)[n..]
              else r == None && unread == []
    {
      if n <= |unread| {
        r := Some(unread[..n]);
        unread := unread[n..];
      } else {
        r, unread := None, [];
      }
    }

    method NextFrame(c: Codec) returns (r: ReadResult)
      modifies this
      ensures r == ReadFrame(c, old(unread))
      ensures unread == if r.Incomplete? then [] else r.rest
    {
      var sizeData := ReadExactly(4);
      if sizeData.None? {
        return Incomplete;
      }
      var size := FromLE(sizeData.value);
      var payload := ReadExactly(size);
      if payload.None? {
        return Incomplete;
      }
      assert payload.value == old(unread)[4..4 + size] && unread == old(unread)[4 + size..];
      var f := ParsePayload(c, payload.value);
      r := if f.None? then Bad(unread) else Got(f.value, unread);
    }
  }

  // ---------------------------------------------------------------- round trips

  lemma TakeOfConcat(a: Bytes, b: Bytes)
    ensures Take(a + b, |a|) == a && Rest(a + b, |a|) == b
  {
  }

  lemma HeaderFields(f: Frame)
    requires Fits(f)
    ensures var h := Header(f);
            FromLE(h[..2]) == MAGIC && FromLE(h[2..4]) == |f.name| && FromLE(h[4..8]) == |f.shape|
  {
    Widths();
    var h := Header(f);
    assert h[..2] == LE(MAGIC, 2) && h[2..4] == LE(|f.name|, 2) && h[4..8] == LE(|f.shape|, 4);
    FromLEInvertsLE(MAGIC, 2);
    FromLEInvertsLE(|f.name|, 2);
    FromLEInvertsLE(|f.shape|, 4);
  }

  lemma ParseInvertsPayload(c: Codec, f: Frame)
    requires Fits(f)
    ensures ParsePayload(c, Payload(f)) == if c.Accepts(f) then Some(f) else None
  {
    var tail4 := Dims(f.shape) + f.data;
    var tail3 := f.dtype + tail4;
    var tail2 := LE(|f.dtype|, 4) + tail3;
    TakeOfConcat(Header(f), f.name + tail2);
    HeaderFields(f);
    TakeOfConcat(f.name, tail2);
    TakeOfConcat(LE(|f.dtype|, 4), tail3);
    FromLEInvertsLE(|f.dtype|, 4);
    TakeOfConcat(f.dtype, tail4);
    TakeOfConcat(Dims(f.shape), f.data);
    UnDimsInvertsDims(f.shape);
  }

  lemma TakeAndRest(b: Bytes, n: nat)
    ensures Take(b, n) + Rest(b, n) == b
    ensures |Take(b, n)| < n ==> Rest(b, n) == []
  {
  }

  /** With dimensions or contents after it, the dtype is not cut short. */
  lemma DtypeIsWhole(c: Codec, name: Bytes, ndim: nat, r2: Bytes, f: Frame)
    requires ParseBody(c, name, ndim, r2) == Some(f) && (f.shape != [] || f.data != [])
    ensures var l, r3 := Take(r2, 4), Rest(r2, 4);
            |l| == 4 && |f.dtype| == FromLE(l) && f.dtype == Take(r3, FromLE(l)) &&
            |Take(Rest(r3, FromLE(l)), 8 * ndim)| == 8 * ndim && f.data == Rest(Rest(r3, FromLE(l)), 8 * ndim) &&
            f.shape == UnDims(Take(Rest(r3, FromLE(l)), 8 * ndim))
    ensures f.name == name && |f.shape| == ndim && c.ascii(f.dtype) && c.lays(f.dtype, f.shape, f.data)
  {
  }

  lemma BodyWasPacked(c: Codec, name: Bytes, ndim: nat, r2: Bytes, f: Frame)
    requires ParseBody(c, name, ndim, r2) == Some(f) && (f.shape != [] || f.data != [])
    ensures |f.dtype| < Pow256(4) && r2 == LE(|f.dtype|, 4) + (f.dtype + (Dims(f.shape) + f.data))
    ensures forall i :: 0 <= i < |f.shape| ==> f.shape[i] < Pow256(8)
  {
    DtypeIsWhole(c, name, ndim, r2, f);
    var l, r3 := Take(r2, 4), Rest(r2, 4);
    var r4 := Rest(r3, FromLE(l));
    TakeAndRest(r2, 4);
    TakeAndRest(r3, FromLE(l));
    TakeAndRest(r4, 8 * ndim);
    LEInvertsFromLE(l);
    DimsInvertsUnDims(Take(r4, 8 * ndim));
  }

  lemma HeaderWasPacked(h: Bytes, f: Frame)
    requires |h| == 8 && FromLE(h[..2]) == MAGIC && FromLE(h[2..4]) == |f.name| && FromLE(h[4..8]) == |f.shape|
    ensures h == Header(f)
  {
    LEInvertsFromLE(h[..2]);
    LEInvertsFromLE(h[2..4]);
    LEInvertsFromLE(h[4..8]);
    assert h == h[..2] + h[2..4] + h[4..8];
  }

  /** What a parse found in front of the body. */
  lemma FrontIsWhole(c: Codec, p: Bytes, f: Frame)
    requires ParsePayload(c, p) == Some(f) && (f.shape != [] || f.data != [])
    ensures var h, r1 := Take(p, 8), Rest(p, 8);
            |h| == 8 && FromLE(h[..2]) == MAGIC && FromLE(h[2..4]) == |f.name| && FromLE(h[4..8]) == |f.shape| &&
            p == h + (f.name + Rest(r1, |f.name|)) && c.utf8(f.name) &&
            ParseBody(c, f.name, |f.shape|, Rest(r1, |f.name|)) == Some(f)
  {
    var h, r1 := Take(p, 8), Rest(p, 8);
    var nameLen := FromLE(h[2..4]);
    DtypeIsWhole(c, Take(r1, nameLen), FromLE(h[4..8]), Rest(r1, nameLen), f);
    TakeAndRest(p, 8);
    TakeAndRest(r1, nameLen);
  }

  lemma PayloadWasPacked(c: Codec, p: Bytes, f: Frame)
    requires ParsePayload(c, p) == Some(f) && (f.shape != [] || f.data != []) && |p| < Pow256(4)
    ensures Fits(f) && Payload(f) == p && c.Accepts(f)
  {
    FrontIsWhole(c, p, f);
    var h, r1 := Take(p, 8), Rest(p, 8);
    DtypeIsWhole(c, f.name, |f.shape|, Rest(r1, |f.name|), f);
    BodyWasPacked(c, f.name, |f.shape|, Rest(r1, |f.name|), f);
    HeaderWasPacked(h, f);
  }

  lemma SizeWasPacked(s: Bytes, size: nat)
    requires 4 + size <= |s| && size == FromLE(s[..4])
    ensures s == (LE(size, 4) + s[4..4 + size]) + s[4 + size..] && size < Pow256(4)
  {
    LEInvertsFromLE(s[..4]);
  }

  lemma GotWasPacked(c: Codec, s: Bytes, f: Frame, rest: Bytes)
    requires ReadFrame(c, s) == Got(f, rest) && (f.shape != [] || f.data != [])
    ensures Fits(f) && c.Accepts(f) && s == Pack(f) + rest
  {
    var size := FromLE(s[..4]);
    SizeWasPacked(s, size);
    PayloadWasPacked(c, s[4..4 + size], f);
  }

  /** `read_frame` inverts `pack` at the head of any stream. */
  lemma ReadInvertsPack(c: Codec, f: Frame, rest: Bytes)
    requires Fits(f) && c.Accepts(f)
    ensures ReadFrame(c, Pack(f) + rest) == Got(f, rest)
  {
    var p, s := Payload(f), Pack(f) + rest;
    FromLEInvertsLE(|p|, 4);
    assert s[..4] == LE(|p|, 4) && s[4..4 + |p|] == p && s[4 + |p|..] == rest;
    ParseInvertsPayload(c, f);
  }

  /** For frames with dimensions or contents, `read_frame` reads a frame exactly when the stream
      begins with that frame packed. */
  lemma ReadsExactlyPacked(c: Codec, s: Bytes, f: Frame, rest: Bytes)
    requires f.shape != [] || f.data != []
    ensures ReadFrame(c, s) == Got(f, rest) <==> Fits(f) && c.Accepts(f) && s == Pack(f) + rest
  {
    if Fits(f) && c.Accepts(f) && s == Pack(f) + rest {
      ReadInvertsPack(c, f, rest);
    } else if ReadFrame(c, s) == Got(f, rest) {
      GotWasPacked(c, s, f, rest);
    }
  }

  /** A proper prefix of a frame is not yet a frame. */
  lemma ProperPrefixIncomplete(c: Codec, f: Frame, k: nat)
    requires Fits(f) && k < |Pack(f)|
    ensures ReadFrame(c, Pack(f)[..k]) == Incomplete
  {
    var s := Pack(f)[..k];
    if k >= 4 {
      FromLEInvertsLE(|Payload(f)|, 4);
      assert s[..4] == LE(|Payload(f)|, 4);
    }
  }

  ghost predicate Sendable(c: Codec, fs: seq<Frame>) {
    forall i :: 0 <= i < |fs| ==> Fits(fs[i]) && c.Accepts(fs[i])
  }

  function PackAll(c: Codec, fs: seq<Frame>): Bytes
    requires Sendable(c, fs)
  {
    if fs == [] then [] else Pack(fs[0]) + PackAll(c, fs[1..])
  }

  /** The read loop over everything received: the frames, and the bytes left over. */
  function ReadAll(c: Codec, stream: Bytes): (seq<Frame>, Bytes)
    decreases |stream|
  {
    match ReadFrame(c, stream)
    case Got(f, rest) => var (fs, left) := ReadAll(c, rest); ([f] + fs, left)
    case _ => ([], stream)
  }

  lemma ReadAllStep(c: Codec, f: Frame, rest: Bytes)
    requires Fits(f) && c.Accepts(f)
    ensures var (fs, left) := ReadAll(c, rest);
            ReadAll(c, Pack(f) + rest) == ([f] + fs, left)
  {
    ReadInvertsPack(c, f, rest);
  }

  /** Any number of whole frames followed by part of another: exactly those frames are read, in
      order, and exactly the partial frame is left over. */
  lemma {:induction false} ReadAllInvertsPackAll(c: Codec, fs: seq<Frame>, next: Frame, k: nat)
    requires Sendable(c, fs) && Fits(next) && k < |Pack(next)|
    ensures ReadAll(c, PackAll(c, fs) + Pack(next)[..k]) == (fs, Pack(next)[..k])
  {
    var tail := Pack(next)[..k];
    if fs == [] {
      assert [] + tail == tail;
      ProperPrefixIncomplete(c, next, k);
    } else {
      var rest := PackAll(c, fs[1..]);
      assert (Pack(fs[0]) + rest) + tail == Pack(fs[0]) + (rest + tail);
      ReadAllStep(c, fs[0], rest + tail);
      ReadAllInvertsPackAll(c, fs[1..], next, k);
      assert [fs[0]] + fs[1..] == fs;
    }
  }
}
