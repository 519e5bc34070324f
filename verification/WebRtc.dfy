/** Chunked data-channel messages and the receive buffer that reassembles them. */
module WebRtc {
  import opened Framing
  import opened Sequences

  const CHUNK := 64 * 1024

  /** A length-prefixed payload, as `pack` produces it. */
  function Prefixed(p: Bytes): (b: Bytes)
    requires |p| < Pow256(4)
    ensures |b| == 4 + |p|
  {
    LE(|p|, 4) + p
  }

  /** `_on_msg` up to the payload decoder: the new buffer and what is handed on. At most one
      payload leaves the buffer per message. */
  function OnMessage(buffer: Bytes, data: Bytes): (Bytes, seq<Bytes>) {
    var b := buffer + data;
    if |b| < 4 || |b| < 4 + FromLE(b[..4]) then (b, [])
    else
      var size := FromLE(b[..4]);
      (b[4 + size..], [b[4..4 + size]])
  }

  function Feed(buffer: Bytes, messages: seq<Bytes>): (Bytes, seq<Bytes>)
    decreases |messages|
  {
    if messages == [] then (buffer, []) else
      var (b, out) := OnMessage(buffer, messages[0]);
      var (end, rest) := Feed(b, messages[1..]);
      (end, out + rest)
  }

  class Reassembler {
    var buffer: Bytes
    var payloads: seq<Bytes>

    constructor ()
      ensures buffer == [] && payloads == []
    {
      buffer, payloads := [], [];
    }

    method Receive(data: Bytes)
      modifies this
      ensures var (b, out) := OnMessage(old(buffer), data);
              buffer == b && payloads == old(payloads) + out
    {
      buffer := buffer + data;
      if |buffer| >= 4 {
        var size := FromLE(buffer[..4]);
        if |buffer| >= 4 + size {
          var payload := buffer[4..4 + size];
          buffer := buffer[4 + size..];
          payloads := payloads + [payload];
        }
      }
    }
  }

  /** The slices `send` puts on the channel. */
  function Cut(b: Bytes, size: nat): (chunks: seq<Bytes>)
    requires 0 < size
    decreases |b|
  {
    if b == [] then [] else if |b| <= size then [b] else [b[..size]] + Cut(b[size..], size)
  }

  method Send(frame: Bytes) returns (messages: seq<Bytes>)
    ensures messages == Cut(frame, CHUNK)
    ensures Concat(messages) == frame && forall i :: 0 <= i < |messages| ==> 0 < |messages[i]| <= 0x1_0000
    ensures forall i :: 0 <= i < |messages| - 1 ==> |messages[i]| == 0x1_0000
  {
    CutJoins(frame, CHUNK);
    messages := [];
    var i := 0;
    assert frame[0..] == frame;
    while i < |frame|
      invariant 0 <= i && messages + (if i < |frame| then Cut(frame[i..], CHUNK) else []) == Cut(frame, CHUNK)
    {
      var end := if i + CHUNK < |frame| then i + CHUNK else |frame|;
      if i + CHUNK < |frame| {
        assert frame[i..][..CHUNK] == frame[i..end] && frame[i..][CHUNK..] == frame[end..];
      } else {
        assert frame[i..end] == frame[i..];
      }
      messages := messages + [frame[i..end]];
      i := i + CHUNK;
    }
  }

  ghost predicate Nonempty(chunks: seq<Bytes>) {
    forall i :: 0 <= i < |chunks| ==> chunks[i] != []
  }

  lemma {:induction false} CutJoins(b: Bytes, size: nat)
    requires 0 < size
    ensures Nonempty(Cut(b, size)) && Concat(Cut(b, size)) == b
    ensures forall i :: 0 <= i < |Cut(b, size)| ==> |Cut(b, size)[i]| <= size
    ensures forall i :: 0 <= i < |Cut(b, size)| - 1 ==> |Cut(b, size)[i]| == size
    decreases |b|
  {
    if b != [] {
      if |b| <= size {
        assert [b][1..] == [];
        assert b + [] == b;
      } else {
        CutJoins(b[size..], size);
        var rest := Cut(b[size..], size);
        assert ([b[..size]] + rest)[1..] == rest;
        assert b[..size] + b[size..] == b;
      }
    }
  }

  /** A message that completes a frame hands on its payload and leaves what follows it. */
  lemma CompletesFrame(p: Bytes, buffer: Bytes, data: Bytes, extra: Bytes)
    requires |p| < Pow256(4) && buffer + data == Prefixed(p) + extra
    ensures OnMessage(buffer, data) == (extra, [p])
  {
    var b := Prefixed(p) + extra;
    FromLEInvertsLE(|p|, 4);
    assert b[..4] == LE(|p|, 4) && b[4..4 + |p|] == p && b[4 + |p|..] == extra;
  }

  /** A message that does not complete a frame is only stored. */
  lemma ExtendsPrefix(p: Bytes, buffer: Bytes, data: Bytes, rest: Bytes)
    requires |p| < Pow256(4) && buffer + data + rest == Prefixed(p) && rest != []
    ensures OnMessage(buffer, data) == (buffer + data, [])
  {
    var b := buffer + data;
    FromLEInvertsLE(|p|, 4);
    assert b == Prefixed(p)[..|b|];
    if |b| >= 4 {
      assert b[..4] == LE(|p|, 4);
    }
  }

  lemma {:induction false} JoinNonempty(chunks: seq<Bytes>)
    requires Nonempty(chunks) && chunks != []
    ensures Concat(chunks) != []
  {
    assert chunks[0] != [];
  }

  /** Any cut of one frame into nonempty chunks, from any point inside it: the last chunk hands
      on the payload, once, and leaves the buffer empty. */
  lemma {:induction false} FrameArrives(p: Bytes, buffer: Bytes, chunks: seq<Bytes>)
    requires |p| < Pow256(4) && Nonempty(chunks) && chunks != [] && buffer + Concat(chunks) == Prefixed(p)
    ensures Feed(buffer, chunks) == ([], [p])
    decreases |chunks|
  {
    var first, rest := chunks[0], chunks[1..];
    if rest == [] {
      assert first + [] == first && Prefixed(p) + [] == Prefixed(p);
      CompletesFrame(p, buffer, first, []);
      assert Feed([], rest) == ([], []) && [p] + [] == [p];
    } else {
      JoinNonempty(rest);
      assert buffer + (first + Concat(rest)) == (buffer + first) + Concat(rest);
      ExtendsPrefix(p, buffer, first, Concat(rest));
      FrameArrives(p, buffer + first, rest);
      assert [] + [p] == [p];
    }
  }

  /** Before the last chunk nothing is handed on and the buffer is a proper prefix of the frame. */
  lemma {:induction false} FrameInTransit(p: Bytes, buffer: Bytes, chunks: seq<Bytes>, seen: nat)
    requires |p| < Pow256(4) && Nonempty(chunks) && buffer + Concat(chunks) == Prefixed(p) && seen < |chunks|
    ensures Feed(buffer, chunks[..seen]) == (buffer + Concat(chunks[..seen]), [])
    ensures |buffer + Concat(chunks[..seen])| < |Prefixed(p)| && buffer + Concat(chunks[..seen]) <= Prefixed(p)
    decreases |chunks|
  {
    JoinNonempty(chunks);
    if seen == 0 {
      assert buffer + [] == buffer;
    } else {
      var first, rest, some := chunks[0], chunks[1..], chunks[..seen];
      JoinNonempty(rest);
      assert buffer + (first + Concat(rest)) == (buffer + first) + Concat(rest);
      ExtendsPrefix(p, buffer, first, Concat(rest));
      FrameInTransit(p, buffer + first, rest, seen - 1);
      assert some[0] == first && some[1..] == rest[..seen - 1];
      assert (buffer + first) + Concat(some[1..]) == buffer + (first + Concat(some[1..]));
      assert Feed(buffer, some).1 == [] + Feed(buffer + first, some[1..]).1;
    }
  }

  lemma {:induction false} FeedConcat(buffer: Bytes, a: seq<Bytes>, b: seq<Bytes>)
    ensures var (mid, x) := Feed(buffer, a);
            var (end, y) := Feed(mid, b);
            Feed(buffer, a + b) == (end, x + y)
    decreases |a|
  {
    if a == [] {
      assert a + b == b;
      assert [] + Feed(buffer, b).1 == Feed(buffer, b).1;
    } else {
      assert (a + b)[0] == a[0] && (a + b)[1..] == a[1..] + b;
      var (first, out) := OnMessage(buffer, a[0]);
      FeedConcat(first, a[1..], b);
      var (mid, x) := Feed(first, a[1..]);
      var y := Feed(mid, b).1;
      assert out + (x + y) == (out + x) + y;
    }
  }

  /** Frames whose messages do not span two frames arrive exactly once, in order, and leave the
      buffer empty, however each was cut. */
  lemma {:induction false} FramesArrive(ps: seq<Bytes>, cuts: seq<seq<Bytes>>)
    requires |ps| == |cuts|
    requires forall i :: 0 <= i < |ps| ==>
        |ps[i]| < Pow256(4) && Nonempty(cuts[i]) && Concat(cuts[i]) == Prefixed(ps[i])
    ensures Feed([], Concat(cuts)) == ([], ps)
  {
    if ps != [] {
      assert cuts[0] != [];
      assert [] + Concat(cuts[0]) == Prefixed(ps[0]);
      FrameArrives(ps[0], [], cuts[0]);
      FramesArrive(ps[1..], cuts[1..]);
      FeedConcat([], cuts[0], Concat(cuts[1..]));
      assert [ps[0]] + ps[1..] == ps;
    }
  }

  /** `send` of packed frames, received: every payload once and in order. */
  lemma SentFramesArrive(fs: seq<Frame>)
    requires forall i :: 0 <= i < |fs| ==> Fits(fs[i])
    ensures Feed([], Concat(seq(|fs|, i requires 0 <= i < |fs| => Cut(Pack(fs[i]), CHUNK)))) ==
              ([], seq(|fs|, i requires 0 <= i < |fs| => Payload(fs[i])))
  {
    var cuts := seq(|fs|, i requires 0 <= i < |fs| => Cut(Pack(fs[i]), CHUNK));
    var ps := seq(|fs|, i requires 0 <= i < |fs| => Payload(fs[i]));
    forall i | 0 <= i < |fs| ensures |ps[i]| < Pow256(4) && Nonempty(cuts[i]) && Concat(cuts[i]) == Prefixed(ps[i]) {
      CutJoins(Pack(fs[i]), CHUNK);
    }
    FramesArrive(ps, cuts);
  }

  /** The reason messages must not span frames: a second whole frame in a message stays in the
      buffer, and nothing is handed on until another message comes. */
  lemma SpanningMessageStalls(p: Bytes, q: Bytes)
    requires |p| < Pow256(4) && |q| < Pow256(4)
    ensures OnMessage([], Prefixed(p) + Prefixed(q)) == (Prefixed(q), [p])
    ensures OnMessage(Prefixed(q), []) == ([], [q])
  {
    assert [] + (Prefixed(p) + Prefixed(q)) == Prefixed(p) + Prefixed(q);
    CompletesFrame(p, [], Prefixed(p) + Prefixed(q), Prefixed(q));
    assert Prefixed(q) + [] == Prefixed(q);
    CompletesFrame(q, Prefixed(q), [], []);
  }

  // ---------------------------------------------------------------- messages cut anywhere

  ghost predicate Short(ps: seq<Bytes>) {
    forall i :: 0 <= i < |ps| ==> |ps[i]| < Pow256(4)
  }

  /** The frames of these payloads, one after the other. */
  ghost function Frames(ps: seq<Bytes>): Bytes
    requires Short(ps)
  {
    if ps == [] then [] else Prefixed(ps[0]) + Frames(ps[1..])
  }

  /** How many of these frames the first n bytes complete. */
  ghost function Completed(ps: seq<Bytes>, n: int): nat
    requires Short(ps)
  {
    if ps == [] || n < 4 + |ps[0]| then 0 else 1 + Completed(ps[1..], n - 4 - |ps[0]|)
  }

  /** After each message: the frames not complete by then are no more than the messages to come. */
  ghost predicate KeepsUp(ps: seq<Bytes>, buffered: nat, messages: seq<Bytes>)
    requires Short(ps)
  {
    |ps| <= |messages| &&
    forall j :: 1 <= j <= |messages| ==>
      |ps| - Completed(ps, buffered + |Concat(messages[..j])|) <= |messages| - j
  }

  lemma FirstMessage(messages: seq<Bytes>, j: nat)
    requires messages != [] && 1 <= j <= |messages|
    ensures |Concat(messages[..j])| == |messages[0]| + |Concat(messages[1..][..j - 1])|
  {
    assert messages[..j][1..] == messages[1..][..j - 1];
  }

  /** A message that completes no frame. */
  lemma StoredMessage(ps: seq<Bytes>, buffer: Bytes, data: Bytes, rest: Bytes)
    requires Short(ps) && buffer + data + rest == Frames(ps) && Completed(ps, |buffer| + |data|) == 0
    ensures OnMessage(buffer, data) == (buffer + data, [])
  {
    var b := buffer + data;
    if ps == [] {
      assert |b| == 0;
    } else {
      var p := ps[0];
      FromLEInvertsLE(|p|, 4);
      assert b == Frames(ps)[..|b|] == Prefixed(p)[..|b|];
      if |b| >= 4 {
        assert b[..4] == LE(|p|, 4);
      }
    }
  }

  /** A message that completes at least one. */
  lemma HandedOn(ps: seq<Bytes>, buffer: Bytes, data: Bytes, rest: Bytes) returns (left: Bytes)
    requires Short(ps) && buffer + data + rest == Frames(ps) && Completed(ps, |buffer| + |data|) > 0
    ensures ps != [] && OnMessage(buffer, data) == (left, [ps[0]]) && left + rest == Frames(ps[1..])
    ensures |left| == |buffer| + |data| - 4 - |ps[0]|
  {
    var b, p := buffer + data, ps[0];
    var n := 4 + |p|;
    left := b[n..];
    assert b[..n] == (b + rest)[..n] == Prefixed(p);
    assert b == Prefixed(p) + left;
    CompletesFrame(p, buffer, data, left);
    assert left + rest == (b + rest)[n..] == Frames(ps)[n..] == Frames(ps[1..]);
  }

  lemma KeepsUpStored(ps: seq<Bytes>, buffered: nat, messages: seq<Bytes>)
    requires Short(ps) && messages != [] && Completed(ps, buffered + |messages[0]|) == 0
    ensures KeepsUp(ps, buffered, messages) <==> KeepsUp(ps, buffered + |messages[0]|, messages[1..])
  {
    var now, rest := buffered + |messages[0]|, messages[1..];
    forall j: nat | 1 <= j <= |messages|
      ensures Completed(ps, buffered + |Concat(messages[..j])|) == Completed(ps, now + |Concat(rest[..j - 1])|)
    {
      FirstMessage(messages, j);
    }
    if KeepsUp(ps, buffered, messages) {
      assert rest[..0] == [] && |ps| - Completed(ps, buffered + |Concat(messages[..1])|) <= |rest|;
      forall j | 1 <= j <= |rest| ensures |ps| - Completed(ps, now + |Concat(rest[..j])|) <= |rest| - j {
        assert rest[..j + 1 - 1] == rest[..j];
        assert |ps| - Completed(ps, buffered + |Concat(messages[..j + 1])|) <= |messages| - (j + 1);
      }
    }
    if KeepsUp(ps, now, rest) {
      forall j | 1 <= j <= |messages|
        ensures |ps| - Completed(ps, buffered + |Concat(messages[..j])|) <= |messages| - j
      {
        if j > 1 {
          assert |ps| - Completed(ps, now + |Concat(rest[..j - 1])|) <= |rest| - (j - 1);
        } else {
          assert rest[..0] == [];
        }
      }
    }
  }

  lemma KeepsUpHandedOn(ps: seq<Bytes>, buffered: nat, messages: seq<Bytes>, left: nat)
    requires Short(ps) && ps != [] && messages != []
    requires left == buffered + |messages[0]| - 4 - |ps[0]|
    ensures KeepsUp(ps, buffered, messages) <==> KeepsUp(ps[1..], left, messages[1..])
  {
    var rest, qs := messages[1..], ps[1..];
    forall j: nat | 1 <= j <= |messages|
      ensures Completed(ps, buffered + |Concat(messages[..j])|) == 1 + Completed(qs, left + |Concat(rest[..j - 1])|)
    {
      FirstMessage(messages, j);
    }
    if KeepsUp(ps, buffered, messages) {
      forall j | 1 <= j <= |rest| ensures |qs| - Completed(qs, left + |Concat(rest[..j])|) <= |rest| - j {
        assert rest[..j + 1 - 1] == rest[..j];
        assert |ps| - Completed(ps, buffered + |Concat(messages[..j + 1])|) <= |messages| - (j + 1);
      }
    }
    if KeepsUp(qs, left, rest) {
      forall j | 1 <= j <= |messages|
        ensures |ps| - Completed(ps, buffered + |Concat(messages[..j])|) <= |messages| - j
      {
        if j > 1 {
          assert |qs| - Completed(qs, left + |Concat(rest[..j - 1])|) <= |rest| - (j - 1);
        }
      }
    }
  }

  /** However the bytes of any frames are cut into messages, spanning frames or not: every payload
      is handed on, once and in order, and the buffer ends empty, exactly when after each message
      the frames not complete by then are no more than the messages to come. */
  lemma {:induction false} AllArriveIff(ps: seq<Bytes>, buffer: Bytes, messages: seq<Bytes>)
    requires Short(ps) && buffer + Concat(messages) == Frames(ps)
    ensures Feed(buffer, messages) == ([], ps) <==> KeepsUp(ps, |buffer|, messages)
    decreases |messages|
  {
    if messages == [] {
      if ps != [] {
        assert Frames(ps) != [];
      }
    } else {
      var data, rest := messages[0], messages[1..];
      Reassociate(buffer, data, Concat(rest));
      if Completed(ps, |buffer| + |data|) == 0 {
        StoredMessage(ps, buffer, data, Concat(rest));
        KeepsUpStored(ps, |buffer|, messages);
        AllArriveIff(ps, buffer + data, rest);
        assert [] + Feed(buffer + data, rest).1 == Feed(buffer + data, rest).1;
      } else {
        var left := HandedOn(ps, buffer, data, Concat(rest));
        KeepsUpHandedOn(ps, |buffer|, messages, |left|);
        AllArriveIff(ps[1..], left, rest);
        assert [ps[0]] + ps[1..] == ps;
        assert ([ps[0]] + Feed(left, rest).1)[1..] == Feed(left, rest).1;
      }
    }
  }
}
