/** One keyed TCP channel: handshake, byte stream cut anywhere, read loop and queue. */
module TcpChannel {
  import opened Wrappers
  import opened Framing
  import opened Sequences

  /** "HELLO:" in ASCII. */
  const HELLO: Bytes := [72, 69, 76, 76, 79, 58]

  /** The frame `connect` announces its key with; an empty uint8 array. */
  function Hello(key: Bytes, dtype: Bytes): Frame {
    Frame(HELLO + key, dtype, [0], [])
  }

  /** The server's key for a connection: what follows "HELLO:", else the socket's peer name. */
  function KeyOf(name: Bytes, peer: Bytes): (key: Bytes)
    ensures [72, 69, 76, 76, 79, 58] <= name ==> name == [72, 69, 76, 76, 79, 58] + key
    ensures !([72, 69, 76, 76, 79, 58] <= name) ==> key == peer
  {
    if HELLO <= name then name[|HELLO|..] else peer
  }

  /** Both sides use the same key, whatever characters it has. */
  lemma KeysAgree(key: Bytes, dtype: Bytes, peer: Bytes)
    ensures KeyOf(Hello(key, dtype).name, peer) == key
  {
  }

  /** One direction: the history of frames sent, the bytes in flight, the bytes received and not parsed, the
      receive queue and the frames handed to the reader. `key` is None before the handshake. */
  datatype Link = Link(sent: seq<Frame>, wire: Bytes, rx: Bytes, key: Option<Bytes>, queued: seq<Frame>,
                       received: seq<Frame>)

  datatype Step =
    | Send(f: Frame)
    | Deliver(n: nat)
    | Read
    | Receive

  function Opened(c: Codec, key: Bytes, dtype: Bytes): Link
    requires Fits(Hello(key, dtype))
  {
    Link([], Pack(Hello(key, dtype)), [], None, [], [])
  }

  /** One step of either side or of the network. A send that does not fit raises before writing. */
  function Next(c: Codec, peer: Bytes, l: Link, s: Step): Link {
    match s
    case Send(f) => if Fits(f) && c.Accepts(f) then l.(sent := l.sent + [f], wire := l.wire + Pack(f)) else l
    case Deliver(n) => l.(rx := l.rx + Take(l.wire, n), wire := Rest(l.wire, n))
    case Read =>
      (match ReadFrame(c, l.rx)
       case Got(f, rest) =>
         if l.key.None? then l.(rx := rest, key := Some(KeyOf(f.name, peer)))
         else l.(rx := rest, queued := l.queued + [f])
       case _ => l)
    case Receive =>
      if l.queued == [] then l else l.(received := l.received + [l.queued[0]], queued := l.queued[1..])
  }

  /** The frames not yet queued are what the unparsed bytes pack, after the hello while the
      handshake is pending. */
  ghost predicate Inv(c: Codec, hello: Frame, key: Bytes, l: Link, pending: seq<Frame>) {
    Fits(hello) && c.Accepts(hello) && Sendable(c, pending) && l.sent == l.received + l.queued + pending &&
    if l.key.None? then l.received + l.queued == [] && l.rx + l.wire == Pack(hello) + PackAll(c, pending)
    else l.key == Some(key) && l.rx + l.wire == PackAll(c, pending)
  }

  lemma {:induction false} PackAllSnoc(c: Codec, fs: seq<Frame>, f: Frame)
    requires Sendable(c, fs) && Fits(f) && c.Accepts(f)
    ensures Sendable(c, fs + [f]) && PackAll(c, fs + [f]) == PackAll(c, fs) + Pack(f)
  {
    if fs == [] {
      assert fs + [f] == [f];
      assert [f][1..] == [];
      assert Pack(f) + [] == Pack(f);
      assert [] + Pack(f) == Pack(f);
    } else {
      PackAllSnoc(c, fs[1..], f);
      assert (fs + [f])[1..] == fs[1..] + [f] && (fs + [f])[0] == fs[0];
      assert Pack(fs[0]) + (PackAll(c, fs[1..]) + Pack(f)) == (Pack(fs[0]) + PackAll(c, fs[1..])) + Pack(f);
    }
  }

  /** Two ways to cut the same bytes: one front is a proper prefix of the other, or extends it. */
  lemma TwoCuts(rx: Bytes, wire: Bytes, front: Bytes, tail: Bytes)
    requires rx + wire == front + tail
    ensures |rx| < |front| ==> rx == front[..|rx|]
    ensures |rx| >= |front| ==> rx == front + rx[|front|..] && rx[|front|..] + wire == tail
  {
    var all := rx + wire;
    if |rx| < |front| {
      assert rx == all[..|rx|];
    } else {
      assert rx[..|front|] == all[..|front|] && rx == rx[..|front|] + rx[|front|..];
      assert rx[|front|..] + wire == all[|front|..];
    }
  }

  /** A frame read off the front of what is in transit is the first frame in transit. */
  lemma ReadIsNextFrame(c: Codec, rx: Bytes, wire: Bytes, f: Frame, tail: Bytes)
    requires Fits(f) && c.Accepts(f) && rx + wire == Pack(f) + tail
    ensures match ReadFrame(c, rx)
            case Got(g, rest) => g == f && rest + wire == tail
            case Bad(_) => false
            case Incomplete => true
  {
    var p := Pack(f);
    TwoCuts(rx, wire, p, tail);
    if |rx| < |p| {
      ProperPrefixIncomplete(c, f, |rx|);
    } else {
      ReadInvertsPack(c, f, rx[|p|..]);
    }
  }

  lemma NothingReadable(c: Codec, rx: Bytes, wire: Bytes)
    requires rx + wire == []
    ensures ReadFrame(c, rx) == Incomplete
  {
    assert |rx| == 0;
  }

  /** The data frame at the front of the stream moves to the end of the queue. */
  lemma ReadDataKeepsInv(c: Codec, hello: Frame, key: Bytes, peer: Bytes, l: Link, f: Frame, rest: seq<Frame>)
    requires Inv(c, hello, key, l, [f] + rest) && l.key.Some? && ReadFrame(c, l.rx).Got?
    ensures Inv(c, hello, key, Next(c, peer, l, Read), rest)
  {
    var pending := [f] + rest;
    assert pending[0] == f && pending[1..] == rest;
    ReadIsNextFrame(c, l.rx, l.wire, f, PackAll(c, rest));
    Reassociate(l.received + l.queued, [f], rest);
    Reassociate(l.received, l.queued, [f]);
  }

  lemma ReadKeepsInv(c: Codec, hello: Frame, key: Bytes, peer: Bytes, l: Link, pending: seq<Frame>)
    returns (pending': seq<Frame>)
    requires Inv(c, hello, key, l, pending) && KeyOf(hello.name, peer) == key
    ensures Inv(c, hello, key, Next(c, peer, l, Read), pending')
  {
    pending' := pending;
    if l.key.None? {
      ReadIsNextFrame(c, l.rx, l.wire, hello, PackAll(c, pending));
    } else if pending == [] {
      NothingReadable(c, l.rx, l.wire);
    } else {
      assert pending == [pending[0]] + pending[1..];
      ReadIsNextFrame(c, l.rx, l.wire, pending[0], PackAll(c, pending[1..]));
      if ReadFrame(c, l.rx).Got? {
        pending' := pending[1..];
        ReadDataKeepsInv(c, hello, key, peer, l, pending[0], pending');
      }
    }
  }

  lemma SendKeepsInv(c: Codec, hello: Frame, key: Bytes, peer: Bytes, l: Link, pending: seq<Frame>, f: Frame)
    requires Inv(c, hello, key, l, pending) && Fits(f) && c.Accepts(f)
    ensures Inv(c, hello, key, Next(c, peer, l, Send(f)), pending + [f])
  {
    PackAllSnoc(c, pending, f);
    Reassociate(l.rx, l.wire, Pack(f));
    Reassociate(Pack(hello), PackAll(c, pending), Pack(f));
    Reassociate(l.received + l.queued, pending, [f]);
  }

  lemma MoveKeepsInv(c: Codec, hello: Frame, key: Bytes, peer: Bytes, l: Link, pending: seq<Frame>, s: Step)
    requires Inv(c, hello, key, l, pending) && (s.Deliver? || s.Receive?)
    ensures Inv(c, hello, key, Next(c, peer, l, s), pending)
  {
    if s.Deliver? {
      TakeAndRest(l.wire, s.n);
      Reassociate(l.rx, Take(l.wire, s.n), Rest(l.wire, s.n));
    } else if l.queued != [] {
      Reassociate(l.received, [l.queued[0]], l.queued[1..]);
      assert [l.queued[0]] + l.queued[1..] == l.queued;
    }
  }

  /** Every step of either end, and every cut of the byte stream, keeps the invariant. */
  lemma StepKeepsInv(c: Codec, hello: Frame, key: Bytes, peer: Bytes, l: Link, pending: seq<Frame>, s: Step)
    returns (pending': seq<Frame>)
    requires Inv(c, hello, key, l, pending) && KeyOf(hello.name, peer) == key
    ensures Inv(c, hello, key, Next(c, peer, l, s), pending')
  {
    pending' := pending;
    match s
    case Send(f) =>
      if Fits(f) && c.Accepts(f) {
        SendKeepsInv(c, hello, key, peer, l, pending, f);
        pending' := pending + [f];
      }
    case Read => pending' := ReadKeepsInv(c, hello, key, peer, l, pending);
    case _ => MoveKeepsInv(c, hello, key, peer, l, pending, s);
  }

  // ---------------------------------------------------------------- both directions

  /** A connection: what the connecting side sends, announced by its hello, and what the accepting
      side sends back on the same key, read without a handshake. */
  datatype Duplex = Duplex(up: Link, down: Link)

  datatype Move = Up(step: Step) | Down(step: Step)

  function Connected(c: Codec, key: Bytes, dtype: Bytes): Duplex
    requires Fits(Hello(key, dtype))
  {
    Duplex(Opened(c, key, dtype), Link([], [], [], Some(key), [], []))
  }

  /** The accepting side has no writer under the key, and its send raises, until it has read the
      hello. */
  function Moved(c: Codec, peer: Bytes, d: Duplex, move: Move): Duplex {
    match move
    case Up(s) => d.(up := Next(c, peer, d.up, s))
    case Down(s) => if s.Send? && d.up.key.None? then d else d.(down := Next(c, peer, d.down, s))
  }

  function Run(c: Codec, peer: Bytes, d: Duplex, moves: seq<Move>): Duplex {
    if moves == [] then d else Moved(c, peer, Run(c, peer, d, moves[..|moves| - 1]), moves[|moves| - 1])
  }

  lemma {:induction false} RunKeepsInv(c: Codec, key: Bytes, dtype: Bytes, peer: Bytes, moves: seq<Move>)
    returns (up: seq<Frame>, down: seq<Frame>)
    requires Fits(Hello(key, dtype)) && c.Accepts(Hello(key, dtype))
    ensures var d := Run(c, peer, Connected(c, key, dtype), moves);
            Inv(c, Hello(key, dtype), key, d.up, up) && Inv(c, Hello(key, dtype), key, d.down, down) && d.down.key.Some?
  {
    var hello := Hello(key, dtype);
    if moves == [] {
      up, down := [], [];
      assert Pack(hello) + [] == Pack(hello);
    } else {
      var before, move := moves[..|moves| - 1], moves[|moves| - 1];
      up, down := RunKeepsInv(c, key, dtype, peer, before);
      var d := Run(c, peer, Connected(c, key, dtype), before);
      match move
      case Up(s) => up := StepKeepsInv(c, hello, key, peer, d.up, up, s);
      case Down(s) =>
        if !(s.Send? && d.up.key.None?) {
          down := StepKeepsInv(c, hello, key, peer, d.down, down, s);
        }
    }
  }

  /** Frames received, queued and still in the byte stream are exactly the frames sent. */
  ghost predicate Conserved(c: Codec, l: Link) {
    var (inTransit, left) := ReadAll(c, l.rx + l.wire);
    left == [] && l.received + l.queued + inTransit == l.sent
  }

  lemma LiveLinkConserves(c: Codec, hello: Frame, key: Bytes, l: Link, pending: seq<Frame>)
    requires Inv(c, hello, key, l, pending) && l.key.Some?
    ensures Conserved(c, l)
  {
    ReadAllInvertsPackAll(c, pending, hello, 0);
    assert PackAll(c, pending) + Pack(hello)[..0] == PackAll(c, pending);
  }

  /** Conservation: on a live key, in both directions, frames received, queued and still in the
      byte stream are exactly the frames sent, in order; the hello is never delivered as data. */
  lemma NothingLostOrReordered(c: Codec, key: Bytes, dtype: Bytes, peer: Bytes, moves: seq<Move>)
    requires Fits(Hello(key, dtype)) && c.Accepts(Hello(key, dtype))
    ensures var d := Run(c, peer, Connected(c, key, dtype), moves);
            (d.up.key.Some? ==> d.up.key == Some(key) && Conserved(c, d.up)) &&
            (d.up.key.None? ==> d.up.received == [] && d.up.queued == []) &&
            Conserved(c, d.down)
  {
    var up, down := RunKeepsInv(c, key, dtype, peer, moves);
    var d := Run(c, peer, Connected(c, key, dtype), moves);
    LiveLinkConserves(c, Hello(key, dtype), key, d.down, down);
    if d.up.key.Some? {
      LiveLinkConserves(c, Hello(key, dtype), key, d.up, up);
    }
  }

  // ---------------------------------------------------------------- what is sent arrives

  /** The frames handed to send on the connecting side that fit and can be decoded. */
  function Offered(c: Codec, moves: seq<Move>): seq<Frame> {
    if moves == [] then [] else
      var before, move := Offered(c, moves[..|moves| - 1]), moves[|moves| - 1];
      if move.Up? && move.step.Send? && Fits(move.step.f) && c.Accepts(move.step.f) then before + [move.step.f]
      else before
  }

  /** The same of the accepting side, once it has read the hello. */
  function Returned(c: Codec, peer: Bytes, d: Duplex, moves: seq<Move>): seq<Frame> {
    if moves == [] then [] else
      var before, move := moves[..|moves| - 1], moves[|moves| - 1];
      var sent := Returned(c, peer, d, before);
      if move.Down? && move.step.Send? && Run(c, peer, d, before).up.key.Some? && Fits(move.step.f) &&
         c.Accepts(move.step.f)
      then sent + [move.step.f]
      else sent
  }

  /** The frames sent are the frames handed to send. */
  lemma {:induction false} SentAreOffered(c: Codec, peer: Bytes, d: Duplex, moves: seq<Move>)
    requires d.up.sent == [] && d.down.sent == []
    ensures Run(c, peer, d, moves).up.sent == Offered(c, moves)
    ensures Run(c, peer, d, moves).down.sent == Returned(c, peer, d, moves)
  {
    if moves != [] {
      SentAreOffered(c, peer, d, moves[..|moves| - 1]);
    }
  }

  function Stepper(c: Codec, peer: Bytes, s: Step): Link -> Link {
    l => Next(c, peer, l, s)
  }

  /** A stream that has arrived whole, with these frames in it. */
  ghost predicate Arrived(c: Codec, hello: Frame, key: Bytes, sent: seq<Frame>, l: Link, pending: seq<Frame>) {
    Inv(c, hello, key, l, pending) && l.wire == [] && l.sent == sent
  }

  lemma WholeFrameIsRead(c: Codec, rx: Bytes, f: Frame, tail: Bytes)
    requires Fits(f) && c.Accepts(f) && rx + [] == Pack(f) + tail
    ensures ReadFrame(c, rx) == Got(f, tail)
  {
    assert rx + [] == rx;
    ReadInvertsPack(c, f, tail);
  }

  lemma ReadTakesHello(c: Codec, hello: Frame, key: Bytes, peer: Bytes, sent: seq<Frame>, l: Link, pending: seq<Frame>)
    requires Arrived(c, hello, key, sent, l, pending) && KeyOf(hello.name, peer) == key && l.key.None?
    ensures var ok := Arrived(c, hello, key, sent, Next(c, peer, l, Read), pending); ok
    ensures Next(c, peer, l, Read).key.Some?
  {
    WholeFrameIsRead(c, l.rx, hello, PackAll(c, pending));
    assert Next(c, peer, l, Read) == l.(rx := PackAll(c, pending), key := Some(key));
  }

  lemma ReadTakesNothing(c: Codec, hello: Frame, key: Bytes, peer: Bytes, sent: seq<Frame>, l: Link)
    requires Arrived(c, hello, key, sent, l, []) && l.key.Some?
    ensures Next(c, peer, l, Read) == l
  {
    NothingReadable(c, l.rx, l.wire);
  }

  lemma ReadTakesFirst(c: Codec, hello: Frame, key: Bytes, peer: Bytes, sent: seq<Frame>, l: Link, first: Frame,
                       rest: seq<Frame>)
    requires Arrived(c, hello, key, sent, l, [first] + rest) && l.key.Some?
    ensures var ok := Arrived(c, hello, key, sent, Next(c, peer, l, Read), rest); ok
    ensures Next(c, peer, l, Read).key.Some?
  {
    var pending := [first] + rest;
    assert pending[0] == first && pending[1..] == rest;
    WholeFrameIsRead(c, l.rx, first, PackAll(c, rest));
    ReadDataKeepsInv(c, hello, key, peer, l, first, rest);
  }

  /** One read takes the hello, else the next frame if there is one. */
  lemma ReadTakesNext(c: Codec, hello: Frame, key: Bytes, peer: Bytes, sent: seq<Frame>, l: Link, pending: seq<Frame>)
    returns (left: seq<Frame>)
    requires Arrived(c, hello, key, sent, l, pending) && KeyOf(hello.name, peer) == key
    ensures var ok := Arrived(c, hello, key, sent, Next(c, peer, l, Read), left); ok
    ensures Next(c, peer, l, Read).key.Some?
    ensures left == if l.key.None? || pending == [] then pending else pending[1..]
  {
    left := pending;
    if l.key.None? {
      ReadTakesHello(c, hello, key, peer, sent, l, pending);
    } else if pending == [] {
      ReadTakesNothing(c, hello, key, peer, sent, l);
    } else {
      left := pending[1..];
      assert pending == [pending[0]] + left;
      ReadTakesFirst(c, hello, key, peer, sent, l, pending[0], left);
    }
  }

  /** After k reads: the hello is taken, and the next k - 1 of the frames or all there are. */
  ghost predicate ReadSoFar(c: Codec, hello: Frame, key: Bytes, sent: seq<Frame>, total: nat, l: Link, k: nat,
                            left: seq<Frame>) {
    Arrived(c, hello, key, sent, l, left) && (k > 0 ==> l.key.Some?) &&
    (left == [] || |left| + k <= total + if l.key.Some? then 1 else 0)
  }

  ghost predicate AfterReads(c: Codec, hello: Frame, key: Bytes, sent: seq<Frame>, total: nat, l: Link, k: nat) {
    exists left: seq<Frame> :: ReadSoFar(c, hello, key, sent, total, l, k, left)
  }

  lemma OneRead(c: Codec, hello: Frame, key: Bytes, peer: Bytes, sent: seq<Frame>, total: nat, l: Link, k: nat,
                left: seq<Frame>) returns (left': seq<Frame>)
    requires ReadSoFar(c, hello, key, sent, total, l, k, left) && KeyOf(hello.name, peer) == key
    ensures var ok := ReadSoFar(c, hello, key, sent, total, Next(c, peer, l, Read), k + 1, left'); ok
  {
    left' := ReadTakesNext(c, hello, key, peer, sent, l, left);
  }

  lemma OneMoreRead(c: Codec, hello: Frame, key: Bytes, peer: Bytes, sent: seq<Frame>, total: nat, l: Link, k: nat)
    requires AfterReads(c, hello, key, sent, total, l, k) && KeyOf(hello.name, peer) == key
    ensures AfterReads(c, hello, key, sent, total, Next(c, peer, l, Read), k + 1)
  {
    var left: seq<Frame> :| ReadSoFar(c, hello, key, sent, total, l, k, left);
    left := OneRead(c, hello, key, peer, sent, total, l, k, left);
  }

  /** More reads than frames empty a stream that has arrived whole. */
  lemma ReadsDrain(c: Codec, hello: Frame, key: Bytes, peer: Bytes, l: Link, pending: seq<Frame>, n: nat)
    requires Arrived(c, hello, key, l.sent, l, pending) && KeyOf(hello.name, peer) == key && |pending| < n
    ensures var end := Iterate(Stepper(c, peer, Read), l, n);
            end.sent == l.sent && end.received + end.queued == l.sent
  {
    var step, total := Stepper(c, peer, Read), |pending|;
    var good := (m: Link, k: nat) => AfterReads(c, hello, key, l.sent, total, m, k);
    assert ReadSoFar(c, hello, key, l.sent, total, l, 0, pending);
    forall m, k: nat | good(m, k) ensures good(step(m), k + 1) {
      OneMoreRead(c, hello, key, peer, l.sent, total, m, k);
    }
    IterateKeeps(step, good, l, n);
    var end := Iterate(step, l, n);
    var left: seq<Frame> :| ReadSoFar(c, hello, key, l.sent, total, end, n, left);
    assert left == [];
    assert end.received + end.queued + [] == end.received + end.queued;
  }

  /** As many receives as frames are queued hand out the queue. */
  lemma ReceivesDrain(c: Codec, peer: Bytes, l: Link)
    ensures Iterate(Stepper(c, peer, Receive), l, |l.queued|).received == l.received + l.queued
  {
    var step := Stepper(c, peer, Receive);
    var good := (m: Link, k: nat) =>
      k <= |l.queued| ==> m.received == l.received + l.queued[..k] && m.queued == l.queued[k..];
    forall m, k: nat | good(m, k) ensures good(step(m), k + 1) {
      if k < |l.queued| {
        assert l.queued[..k + 1] == l.queued[..k] + [l.queued[k]];
      }
    }
    IterateKeeps(step, good, l, |l.queued|);
    assert l.queued[..|l.queued|] == l.queued;
  }

  /** What is left to do for one direction: deliver the bytes in flight, read n times, and receive
      all that is queued. */
  function Finished(c: Codec, peer: Bytes, l: Link, n: nat): Link {
    var read := Iterate(Stepper(c, peer, Read), Next(c, peer, l, Deliver(|l.wire|)), n);
    Iterate(Stepper(c, peer, Receive), read, |read.queued|)
  }

  lemma LinkFinishes(c: Codec, hello: Frame, key: Bytes, peer: Bytes, l: Link, pending: seq<Frame>, n: nat)
    requires Inv(c, hello, key, l, pending) && KeyOf(hello.name, peer) == key && |l.sent| < n
    ensures Finished(c, peer, l, n).received == l.sent
  {
    var delivered := Next(c, peer, l, Deliver(|l.wire|));
    MoveKeepsInv(c, hello, key, peer, l, pending, Deliver(|l.wire|));
    ReadsDrain(c, hello, key, peer, delivered, pending, n);
    ReceivesDrain(c, peer, Iterate(Stepper(c, peer, Read), delivered, n));
  }

  lemma {:induction false} AtMostOneEach(c: Codec, peer: Bytes, d: Duplex, moves: seq<Move>)
    ensures |Offered(c, moves)| <= |moves| && |Returned(c, peer, d, moves)| <= |moves|
  {
    if moves != [] {
      AtMostOneEach(c, peer, d, moves[..|moves| - 1]);
    }
  }

  /** From every reachable state, once the bytes in flight are delivered and read, the readers of
      both sides receive exactly the frames handed to send, in order. */
  lemma EverythingArrives(c: Codec, key: Bytes, dtype: Bytes, peer: Bytes, moves: seq<Move>, n: nat)
    requires Fits(Hello(key, dtype)) && c.Accepts(Hello(key, dtype)) && |moves| < n
    ensures var start := Connected(c, key, dtype);
            var d := Run(c, peer, start, moves);
            Finished(c, peer, d.up, n).received == Offered(c, moves) &&
            Finished(c, peer, d.down, n).received == Returned(c, peer, start, moves)
  {
    var start := Connected(c, key, dtype);
    var d := Run(c, peer, start, moves);
    var up, down := RunKeepsInv(c, key, dtype, peer, moves);
    SentAreOffered(c, peer, start, moves);
    AtMostOneEach(c, peer, start, moves);
    LinkFinishes(c, Hello(key, dtype), key, peer, d.up, up, n);
    LinkFinishes(c, Hello(key, dtype), key, peer, d.down, down, n);
  }

  // ---------------------------------------------------------------- the read loop

  /** Reading on from (queue, buffer) ends like reading from (queue0, buffer0) would. */
  ghost predicate OnCourse(c: Codec, queue0: seq<Frame>, buffer0: Bytes, queue: seq<Frame>, buffer: Bytes) {
    queue + ReadAll(c, buffer).0 == queue0 + ReadAll(c, buffer0).0 && ReadAll(c, buffer).1 == ReadAll(c, buffer0).1
  }

  lemma OneFrameOn(c: Codec, queue0: seq<Frame>, buffer0: Bytes, queue: seq<Frame>, buffer: Bytes, f: Frame,
                   rest: Bytes)
    requires OnCourse(c, queue0, buffer0, queue, buffer) && ReadFrame(c, buffer) == Got(f, rest)
    ensures OnCourse(c, queue0, buffer0, queue + [f], rest)
  {
    Reassociate(queue, [f], ReadAll(c, rest).0);
  }

  /** The receiving end's loop: it queues every whole frame and keeps the partial one. A frame
      that does not parse ends it for good. */
  class Receiver {
    var buffer: Bytes
    var queue: seq<Frame>
    var alive: bool

    constructor ()
      ensures buffer == [] && queue == [] && alive
    {
      buffer, queue, alive := [], [], true;
    }

    method Arrive(chunk: Bytes)
      modifies `buffer
      ensures buffer == old(buffer) + chunk
    {
      buffer := buffer + chunk;
    }

    method Pump(c: Codec)
      modifies this
      ensures !old(alive) ==> queue == old(queue) && buffer == old(buffer) && !alive
      ensures old(alive) ==>
                var (fs, left) := ReadAll(c, old(buffer));
                queue == old(queue) + fs && buffer == left && (alive <==> !ReadFrame(c, left).Bad?)
    {
      if !alive {
        return;
      }
      var r := ReadFrame(c, buffer);
      while r.Got?
        invariant alive && r == ReadFrame(c, buffer) && OnCourse(c, old(queue), old(buffer), queue, buffer)
        decreases |buffer|
      {
        OneFrameOn(c, old(queue), old(buffer), queue, buffer, r.frame, r.rest);
        queue, buffer := queue + [r.frame], r.rest;
        r := ReadFrame(c, buffer);
      }
      assert queue + [] == queue;
      alive := !r.Bad?;
    }

    method Recv() returns (f: Option<Frame>)
      modifies `queue
      ensures if old(queue) == [] then f == None && queue == []
              else f == Some(old(queue)[0]) && queue == old(queue)[1..]
    {
      if queue == [] {
        return None;
      }
      f := Some(queue[0]);
      queue := queue[1..];
    }
  }
}
