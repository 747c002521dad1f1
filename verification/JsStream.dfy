/** The JavaScript stream receiver and its 4096-byte accumulator, against the cut of the stream at its zeros. */
module JsStream {
  import opened Bytes
  import opened CobsTable
  import opened Deframe
  import opened JsClient
  import opened Wire
  import JsCobs
  import PyStream

  const LIMIT: nat := ACC_MAX + 1

  /** What the accumulator still holds of a zero-free stretch: it restarts at every 4097th byte. */
  function Held(p: seq<byte>): seq<byte> { p[|p| - |p| % LIMIT..] }

  function HeldAll(ps: seq<seq<byte>>): seq<seq<byte>> {
    if ps == [] then [] else [Held(ps[0])] + HeldAll(ps[1..])
  }

  function PacketsIn(s: State, packets: seq<seq<byte>>, listening: bool): (r: State)
    requires Valid(s)
    ensures Valid(r) && r.acc == s.acc
    decreases |packets|
  {
    if packets == [] then s
    else
      PacketKeepsValid(s, packets[0], listening);
      PacketsIn(Packet(s, packets[0], listening), packets[1..], listening)
  }

  lemma PacketAcc(s: State, packet: seq<byte>, a: seq<byte>, listening: bool)
    requires Valid(s) && Valid(s.(acc := a))
    ensures Packet(s.(acc := a), packet, listening) == Packet(s, packet, listening).(acc := a)
  {
    hide Dispatched;
    var raw := JsCobs.Decoded(packet);
    if |raw| >= 6 {
      DispatchedAcc(s, UnpackFrame(raw).value, a, listening);
    }
  }

  lemma DispatchedAcc(s: State, frame: Frame, a: seq<byte>, listening: bool)
    requires Valid(s) && Valid(s.(acc := a))
    ensures Dispatched(s.(acc := a), frame, listening) == Dispatched(s, frame, listening).(acc := a)
  {
  }

  lemma {:induction false} PacketsAcc(s: State, packets: seq<seq<byte>>, a: seq<byte>, listening: bool)
    requires Valid(s) && Valid(s.(acc := a))
    ensures PacketsIn(s.(acc := a), packets, listening) == PacketsIn(s, packets, listening).(acc := a)
    decreases |packets|
  {
    if packets != [] {
      PacketAcc(s, packets[0], a, listening);
      PacketKeepsValid(s, packets[0], listening);
      PacketKeepsValid(s.(acc := a), packets[0], listening);
      PacketsAcc(Packet(s, packets[0], listening), packets[1..], a, listening);
    }
  }

  lemma HeldShort(p: seq<byte>)
    requires |p| <= ACC_MAX
    ensures Held(p) == p
  {
  }

  lemma HeldSkip(x: seq<byte>, p: seq<byte>)
    requires |x| == LIMIT
    ensures Held(x + p) == Held(p)
  {
    assert (|p| + LIMIT) % LIMIT == |p| % LIMIT;
    assert (x + p)[|x|..] == p;
  }

  lemma {:induction false} HeldAllShort(ps: seq<seq<byte>>)
    requires forall p :: p in ps ==> |p| <= ACC_MAX
    ensures HeldAll(ps) == ps
  {
    if ps != [] {
      HeldShort(ps[0]);
      HeldAllShort(ps[1..]);
    }
  }

  /** The byte-at-a-time receiver dispatches, of every delimited piece, what the accumulator still holds. */
  lemma {:induction false} ReceivedIs(s: State, bytes: seq<byte>, listening: bool)
    requires Valid(s) && ZeroFree(s.acc) && |s.acc| <= ACC_MAX
    ensures var stream := s.acc + bytes;
            Received(s, bytes, listening)
            == PacketsIn(s, HeldAll(Packets(stream)), listening).(acc := Held(Leftover(stream)))
    decreases |bytes|
  {
    hide Packet, Held;
    var stream := s.acc + bytes;
    if bytes == [] {
      assert stream == s.acc;
      CutNone(s.acc);
      HeldShort(s.acc);
    } else {
      var b, rest := bytes[0], bytes[1..];
      var t := OneByte(s, b, listening);
      assert bytes == [b] + rest;
      if b == 0 {
        var empty := s.(acc := []);
        AccFree(s, []);
        HeldShort(s.acc);
        CutOne(s.acc, rest);
        PacketAcc(s, s.acc, [], listening);
        PacketKeepsValid(s, s.acc, listening);
        PacketKeepsValid(empty, s.acc, listening);
        assert t == Packet(empty, s.acc, listening) by { OneByteZero(s, listening); }
        ReceivedIs(t, rest, listening);
        assert t.acc + rest == rest;
        var tail := HeldAll(Packets(rest));
        PacketsAcc(Packet(s, s.acc, listening), tail, [], listening);
        assert ([s.acc] + Packets(rest))[1..] == Packets(rest);
        assert ([s.acc] + tail)[1..] == tail;
      } else {
        var full := s.acc + [b];
        Assoc(s.acc, [b], rest);
        if |full| <= ACC_MAX {
          AccFree(s, full);
          ReceivedIs(t, rest, listening);
          PacketsAcc(s, HeldAll(Packets(stream)), full, listening);
        } else {
          AccFree(s, []);
          ReceivedIs(t, rest, listening);
          assert t.acc + rest == rest;
          Overflow(full, rest);
          PacketsAcc(s, HeldAll(Packets(stream)), [], listening);
        }
      }
    }
  }

  lemma OneByteZero(s: State, listening: bool)
    requires Valid(s)
    ensures Valid(s.(acc := [])) && OneByte(s, 0, listening) == Packet(s.(acc := []), s.acc, listening)
  {
    AccFree(s, []);
  }

  /** Losing 4097 bytes at the front of a piece loses nothing the accumulator would have kept. */
  lemma Overflow(full: seq<byte>, rest: seq<byte>)
    requires ZeroFree(full) && |full| == LIMIT
    ensures HeldAll(Packets(full + rest)) == HeldAll(Packets(rest))
    ensures Held(Leftover(full + rest)) == Held(Leftover(rest))
  {
    hide Held;
    CutPrefix(full, rest);
    var p := Packets(rest);
    if p == [] {
      HeldSkip(full, Leftover(rest));
    } else {
      HeldSkip(full, p[0]);
      assert ([full + p[0]] + p[1..])[1..] == p[1..];
    }
  }

  /** While no piece exceeds 4096 bytes, this receiver cuts the stream exactly as the Python one does. */
  lemma ShortPiecesDelivered(s: State, bytes: seq<byte>, listening: bool)
    requires Valid(s) && ZeroFree(s.acc) && |s.acc| <= ACC_MAX
    requires forall p :: p in Packets(s.acc + bytes) ==> |p| <= ACC_MAX
    ensures Received(s, bytes, listening)
         == PacketsIn(s, Packets(s.acc + bytes), listening).(acc := Held(Leftover(s.acc + bytes)))
  {
    ReceivedIs(s, bytes, listening);
    HeldAllShort(Packets(s.acc + bytes));
  }

  lemma {:induction false} ReceivedConcat(s: State, a: seq<byte>, b: seq<byte>, listening: bool)
    requires Valid(s)
    ensures Received(Received(s, a, listening), b, listening) == Received(s, a + b, listening)
    decreases |a|
  {
    if a == [] {
      assert a + b == b;
    } else {
      assert (a + b)[0] == a[0] && (a + b)[1..] == a[1..] + b;
      ReceivedConcat(OneByte(s, a[0], listening), a[1..], b, listening);
    }
  }

  function FedChunks(s: State, chunks: seq<seq<byte>>, listening: bool): (r: State)
    requires Valid(s)
    ensures Valid(r)
    decreases |chunks|
  {
    if chunks == [] then s else FedChunks(Received(s, chunks[0], listening), chunks[1..], listening)
  }

  /** Feeding the pieces of a stream is feeding the stream at once. */
  lemma {:induction false} ChunkingIndependence(s: State, chunks: seq<seq<byte>>, listening: bool)
    requires Valid(s)
    ensures FedChunks(s, chunks, listening) == Received(s, Flatten(chunks), listening)
    decreases |chunks|
  {
    hide OneByte, Valid;
    if chunks != [] {
      ChunkingIndependence(Received(s, chunks[0], listening), chunks[1..], listening);
      ReceivedConcat(s, chunks[0], Flatten(chunks[1..]), listening);
    }
  }

  // The size limit in terms of frames.

  lemma {:induction false} DecodedShrinks(b: seq<byte>)
    ensures |JsCobs.Decoded(b)| <= |b|
    ensures b != [] ==> |JsCobs.Decoded(b)| < |b|
    decreases |b|
  {
    if b != [] && 0 < b[0] < |b| {
      DecodedShrinks(b[b[0]..]);
    }
  }

  /** Receiving one encoded frame dispatches what its held bytes decode to. */
  lemma FrameReceived(s: State, raw: seq<byte>, listening: bool)
    requires Valid(s) && s.acc == []
    ensures Received(s, Stuffed(raw), listening) == Datagram(s, JsCobs.Decoded(Held(Body(raw))), listening)
  {
    hide Body, Received, Held, Dispatched;
    BodyZeroFree(raw);
    assert s.acc + Stuffed(raw) == Body(raw) + ([0] + []);
    CutOne(Body(raw), []);
    ReceivedIs(s, Stuffed(raw), listening);
    HeldShort([]);
    var held := Held(Body(raw));
    assert HeldAll([Body(raw)]) == [held] by {
      assert [Body(raw)][1..] == [];
    }
    OnePacket(s, held, listening);
    PacketKeepsValid(s, held, listening);
  }

  lemma OnePacket(s: State, packet: seq<byte>, listening: bool)
    requires Valid(s)
    ensures PacketsIn(s, [packet], listening) == Datagram(s, JsCobs.Decoded(packet), listening)
  {
    hide Datagram;
    PacketKeepsValid(s, packet, listening);
    assert [packet][1..] == [];
    ShortDatagram(s, JsCobs.Decoded(packet), listening);
  }

  lemma ShortDatagram(s: State, data: seq<byte>, listening: bool)
    requires Valid(s)
    ensures |data| < 6 ==> Datagram(s, data, listening) == s
  {
  }

  /** What is dispatched is the frame itself exactly when its body fits the accumulator. */
  lemma FrameSurvives(s: State, raw: seq<byte>, listening: bool)
    requires Valid(s) && s.acc == []
    ensures Received(s, Stuffed(raw), listening) == Datagram(s, JsCobs.Decoded(Held(Body(raw))), listening)
    ensures JsCobs.Decoded(Held(Body(raw))) == raw <==> |Body(raw)| <= ACC_MAX
  {
    hide Body, JsCobs.Decoded, FullRuns, Received, Datagram;
    FrameReceived(s, raw, listening);
    var b := Body(raw);
    BodyLength(raw);
    if |b| <= ACC_MAX {
      HeldShort(b);
      JsCobs.JsDecodesBothForms(raw);
    } else {
      DecodedShrinks(Held(b));
      OverlongKeepsLess(|raw|, |b|);
    }
  }

  lemma OverlongKeepsLess(n: nat, length: nat)
    requires length > ACC_MAX && length - n - 1 <= n / 254
    ensures length % LIMIT < n
  {
    var q, r := length / LIMIT, length % LIMIT;
    assert q >= 1;
    assert 254 * (length - n - 1) <= n;
    if q == 1 {
      assert r == length - LIMIT;
    } else {
      assert length >= 2 * LIMIT;
    }
  }

  /** The same frames handed over one datagram each. */
  function Delivered(s: State, raws: seq<seq<byte>>, listening: bool): (r: State)
    requires Valid(s)
    ensures Valid(r) && r.acc == s.acc
    decreases |raws|
  {
    if raws == [] then s
    else
      DatagramKeepsValid(s, raws[0], listening);
      Delivered(Datagram(s, raws[0], listening), raws[1..], listening)
  }

  lemma {:induction false} BodiesDelivered(s: State, raws: seq<seq<byte>>, listening: bool)
    requires Valid(s)
    ensures PacketsIn(s, Bodies(raws), listening) == Delivered(s, raws, listening)
    decreases |raws|
  {
    hide Datagram, Body, JsCobs.Decoded;
    if raws != [] {
      BodyZeroFree(raws[0]);
      JsCobs.JsDecodesBothForms(raws[0]);
      DatagramKeepsValid(s, raws[0], listening);
      assert Bodies(raws)[1..] == Bodies(raws[1..]);
      BodiesDelivered(Datagram(s, raws[0], listening), raws[1..], listening);
    }
  }

  lemma {:induction false} BodiesShort(raws: seq<seq<byte>>)
    requires forall raw :: raw in raws ==> |Body(raw)| <= ACC_MAX
    ensures forall b :: b in Bodies(raws) ==> |b| <= ACC_MAX
  {
    hide Body;
    if raws != [] {
      BodiesShort(raws[1..]);
    }
  }

  /** Encoded frames whose bodies fit the accumulator are dispatched as exactly those frames, in order. */
  lemma StreamDelivery(s: State, raws: seq<seq<byte>>, listening: bool)
    requires Valid(s) && s.acc == [] && forall raw :: raw in raws ==> |Body(raw)| <= ACC_MAX
    ensures Received(s, StuffedAll(raws), listening) == Delivered(s, raws, listening)
    ensures Received(s, StuffedAll(raws), listening).acc == []
  {
    hide Body, Received;
    assert s.acc + StuffedAll(raws) == StuffedAll(raws);
    CutStuffed(raws);
    BodiesShort(raws);
    ShortPiecesDelivered(s, StuffedAll(raws), listening);
    BodiesDelivered(s, raws, listening);
  }

  /**
   From any state, one delimiter ends whatever went before, an overlong piece included: the fitting frames after
   it are dispatched exactly and last.
   */
  lemma Resynchronise(s: State, garbage: seq<byte>, raws: seq<seq<byte>>, listening: bool)
    requires Valid(s) && forall raw :: raw in raws ==> |Body(raw)| <= ACC_MAX
    ensures Received(s, garbage + [0], listening).acc == []
    ensures Received(s, garbage + [0] + StuffedAll(raws), listening)
         == Delivered(Received(s, garbage + [0], listening), raws, listening)
  {
    hide Received, Body;
    var t := Received(s, garbage, listening);
    ReceivedConcat(s, garbage, [0], listening);
    DelimiterEmpties(t, listening);
    ReceivedConcat(s, garbage + [0], StuffedAll(raws), listening);
    StreamDelivery(Received(t, [0], listening), raws, listening);
  }

  lemma DelimiterEmpties(s: State, listening: bool)
    requires Valid(s)
    ensures Received(s, [0], listening).acc == []
  {
    hide Packet;
    assert [0][1..] == [];
    AccFree(s, []);
    PacketKeepsValid(s.(acc := []), s.acc, listening);
  }

  /** Every frame with a payload of up to 4073 bytes is dispatched as itself. */
  lemma PayloadSurvives(s: State, header: seq<byte>, payload: seq<byte>, listening: bool)
    requires Valid(s) && s.acc == [] && |header| == 6 && |payload| <= 4073
    ensures Received(s, Stuffed(header + payload), listening) == Datagram(s, header + payload, listening)
  {
    hide Body, JsCobs.Decoded, FullRuns, Received, Datagram;
    BodyLength(header + payload);
    FrameSurvives(s, header + payload, listening);
  }

  /** At 4074 bytes a frame without any zero byte is dropped whole: receiving it changes nothing. */
  lemma ZeroFreePayloadDropped(s: State, header: seq<byte>, payload: seq<byte>, listening: bool)
    requires Valid(s) && s.acc == [] && |header| == 6 && |payload| == 4074 && ZeroFree(header + payload)
    ensures Received(s, Stuffed(header + payload), listening) == s
  {
    hide Body, FullRuns, Received, JsCobs.Decoded, Datagram, Held;
    var raw := header + payload;
    ZeroFreeBodyLength(raw);
    FrameReceived(s, raw, listening);
    HeldNothing(Body(raw));
    ShortDatagram(s, [], listening);
  }

  lemma HeldNothing(p: seq<byte>)
    requires |p| == LIMIT
    ensures Held(p) == [] && JsCobs.Decoded(Held(p)) == []
  {
  }

  /** Such a frame exists: request 0x0701, sequence 0x0101, whose length field 0x0FEA has no zero byte either. */
  lemma DroppedFrameExists(s: State, listening: bool)
    requires Valid(s) && s.acc == []
    ensures var payload: seq<byte> := seq(4074, _ => 1);
            && PackFrame(0x0701, 0x0101, payload).Some?
            && Received(s, Stuffed(PackFrame(0x0701, 0x0101, payload).value), listening) == s
  {
    hide Received, Stuffed;
    var payload: seq<byte> := seq(4074, _ => 1);
    DroppedFrame(s, payload, listening);
  }

  lemma DroppedFrame(s: State, payload: seq<byte>, listening: bool)
    requires Valid(s) && s.acc == [] && |payload| == 4074 && ZeroFree(payload)
    ensures Received(s, Stuffed(Header(0x0701, 0x0101, |payload|) + payload), listening) == s
  {
    hide Received, Stuffed;
    ZeroFreePayloadDropped(s, Header(0x0701, 0x0101, |payload|), payload, listening);
  }

  /** Receiving a frame leaves every client as it was if and only if fewer than six bytes decode from what is held. */
  lemma DroppedWholeIff(raw: seq<byte>)
    ensures (forall s: State, listening :: Valid(s) && s.acc == [] ==> Received(s, Stuffed(raw), listening) == s)
       <==> |JsCobs.Decoded(Held(Body(raw)))| < 6
  {
    hide Body, JsCobs.Decoded, Received, Held, Stuffed;
    var data := JsCobs.Decoded(Held(Body(raw)));
    if |data| < 6 {
      forall s: State, listening | Valid(s) && s.acc == []
        ensures Received(s, Stuffed(raw), listening) == s
      {
        FrameReceived(s, raw, listening);
        ShortDatagram(s, data, listening);
      }
    } else {
      FrameReceived(INITIAL, raw, true);
      LongDatagramNotified(data);
      assert Received(INITIAL, Stuffed(raw), true) != INITIAL;
    }
  }

  lemma LongDatagramNotified(data: seq<byte>)
    requires |data| >= 6
    ensures Valid(INITIAL) && Datagram(INITIAL, data, true) != INITIAL
  {
    assert Datagram(INITIAL, data, true).notified == INITIAL.notified + [UnpackFrame(data).value];
  }

  // The tail of an overlong frame is taken for a frame of its own.

  /** The last run of zero-free data stands unchanged at the end of its body. */
  lemma {:induction false} BodyTail(d: seq<byte>, n: nat)
    requires ZeroFree(d) && n <= |d| % 254
    ensures n <= |Body(d)| && Body(d)[|Body(d)| - n..] == d[|d| - n..]
    decreases |d|
  {
    hide Body;
    if |d| >= 254 {
      OneRunLess(|d|);
      BodyTail(d[254..], n);
      TailStep(d[..254], d[254..], n);
      assert d == d[..254] + d[254..];
    } else {
      BodyLastRun(d);
      EndOf([|d| + 1], d, n);
    }
  }

  lemma OneRunLess(n: nat)
    requires n >= 254
    ensures (n - 254) % 254 == n % 254
  {
  }

  lemma TailStep(run: seq<byte>, rest: seq<byte>, n: nat)
    requires ZeroFree(run) && |run| == 254 && n <= |rest| && n <= |Body(rest)|
    requires Body(rest)[|Body(rest)| - n..] == rest[|rest| - n..]
    ensures var d := run + rest;
            n <= |Body(d)| && Body(d)[|Body(d)| - n..] == d[|d| - n..]
  {
    hide Body;
    BodyFullRun(run, rest);
    EndOf(run, rest, n);
    EndOf([0xFF] + run, Body(rest), n);
  }

  lemma EndOf<T>(a: seq<T>, b: seq<T>, n: nat)
    requires n <= |b|
    ensures (a + b)[|a + b| - n..] == b[|b| - n..]
  {
  }

  /** Eight bytes: a code byte, then a header that announces 0x0101 bytes and one payload byte. */
  const INNER: seq<byte> := [9, 1, 7, 1, 1, 1, 1, 1]

  lemma InnerDecodes()
    ensures UnpackFrame(JsCobs.Decoded(INNER)) == Some(Frame(0x0701, 0x0101, [1]))
  {
    var data := JsCobs.Decoded(INNER);
    assert data == [1, 7, 1, 1, 1, 1, 1];
    assert data[6..7] == [1];
  }

  /** A zero-free frame of 4088 bytes that ends in these eight is received as the frame inside them. */
  lemma TailReceived(s: State, raw: seq<byte>, listening: bool)
    requires Valid(s) && s.acc == [] && ZeroFree(raw) && |raw| == 4088 && raw[4080..] == INNER
    ensures Received(s, Stuffed(raw), listening) == Dispatched(s, Frame(0x0701, 0x0101, [1]), listening)
  {
    hide Body, JsCobs.Decoded, Received, Dispatched, Stuffed, UnpackFrame;
    ZeroFreeBodyLength(raw);
    BodyTail(raw, 8);
    HeldEight(Body(raw));
    FrameReceived(s, raw, listening);
    InnerDecodes();
  }

  lemma HeldEight(p: seq<byte>)
    requires |p| == LIMIT + 8
    ensures Held(p) == p[|p| - 8..]
  {
  }

  /**
   Such a frame can be built: request 0x0701 under sequence number 0x0202.  Receiving it resolves the promise
   that is pending under 0x0101, with a frame that nobody sent.
   */
  lemma TailResolvesAnother(s: State, listening: bool)
    requires Valid(s) && s.acc == [] && 0x0101 in s.pending
    ensures var payload: seq<byte> := seq(4074, _ => 1) + INNER;
            && PackFrame(0x0701, 0x0202, payload).Some?
            && var t := Received(s, Stuffed(PackFrame(0x0701, 0x0202, payload).value), listening);
               && s.pending[0x0101] < |s.promises| == |t.promises|
               && s.promises[s.pending[0x0101]].status.Open?
               && t.promises[s.pending[0x0101]].status == Resolved(Frame(0x0701, 0x0101, [1]))
               && 0x0101 !in t.pending
  {
    hide Received, Stuffed, Header;
    var payload: seq<byte> := seq(4074, _ => 1) + INNER;
    assert PendingOk(s, 0x0101);
    TailOfPacked(s, payload, listening);
  }

  lemma TailOfPacked(s: State, payload: seq<byte>, listening: bool)
    requires Valid(s) && s.acc == [] && |payload| == 4082 && ZeroFree(payload) && payload[4074..] == INNER
    ensures Received(s, Stuffed(Header(0x0701, 0x0202, |payload|) + payload), listening)
         == Dispatched(s, Frame(0x0701, 0x0101, [1]), listening)
  {
    hide Received, Stuffed, Dispatched;
    var raw := Header(0x0701, 0x0202, |payload|) + payload;
    assert raw[4080..] == payload[4074..];
    TailReceived(s, raw, listening);
  }
}
