/** What the Python stream receiver promises over whole streams, however they are cut into chunks. */
module PyStream {
  import opened Bytes
  import opened CobsTable
  import opened Deframe
  import opened PyClient

  function FedChunks(s: State, chunks: seq<seq<byte>>, listening: bool): (r: State)
    requires Valid(s)
    ensures Valid(r)
    decreases |chunks|
  {
    if chunks == [] then s else FedChunks(Received(s, chunks[0], listening), chunks[1..], listening)
  }

  /** The same frames handed over one datagram each. */
  function Delivered(s: State, raws: seq<seq<byte>>, listening: bool): (r: State)
    requires Valid(s)
    ensures Valid(r) && r.rxBuffer == s.rxBuffer
    decreases |raws|
  {
    if raws == [] then s
    else
      DatagramKeepsValid(s, raws[0], listening);
      Delivered(Datagram(s, raws[0], listening), raws[1..], listening)
  }

  lemma {:induction false} PacketsInConcat(s: State, a: seq<seq<byte>>, b: seq<seq<byte>>, listening: bool)
    requires Valid(s)
    ensures PacketsIn(s, a + b, listening) == PacketsIn(PacketsIn(s, a, listening), b, listening)
    decreases |a|
  {
    if a == [] {
      assert a + b == b;
    } else {
      assert (a + b)[1..] == a[1..] + b && (a + b)[0] == a[0];
      PacketKeepsValid(s, a[0], listening);
      PacketsInConcat(Packet(s, a[0], listening), a[1..], b, listening);
    }
  }

  /** The receiver in one step: all complete pieces dispatched from `s`, the leftover kept. */
  lemma ReceivedIs(s: State, chunk: seq<byte>, listening: bool)
    requires Valid(s)
    ensures var stream := s.rxBuffer + chunk;
            Received(s, chunk, listening) == PacketsIn(s, Packets(stream), listening).(rxBuffer := Leftover(stream))
  {
    var stream := s.rxBuffer + chunk;
    RxBufferFree(s, stream);
    PacketsRx(s, Packets(stream), stream, listening);
  }

  lemma ReceivedConcat(s: State, a: seq<byte>, b: seq<byte>, listening: bool)
    requires Valid(s)
    ensures Received(Received(s, a, listening), b, listening) == Received(s, a + b, listening)
  {
    hide Received;
    var x := s.rxBuffer + a;
    var mid := PacketsIn(s, Packets(x), listening);
    var t := Received(s, a, listening);
    ReceivedIs(s, a, listening);
    ReceivedIs(t, b, listening);
    ReceivedIs(s, a + b, listening);
    Assoc(s.rxBuffer, a, b);
    CutConcat(x, b);
    PacketsInConcat(s, Packets(x), Packets(Leftover(x) + b), listening);
    PacketsRx(mid, Packets(Leftover(x) + b), Leftover(x), listening);
  }

  lemma ReceivedBufferZeroFree(s: State, chunk: seq<byte>, listening: bool)
    requires Valid(s)
    ensures ZeroFree(Received(s, chunk, listening).rxBuffer)
  {
    ReceivedIs(s, chunk, listening);
    PiecesZeroFree(s.rxBuffer + chunk);
  }

  lemma ReceivedNothing(s: State, listening: bool)
    requires Valid(s) && ZeroFree(s.rxBuffer)
    ensures Received(s, [], listening) == s
  {
    assert s.rxBuffer + [] == s.rxBuffer;
    CutNone(s.rxBuffer);
    ReceivedIs(s, [], listening);
  }

  /** Chunking does not matter: feeding the pieces of a stream is feeding the stream at once. */
  lemma {:induction false} ChunkingIndependence(s: State, chunks: seq<seq<byte>>, listening: bool)
    requires Valid(s) && ZeroFree(s.rxBuffer)
    ensures FedChunks(s, chunks, listening) == Received(s, Flatten(chunks), listening)
    decreases |chunks|
  {
    hide Received;
    if chunks == [] {
      ReceivedNothing(s, listening);
    } else {
      ReceivedBufferZeroFree(s, chunks[0], listening);
      ChunkingIndependence(Received(s, chunks[0], listening), chunks[1..], listening);
      ReceivedConcat(s, chunks[0], Flatten(chunks[1..]), listening);
    }
  }

  /** Any two ways to cut the same bytes end in the same state: futures, notifications, table and leftover. */
  lemma AnyTwoSplitsAgree(s: State, one: seq<seq<byte>>, other: seq<seq<byte>>, listening: bool)
    requires Valid(s) && ZeroFree(s.rxBuffer) && Flatten(one) == Flatten(other)
    ensures FedChunks(s, one, listening) == FedChunks(s, other, listening)
  {
    ChunkingIndependence(s, one, listening);
    ChunkingIndependence(s, other, listening);
  }

  lemma {:induction false} BodiesDelivered(s: State, raws: seq<seq<byte>>, listening: bool)
    requires Valid(s)
    ensures PacketsIn(s, Bodies(raws), listening) == Delivered(s, raws, listening)
    decreases |raws|
  {
    if raws != [] {
      BodyZeroFree(raws[0]);
      DecodeBody(raws[0]);
      DatagramKeepsValid(s, raws[0], listening);
      var t := Datagram(s, raws[0], listening);
      assert Bodies(raws) == [Body(raws[0])] + Bodies(raws[1..]);
      assert Packet(s, Body(raws[0]), listening) == t;
      BodiesDelivered(t, raws[1..], listening);
    }
  }

  /** Encoded frames in any chunks are dispatched as exactly those frames, in order, leaving nothing behind. */
  lemma StreamDelivery(s: State, raws: seq<seq<byte>>, chunks: seq<seq<byte>>, listening: bool)
    requires Valid(s) && s.rxBuffer == [] && Flatten(chunks) == StuffedAll(raws)
    ensures FedChunks(s, chunks, listening) == Delivered(s, raws, listening)
    ensures FedChunks(s, chunks, listening).rxBuffer == []
  {
    ChunkingIndependence(s, chunks, listening);
    ReceivedIs(s, StuffedAll(raws), listening);
    assert s.rxBuffer + StuffedAll(raws) == StuffedAll(raws);
    CutStuffed(raws);
    BodiesDelivered(s, raws, listening);
  }

  /** From any state, one delimiter ends whatever went before: the frames after it arrive exactly and last. */
  lemma Resynchronise(s: State, garbage: seq<byte>, raws: seq<seq<byte>>, listening: bool)
    requires Valid(s)
    ensures Received(s, garbage + [0], listening).rxBuffer == []
    ensures Received(s, garbage + [0] + StuffedAll(raws), listening)
         == Delivered(Received(s, garbage + [0], listening), raws, listening)
  {
    hide Received;
    var t := Received(s, garbage + [0], listening);
    ReceivedIs(s, garbage + [0], listening);
    Assoc(s.rxBuffer, garbage, [0]);
    CutConcat(s.rxBuffer + garbage, [0]);
    PiecesZeroFree(s.rxBuffer + garbage);
    var rest := Leftover(s.rxBuffer + garbage);
    assert [0] + [] == [0];
    CutOne(rest, []);
    ReceivedConcat(s, garbage + [0], StuffedAll(raws), listening);
    StreamDelivery(t, raws, [StuffedAll(raws)], listening);
    assert Flatten([StuffedAll(raws)]) == StuffedAll(raws) + Flatten([]);
    assert FedChunks(t, [StuffedAll(raws)], listening)
        == FedChunks(Received(t, StuffedAll(raws), listening), [], listening);
  }

  /** Garbage without a delimiter merges with the first following frame and spoils no other. */
  lemma GarbageSpoilsOne(s: State, garbage: seq<byte>, raws: seq<seq<byte>>, listening: bool)
    requires Valid(s) && ZeroFree(s.rxBuffer) && ZeroFree(garbage) && raws != []
    ensures Valid(s.(rxBuffer := []))
    ensures var first := Packet(s.(rxBuffer := []), s.rxBuffer + garbage + Body(raws[0]), listening);
            Valid(first)
            && Received(s, garbage + StuffedAll(raws), listening) == Delivered(first, raws[1..], listening)
  {
    hide Received;
    RxBufferFree(s, []);
    var empty := s.(rxBuffer := []);
    var junk := s.rxBuffer + garbage;
    var body := junk + Body(raws[0]);
    PacketKeepsValid(empty, body, listening);
    CutStuffed(raws);
    CutPrefix(junk, StuffedAll(raws));
    Assoc(s.rxBuffer, garbage, StuffedAll(raws));
    ReceivedIs(s, garbage + StuffedAll(raws), listening);
    assert ([body] + Bodies(raws[1..]))[1..] == Bodies(raws[1..]);
    PacketsRx(s, [body] + Bodies(raws[1..]), [], listening);
    BodiesDelivered(Packet(empty, body, listening), raws[1..], listening);
  }

  /** The zero-code-byte error of the decoder cannot arise from a stream: every piece decodes. */
  lemma EveryPieceDecodes(stream: seq<byte>)
    ensures forall p :: p in Packets(stream) ==> Decode(p).Some?
  {
    PiecesZeroFree(stream);
    forall p | p in Packets(stream)
      ensures Decode(p).Some?
    {
      ZeroFreeDecodes(p);
    }
  }
}
