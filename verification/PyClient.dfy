/**
 The generated Python client: sequence allocator, table of pending requests, three-way dispatch and
 the stream receiver.  A future is an object shared between the pending table and the caller, so it
 is modelled by its position in `requests`, the history of every send; the pending table holds that
 position.  The class works on its fields; each method is proved against a function on `State`.
 */
module PyClient {
  import opened Bytes
  import opened CobsTable
  import opened Deframe
  import opened Wire
  import PyCobs

  /** `Unsent` is a send whose frame did not pack; `Cancelled` covers timeouts and outer cancellation. */
  datatype Future = Unsent | Waiting | Result(frame: Frame) | SystemError | Cancelled

  datatype Request = Request(rpcId: int, seqId: word, payload: seq<byte>, fut: Future)
  {
    function Wire(): Option<seq<byte>> { PackFrame(rpcId, seqId, payload) }
  }

  datatype State = State(
    nextSeqId: word,
    rxBuffer: seq<byte>,
    pending: map<word, nat>,
    requests: seq<Request>,
    notified: seq<Frame>)

  // Sequence allocator.

  const PERIOD: nat := 0xFFFF

  function NextSeqId(s: word): word { if s == 0xFFFF then 1 else s + 1 }

  /** The identifier handed out by the allocation number k, counting from zero. */
  function SeqAt(k: nat): word { if k < PERIOD then k + 1 else SeqAt(k - PERIOD) }

  lemma {:induction false} SeqStep(k: nat)
    ensures NextSeqId(SeqAt(k)) == SeqAt(k + 1)
  {
    if k >= PERIOD {
      SeqStep(k - PERIOD);
    }
  }

  lemma {:induction false} SeqAtIs(k: nat)
    ensures SeqAt(k) == k % PERIOD + 1
  {
    if k >= PERIOD {
      SeqAtIs(k - PERIOD);
    }
  }

  /** Identifiers are never zero and repeat exactly at multiples of 65535 allocations. */
  lemma SeqRepeats(i: nat, j: nat)
    ensures SeqAt(i) != 0
    ensures SeqAt(i) == SeqAt(j) <==> (j - i) % PERIOD == 0
  {
    SeqAtIs(i);
    SeqAtIs(j);
    var qi, qj := i / PERIOD, j / PERIOD;
    var d := (SeqAt(j) as int) - SeqAt(i);
    assert j - i == PERIOD * (qj - qi) + d;
    if (j - i) % PERIOD == 0 {
      var m := (j - i) / PERIOD;
      assert d == PERIOD * (m - (qj - qi));
    }
  }

  lemma SeqDistinctWithinPeriod(i: nat, j: nat)
    requires i < j < i + PERIOD
    ensures SeqAt(i) != SeqAt(j)
  {
    SeqRepeats(i, j);
  }

  // What every operation keeps.

  predicate Valid(s: State) {
    && s.nextSeqId == SeqAt(|s.requests|)
    && (forall k :: 0 <= k < |s.requests| ==> s.requests[k].seqId == SeqAt(k))
    && (forall k :: 0 <= k < |s.requests| ==> (s.requests[k].fut.Unsent? <==> s.requests[k].Wire().None?))
    && (forall q :: q in s.pending ==> PendingOk(s, q))
  }

  /** A pending entry names a request that went out under this identifier, and the latest one. */
  predicate PendingOk(s: State, q: word)
    requires q in s.pending
  {
    var k := s.pending[q];
    && k < |s.requests| && s.requests[k].seqId == q && !s.requests[k].fut.Unsent?
    && (forall j :: k < j < |s.requests| && s.requests[j].seqId == q ==> s.requests[j].fut.Unsent?)
  }

  const INITIAL := State(1, [], map[], [], [])

  // The operations as functions.

  /** send_request_async up to the await: a frame that does not pack still uses up its identifier. */
  function Sent(s: State, rpcId: int, payload: seq<byte>): State {
    var seqId := s.nextSeqId;
    var k := |s.requests|;
    var packed := PackFrame(rpcId, seqId, payload).Some?;
    var request := Request(rpcId, seqId, payload, if packed then Waiting else Unsent);
    s.(nextSeqId := NextSeqId(seqId),
       requests := s.requests + [request],
       pending := if packed then s.pending[seqId := k] else s.pending)
  }

  /** Removing the pending entry of an identifier and completing its future, unless that is already done. */
  function Settled(s: State, seqId: word, outcome: Future): State
    requires Valid(s)
  {
    if seqId !in s.pending then s
    else
      var k := s.pending[seqId];
      s.(pending := s.pending - {seqId},
         requests := if s.requests[k].fut.Waiting? then s.requests[k := s.requests[k].(fut := outcome)]
                     else s.requests)
  }

  datatype Class = ErrorFrame | Notification | Response

  function Classify(rpcId: word): Class {
    if rpcId == 0 then ErrorFrame else if Bit7(rpcId) then Notification else Response
  }

  function Dispatched(s: State, frame: Frame, listening: bool): State
    requires Valid(s)
  {
    match Classify(frame.rpcId)
    case ErrorFrame => Settled(s, frame.seqId, SystemError)
    case Notification => if listening then s.(notified := s.notified + [frame]) else s
    case Response => Settled(s, frame.seqId, Result(frame))
  }

  function Datagram(s: State, data: seq<byte>, listening: bool): State
    requires Valid(s)
  {
    match UnpackFrame(data)
    case None => s
    case Some(frame) => Dispatched(s, frame, listening)
  }

  /** One delimited piece of the stream; empty and undecodable pieces are ignored. */
  function Packet(s: State, packet: seq<byte>, listening: bool): State
    requires Valid(s)
  {
    if packet == [] then s
    else
      match Decode(packet)
      case None => s
      case Some(raw) => Datagram(s, raw, listening)
  }

  function PacketsIn(s: State, packets: seq<seq<byte>>, listening: bool): (r: State)
    requires Valid(s)
    ensures Valid(r) && r.rxBuffer == s.rxBuffer
    decreases |packets|
  {
    if packets == [] then s
    else
      PacketKeepsValid(s, packets[0], listening);
      PacketsIn(Packet(s, packets[0], listening), packets[1..], listening)
  }

  /** Everything up to the last delimiter in the buffer is dispatched, the rest stays. */
  function Drained(s: State, listening: bool): (r: State)
    requires Valid(s)
    ensures Valid(r)
  {
    var r := PacketsIn(s, Packets(s.rxBuffer), listening);
    RxBufferFree(r, Leftover(s.rxBuffer));
    r.(rxBuffer := Leftover(s.rxBuffer))
  }

  /** receive_bytes. */
  function Received(s: State, chunk: seq<byte>, listening: bool): (r: State)
    requires Valid(s)
    ensures Valid(r)
  {
    RxBufferFree(s, s.rxBuffer + chunk);
    Drained(s.(rxBuffer := s.rxBuffer + chunk), listening)
  }

  /** A waiting future is cancelled, by its own timeout or from outside. */
  function Cancel(s: State, k: nat): State {
    if k < |s.requests| && s.requests[k].fut.Waiting?
    then s.(requests := s.requests[k := s.requests[k].(fut := Cancelled)])
    else s
  }

  /** The timeout handler: drop whatever is pending under the identifier of the cancelled request. */
  function Forget(s: State, k: nat): State {
    if k < |s.requests| && s.requests[k].fut.Cancelled?
    then s.(pending := s.pending - {s.requests[k].seqId})
    else s
  }

  // Every operation keeps the invariant.

  lemma RxBufferFree(s: State, b: seq<byte>)
    requires Valid(s)
    ensures Valid(s.(rxBuffer := b))
  {
    var t := s.(rxBuffer := b);
    assert forall q :: q in t.pending ==> PendingOk(s, q);
  }

  lemma SentKeepsValid(s: State, rpcId: int, payload: seq<byte>)
    requires Valid(s)
    ensures Valid(Sent(s, rpcId, payload))
  {
    var t := Sent(s, rpcId, payload);
    SeqStep(|s.requests|);
    assert t.nextSeqId == SeqAt(|t.requests|);
    forall q | q in t.pending
      ensures PendingOk(t, q)
    {
      if q == s.nextSeqId && t.requests[|s.requests|].fut.Waiting? {
        assert t.pending[q] == |s.requests|;
      } else {
        assert PendingOk(s, q);
      }
    }
  }

  lemma CompletedKeepsValid(s: State, k: nat, outcome: Future)
    requires Valid(s) && k < |s.requests| && !s.requests[k].fut.Unsent? && !outcome.Unsent?
    ensures Valid(s.(requests := s.requests[k := s.requests[k].(fut := outcome)]))
  {
    var t := s.(requests := s.requests[k := s.requests[k].(fut := outcome)]);
    assert t.requests[k].Wire() == s.requests[k].Wire();
    assert forall q :: q in t.pending ==> PendingOk(s, q);
    assert forall q :: q in t.pending ==> PendingOk(t, q);
  }

  lemma DroppedKeepsValid(s: State, q: word)
    requires Valid(s)
    ensures Valid(s.(pending := s.pending - {q}))
  {
    var t := s.(pending := s.pending - {q});
    assert forall q :: q in t.pending ==> PendingOk(s, q);
    assert forall q :: q in t.pending ==> PendingOk(t, q);
  }

  lemma SettledKeepsValid(s: State, seqId: word, outcome: Future)
    requires Valid(s) && !outcome.Unsent?
    ensures Valid(Settled(s, seqId, outcome)) && Settled(s, seqId, outcome).rxBuffer == s.rxBuffer
  {
    if seqId in s.pending {
      assert PendingOk(s, seqId);
      var k := s.pending[seqId];
      DroppedKeepsValid(s, seqId);
      CompletedKeepsValid(s.(pending := s.pending - {seqId}), k, outcome);
    }
  }

  lemma DispatchedKeepsValid(s: State, frame: Frame, listening: bool)
    requires Valid(s)
    ensures Valid(Dispatched(s, frame, listening)) && Dispatched(s, frame, listening).rxBuffer == s.rxBuffer
  {
    match Classify(frame.rpcId)
    case ErrorFrame => SettledKeepsValid(s, frame.seqId, SystemError);
    case Response => SettledKeepsValid(s, frame.seqId, Result(frame));
    case Notification =>
      var t := s.(notified := s.notified + [frame]);
      assert forall q :: q in t.pending ==> PendingOk(s, q);
      assert forall q :: q in t.pending ==> PendingOk(t, q);
  }

  lemma DatagramKeepsValid(s: State, data: seq<byte>, listening: bool)
    requires Valid(s)
    ensures Valid(Datagram(s, data, listening)) && Datagram(s, data, listening).rxBuffer == s.rxBuffer
  {
    if |data| >= 6 {
      DispatchedKeepsValid(s, UnpackFrame(data).value, listening);
    }
  }

  lemma PacketKeepsValid(s: State, packet: seq<byte>, listening: bool)
    requires Valid(s)
    ensures Valid(Packet(s, packet, listening)) && Packet(s, packet, listening).rxBuffer == s.rxBuffer
  {
    if Decode(packet).Some? {
      DatagramKeepsValid(s, Decode(packet).value, listening);
    }
  }

  lemma CancelKeepsValid(s: State, k: nat)
    requires Valid(s)
    ensures Valid(Cancel(s, k))
  {
    if k < |s.requests| && s.requests[k].fut.Waiting? {
      CompletedKeepsValid(s, k, Cancelled);
    }
  }

  lemma ForgetKeepsValid(s: State, k: nat)
    requires Valid(s)
    ensures Valid(Forget(s, k))
  {
    if k < |s.requests| {
      DroppedKeepsValid(s, s.requests[k].seqId);
    }
  }

  // What an answer does.

  /** A frame frees its identifier and completes the future waiting there, if one still waits, and nothing else. */
  lemma SettledPops(s: State, seqId: word, outcome: Future)
    requires Valid(s)
    ensures var t := Settled(s, seqId, outcome);
            && seqId !in t.pending
            && (forall p :: p != seqId ==> (p in t.pending <==> p in s.pending))
            && (forall p :: p in t.pending ==> t.pending[p] == s.pending[p])
            && |t.requests| == |s.requests|
            && (forall k :: 0 <= k < |s.requests| ==>
                  t.requests[k] == if seqId in s.pending && s.pending[seqId] == k && s.requests[k].fut == Waiting
                                   then s.requests[k].(fut := outcome) else s.requests[k])
            && (t.nextSeqId, t.rxBuffer, t.notified) == (s.nextSeqId, s.rxBuffer, s.notified)
  {
    if seqId in s.pending {
      assert PendingOk(s, seqId);
    }
  }

  // What a timeout does.

  /** Cancelling a waiting future completes that one alone; its entry stays until the handler runs. */
  lemma CancelSettles(s: State, k: nat)
    requires k < |s.requests| && s.requests[k].fut == Waiting
    ensures var t := Cancel(s, k);
            && |t.requests| == |s.requests| && t.requests[k] == s.requests[k].(fut := Cancelled)
            && (forall j :: 0 <= j < |s.requests| && j != k ==> t.requests[j] == s.requests[j])
            && (t.nextSeqId, t.rxBuffer, t.pending, t.notified) == (s.nextSeqId, s.rxBuffer, s.pending, s.notified)
  {
  }

  lemma DoneIsNotCancelled(s: State, k: nat)
    requires k < |s.requests| ==> s.requests[k].fut != Waiting
    ensures Cancel(s, k) == s
  {
  }

  /** The handler of a timed-out request frees its identifier, whoever holds it by then, and touches nothing else. */
  lemma ForgetDrops(s: State, k: nat)
    requires k < |s.requests| && s.requests[k].fut == Cancelled
    ensures var t := Forget(s, k);
            var q := s.requests[k].seqId;
            && q !in t.pending
            && (forall p :: p != q ==> (p in t.pending <==> p in s.pending))
            && (forall p :: p in t.pending ==> t.pending[p] == s.pending[p])
            && t.requests == s.requests
            && (t.nextSeqId, t.rxBuffer, t.notified) == (s.nextSeqId, s.rxBuffer, s.notified)
  {
  }

  // Dispatching does not look at the receive buffer.

  lemma DispatchedRx(s: State, frame: Frame, b: seq<byte>, listening: bool)
    requires Valid(s) && Valid(s.(rxBuffer := b))
    ensures Dispatched(s.(rxBuffer := b), frame, listening) == Dispatched(s, frame, listening).(rxBuffer := b)
  {
  }

  lemma PacketRx(s: State, packet: seq<byte>, b: seq<byte>, listening: bool)
    requires Valid(s) && Valid(s.(rxBuffer := b))
    ensures Packet(s.(rxBuffer := b), packet, listening) == Packet(s, packet, listening).(rxBuffer := b)
  {
    hide Dispatched;
    if Decode(packet).Some? && UnpackFrame(Decode(packet).value).Some? {
      DispatchedRx(s, UnpackFrame(Decode(packet).value).value, b, listening);
    }
  }

  lemma {:induction false} PacketsRx(s: State, packets: seq<seq<byte>>, b: seq<byte>, listening: bool)
    requires Valid(s) && Valid(s.(rxBuffer := b))
    ensures PacketsIn(s.(rxBuffer := b), packets, listening) == PacketsIn(s, packets, listening).(rxBuffer := b)
    decreases |packets|
  {
    if packets != [] {
      PacketRx(s, packets[0], b, listening);
      PacketKeepsValid(s, packets[0], listening);
      PacketKeepsValid(s.(rxBuffer := b), packets[0], listening);
      PacketsRx(Packet(s, packets[0], listening), packets[1..], b, listening);
    }
  }

  /** The buffer after its first piece and the delimiter are removed. */
  function AfterCut(s: State): (r: State)
    requires Valid(s) && FirstZero(s.rxBuffer) < |s.rxBuffer|
    ensures Valid(r)
  {
    var rest := s.rxBuffer[FirstZero(s.rxBuffer) + 1..];
    RxBufferFree(s, rest);
    s.(rxBuffer := rest)
  }

  /** One round of the receive loop. */
  lemma DrainStep(s: State, t: State, listening: bool)
    requires Valid(s) && FirstZero(s.rxBuffer) < |s.rxBuffer|
    requires t == Packet(AfterCut(s), s.rxBuffer[..FirstZero(s.rxBuffer)], listening)
    ensures Valid(t) && Drained(t, listening) == Drained(s, listening)
  {
    var z := FirstZero(s.rxBuffer);
    var x, rest := s.rxBuffer[..z], s.rxBuffer[z + 1..];
    PacketRx(s, x, rest, listening);
    PacketKeepsValid(s, x, listening);
    PacketKeepsValid(AfterCut(s), x, listening);
    PacketsRx(Packet(s, x, listening), Packets(rest), rest, listening);
    assert ([x] + Packets(rest))[1..] == Packets(rest);
  }

  lemma DrainEnd(s: State, listening: bool)
    requires Valid(s) && FirstZero(s.rxBuffer) == |s.rxBuffer|
    ensures Drained(s, listening) == s
  {
  }

  /** A zero-free piece is decoded as it stands, so only an undecodable one is dropped. */
  lemma PacketCases(s: State, packet: seq<byte>, listening: bool)
    requires Valid(s) && ZeroFree(packet)
    ensures PyCobs.StripDelimiter(packet) == packet
    ensures packet == [] || Decode(packet).None? ==> Packet(s, packet, listening) == s
    ensures packet != [] && Decode(packet).Some? ==>
              Packet(s, packet, listening) == Datagram(s, Decode(packet).value, listening)
  {
  }

  // The class.

  class Client {
    var nextSeqId: word
    var rxBuffer: seq<byte>
    var pending: map<word, nat>
    var requests: seq<Request>
    var notified: seq<Frame>

    function Now(): State
      reads this
    {
      State(nextSeqId, rxBuffer, pending, requests, notified)
    }

    constructor ()
      ensures Now() == INITIAL && Valid(Now())
    {
      nextSeqId := 1;
      rxBuffer := [];
      pending := map[];
      requests := [];
      notified := [];
    }

    method GetNextSeqId() returns (s: word)
      modifies this`nextSeqId
      ensures s == old(nextSeqId) && nextSeqId == NextSeqId(s)
    {
      s := nextSeqId;
      nextSeqId := nextSeqId % 0xFFFF + 1;
    }

    /** Returns what is handed to the transport, or None when the frame does not pack. */
    method SendRequest(rpcId: int, payload: seq<byte>, cobs: bool) returns (out: Option<seq<byte>>)
      requires Valid(Now())
      modifies this
      ensures Now() == Sent(old(Now()), rpcId, payload) && Valid(Now())
      ensures var raw := PackFrame(rpcId, old(nextSeqId), payload);
              out == if raw.Some? && cobs then Some(Stuffed(raw.value)) else raw
    {
      SentKeepsValid(Now(), rpcId, payload);
      var seqId := GetNextSeqId();
      var raw := PackFrame(rpcId, seqId, payload);
      if raw.None? {
        requests := requests + [Request(rpcId, seqId, payload, Unsent)];
        return None;
      }
      var sendData := raw.value;
      if cobs {
        sendData := PyCobs.CobsEncode(sendData);
      }
      pending := pending[seqId := |requests|];
      requests := requests + [Request(rpcId, seqId, payload, Waiting)];
      return Some(sendData);
    }

    method Pop(seqId: word, outcome: Future)
      requires Valid(Now()) && !outcome.Unsent?
      modifies this`pending, this`requests
      ensures Now() == Settled(old(Now()), seqId, outcome)
    {
      if seqId in pending {
        assert PendingOk(Now(), seqId);
        var fut := pending[seqId];
        pending := pending - {seqId};
        if requests[fut].fut.Waiting? {
          requests := requests[fut := requests[fut].(fut := outcome)];
        }
      }
    }

    /** asyncio.wait_for gives up on a future, or the caller's task is cancelled. */
    method CancelFuture(k: nat)
      requires Valid(Now())
      modifies this`requests
      ensures Now() == Cancel(old(Now()), k) && Valid(Now())
    {
      CancelKeepsValid(Now(), k);
      if k < |requests| && requests[k].fut.Waiting? {
        requests := requests[k := requests[k].(fut := Cancelled)];
      }
    }

    /** The handler of asyncio.TimeoutError; it pops by identifier, whoever owns the entry by then. */
    method OnTimeout(k: nat)
      requires Valid(Now()) && k < |requests| && requests[k].fut.Cancelled?
      modifies this`pending
      ensures Now() == Forget(old(Now()), k) && Valid(Now())
    {
      ForgetKeepsValid(Now(), k);
      pending := pending - {requests[k].seqId};
    }

    method ReceiveRawDatagram(data: seq<byte>, listening: bool) returns (frame: Option<Frame>)
      requires Valid(Now())
      modifies this
      ensures Now() == Datagram(old(Now()), data, listening) && Valid(Now())
      ensures frame == UnpackFrame(data)
    {
      DatagramKeepsValid(Now(), data, listening);
      if |data| < 6 {
        return None;
      }
      frame := UnpackFrame(data);
      var f := frame.value;
      if f.rpcId == 0x0000 {
        Pop(f.seqId, SystemError);
        return;
      }
      if Bit7(f.rpcId) {
        if listening {
          notified := notified + [f];
        }
        return;
      }
      Pop(f.seqId, Result(f));
    }

    method ReceiveBytes(chunk: seq<byte>, listening: bool)
      requires Valid(Now())
      modifies this
      ensures Now() == Received(old(Now()), chunk, listening) && Valid(Now())
    {
      hide Drained, Packet;
      RxBufferFree(Now(), rxBuffer + chunk);
      rxBuffer := rxBuffer + chunk;
      while true
        invariant Valid(Now())
        invariant Drained(Now(), listening) == Received(old(Now()), chunk, listening)
        decreases |rxBuffer|
      {
        var delimiterIdx := FirstZero(rxBuffer);
        if delimiterIdx == |rxBuffer| {
          DrainEnd(Now(), listening);
          break;
        }
        ghost var before := Now();
        DrainStep(before, Packet(AfterCut(before), rxBuffer[..delimiterIdx], listening), listening);
        var cobsPacket := rxBuffer[..delimiterIdx];
        rxBuffer := rxBuffer[delimiterIdx + 1..];
        assert Now() == AfterCut(before);
        PacketCases(Now(), cobsPacket, listening);
        if cobsPacket == [] {
          continue;
        }
        var rawPacket := PyCobs.CobsDecode(cobsPacket);
        if rawPacket.Some? {
          var _ := ReceiveRawDatagram(rawPacket.value, listening);
        }
      }
    }
  }
}
