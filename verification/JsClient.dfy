/**
 The JavaScript client.  A promise is modelled by its position in `promises`, the history of every
 sendRequest; the pending table holds that position.  The timer of a request is armed exactly while
 its promise is open, because settling through the pending entry clears it.
 */
module JsClient {
  import opened Bytes
  import opened Deframe
  import opened Wire
  import JsCobs

  datatype Reason = StatusError | Timeout | TransportReset
  datatype Status = Open | Resolved(frame: Frame) | Rejected(reason: Reason)

  /** `born` counts identifiers handed out up to and including this request's: history, not code. */
  datatype Promise = Promise(seqId: word, born: nat, status: Status)

  /** `issued` counts the identifiers handed out so far: history, not code. */
  datatype State = State(
    seqId: word,
    issued: nat,
    acc: seq<byte>,
    pending: map<word, nat>,
    promises: seq<Promise>,
    notified: seq<Frame>)

  const PERIOD: nat := 0x1_0000
  const ACC_MAX: nat := 4096
  const INITIAL := State(0, 0, [], map[], [], [])

  function NextSeqId(s: word): word { if s == 0xFFFF then 0 else s + 1 }

  /** The identifier of allocation n, counting from one. */
  function SeqOf(n: nat): word { if n < PERIOD then n else SeqOf(n - PERIOD) }

  // What every run keeps, even one that reuses a pending identifier.

  predicate Valid(s: State) {
    && s.seqId == SeqOf(s.issued)
    && (forall k :: 0 <= k < |s.promises| ==> BornOk(s.issued, s.promises[k]))
    && (forall q :: q in s.pending ==> PendingOk(s, q))
  }

  predicate BornOk(issued: nat, p: Promise) {
    0 < p.born <= issued && p.seqId == SeqOf(p.born)
  }

  predicate PendingOk(s: State, q: word)
    requires q in s.pending
  {
    s.pending[q] < |s.promises| && s.promises[s.pending[q]].seqId == q && s.promises[s.pending[q]].status.Open?
  }

  /** Every open promise can still be reached through the pending table. */
  predicate Reachable(s: State) {
    forall k :: 0 <= k < |s.promises| && s.promises[k].status.Open? ==> Listed(s, k)
  }

  predicate Listed(s: State, k: nat)
    requires k < |s.promises|
  {
    s.promises[k].seqId in s.pending && s.pending[s.promises[k].seqId] == k
  }

  // The operations as functions.

  /** buildRawFrame: the only effect on the client is the identifier it uses up. */
  function Built(s: State): State {
    s.(seqId := NextSeqId(s.seqId), issued := s.issued + 1)
  }

  function Sent(s: State): State {
    var t := Built(s);
    t.(promises := s.promises + [Promise(t.seqId, t.issued, Open)],
       pending := s.pending[t.seqId := |s.promises|])
  }

  function WithStatus(ps: seq<Promise>, k: nat, status: Status): seq<Promise>
    requires k < |ps|
  {
    ps[k := ps[k].(status := status)]
  }

  function Dispatched(s: State, frame: Frame, listening: bool): State
    requires Valid(s)
  {
    if frame.seqId in s.pending then
      assert PendingOk(s, frame.seqId);
      s.(pending := s.pending - {frame.seqId},
         promises := WithStatus(s.promises, s.pending[frame.seqId],
                                if frame.rpcId == 0 then Rejected(StatusError) else Resolved(frame)))
    else if listening then s.(notified := s.notified + [frame])
    else s
  }

  function Datagram(s: State, data: seq<byte>, listening: bool): State
    requires Valid(s)
  {
    match UnpackFrame(data)
    case None => s
    case Some(frame) => Dispatched(s, frame, listening)
  }

  /** One delimited piece of the stream. */
  function Packet(s: State, packet: seq<byte>, listening: bool): State
    requires Valid(s)
  {
    if packet == [] then s else Datagram(s, JsCobs.Decoded(packet), listening)
  }

  /** The receiver looks at one byte at a time and forgets everything when it holds more than 4096. */
  function OneByte(s: State, b: byte, listening: bool): (r: State)
    requires Valid(s)
    ensures Valid(r)
  {
    if b == 0 then
      AccFree(s, []);
      PacketKeepsValid(s.(acc := []), s.acc, listening);
      Packet(s.(acc := []), s.acc, listening)
    else
      AccFree(s, if |s.acc| + 1 > ACC_MAX then [] else s.acc + [b]);
      s.(acc := if |s.acc| + 1 > ACC_MAX then [] else s.acc + [b])
  }

  function Received(s: State, bytes: seq<byte>, listening: bool): (r: State)
    requires Valid(s)
    ensures Valid(r)
    decreases |bytes|
  {
    if bytes == [] then s else Received(OneByte(s, bytes[0], listening), bytes[1..], listening)
  }

  /** The timer of request k: it deletes whatever its identifier maps to, then rejects its own promise. */
  function Fired(s: State, k: nat): State {
    if k < |s.promises| && s.promises[k].status.Open?
    then s.(pending := s.pending - {s.promises[k].seqId},
            promises := WithStatus(s.promises, k, Rejected(Timeout)))
    else s
  }

  function RejectAll(ps: seq<Promise>, ks: set<nat>): seq<Promise> {
    seq(|ps|, k requires 0 <= k < |ps| =>
          if k in ks && ps[k].status.Open? then ps[k].(status := Rejected(TransportReset)) else ps[k])
  }

  function Reset(s: State): State {
    s.(acc := [], pending := map[], promises := RejectAll(s.promises, s.pending.Values))
  }

  // Every operation keeps the invariants.

  lemma AccFree(s: State, a: seq<byte>)
    requires Valid(s)
    ensures Valid(s.(acc := a))
    ensures Reachable(s) ==> Reachable(s.(acc := a))
  {
    var t := s.(acc := a);
    assert forall q :: q in s.pending ==> PendingOk(s, q);
    assert Reachable(s) ==> forall k :: 0 <= k < |s.promises| && s.promises[k].status.Open? ==> Listed(s, k);
    assert forall k :: 0 <= k < |s.promises| && Listed(s, k) ==> Listed(t, k);
  }

  lemma BuiltKeepsValid(s: State)
    requires Valid(s)
    ensures Valid(Built(s))
    ensures Reachable(s) ==> Reachable(Built(s))
  {
    var t := Built(s);
    Next(s.issued);
    assert forall q :: q in s.pending ==> PendingOk(s, q);
    assert forall q :: q in t.pending ==> PendingOk(t, q);
    assert forall k :: 0 <= k < |s.promises| && Listed(s, k) ==> Listed(t, k);
  }

  lemma {:induction false} Next(n: nat)
    ensures NextSeqId(SeqOf(n)) == SeqOf(n + 1)
  {
    if n >= PERIOD {
      Next(n - PERIOD);
    }
  }

  lemma {:induction false} SeqOfIs(n: nat)
    ensures SeqOf(n) == n % PERIOD
  {
    if n >= PERIOD {
      SeqOfIs(n - PERIOD);
    }
  }

  /** Identifiers repeat exactly at multiples of 65536 allocations. */
  lemma SeqOfRepeats(a: nat, b: nat)
    requires a < b
    ensures SeqOf(a) == SeqOf(b) <==> (b - a) % PERIOD == 0
    ensures SeqOf(a) == SeqOf(b) ==> b - a >= PERIOD
  {
    SeqOfIs(a);
    SeqOfIs(b);
    var d := b / PERIOD - a / PERIOD;
    assert b - a == PERIOD * d + (b % PERIOD - a % PERIOD);
  }

  lemma SentKeepsValid(s: State)
    requires Valid(s)
    ensures Valid(Sent(s))
  {
    var t := Sent(s);
    Next(s.issued);
    forall q | q in t.pending
      ensures PendingOk(t, q)
    {
      assert q != t.seqId ==> PendingOk(s, q);
    }
  }

  /** A send keeps every open promise reachable exactly when its identifier is not pending already. */
  lemma SentReachable(s: State)
    requires Valid(s) && Reachable(s)
    ensures Reachable(Sent(s)) <==> NextSeqId(s.seqId) !in s.pending
  {
    var t := Sent(s);
    var q := NextSeqId(s.seqId);
    if q in s.pending {
      assert PendingOk(s, q);
      var k := s.pending[q];
      assert t.promises[k] == s.promises[k];
      assert !Listed(t, k);
    } else {
      forall k | 0 <= k < |t.promises| && t.promises[k].status.Open?
        ensures Listed(t, k)
      {
        assert k < |s.promises| ==> Listed(s, k);
      }
    }
  }

  lemma SettledKeepsValid(s: State, k: nat, status: Status)
    requires Valid(s) && k < |s.promises| && s.promises[k].status.Open? && !status.Open?
    ensures var t := s.(pending := s.pending - {s.promises[k].seqId}, promises := WithStatus(s.promises, k, status));
            Valid(t) && (Reachable(s) ==> Reachable(t))
  {
    var t := s.(pending := s.pending - {s.promises[k].seqId}, promises := WithStatus(s.promises, k, status));
    forall q | q in t.pending
      ensures PendingOk(t, q)
    {
      assert PendingOk(s, q);
    }
    if Reachable(s) {
      assert Listed(s, k);
      forall j | 0 <= j < |t.promises| && t.promises[j].status.Open?
        ensures Listed(t, j)
      {
        assert Listed(s, j);
      }
    }
  }

  lemma DispatchedKeepsValid(s: State, frame: Frame, listening: bool)
    requires Valid(s)
    ensures Valid(Dispatched(s, frame, listening)) && Dispatched(s, frame, listening).acc == s.acc
    ensures Reachable(s) ==> Reachable(Dispatched(s, frame, listening))
  {
    if frame.seqId in s.pending {
      assert PendingOk(s, frame.seqId);
      SettledKeepsValid(s, s.pending[frame.seqId], if frame.rpcId == 0 then Rejected(StatusError) else Resolved(frame));
    } else {
      var t := s.(notified := s.notified + [frame]);
      assert forall k :: 0 <= k < |s.promises| ==> (Listed(s, k) ==> Listed(t, k));
      assert forall q :: q in s.pending ==> PendingOk(s, q);
    }
  }

  lemma DatagramKeepsValid(s: State, data: seq<byte>, listening: bool)
    requires Valid(s)
    ensures Valid(Datagram(s, data, listening)) && Datagram(s, data, listening).acc == s.acc
    ensures Reachable(s) ==> Reachable(Datagram(s, data, listening))
  {
    if |data| >= 6 {
      DispatchedKeepsValid(s, UnpackFrame(data).value, listening);
    }
  }

  lemma PacketKeepsValid(s: State, packet: seq<byte>, listening: bool)
    requires Valid(s)
    ensures Valid(Packet(s, packet, listening)) && Packet(s, packet, listening).acc == s.acc
    ensures Reachable(s) ==> Reachable(Packet(s, packet, listening))
  {
    DatagramKeepsValid(s, JsCobs.Decoded(packet), listening);
  }

  lemma FiredKeepsValid(s: State, k: nat)
    requires Valid(s)
    ensures Valid(Fired(s, k))
    ensures Reachable(s) ==> Reachable(Fired(s, k))
  {
    if k < |s.promises| && s.promises[k].status.Open? {
      SettledKeepsValid(s, k, Rejected(Timeout));
    }
  }

  /** A frame with a pending identifier frees it and settles that promise alone; any other reaches the callback. */
  lemma DispatchOutcome(s: State, frame: Frame, listening: bool)
    requires Valid(s)
    ensures var t := Dispatched(s, frame, listening);
            var waited := frame.seqId in s.pending;
            && frame.seqId !in t.pending
            && (forall p :: p != frame.seqId ==> (p in t.pending <==> p in s.pending))
            && (forall p :: p in t.pending ==> t.pending[p] == s.pending[p])
            && |t.promises| == |s.promises|
            && (forall k :: 0 <= k < |s.promises| ==>
                  t.promises[k] == if waited && s.pending[frame.seqId] == k
                                   then s.promises[k].(status := if frame.rpcId == 0 then Rejected(StatusError)
                                                                 else Resolved(frame))
                                   else s.promises[k])
            && t.notified == s.notified + (if !waited && listening then [frame] else [])
            && (t.seqId, t.issued, t.acc) == (s.seqId, s.issued, s.acc)
  {
    if frame.seqId in s.pending {
      assert PendingOk(s, frame.seqId);
    }
  }

  /** The timer of an open request rejects that request alone and frees its identifier, whoever holds it by then. */
  lemma FiredRejects(s: State, k: nat)
    requires Valid(s) && k < |s.promises| && s.promises[k].status == Open
    ensures var t := Fired(s, k);
            var q := s.promises[k].seqId;
            && |t.promises| == |s.promises|
            && t.promises[k] == Promise(q, s.promises[k].born, Rejected(Timeout))
            && (forall j :: 0 <= j < |s.promises| && j != k ==> t.promises[j] == s.promises[j])
            && q !in t.pending
            && (forall p :: p != q ==> (p in t.pending <==> p in s.pending))
            && (forall p :: p in t.pending ==> t.pending[p] == s.pending[p])
            && (t.seqId, t.issued, t.acc, t.notified) == (s.seqId, s.issued, s.acc, s.notified)
  {
  }

  /** A settled request has no timer left: its firing would change nothing. */
  lemma SettledDoesNotFire(s: State, k: nat)
    requires k < |s.promises| ==> s.promises[k].status != Open
    ensures Fired(s, k) == s
  {
  }

  /** A reset rejects exactly the promises that an entry names and leaves the others and the counter alone. */
  lemma ResetRejects(s: State)
    requires Valid(s)
    ensures var t := Reset(s);
            && |t.promises| == |s.promises| && t.pending == map[] && t.acc == []
            && (forall q :: q in s.pending ==>
                  var k := s.pending[q];
                  && k < |s.promises|
                  && t.promises[k] == Promise(q, s.promises[k].born, Rejected(TransportReset)))
            && (forall k :: 0 <= k < |s.promises| && k !in s.pending.Values ==> t.promises[k] == s.promises[k])
            && (t.seqId, t.issued, t.notified) == (s.seqId, s.issued, s.notified)
  {
    var t := Reset(s);
    forall q | q in s.pending
      ensures var k := s.pending[q];
              && k < |s.promises|
              && t.promises[k] == Promise(q, s.promises[k].born, Rejected(TransportReset))
    {
      assert PendingOk(s, q);
      assert s.pending[q] in s.pending.Values;
    }
  }

  /** After a reset nothing is pending or buffered, and with no identifier reused no promise is open. */
  lemma ResetSettlesAll(s: State)
    requires Valid(s)
    ensures Valid(Reset(s)) && Reset(s).pending == map[] && Reset(s).acc == []
    ensures Reachable(s) ==> forall k :: 0 <= k < |s.promises| ==> !Reset(s).promises[k].status.Open?
  {
    var t := Reset(s);
    if Reachable(s) {
      forall k | 0 <= k < |s.promises|
        ensures !t.promises[k].status.Open?
      {
        if s.promises[k].status.Open? {
          assert Listed(s, k);
          assert s.pending[s.promises[k].seqId] in s.pending.Values;
        }
      }
    }
  }

  /** The identifier of the next send is pending only if that request is a positive multiple of 65536 old. */
  lemma ReuseAge(s: State)
    requires Valid(s) && NextSeqId(s.seqId) in s.pending
    ensures var k := s.pending[NextSeqId(s.seqId)];
            && k < |s.promises|
            && s.issued + 1 - s.promises[k].born >= PERIOD
            && (s.issued + 1 - s.promises[k].born) % PERIOD == 0
  {
    var q := NextSeqId(s.seqId);
    assert PendingOk(s, q);
    var k := s.pending[q];
    assert BornOk(s.issued, s.promises[k]);
    Next(s.issued);
    SeqOfRepeats(s.promises[k].born, s.issued + 1);
  }

  // The class.

  class Client {
    var seqId: word
    var issued: nat  // history only
    var acc: seq<byte>
    var pending: map<word, nat>
    var promises: seq<Promise>
    var notified: seq<Frame>

    function Now(): State
      reads this
    {
      State(seqId, issued, acc, pending, promises, notified)
    }

    constructor ()
      ensures Now() == INITIAL && Valid(Now())
    {
      seqId := 0;
      issued := 0;
      acc := [];
      pending := map[];
      promises := [];
      notified := [];
    }

    method GetNextSeqId() returns (s: word)
      modifies this`seqId, this`issued
      ensures Now() == Built(old(Now())) && s == seqId
    {
      seqId := (seqId + 1) % 0x1_0000;
      issued := issued + 1;
      return seqId;
    }

    method BuildRaw(rpcId: nat, payload: seq<byte>) returns (packet: array<byte>)
      modifies this`seqId, this`issued
      ensures Now() == Built(old(Now()))
      ensures fresh(packet) && packet[..] == BuildRawFrame(rpcId, seqId, payload)
    {
      var id := GetNextSeqId();
      packet := BuildRawFrameJs(rpcId, id, payload);
    }

    /** The encoded packet followed by the delimiter. */
    method BuildCobsFrame(rpcId: nat, payload: seq<byte>) returns (framed: seq<byte>)
      modifies this`seqId, this`issued
      ensures Now() == Built(old(Now()))
      ensures framed == Stuffed(BuildRawFrame(rpcId, seqId, payload))
    {
      var raw := BuildRaw(rpcId, payload);
      var encoded := JsCobs.CobsEncode(raw[..]);
      framed := encoded + [0];
    }

    /** Returns the frame handed to the send function. */
    method SendRequest(rpcId: nat, payload: seq<byte>) returns (frame: array<byte>)
      requires Valid(Now())
      modifies this
      ensures Now() == Sent(old(Now())) && Valid(Now())
      ensures fresh(frame) && frame[..] == BuildRawFrame(rpcId, seqId, payload)
    {
      SentKeepsValid(Now());
      frame := BuildRaw(rpcId, payload);
      var reqSeqId := seqId;
      promises := promises + [Promise(reqSeqId, issued, Open)];
      pending := pending[reqSeqId := |promises| - 1];
    }

    method OnTimer(k: nat)
      requires Valid(Now()) && k < |promises| && promises[k].status.Open?
      modifies this`pending, this`promises
      ensures Now() == Fired(old(Now()), k) && Valid(Now())
    {
      FiredKeepsValid(Now(), k);
      pending := pending - {promises[k].seqId};
      promises := WithStatus(promises, k, Rejected(Timeout));
    }

    method ResetAccumulator()
      requires Valid(Now())
      modifies this`acc, this`pending, this`promises
      ensures Now() == Reset(old(Now())) && Valid(Now())
    {
      ResetSettlesAll(Now());
      acc := [];
      var entries := pending.Keys;
      NoneRejected(promises, pending);
      while entries != {}
        invariant entries <= pending.Keys && pending == old(pending) && acc == []
        invariant promises == RejectAll(old(promises), ValuesBut(pending, entries))
        decreases entries
      {
        var seqId :| seqId in entries;
        assert PendingOk(old(Now()), seqId);
        var k := pending[seqId];
        OneMoreRejected(old(promises), pending, entries, seqId);
        entries := entries - {seqId};
        promises := promises[k := promises[k].(status := Rejected(TransportReset))];
      }
      assert ValuesBut(pending, {}) == pending.Values;
      pending := map[];
    }

    method DispatchFrame(decoded: seq<byte>, listening: bool)
      requires Valid(Now())
      modifies this`pending, this`promises, this`notified
      ensures Now() == Datagram(old(Now()), decoded, listening) && Valid(Now())
    {
      DatagramKeepsValid(Now(), decoded, listening);
      if |decoded| < 6 {
        return;
      }
      var rpcId := Word(decoded[0], decoded[1]);
      var seqId := Word(decoded[2], decoded[3]);
      var payLen := Word(decoded[4], decoded[5]);
      var payload := decoded[6..Min(|decoded|, 6 + payLen as int)];
      if seqId in pending {
        assert PendingOk(Now(), seqId);
        var k := pending[seqId];
        pending := pending - {seqId};
        if rpcId == 0x0000 {
          promises := WithStatus(promises, k, Rejected(StatusError));
        } else {
          promises := WithStatus(promises, k, Resolved(Frame(rpcId, seqId, payload)));
        }
        return;
      }
      if listening {
        notified := notified + [Frame(rpcId, seqId, payload)];
      }
    }

    method ReceiveBytes(incoming: seq<byte>, listening: bool)
      requires Valid(Now())
      modifies this`acc, this`pending, this`promises, this`notified
      ensures Now() == Received(old(Now()), incoming, listening) && Valid(Now())
    {
      hide Packet, Datagram;
      assert incoming[0..] == incoming;
      for i := 0 to |incoming|
        invariant Valid(Now())
        invariant Received(Now(), incoming[i..], listening) == Received(old(Now()), incoming, listening)
      {
        ghost var before := Now();
        var b := incoming[i];
        assert incoming[i..][0] == b && incoming[i..][1..] == incoming[i + 1..];
        if b == 0x00 {
          if |acc| > 0 {
            var cobsPacket := acc;
            AccFree(before, []);
            acc := [];
            PacketIs(before.(acc := []), cobsPacket, listening);
            var decoded := JsCobs.CobsDecode(cobsPacket);
            if |decoded| >= 6 {
              DispatchFrame(decoded, listening);
            }
          } else {
            AccFree(before, []);
            PacketIs(before, acc, listening);
          }
        } else {
          acc := acc + [b];
          if |acc| > 4096 {
            acc := [];
          }
        }
        assert Now() == OneByte(before, b, listening);
      }
    }
  }

  /** The values of the entries already visited by the reset loop. */
  ghost function ValuesBut(m: map<word, nat>, entries: set<word>): set<nat> {
    set q | q in m && q !in entries :: m[q]
  }

  lemma NoneRejected(ps: seq<Promise>, m: map<word, nat>)
    ensures RejectAll(ps, ValuesBut(m, m.Keys)) == ps
  {
    assert ValuesBut(m, m.Keys) == {};
  }

  lemma OneMoreRejected(ps: seq<Promise>, m: map<word, nat>, entries: set<word>, q: word)
    requires q in entries && entries <= m.Keys && m[q] < |ps| && ps[m[q]].status.Open?
    ensures WithStatus(RejectAll(ps, ValuesBut(m, entries)), m[q], Rejected(TransportReset))
         == RejectAll(ps, ValuesBut(m, entries - {q}))
  {
    assert ValuesBut(m, entries - {q}) == ValuesBut(m, entries) + {m[q]};
  }

  lemma PacketIs(s: State, packet: seq<byte>, listening: bool)
    requires Valid(s)
    ensures var decoded := JsCobs.Decoded(packet);
            && (packet == [] || |decoded| < 6 ==> Packet(s, packet, listening) == s)
            && (packet != [] ==> Packet(s, packet, listening) == Datagram(s, decoded, listening))
  {
  }
}
