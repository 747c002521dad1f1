/**
 The composed protocol: one Python client and one server over channels that lose, duplicate and
 reorder frames.  Messages carry the number of the request they stem from; nothing in the client or
 the server looks at it.
 */
module Protocol {
  import opened Bytes
  import opened Wire
  import opened Nanopb
  import opened Server
  import opened Py = PyClient
  import Identifiers

  datatype Up = Up(origin: nat, data: seq<byte>)
  datatype Down = Answer(origin: nat, data: seq<byte>) | Event(data: seq<byte>)

  /** The channels are multisets: any message present may be the next to arrive. */
  datatype System = System(client: Py.State, statics: Statics, up: multiset<Up>, down: multiset<Down>)

  /** The firmware and the size of the server's transmit buffer do not change during a run. */
  datatype Device = Device(fw: Firmware, tx: Option<word>)

  datatype Action =
    | Send(rpcId: int, payload: seq<byte>)
    | ServerTakes(up: Up)
    | Push(svc: byte, rpc: byte, data: Encoding)
    | Deliver(down: Down, listening: bool)
    | LoseUp(up: Up)
    | DuplicateUp(up: Up)
    | LoseDown(down: Down)
    | DuplicateDown(down: Down)
    | Expire(k: nat)
    | GiveUp(k: nat)

  // What the server answers to a request.

  lemma PackedReadable(fw: Firmware, rpcId: int, seqId: word, payload: seq<byte>)
    requires PackFrame(rpcId, seqId, payload).Some?
    ensures var data := PackFrame(rpcId, seqId, payload).value;
            && 6 <= |data| && RxRpcId(data) == rpcId && RxSeqId(data) == seqId
            && HeaderLength(data) == |payload| && |data| == 6 + |payload|
  {
    HeaderReads(rpcId, seqId, |payload|, payload);
  }

  /** The frame the server produces for a request, if any; received packets have at most 65535 bytes. */
  function AnswerTo(dev: Device, r: Request): Option<seq<byte>> {
    match r.Wire()
    case None => None
    case Some(data) =>
      PackedReadable(dev.fw, r.rpcId, r.seqId, r.payload);
      if |data| >= 0x1_0000 then None
      else
        var reply := Handle(dev.fw, FRESH, data, |data|, dev.tx).1;
        if reply.code == 0 && reply.frame != [] then Some(reply.frame) else None
  }

  /** An answer carries the request's sequence number and its rpc id, or 0x0000. */
  lemma AnswerShape(dev: Device, r: Request)
    requires AnswerTo(dev, r).Some?
    ensures r.Wire().Some? && UnpackFrame(AnswerTo(dev, r).value).Some?
    ensures var f := UnpackFrame(AnswerTo(dev, r).value).value;
            f.seqId == r.seqId && (f.rpcId == 0 || f.rpcId == r.rpcId)
  {
    hide Handle;
    var data := r.Wire().value;
    PackedReadable(dev.fw, r.rpcId, r.seqId, r.payload);
    HandlerContract(dev.fw, FRESH, data, |data|, dev.tx);
    var frame := AnswerTo(dev, r).value;
    if Answers(frame, 0, r.seqId, dev.tx.value) {
      AnswersUnpack(frame, 0, r.seqId, dev.tx.value);
    } else {
      AnswersUnpack(frame, r.rpcId, r.seqId, dev.tx.value);
    }
  }

  /** The identifier an emitted notification function writes: the rpc id with bit 7 set. */
  function EventWord(svc: byte, rpc: byte): (id: word)
    ensures Bit7(id)
  {
    Identifiers.EventIdHasBit7(svc, rpc);
    Identifiers.EventId(svc, rpc)
  }

  predicate IsEvent(data: seq<byte>) {
    UnpackFrame(data).Some? && Bit7(UnpackFrame(data).value.rpcId) && UnpackFrame(data).value.seqId == 0
  }

  lemma SameFieldsSameAnswer(dev: Device, r: Request, q: Request)
    requires r.rpcId == q.rpcId && r.seqId == q.seqId && r.payload == q.payload
    ensures AnswerTo(dev, r) == AnswerTo(dev, q) && r.Wire() == q.Wire()
  {
  }

  predicate SameRequest(q: Request, r: Request) {
    q.rpcId == r.rpcId && q.seqId == r.seqId && q.payload == r.payload
  }

  /** The server answers every request like this one, whatever has become of its promise, with these bytes. */
  ghost predicate Produced(dev: Device, r: Request, data: seq<byte>) {
    forall q: Request :: SameRequest(q, r) ==> AnswerTo(dev, q) == Some(data)
  }

  lemma AnswerProduced(dev: Device, r: Request, data: seq<byte>)
    ensures Produced(dev, r, data) <==> AnswerTo(dev, r) == Some(data)
  {
    hide AnswerTo;
    forall q: Request | SameRequest(q, r)
      ensures AnswerTo(dev, q) == AnswerTo(dev, r)
    {
      SameFieldsSameAnswer(dev, r, q);
    }
    assert SameRequest(r, r);
  }

  // States and steps.

  predicate UpOk(s: System, m: Up) {
    m.origin < |s.client.requests| && s.client.requests[m.origin].Wire() == Some(m.data)
  }

  ghost predicate DownOk(dev: Device, s: System, m: Down) {
    match m
    case Answer(k, data) => k < |s.client.requests| && Produced(dev, s.client.requests[k], data)
    case Event(data) => IsEvent(data)
  }

  /** Every frame under way is what its origin says. */
  ghost predicate Genuine(dev: Device, s: System) {
    && Py.Valid(s.client)
    && (forall m :: m in s.up ==> UpOk(s, m))
    && (forall m :: m in s.down ==> DownOk(dev, s, m))
  }

  const START := System(Py.INITIAL, FRESH, multiset{}, multiset{})

  function Step(dev: Device, s: System, a: Action): System
    requires Genuine(dev, s)
  {
    match a
    case Send(rpcId, payload) =>
      var c := Py.Sent(s.client, rpcId, payload);
      var k := |s.client.requests|;
      if c.requests[k].Wire().Some?
      then s.(client := c, up := s.up + multiset{Up(k, c.requests[k].Wire().value)})
      else s.(client := c)
    case ServerTakes(m) =>
      if m in s.up && |m.data| < 0x1_0000 then
        assert UpOk(s, m);
        var r := s.client.requests[m.origin];
        PackedReadable(dev.fw, r.rpcId, r.seqId, r.payload);
        var reply := Handle(dev.fw, s.statics, m.data, |m.data|, dev.tx);
        var t := s.(up := s.up - multiset{m}, statics := reply.0);
        if reply.1.code == 0 && reply.1.frame != []
        then t.(down := s.down + multiset{Answer(m.origin, reply.1.frame)})
        else t
      else s
    case Push(svc, rpc, data) =>
      if dev.tx.Some? && Notified(EventWord(svc, rpc), dev.tx.value, data).Some?
      then s.(down := s.down + multiset{Event(Notified(EventWord(svc, rpc), dev.tx.value, data).value)})
      else s
    case Deliver(m, listening) =>
      if m in s.down
      then s.(down := s.down - multiset{m}, client := Py.Datagram(s.client, m.data, listening))
      else s
    case LoseUp(m) => s.(up := s.up - multiset{m})
    case DuplicateUp(m) => if m in s.up then s.(up := s.up + multiset{m}) else s
    case LoseDown(m) => s.(down := s.down - multiset{m})
    case DuplicateDown(m) => if m in s.down then s.(down := s.down + multiset{m}) else s
    case Expire(k) => s.(client := Py.Cancel(s.client, k))
    case GiveUp(k) => s.(client := Py.Forget(s.client, k))
  }

  // Frames under way stay genuine.

  /** The history of requests only grows, and no request's frame changes. */
  predicate Extends(c: Py.State, d: Py.State) {
    && |c.requests| <= |d.requests|
    && forall k :: 0 <= k < |c.requests| ==>
         && d.requests[k].rpcId == c.requests[k].rpcId
         && d.requests[k].seqId == c.requests[k].seqId
         && d.requests[k].payload == c.requests[k].payload
  }

  lemma ExtendsKeepsGenuine(dev: Device, s: System, t: System)
    requires Genuine(dev, s) && Py.Valid(t.client) && Extends(s.client, t.client)
    requires forall m :: m in t.up ==> m in s.up || UpOk(t, m)
    requires forall m :: m in t.down ==> m in s.down || DownOk(dev, t, m)
    ensures Genuine(dev, t)
  {
    hide AnswerTo;
    forall m | m in t.up
      ensures UpOk(t, m)
    {
      assert m in s.up ==> UpOk(s, m);
    }
    forall m | m in t.down
      ensures DownOk(dev, t, m)
    {
      if m in s.down {
        assert DownOk(dev, s, m);
      }
    }
  }

  lemma DatagramExtends(c: Py.State, data: seq<byte>, listening: bool)
    requires Py.Valid(c)
    ensures Extends(c, Py.Datagram(c, data, listening))
  {
    if |data| >= 6 {
      var q := UnpackFrame(data).value.seqId;
      assert q in c.pending ==> PendingOk(c, q);
    }
  }

  lemma ClientStepGenuine(dev: Device, s: System, a: Action)
    requires Genuine(dev, s) && (a.Send? || a.Deliver? || a.Expire? || a.GiveUp?)
    ensures Genuine(dev, Step(dev, s, a)) && Extends(s.client, Step(dev, s, a).client)
  {
    hide Step;
    match a
    case Send(rpcId, payload) => SendGenuine(dev, s, rpcId, payload);
    case Deliver(m, listening) => DeliverGenuine(dev, s, m, listening);
    case Expire(k) => TimeoutGenuine(dev, s, k);
    case GiveUp(k) => TimeoutGenuine(dev, s, k);
  }

  lemma DeliverGenuine(dev: Device, s: System, m: Down, listening: bool)
    requires Genuine(dev, s)
    ensures var t := Step(dev, s, Deliver(m, listening));
            Genuine(dev, t) && Extends(s.client, t.client)
  {
    hide AnswerTo, Handle, Py.Datagram, Genuine, DownOk, UpOk;
    GenuineClient(dev, s);
    if m in s.down {
      DatagramKeepsValid(s.client, m.data, listening);
      DatagramExtends(s.client, m.data, listening);
      ExtendsKeepsGenuine(dev, s, Step(dev, s, Deliver(m, listening)));
    }
  }

  lemma TimeoutGenuine(dev: Device, s: System, k: nat)
    requires Genuine(dev, s)
    ensures Genuine(dev, Step(dev, s, Expire(k))) && Extends(s.client, Step(dev, s, Expire(k)).client)
    ensures Genuine(dev, Step(dev, s, GiveUp(k))) && Extends(s.client, Step(dev, s, GiveUp(k)).client)
  {
    hide AnswerTo, Handle, Genuine, DownOk, UpOk;
    GenuineClient(dev, s);
    CancelKeepsValid(s.client, k);
    ExtendsKeepsGenuine(dev, s, Step(dev, s, Expire(k)));
    ForgetKeepsValid(s.client, k);
    ExtendsKeepsGenuine(dev, s, Step(dev, s, GiveUp(k)));
  }

  lemma SendGenuine(dev: Device, s: System, rpcId: int, payload: seq<byte>)
    requires Genuine(dev, s)
    ensures var t := Step(dev, s, Send(rpcId, payload));
            Genuine(dev, t) && Extends(s.client, t.client)
  {
    hide AnswerTo, Handle, Genuine;
    GenuineClient(dev, s);
    SentKeepsValid(s.client, rpcId, payload);
    ExtendsKeepsGenuine(dev, s, Step(dev, s, Send(rpcId, payload)));
  }

  lemma GenuineClient(dev: Device, s: System)
    requires Genuine(dev, s)
    ensures Py.Valid(s.client)
    ensures forall m :: m in s.up ==> UpOk(s, m)
  {
  }

  lemma ServerStepGenuine(dev: Device, s: System, a: Action)
    requires Genuine(dev, s) && !(a.Send? || a.Deliver? || a.Expire? || a.GiveUp?)
    ensures Genuine(dev, Step(dev, s, a)) && Step(dev, s, a).client == s.client
  {
    hide Step;
    if a.ServerTakes? {
      TakesGenuine(dev, s, a.up);
    } else if a.Push? {
      PushGenuine(dev, s, a.svc, a.rpc, a.data);
    } else {
      ChannelGenuine(dev, s, a);
    }
  }

  lemma ChannelGenuine(dev: Device, s: System, a: Action)
    requires Genuine(dev, s) && (a.LoseUp? || a.DuplicateUp? || a.LoseDown? || a.DuplicateDown?)
    ensures Genuine(dev, Step(dev, s, a)) && Step(dev, s, a).client == s.client
  {
    hide AnswerTo, Genuine, UpOk, DownOk;
    GenuineClient(dev, s);
    var t := Step(dev, s, a);
    assert forall m :: m in t.up ==> m in s.up;
    assert forall m :: m in t.down ==> m in s.down;
    ExtendsKeepsGenuine(dev, s, t);
  }

  lemma PushGenuine(dev: Device, s: System, svc: byte, rpc: byte, data: Encoding)
    requires Genuine(dev, s)
    ensures var t := Step(dev, s, Push(svc, rpc, data));
            Genuine(dev, t) && t.client == s.client
  {
    hide AnswerTo, Notified, IsEvent, Genuine, UpOk, EventWord;
    GenuineClient(dev, s);
    if dev.tx.Some? {
      PushedIsEvent(svc, rpc, dev.tx.value, data);
    }
    ExtendsKeepsGenuine(dev, s, Step(dev, s, Push(svc, rpc, data)));
  }

  lemma TakesGenuine(dev: Device, s: System, m: Up)
    requires Genuine(dev, s)
    ensures Genuine(dev, Step(dev, s, ServerTakes(m))) && Step(dev, s, ServerTakes(m)).client == s.client
  {
    hide AnswerTo, Handle, IsEvent, Genuine, Produced;
    GenuineClient(dev, s);
    if m in s.up && |m.data| < 0x1_0000 {
      TakenGenuine(dev, s, m);
      var frame := Handle(dev.fw, s.statics, m.data, |m.data|, dev.tx).1.frame;
      AnswerProduced(dev, s.client.requests[m.origin], frame);
    }
    ExtendsKeepsGenuine(dev, s, Step(dev, s, ServerTakes(m)));
  }

  /** Whatever a notification function sends carries bit 7 and sequence number zero. */
  lemma PushedIsEvent(svc: byte, rpc: byte, tx: word, data: Encoding)
    ensures var sent := Notified(EventWord(svc, rpc), tx, data);
            sent.Some? ==> IsEvent(sent.value)
  {
    hide Notified, Answers, EventWord;
    var id := EventWord(svc, rpc);
    NotifiedAnswers(id, tx, data);
    if Notified(id, tx, data).Some? {
      AnswersUnpack(Notified(id, tx, data).value, id, 0, tx);
    }
  }

  lemma StepGenuine(dev: Device, s: System, a: Action)
    requires Genuine(dev, s)
    ensures Genuine(dev, Step(dev, s, a))
    ensures Extends(s.client, Step(dev, s, a).client)
  {
    hide Step;
    if a.Send? || a.Deliver? || a.Expire? || a.GiveUp? {
      ClientStepGenuine(dev, s, a);
    } else {
      ServerStepGenuine(dev, s, a);
    }
  }

  /** Whatever state the server's static structs are in, its reply is the answer to the request. */
  lemma TakenGenuine(dev: Device, s: System, m: Up)
    requires UpOk(s, m) && |m.data| < 0x1_0000
    ensures Readable(dev.fw, m.data, |m.data|)
    ensures var reply := Handle(dev.fw, s.statics, m.data, |m.data|, dev.tx).1;
            AnswerTo(dev, s.client.requests[m.origin])
            == if reply.code == 0 && reply.frame != [] then Some(reply.frame) else None
  {
    hide Handle;
    var r := s.client.requests[m.origin];
    PackedReadable(dev.fw, r.rpcId, r.seqId, r.payload);
    HistoryIndependence(dev.fw, s.statics, m.data, |m.data|, dev.tx);
  }

  // Matching.

  /** A completed request holds what the server produced for that very request. */
  predicate MatchedAt(dev: Device, r: Request) {
    match r.fut
    case Result(f) =>
      && AnswerTo(dev, r).Some? && UnpackFrame(AnswerTo(dev, r).value) == Some(f)
      && f.rpcId == r.rpcId && f.seqId == r.seqId
    case SystemError =>
      && AnswerTo(dev, r).Some? && UnpackFrame(AnswerTo(dev, r).value).Some?
      && UnpackFrame(AnswerTo(dev, r).value).value.rpcId == 0
    case _ => true
  }

  predicate Matched(dev: Device, c: Py.State) {
    forall k :: 0 <= k < |c.requests| ==> MatchedAt(dev, c.requests[k])
  }

  /** A delivered answer stems from one of the latest `bound` sends. */
  predicate FreshDelivery(s: System, a: Action, bound: nat) {
    a.Deliver? && a.down.Answer? && a.down in s.down ==> |s.client.requests| - a.down.origin <= bound
  }

  /**
   The entry under the sequence number of an answer belongs to the answered request, or to one a
   positive multiple of 65535 sends later.
   */
  lemma EntryOwner(c: Py.State, k: nat)
    requires Py.Valid(c) && k < |c.requests| && c.requests[k].Wire().Some? && c.requests[k].seqId in c.pending
    ensures var j := c.pending[c.requests[k].seqId];
            j < |c.requests| && (j == k || (j > k && (j - k) % Py.PERIOD == 0))
    ensures |c.requests| - k <= Py.PERIOD ==> c.pending[c.requests[k].seqId] == k
  {
    var q := c.requests[k].seqId;
    assert PendingOk(c, q);
    SeqRepeats(k, c.pending[q]);
  }

  /** The server answers r in a way that `frame` may stand for: the same frame, or an error for an error. */
  predicate Interchangeable(dev: Device, frame: Frame, r: Request) {
    && AnswerTo(dev, r).Some?
    && match UnpackFrame(AnswerTo(dev, r).value)
       case None => false
       case Some(own) => if frame.rpcId == 0 then own.rpcId == 0 else own == frame
  }

  /** Delivering `frame` settles nothing, or a request that it is an answer to. */
  predicate Harmless(dev: Device, c: Py.State, k: nat, frame: Frame)
    requires Py.Valid(c)
  {
    || Classify(frame.rpcId).Notification?
    || frame.seqId !in c.pending
    || (assert PendingOk(c, frame.seqId);
        var j := c.pending[frame.seqId];
        j == k || !c.requests[j].fut.Waiting? || Interchangeable(dev, frame, c.requests[j]))
  }

  /** Exactly when the arrival of an answer, however old, leaves every completed request with its own answer. */
  lemma DeliveryMatchedIff(dev: Device, c: Py.State, k: nat, data: seq<byte>, listening: bool)
    requires Py.Valid(c) && Matched(dev, c) && k < |c.requests| && AnswerTo(dev, c.requests[k]) == Some(data)
    ensures UnpackFrame(data).Some?
    ensures Matched(dev, Py.Datagram(c, data, listening)) <==> Harmless(dev, c, k, UnpackFrame(data).value)
  {
    hide AnswerTo, UnpackFrame;
    AnswerShape(dev, c.requests[k]);
    var f := UnpackFrame(data).value;
    if f.seqId in c.pending && !Classify(f.rpcId).Notification? {
      assert PendingOk(c, f.seqId);
      var j := c.pending[f.seqId];
      var d := Py.Datagram(c, data, listening);
      if c.requests[j].fut.Waiting? {
        SettledMatchedIff(dev, c.requests[j], d.requests[j], f);
        assert forall i :: 0 <= i < |c.requests| && i != j ==> d.requests[i] == c.requests[i];
      } else {
        assert d.requests == c.requests;
      }
    }
  }

  lemma SettledMatchedIff(dev: Device, r: Request, done: Request, frame: Frame)
    requires done == r.(fut := if frame.rpcId == 0 then SystemError else Result(frame))
    ensures MatchedAt(dev, done) <==> Interchangeable(dev, frame, r)
  {
    hide AnswerTo, UnpackFrame;
    SameFieldsSameAnswer(dev, r, done);
    if AnswerTo(dev, r).Some? {
      AnswerShape(dev, r);
    }
  }

  lemma DeliveredClient(dev: Device, s: System, m: Down, listening: bool)
    requires Genuine(dev, s) && m in s.down
    ensures Py.Valid(s.client) && Step(dev, s, Deliver(m, listening)).client == Py.Datagram(s.client, m.data, listening)
  {
    hide Py.Datagram;
  }

  /** A delivered answer is what the server produced for its origin, which it may therefore always settle. */
  lemma AnswerGenuine(dev: Device, s: System, k: nat, data: seq<byte>)
    requires Genuine(dev, s) && Answer(k, data) in s.down
    ensures k < |s.client.requests| && s.client.requests[k].Wire().Some?
    ensures AnswerTo(dev, s.client.requests[k]) == Some(data) && UnpackFrame(data).Some?
    ensures var r := s.client.requests[k];
            var f := UnpackFrame(data).value;
            f.seqId == r.seqId && (f.rpcId == 0 || f.rpcId == r.rpcId) && Interchangeable(dev, f, r)
  {
    hide AnswerTo, UnpackFrame;
    assert DownOk(dev, s, Answer(k, data));
    AnswerProduced(dev, s.client.requests[k], data);
    AnswerShape(dev, s.client.requests[k]);
  }

  /** A notification never changes a request or the pending table. */
  lemma EventLeavesRequests(c: Py.State, data: seq<byte>, listening: bool)
    requires Py.Valid(c) && IsEvent(data)
    ensures Classify(UnpackFrame(data).value.rpcId) == Notification
    ensures Py.Datagram(c, data, listening).requests == c.requests
    ensures Py.Datagram(c, data, listening).pending == c.pending
  {
  }

  /** What a notification function sends is read by the client as that event with that data. */
  lemma PushedReads(svc: byte, rpc: byte, tx: word, data: Encoding)
    requires data.complete && 6 + |Flatten(data.chunks)| <= tx
    ensures var sent := Notified(EventWord(svc, rpc), tx, data);
            sent.Some? && UnpackFrame(sent.value) == Some(Frame(EventWord(svc, rpc), 0, Flatten(data.chunks)))
  {
    hide Notified, Answers, EventWord, UnpackFrame;
    var id := EventWord(svc, rpc);
    NotifiedAnswers(id, tx, data);
    AnswersUnpack(Notified(id, tx, data).value, id, 0, tx);
  }

  /** An event that fits the buffer goes out, and nothing else happens. */
  lemma EventSent(dev: Device, s: System, svc: byte, rpc: byte, data: Encoding)
    requires Genuine(dev, s) && dev.tx.Some? && data.complete && 6 + |Flatten(data.chunks)| <= dev.tx.value
    ensures var sent := Notified(EventWord(svc, rpc), dev.tx.value, data);
            && sent.Some?
            && Step(dev, s, Push(svc, rpc, data)) == s.(down := s.down + multiset{Event(sent.value)})
  {
    hide AnswerTo, Notified, Genuine, UnpackFrame, EventWord;
    PushedReads(svc, rpc, dev.tx.value, data);
  }

  /** It reaches the callback as it was emitted, and nothing else happens. */
  lemma EventArrives(c: Py.State, svc: byte, rpc: byte, tx: word, data: Encoding)
    requires Py.Valid(c) && data.complete && 6 + |Flatten(data.chunks)| <= tx
    ensures var sent := Notified(EventWord(svc, rpc), tx, data);
            var frame := Frame(EventWord(svc, rpc), 0, Flatten(data.chunks));
            sent.Some? && Py.Datagram(c, sent.value, true) == c.(notified := c.notified + [frame])
  {
    hide Notified, UnpackFrame, EventWord, Py.Valid;
    PushedReads(svc, rpc, tx, data);
  }

  lemma StepMatched(dev: Device, s: System, a: Action)
    requires Genuine(dev, s) && Matched(dev, s.client) && FreshDelivery(s, a, Py.PERIOD)
    ensures Matched(dev, Step(dev, s, a).client)
  {
    hide AnswerTo, Handle, Py.Datagram, UnpackFrame, Harmless;
    match a
    case Deliver(m, listening) =>
      if m in s.down {
        assert DownOk(dev, s, m);
        match m
        case Answer(k, data) =>
          DeliveryMatchedIff(dev, s.client, k, data, listening);
          FreshIsHarmless(dev, s.client, k, data);
        case Event(data) => EventLeavesRequests(s.client, data, listening);
      }
    case _ =>
  }

  lemma FreshIsHarmless(dev: Device, c: Py.State, k: nat, data: seq<byte>)
    requires Py.Valid(c) && k < |c.requests| && AnswerTo(dev, c.requests[k]) == Some(data)
    requires |c.requests| - k <= Py.PERIOD
    ensures UnpackFrame(data).Some? && Harmless(dev, c, k, UnpackFrame(data).value)
  {
    hide AnswerTo, UnpackFrame;
    AnswerShape(dev, c.requests[k]);
    if c.requests[k].seqId in c.pending {
      EntryOwner(c, k);
    }
  }

  function Ran(dev: Device, s: System, actions: seq<Action>): System
    requires Genuine(dev, s)
    decreases |actions|
  {
    if actions == [] then s
    else
      StepGenuine(dev, s, actions[0]);
      Ran(dev, Step(dev, s, actions[0]), actions[1..])
  }

  predicate AllFresh(dev: Device, s: System, actions: seq<Action>, bound: nat)
    requires Genuine(dev, s)
    decreases |actions|
  {
    actions == [] ||
    (StepGenuine(dev, s, actions[0]);
     FreshDelivery(s, actions[0], bound) && AllFresh(dev, Step(dev, s, actions[0]), actions[1..], bound))
  }

  lemma {:induction false} RunMatched(dev: Device, s: System, actions: seq<Action>, bound: nat)
    requires Genuine(dev, s) && Matched(dev, s.client) && AllFresh(dev, s, actions, bound) && bound <= Py.PERIOD
    ensures Genuine(dev, Ran(dev, s, actions)) && Matched(dev, Ran(dev, s, actions).client)
    decreases |actions|
  {
    hide Step, Genuine, Matched;
    if actions != [] {
      StepGenuine(dev, s, actions[0]);
      StepMatched(dev, s, actions[0]);
      RunMatched(dev, Step(dev, s, actions[0]), actions[1..], bound);
    }
  }

  /**
   In every run over channels that lose, duplicate and reorder frames, if each delivered answer is fewer
   than 65535 sends old, every completed request holds exactly the frame the server produced for it,
   whatever the server's table holds.
   */
  lemma Matching(dev: Device, actions: seq<Action>, bound: nat)
    requires bound <= Py.PERIOD && (StartGenuine(dev); AllFresh(dev, START, actions, bound))
    ensures Matched(dev, Ran(dev, START, actions).client)
  {
    RunMatched(dev, START, actions, bound);
  }

  lemma StartGenuine(dev: Device)
    ensures Genuine(dev, START)
  {
  }
}
