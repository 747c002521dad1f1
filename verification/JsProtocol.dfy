/**
 The composed protocol with the JavaScript client: the same server and the same channels.  Every frame the
 client builds goes out, with sendRequest or by hand, and is recorded under its allocation number; a frame
 whose length does not fit 16 bits never reaches the server.
 */
module JsProtocol {
  import opened Bytes
  import opened Wire
  import opened Nanopb
  import opened Server
  import Py = PyClient
  import Js = JsClient
  import JsRuns
  import opened Protocol

  type Request = Py.Request

  /** `asked[n]` is what the frame of allocation n + 1 asks for; messages name their origin by this n. */
  datatype JsSystem = JsSystem(
    client: Js.State,
    asked: seq<Request>,
    statics: Statics,
    up: multiset<Up>,
    down: multiset<Down>)

  datatype JsAction =
    | Ask(rpcId: nat, payload: seq<byte>)
    | Build(rpcId: nat, payload: seq<byte>)
    | Take(up: Up)
    | Notify(svc: byte, rpc: byte, data: Encoding)
    | Arrive(down: Down, listening: bool)
    | DropUp(up: Up)
    | RepeatUp(up: Up)
    | DropDown(down: Down)
    | RepeatDown(down: Down)
    | Fire(k: nat)
    | ResetTransport

  /** The request a frame built for `rpcId` carries after masking. */
  function Masked(rpcId: nat, seqId: word, payload: seq<byte>): Request {
    Py.Request.Request(rpcId % 0x1_0000, seqId, payload, Py.Waiting)
  }

  /** Whatever the server can receive of a built frame is the frame of the masked request. */
  lemma MaskedWire(rpcId: nat, seqId: word, payload: seq<byte>)
    ensures |payload| < 0x1_0000 ==> Masked(rpcId, seqId, payload).Wire() == Some(BuildRawFrame(rpcId, seqId, payload))
    ensures |payload| >= 0x1_0000 ==> |BuildRawFrame(rpcId, seqId, payload)| >= 0x1_0000
  {
  }

  // What every step keeps.

  predicate UpGenuine(s: JsSystem, m: Up) {
    m.origin < |s.asked| && s.asked[m.origin].Wire() == Some(m.data)
  }

  ghost predicate DownGenuine(dev: Device, s: JsSystem, m: Down) {
    match m
    case Answer(n, data) => n < |s.asked| && Produced(dev, s.asked[n], data)
    case Event(data) => IsEvent(data)
  }

  predicate Recorded(c: Js.State, asked: seq<Request>) {
    |asked| == c.issued && forall n :: 0 <= n < |asked| ==> asked[n].seqId == Js.SeqOf(n + 1)
  }

  ghost predicate Faithful(dev: Device, s: JsSystem) {
    && Js.Valid(s.client) && Recorded(s.client, s.asked)
    && (forall m :: m in s.up ==> UpGenuine(s, m))
    && (forall m :: m in s.down ==> DownGenuine(dev, s, m))
  }

  const JS_START := JsSystem(Js.INITIAL, [], FRESH, multiset{}, multiset{})

  /** A frame goes out: the client has become `c`, which handed out the identifier. */
  function Out(s: JsSystem, c: Js.State, rpcId: nat, payload: seq<byte>): JsSystem {
    var r := Masked(rpcId, c.seqId, payload);
    var t := s.(client := c, asked := s.asked + [r]);
    if r.Wire().Some? then t.(up := s.up + multiset{Up(|s.asked|, r.Wire().value)}) else t
  }

  function JsStep(dev: Device, s: JsSystem, a: JsAction): JsSystem
    requires Faithful(dev, s)
  {
    match a
    case Ask(rpcId, payload) => Out(s, Js.Sent(s.client), rpcId, payload)
    case Build(rpcId, payload) => Out(s, Js.Built(s.client), rpcId, payload)
    case Take(m) =>
      if m in s.up && |m.data| < 0x1_0000 then
        assert UpGenuine(s, m);
        var r := s.asked[m.origin];
        PackedReadable(dev.fw, r.rpcId, r.seqId, r.payload);
        var reply := Handle(dev.fw, s.statics, m.data, |m.data|, dev.tx);
        var t := s.(up := s.up - multiset{m}, statics := reply.0);
        if reply.1.code == 0 && reply.1.frame != []
        then t.(down := s.down + multiset{Answer(m.origin, reply.1.frame)})
        else t
      else s
    case Notify(svc, rpc, data) =>
      if dev.tx.Some? && Notified(EventWord(svc, rpc), dev.tx.value, data).Some?
      then s.(down := s.down + multiset{Event(Notified(EventWord(svc, rpc), dev.tx.value, data).value)})
      else s
    case Arrive(m, listening) =>
      if m in s.down
      then s.(down := s.down - multiset{m}, client := Js.Datagram(s.client, m.data, listening))
      else s
    case DropUp(m) => s.(up := s.up - multiset{m})
    case RepeatUp(m) => if m in s.up then s.(up := s.up + multiset{m}) else s
    case DropDown(m) => s.(down := s.down - multiset{m})
    case RepeatDown(m) => if m in s.down then s.(down := s.down + multiset{m}) else s
    case Fire(k) => s.(client := Js.Fired(s.client, k))
    case ResetTransport => s.(client := Js.Reset(s.client))
  }

  // The client's own steps.

  /** The same promises but for their status, no new entry and no identifier handed out. */
  predicate Shrinks(c: Js.State, d: Js.State) {
    && d.issued == c.issued && |d.promises| == |c.promises|
    && (forall k :: 0 <= k < |c.promises| ==>
          d.promises[k].seqId == c.promises[k].seqId && d.promises[k].born == c.promises[k].born)
    && (forall q :: q in d.pending ==> q in c.pending && d.pending[q] == c.pending[q])
  }

  lemma DatagramShrinks(c: Js.State, data: seq<byte>, listening: bool)
    requires Js.Valid(c)
    ensures Shrinks(c, Js.Datagram(c, data, listening))
  {
    hide UnpackFrame;
    if UnpackFrame(data).Some? && UnpackFrame(data).value.seqId in c.pending {
      assert Js.PendingOk(c, UnpackFrame(data).value.seqId);
    }
  }

  lemma OwnStepsShrink(c: Js.State, k: nat)
    ensures Shrinks(c, Js.Fired(c, k)) && Shrinks(c, Js.Reset(c))
  {
  }

  // Every step keeps frames under way genuine.

  lemma Carries(dev: Device, s: JsSystem, t: JsSystem)
    requires Faithful(dev, s) && Js.Valid(t.client) && Recorded(t.client, t.asked) && s.asked <= t.asked
    requires forall m :: m in t.up ==> m in s.up || UpGenuine(t, m)
    requires forall m :: m in t.down ==> m in s.down || DownGenuine(dev, t, m)
    ensures Faithful(dev, t)
  {
    hide AnswerTo, IsEvent, Js.Valid;
    forall m | m in t.up
      ensures UpGenuine(t, m)
    {
      assert m in s.up ==> UpGenuine(s, m);
    }
    forall m | m in t.down
      ensures DownGenuine(dev, t, m)
    {
      assert m in s.down ==> DownGenuine(dev, s, m);
    }
  }

  lemma FaithfulClient(dev: Device, s: JsSystem)
    requires Faithful(dev, s)
    ensures Js.Valid(s.client) && Recorded(s.client, s.asked)
    ensures forall m :: m in s.up ==> UpGenuine(s, m)
  {
  }

  lemma ClientOnly(dev: Device, s: JsSystem, c: Js.State)
    requires Faithful(dev, s) && Js.Valid(c) && c.issued == s.client.issued
    ensures Faithful(dev, s.(client := c))
  {
    hide Faithful, Js.Valid, UpGenuine, DownGenuine;
    FaithfulClient(dev, s);
    Unchanged(dev, s, s.(client := c));
    Carries(dev, s, s.(client := c));
  }

  lemma Unchanged(dev: Device, s: JsSystem, t: JsSystem)
    requires t.up <= s.up && t.down <= s.down
    ensures forall m :: m in t.up ==> m in s.up
    ensures forall m :: m in t.down ==> m in s.down
  {
  }

  /** Both ways to build a frame use up the next identifier. */
  lemma OutFaithful(dev: Device, s: JsSystem, c: Js.State, rpcId: nat, payload: seq<byte>)
    requires Faithful(dev, s) && Js.Valid(c) && c.issued == s.client.issued + 1
    ensures Faithful(dev, Out(s, c, rpcId, payload))
  {
    hide AnswerTo, Faithful, DownGenuine;
    FaithfulClient(dev, s);
    Carries(dev, s, Out(s, c, rpcId, payload));
  }

  lemma BuiltFaithful(dev: Device, s: JsSystem, rpcId: nat, payload: seq<byte>)
    requires Faithful(dev, s)
    ensures Faithful(dev, JsStep(dev, s, Ask(rpcId, payload))) && Faithful(dev, JsStep(dev, s, Build(rpcId, payload)))
  {
    hide Faithful, Js.Valid, Out;
    FaithfulClient(dev, s);
    Js.SentKeepsValid(s.client);
    OutFaithful(dev, s, Js.Sent(s.client), rpcId, payload);
    Js.BuiltKeepsValid(s.client);
    OutFaithful(dev, s, Js.Built(s.client), rpcId, payload);
  }

  lemma TakeFaithful(dev: Device, s: JsSystem, m: Up)
    requires Faithful(dev, s)
    ensures Faithful(dev, JsStep(dev, s, Take(m)))
  {
    hide AnswerTo, Handle, Faithful, Js.Valid, IsEvent, Produced;
    FaithfulClient(dev, s);
    if m in s.up && |m.data| < 0x1_0000 {
      var r := s.asked[m.origin];
      PackedReadable(dev.fw, r.rpcId, r.seqId, r.payload);
      AnswerOfWire(dev, s.statics, r, m.data);
      AnswerProduced(dev, r, Handle(dev.fw, s.statics, m.data, |m.data|, dev.tx).1.frame);
    }
    Carries(dev, s, JsStep(dev, s, Take(m)));
  }

  /** Whatever the static structs hold, the reply to a request's frame is the answer to the request. */
  lemma AnswerOfWire(dev: Device, statics: Statics, r: Request, data: seq<byte>)
    requires r.Wire() == Some(data) && |data| < 0x1_0000
    ensures Readable(dev.fw, data, |data|)
    ensures var reply := Handle(dev.fw, statics, data, |data|, dev.tx).1;
            AnswerTo(dev, r) == if reply.code == 0 && reply.frame != [] then Some(reply.frame) else None
  {
    hide Handle;
    PackedReadable(dev.fw, r.rpcId, r.seqId, r.payload);
    HistoryIndependence(dev.fw, statics, data, |data|, dev.tx);
  }

  lemma NotifyFaithful(dev: Device, s: JsSystem, svc: byte, rpc: byte, data: Encoding)
    requires Faithful(dev, s)
    ensures Faithful(dev, JsStep(dev, s, Notify(svc, rpc, data)))
  {
    hide AnswerTo, Handle, Faithful, Js.Valid, IsEvent, Notified, EventWord;
    FaithfulClient(dev, s);
    if dev.tx.Some? {
      PushedIsEvent(svc, rpc, dev.tx.value, data);
    }
    Carries(dev, s, JsStep(dev, s, Notify(svc, rpc, data)));
  }

  lemma ArriveFaithful(dev: Device, s: JsSystem, m: Down, listening: bool)
    requires Faithful(dev, s)
    ensures Faithful(dev, JsStep(dev, s, Arrive(m, listening)))
  {
    hide Faithful, Js.Valid, Js.Datagram;
    FaithfulClient(dev, s);
    if m in s.down {
      Js.DatagramKeepsValid(s.client, m.data, listening);
      DatagramShrinks(s.client, m.data, listening);
      var c := Js.Datagram(s.client, m.data, listening);
      ClientOnly(dev, s, c);
      LessFaithful(dev, s.(client := c), m);
    }
  }

  lemma LessFaithful(dev: Device, s: JsSystem, m: Down)
    requires Faithful(dev, s)
    ensures Faithful(dev, s.(down := s.down - multiset{m}))
  {
    hide Faithful, Js.Valid, UpGenuine, DownGenuine, Recorded;
    FaithfulClient(dev, s);
    Unchanged(dev, s, s.(down := s.down - multiset{m}));
    Carries(dev, s, s.(down := s.down - multiset{m}));
  }

  lemma QuietFaithful(dev: Device, s: JsSystem, k: nat)
    requires Faithful(dev, s)
    ensures Faithful(dev, JsStep(dev, s, Fire(k))) && Faithful(dev, JsStep(dev, s, ResetTransport))
  {
    hide Faithful, Js.Valid, Js.Fired, Js.Reset;
    FaithfulClient(dev, s);
    OwnStepsShrink(s.client, k);
    Js.FiredKeepsValid(s.client, k);
    ClientOnly(dev, s, Js.Fired(s.client, k));
    Js.ResetSettlesAll(s.client);
    ClientOnly(dev, s, Js.Reset(s.client));
  }

  lemma ChannelFaithful(dev: Device, s: JsSystem, a: JsAction)
    requires Faithful(dev, s) && (a.DropUp? || a.RepeatUp? || a.DropDown? || a.RepeatDown?)
    ensures Faithful(dev, JsStep(dev, s, a))
  {
    hide AnswerTo, Handle, Faithful, Js.Valid, UpGenuine, DownGenuine;
    FaithfulClient(dev, s);
    var t := JsStep(dev, s, a);
    assert forall m :: m in t.up ==> m in s.up;
    assert forall m :: m in t.down ==> m in s.down;
    Carries(dev, s, t);
  }

  lemma JsStepFaithful(dev: Device, s: JsSystem, a: JsAction)
    requires Faithful(dev, s)
    ensures Faithful(dev, JsStep(dev, s, a))
  {
    hide JsStep, Faithful;
    if a.Ask? || a.Build? {
      BuiltFaithful(dev, s, a.rpcId, a.payload);
    } else if a.Take? {
      TakeFaithful(dev, s, a.up);
    } else if a.Notify? {
      NotifyFaithful(dev, s, a.svc, a.rpc, a.data);
    } else if a.Arrive? {
      ArriveFaithful(dev, s, a.down, a.listening);
    } else if a.Fire? {
      QuietFaithful(dev, s, a.k);
    } else if a.ResetTransport? {
      QuietFaithful(dev, s, 0);
    } else {
      ChannelFaithful(dev, s, a);
    }
  }

  // Matching.

  predicate SettledRight(dev: Device, status: Js.Status, r: Request) {
    match status
    case Resolved(f) => f.rpcId != 0 && Interchangeable(dev, f, r)
    case Rejected(StatusError) =>
      AnswerTo(dev, r).Some? && UnpackFrame(AnswerTo(dev, r).value).Some?
      && UnpackFrame(AnswerTo(dev, r).value).value.rpcId == 0
    case _ => true
  }

  /** A promise settled by a frame was settled with what the server produces for every request like its own. */
  ghost predicate Deserved(dev: Device, status: Js.Status, r: Request) {
    forall q: Request :: SameRequest(q, r) ==> SettledRight(dev, status, q)
  }

  /** The request of promise k. */
  function AskedBy(c: Js.State, asked: seq<Request>, k: nat): Request
    requires Js.Valid(c) && |asked| == c.issued && k < |c.promises|
  {
    assert Js.BornOk(c.issued, c.promises[k]);
    asked[c.promises[k].born - 1]
  }

  ghost predicate JsMatched(dev: Device, c: Js.State, asked: seq<Request>)
    requires Js.Valid(c) && |asked| == c.issued
  {
    forall k :: 0 <= k < |c.promises| ==> Deserved(dev, c.promises[k].status, AskedBy(c, asked, k))
  }

  /** Every entry is fewer than 65536 allocations old: its identifier was not handed out again since. */
  predicate Current(c: Js.State) {
    forall q :: q in c.pending ==>
      c.pending[q] < |c.promises| && c.issued - c.promises[c.pending[q]].born < Js.PERIOD
  }

  /**
   An arriving answer stems from one of the latest `bound` allocations, and no event arrives while identifier
   zero is pending.  If `guarded`, no frame is built by hand under an identifier that is pending.
   */
  predicate JsFresh(s: JsSystem, a: JsAction, bound: nat, guarded: bool) {
    match a
    case Arrive(Answer(n, data), _) => Answer(n, data) in s.down ==> s.client.issued - n <= bound
    case Arrive(Event(data), _) => Event(data) in s.down ==> 0 !in s.client.pending
    case Build(_, _) => guarded ==> Js.NextSeqId(s.client.seqId) !in s.client.pending
    case _ => true
  }

  /** Building by hand is safe while every open promise is fewer than 65536 allocations old. */
  lemma YoungBuildFresh(s: JsSystem, rpcId: nat, payload: seq<byte>, bound: nat)
    requires Js.Valid(s.client) && JsRuns.Young(s.client, Js.PERIOD)
    ensures JsFresh(s, Build(rpcId, payload), bound, true)
  {
    JsRuns.YoungIsFree(s.client, Js.PERIOD);
  }

  /** The entry under the identifier of one of the latest 65536 allocations is that allocation's own. */
  lemma FreshEntry(c: Js.State, n: nat)
    requires Js.Valid(c) && Current(c) && n < c.issued && c.issued - n <= Js.PERIOD
    requires Js.SeqOf(n + 1) in c.pending
    ensures var k := c.pending[Js.SeqOf(n + 1)];
            k < |c.promises| && c.promises[k].born == n + 1
  {
    var q := Js.SeqOf(n + 1);
    assert Js.PendingOk(c, q);
    var k := c.pending[q];
    assert Js.BornOk(c.issued, c.promises[k]);
    var b := c.promises[k].born;
    if b < n + 1 {
      Js.SeqOfRepeats(b, n + 1);
    } else if n + 1 < b {
      Js.SeqOfRepeats(n + 1, b);
    }
  }

  /**
   A frame built by hand has no promise of its own.  Its answer, however fresh, leaves the promises alone if and
   only if its identifier is not pending; a pending one belongs to a promise at least 65536 allocations older.
   */
  lemma BuiltAnswerIff(c: Js.State, frame: Frame, listening: bool, born: nat)
    requires Js.Valid(c) && born <= c.issued && c.issued - born < Js.PERIOD && frame.seqId == Js.SeqOf(born)
    requires forall k :: 0 <= k < |c.promises| ==> c.promises[k].born != born
    ensures Js.Dispatched(c, frame, listening).promises == c.promises <==> frame.seqId !in c.pending
    ensures frame.seqId in c.pending ==>
              c.pending[frame.seqId] < |c.promises| && c.promises[c.pending[frame.seqId]].born + Js.PERIOD <= born
  {
    if frame.seqId in c.pending {
      assert Js.PendingOk(c, frame.seqId);
      var k := c.pending[frame.seqId];
      assert Js.BornOk(c.issued, c.promises[k]);
      var b := c.promises[k].born;
      if b < born {
        Js.SeqOfRepeats(b, born);
      } else {
        Js.SeqOfRepeats(born, b);
      }
      assert Js.Dispatched(c, frame, listening).promises[k] != c.promises[k];
    }
  }

  function StatusFor(f: Frame): Js.Status {
    if f.rpcId == 0 then Js.Rejected(Js.StatusError) else Js.Resolved(f)
  }

  /** What a frame does to an entry, bit 7 or not. */
  lemma Settles(c: Js.State, data: seq<byte>, listening: bool, k: nat)
    requires Js.Valid(c) && UnpackFrame(data).Some?
    requires UnpackFrame(data).value.seqId in c.pending && c.pending[UnpackFrame(data).value.seqId] == k
    ensures var f := UnpackFrame(data).value;
            var d := Js.Datagram(c, data, listening);
            && k < |c.promises|
            && d.promises == Js.WithStatus(c.promises, k, StatusFor(f))
            && d.pending == c.pending - {f.seqId}
  {
    hide UnpackFrame;
    assert Js.PendingOk(c, UnpackFrame(data).value.seqId);
  }

  lemma Unsettled(c: Js.State, data: seq<byte>, listening: bool)
    requires Js.Valid(c)
    requires UnpackFrame(data).Some? ==> UnpackFrame(data).value.seqId !in c.pending
    ensures Js.Datagram(c, data, listening).promises == c.promises
  {
    hide UnpackFrame;
  }

  lemma RightStatus(dev: Device, r: Request, data: seq<byte>)
    requires Produced(dev, r, data)
    ensures UnpackFrame(data).Some? && UnpackFrame(data).value.seqId == r.seqId
    ensures Deserved(dev, StatusFor(UnpackFrame(data).value), r)
  {
    hide AnswerTo, UnpackFrame;
    AnswerProduced(dev, r, data);
    AnswerShape(dev, r);
    forall q: Request | SameRequest(q, r)
      ensures SettledRight(dev, StatusFor(UnpackFrame(data).value), q)
    {
      assert AnswerTo(dev, q) == Some(data);
    }
  }

  /** A fresh answer settles the promise of its own allocation or none. */
  lemma ArrivalOutcome(c: Js.State, data: seq<byte>, listening: bool, n: nat)
    requires Js.Valid(c) && Current(c) && n < c.issued && c.issued - n <= Js.PERIOD
    requires UnpackFrame(data).Some? && UnpackFrame(data).value.seqId == Js.SeqOf(n + 1)
    ensures var d := Js.Datagram(c, data, listening);
            || d.promises == c.promises
            || exists k :: 0 <= k < |c.promises| && c.promises[k].born == n + 1
                           && d.promises == Js.WithStatus(c.promises, k, StatusFor(UnpackFrame(data).value))
  {
    hide UnpackFrame, Js.Valid, Current, Js.Datagram;
    var q := UnpackFrame(data).value.seqId;
    if q in c.pending {
      FreshEntry(c, n);
      var k := c.pending[q];
      Settles(c, data, listening, k);
      assert 0 <= k < |c.promises| && c.promises[k].born == n + 1;
    } else {
      Unsettled(c, data, listening);
    }
  }

  lemma UpdateMatched(dev: Device, c: Js.State, d: Js.State, asked: seq<Request>, k: nat, status: Js.Status)
    requires Js.Valid(c) && Js.Valid(d) && |asked| == c.issued == d.issued && k < |c.promises|
    requires JsMatched(dev, c, asked) && Deserved(dev, status, AskedBy(c, asked, k))
    requires d.promises == Js.WithStatus(c.promises, k, status)
    ensures JsMatched(dev, d, asked)
  {
    hide Deserved, Js.Valid;
    forall j | 0 <= j < |d.promises|
      ensures Deserved(dev, d.promises[j].status, AskedBy(d, asked, j))
    {
      assert j != k ==> Deserved(dev, c.promises[j].status, AskedBy(c, asked, j));
    }
  }

  lemma SamePromisesMatched(dev: Device, c: Js.State, d: Js.State, asked: seq<Request>)
    requires Js.Valid(c) && Js.Valid(d) && |asked| == c.issued == d.issued && d.promises == c.promises
    requires JsMatched(dev, c, asked)
    ensures JsMatched(dev, d, asked)
  {
    hide Deserved, Js.Valid;
    forall j | 0 <= j < |d.promises|
      ensures Deserved(dev, d.promises[j].status, AskedBy(d, asked, j))
    {
      assert Deserved(dev, c.promises[j].status, AskedBy(c, asked, j));
    }
  }

  lemma EventMatched(dev: Device, s: JsSystem, data: seq<byte>, listening: bool)
    requires Js.Valid(s.client) && IsEvent(data) && 0 !in s.client.pending
    ensures Js.Datagram(s.client, data, listening).promises == s.client.promises
  {
    hide UnpackFrame, Js.Valid, Js.Datagram;
    Unsettled(s.client, data, listening);
  }

  /** An event that fits the buffer goes out, and nothing else happens. */
  lemma JsEventSent(dev: Device, s: JsSystem, svc: byte, rpc: byte, data: Encoding)
    requires Faithful(dev, s) && dev.tx.Some? && data.complete && 6 + |Flatten(data.chunks)| <= dev.tx.value
    ensures var sent := Notified(EventWord(svc, rpc), dev.tx.value, data);
            && sent.Some?
            && JsStep(dev, s, Notify(svc, rpc, data)) == s.(down := s.down + multiset{Event(sent.value)})
  {
    hide AnswerTo, Notified, Faithful, UnpackFrame, EventWord;
    PushedReads(svc, rpc, dev.tx.value, data);
  }

  /** It reaches the callback as it was emitted, and nothing else happens, exactly while identifier zero is free. */
  lemma JsEventArrives(c: Js.State, svc: byte, rpc: byte, tx: word, data: Encoding)
    requires Js.Valid(c) && data.complete && 6 + |Flatten(data.chunks)| <= tx
    ensures var sent := Notified(EventWord(svc, rpc), tx, data);
            var frame := Frame(EventWord(svc, rpc), 0, Flatten(data.chunks));
            && sent.Some?
            && (Js.Datagram(c, sent.value, true) == c.(notified := c.notified + [frame]) <==> 0 !in c.pending)
  {
    hide Notified, UnpackFrame, EventWord, Js.Valid;
    PushedReads(svc, rpc, tx, data);
    Js.DispatchOutcome(c, Frame(EventWord(svc, rpc), 0, Flatten(data.chunks)), true);
  }

  ghost predicate Good(dev: Device, s: JsSystem, guarded: bool)
    requires Faithful(dev, s)
  {
    JsMatched(dev, s.client, s.asked) && (guarded ==> Current(s.client))
  }

  /** The bounds under which matching holds; a bound of zero lets no answer arrive. */
  predicate Within(bound: nat, guarded: bool) {
    bound == 0 || (bound <= Js.PERIOD && guarded)
  }

  lemma ArrivedGood(dev: Device, s: JsSystem, m: Down, listening: bool, bound: nat, guarded: bool)
    requires Faithful(dev, s) && Good(dev, s, guarded) && Within(bound, guarded)
    requires JsFresh(s, Arrive(m, listening), bound, guarded)
    ensures var t := JsStep(dev, s, Arrive(m, listening));
            Faithful(dev, t) && Good(dev, t, guarded)
  {
    hide AnswerTo, Js.Datagram, Js.Valid, Deserved, UnpackFrame, JsMatched;
    ArriveFaithful(dev, s, m, listening);
    if m in s.down {
      assert DownGenuine(dev, s, m);
      Js.DatagramKeepsValid(s.client, m.data, listening);
      DatagramShrinks(s.client, m.data, listening);
      match m
      case Answer(n, data) =>
        var c, d := s.client, Js.Datagram(s.client, data, listening);
        RightStatus(dev, s.asked[n], data);
        ArrivalOutcome(c, data, listening, n);
        if d.promises == c.promises {
          SamePromisesMatched(dev, c, d, s.asked);
        } else {
          var status := StatusFor(UnpackFrame(data).value);
          var k :| 0 <= k < |c.promises| && c.promises[k].born == n + 1
                   && d.promises == Js.WithStatus(c.promises, k, status);
          UpdateMatched(dev, c, d, s.asked, k, status);
        }
      case Event(data) =>
        EventMatched(dev, s, data, listening);
        SamePromisesMatched(dev, s.client, Js.Datagram(s.client, data, listening), s.asked);
    }
  }

  /** Handing out an identifier keeps all entries current unless it is pending itself. */
  lemma NextKeepsCurrent(c: Js.State, q: word)
    requires Js.Valid(c) && Current(c) && q in c.pending && q != Js.NextSeqId(c.seqId)
    ensures c.pending[q] < |c.promises| && c.issued + 1 - c.promises[c.pending[q]].born < Js.PERIOD
  {
    assert Js.PendingOk(c, q);
    assert Js.BornOk(c.issued, c.promises[c.pending[q]]);
    Js.Next(c.issued);
    NotARoundLater(c.issued, c.promises[c.pending[q]].born);
  }

  lemma NotARoundLater(a: nat, b: nat)
    requires b <= a < b + Js.PERIOD && Js.SeqOf(a + 1) != Js.SeqOf(b)
    ensures a + 1 - b < Js.PERIOD
  {
    Js.SeqOfRepeats(b, a + 1);
  }

  lemma OutMatched(dev: Device, c: Js.State, d: Js.State, asked: seq<Request>, r: Request)
    requires Js.Valid(c) && Js.Valid(d) && |asked| == c.issued && d.issued == c.issued + 1
    requires JsMatched(dev, c, asked)
    requires d.promises == c.promises || d.promises == c.promises + [Js.Promise(d.seqId, d.issued, Js.Open)]
    ensures JsMatched(dev, d, asked + [r])
  {
    hide Interchangeable, AnswerTo, UnpackFrame;
    forall j | 0 <= j < |d.promises|
      ensures Deserved(dev, d.promises[j].status, AskedBy(d, asked + [r], j))
    {
      if j < |c.promises| {
        assert Js.BornOk(c.issued, c.promises[j]);
        assert Deserved(dev, c.promises[j].status, AskedBy(c, asked, j));
        assert AskedBy(d, asked + [r], j) == AskedBy(c, asked, j);
      }
    }
  }

  lemma AskGood(dev: Device, s: JsSystem, rpcId: nat, payload: seq<byte>, guarded: bool)
    requires Faithful(dev, s) && Good(dev, s, guarded)
    ensures var t := JsStep(dev, s, Ask(rpcId, payload));
            Faithful(dev, t) && Good(dev, t, guarded)
  {
    hide Js.Valid, JsMatched, Faithful;
    FaithfulClient(dev, s);
    BuiltFaithful(dev, s, rpcId, payload);
    var c, d := s.client, Js.Sent(s.client);
    Js.SentKeepsValid(c);
    OutMatched(dev, c, d, s.asked, Masked(rpcId, d.seqId, payload));
    forall q | guarded && q in d.pending
      ensures d.pending[q] < |d.promises| && d.issued - d.promises[d.pending[q]].born < Js.PERIOD
    {
      if q != d.seqId {
        NextKeepsCurrent(c, q);
      }
    }
  }

  lemma BuildGood(dev: Device, s: JsSystem, rpcId: nat, payload: seq<byte>, guarded: bool)
    requires Faithful(dev, s) && Good(dev, s, guarded)
    requires guarded ==> Js.NextSeqId(s.client.seqId) !in s.client.pending
    ensures var t := JsStep(dev, s, Build(rpcId, payload));
            Faithful(dev, t) && Good(dev, t, guarded)
  {
    hide Js.Valid, JsMatched, Faithful;
    FaithfulClient(dev, s);
    BuiltFaithful(dev, s, rpcId, payload);
    var c, d := s.client, Js.Built(s.client);
    Js.BuiltKeepsValid(c);
    OutMatched(dev, c, d, s.asked, Masked(rpcId, d.seqId, payload));
    forall q | guarded && q in d.pending
      ensures d.pending[q] < |d.promises| && d.issued - d.promises[d.pending[q]].born < Js.PERIOD
    {
      NextKeepsCurrent(c, q);
    }
  }

  lemma OwnSteps(dev: Device, s: JsSystem, k: nat)
    requires Faithful(dev, s)
    ensures JsStep(dev, s, Fire(k)) == s.(client := Js.Fired(s.client, k))
    ensures JsStep(dev, s, ResetTransport) == s.(client := Js.Reset(s.client))
  {
    hide Faithful, Js.Fired, Js.Reset;
  }

  lemma FireGood(dev: Device, s: JsSystem, k: nat, guarded: bool)
    requires Faithful(dev, s) && Good(dev, s, guarded)
    ensures var t := JsStep(dev, s, Fire(k));
            Faithful(dev, t) && Good(dev, t, guarded)
  {
    hide Js.Valid, Faithful, Js.Fired, JsMatched, Current, Shrinks, JsStep;
    OwnSteps(dev, s, k);
    FaithfulClient(dev, s);
    QuietFaithful(dev, s, k);
    FaithfulClient(dev, JsStep(dev, s, Fire(k)));
    OwnStepsShrink(s.client, k);
    FiredOwn(s.client, k);
    StillRight(dev, s.client, Js.Fired(s.client, k), s.asked);
    if guarded {
      ShrinksCurrent(s.client, Js.Fired(s.client, k));
    }
  }

  lemma ResetGood(dev: Device, s: JsSystem, guarded: bool)
    requires Faithful(dev, s) && Good(dev, s, guarded)
    ensures var t := JsStep(dev, s, ResetTransport);
            Faithful(dev, t) && Good(dev, t, guarded)
  {
    hide Js.Valid, Faithful, Js.Reset, JsMatched, Current, Shrinks, JsStep;
    OwnSteps(dev, s, 0);
    FaithfulClient(dev, s);
    QuietFaithful(dev, s, 0);
    FaithfulClient(dev, JsStep(dev, s, ResetTransport));
    OwnStepsShrink(s.client, 0);
    ResetOwn(s.client);
    StillRight(dev, s.client, Js.Reset(s.client), s.asked);
    if guarded {
      ShrinksCurrent(s.client, Js.Reset(s.client));
    }
  }

  /** Promises differ only in being rejected for another reason than a frame. */
  predicate OwnRejections(c: Js.State, d: Js.State)
    requires |d.promises| == |c.promises|
  {
    forall k :: 0 <= k < |c.promises| ==>
      || d.promises[k].status == c.promises[k].status
      || d.promises[k].status == Js.Rejected(Js.Timeout)
      || d.promises[k].status == Js.Rejected(Js.TransportReset)
  }

  lemma FiredOwn(c: Js.State, k: nat)
    ensures |Js.Fired(c, k).promises| == |c.promises| && OwnRejections(c, Js.Fired(c, k))
  {
  }

  lemma ResetOwn(c: Js.State)
    ensures |Js.Reset(c).promises| == |c.promises| && OwnRejections(c, Js.Reset(c))
  {
  }

  lemma ShrinksCurrent(c: Js.State, d: Js.State)
    requires Current(c) && Shrinks(c, d)
    ensures Current(d)
  {
  }

  lemma StillRight(dev: Device, c: Js.State, d: Js.State, asked: seq<Request>)
    requires Js.Valid(c) && Js.Valid(d) && |asked| == c.issued && Shrinks(c, d) && JsMatched(dev, c, asked)
    requires OwnRejections(c, d)
    ensures JsMatched(dev, d, asked)
  {
    hide Js.Valid, AnswerTo, Interchangeable, UnpackFrame;
    forall j | 0 <= j < |d.promises|
      ensures Deserved(dev, d.promises[j].status, AskedBy(d, asked, j))
    {
      assert Deserved(dev, c.promises[j].status, AskedBy(c, asked, j));
    }
  }

  lemma ServerGood(dev: Device, s: JsSystem, a: JsAction, guarded: bool)
    requires Faithful(dev, s) && Good(dev, s, guarded)
    requires !a.Arrive? && !a.Ask? && !a.Build? && !a.Fire? && !a.ResetTransport?
    ensures Faithful(dev, JsStep(dev, s, a)) && Good(dev, JsStep(dev, s, a), guarded)
  {
    hide Js.Valid, JsMatched, Current, Faithful, Handle, Notified;
    JsStepFaithful(dev, s, a);
    FaithfulClient(dev, s);
    FaithfulClient(dev, JsStep(dev, s, a));
  }

  lemma JsStepMatched(dev: Device, s: JsSystem, a: JsAction, bound: nat, guarded: bool)
    requires Faithful(dev, s) && Good(dev, s, guarded) && JsFresh(s, a, bound, guarded) && Within(bound, guarded)
    ensures Faithful(dev, JsStep(dev, s, a)) && Good(dev, JsStep(dev, s, a), guarded)
  {
    hide JsStep, Good, Faithful;
    if a.Arrive? {
      ArrivedGood(dev, s, a.down, a.listening, bound, guarded);
    } else if a.Ask? {
      AskGood(dev, s, a.rpcId, a.payload, guarded);
    } else if a.Build? {
      BuildGood(dev, s, a.rpcId, a.payload, guarded);
    } else if a.Fire? {
      FireGood(dev, s, a.k, guarded);
    } else if a.ResetTransport? {
      ResetGood(dev, s, guarded);
    } else {
      ServerGood(dev, s, a, guarded);
    }
  }

  function JsRan(dev: Device, s: JsSystem, actions: seq<JsAction>): (t: JsSystem)
    requires Faithful(dev, s)
    ensures Faithful(dev, t)
    decreases |actions|
  {
    if actions == [] then s
    else
      JsStepFaithful(dev, s, actions[0]);
      JsRan(dev, JsStep(dev, s, actions[0]), actions[1..])
  }

  predicate AllJsFresh(dev: Device, s: JsSystem, actions: seq<JsAction>, bound: nat, guarded: bool)
    requires Faithful(dev, s)
    decreases |actions|
  {
    actions == [] ||
    (JsStepFaithful(dev, s, actions[0]);
     && JsFresh(s, actions[0], bound, guarded)
     && AllJsFresh(dev, JsStep(dev, s, actions[0]), actions[1..], bound, guarded))
  }

  lemma {:induction false} JsRunMatched(dev: Device, s: JsSystem, actions: seq<JsAction>, bound: nat, guarded: bool)
    requires Faithful(dev, s) && Good(dev, s, guarded) && Within(bound, guarded)
    requires AllJsFresh(dev, s, actions, bound, guarded)
    ensures Good(dev, JsRan(dev, s, actions), guarded)
    decreases |actions|
  {
    hide JsStep, Good, JsFresh, Faithful;
    if actions != [] {
      JsStepMatched(dev, s, actions[0], bound, guarded);
      JsRunMatched(dev, JsStep(dev, s, actions[0]), actions[1..], bound, guarded);
    }
  }

  ghost predicate JsSafe(dev: Device, actions: seq<JsAction>)
    requires Faithful(dev, JS_START)
  {
    var t := JsRan(dev, JS_START, actions);
    JsMatched(dev, t.client, t.asked)
  }

  lemma JsStartFaithful(dev: Device)
    ensures Faithful(dev, JS_START) && Good(dev, JS_START, true)
  {
  }

  /**
   In every run with the JavaScript client, if each arriving answer stems from one of the latest 65536
   allocations, no event arrives while identifier zero is pending and no frame is built by hand under a pending
   identifier, every promise settled by a frame got what the server produced for its request.
   */
  lemma JsMatching(dev: Device, actions: seq<JsAction>, bound: nat, guarded: bool)
    requires Within(bound, guarded) && (JsStartFaithful(dev); AllJsFresh(dev, JS_START, actions, bound, guarded))
    ensures JsSafe(dev, actions)
  {
    hide Faithful;
    JsStartFaithful(dev);
    JsRunMatched(dev, JS_START, actions, bound, guarded);
  }

  /** An answer under way is what the server produces for its allocation, and carries its identifier. */
  lemma UnderWay(dev: Device, s: JsSystem, n: nat, data: seq<byte>)
    requires Faithful(dev, s) && Answer(n, data) in s.down
    ensures n < |s.asked| == s.client.issued && Produced(dev, s.asked[n], data)
    ensures s.asked[n].seqId == Js.SeqOf(n + 1)
  {
    hide Js.Valid, Produced;
    assert DownGenuine(dev, s, Answer(n, data));
  }

  /** A fresh one settles the promise that is pending for it, whatever its rpc id: this client ignores bit 7. */
  lemma JsAnswerSettles(dev: Device, c: Js.State, n: nat, r: Request, data: seq<byte>, listening: bool)
    requires Js.Valid(c) && Current(c) && n < c.issued && c.issued - n <= Js.PERIOD
    requires r.seqId == Js.SeqOf(n + 1) && r.seqId in c.pending && Produced(dev, r, data)
    ensures UnpackFrame(data).Some?
    ensures var t := Js.Datagram(c, data, listening);
            var k := c.pending[r.seqId];
            && k < |c.promises| == |t.promises| && c.promises[k].born == n + 1
            && t.promises[k].status == StatusFor(UnpackFrame(data).value)
            && r.seqId !in t.pending
  {
    hide AnswerTo, UnpackFrame, Js.Datagram, Js.Valid, Current, Produced;
    RightStatus(dev, r, data);
    FreshEntry(c, n);
    Settles(c, data, listening, c.pending[r.seqId]);
  }
}
