/** Which answers a Python client can settle: it takes bit 7 of an rpc id for the mark of an event. */
module Completion {
  import opened Bytes
  import opened Wire
  import opened Nanopb
  import opened Server
  import opened Py = PyClient
  import opened Protocol
  import opened Generator
  import opened Staleness
  import Spec
  import opened Identifiers

  // Classification.

  /**
   The client takes every reply for what the server made it, a response when it got that far and else an
   error, if and only if the rpc id of a successful request is neither zero nor marked as an event.
   */
  lemma ClassifiedAsProducedIff(fw: Firmware, st: Statics, rx: seq<byte>, n: word, tx: word)
    requires n >= 6 && Readable(fw, rx, n) && tx >= 6
    requires Handle(fw, st, rx, n, Some(tx)).1.frame != []
    ensures var frame := Handle(fw, st, rx, n, Some(tx)).1.frame;
            var ok := Succeeds(fw, st, rx, tx);
            && 2 <= |frame|
            && (Classify(Word(frame[0], frame[1])) == (if ok then Response else ErrorFrame)
                <==> (ok ==> RxRpcId(rx) != 0 && !Bit7(RxRpcId(rx))))
  {
    hide Handle, Server.Decode, Execute, Encoded, Succeeds;
    RepliesCarry(fw, st, rx, n, tx);
  }

  /**
   The ids of an accepted specification: the client takes event ids for notifications, and request ids for
   responses exactly up to rpc id 127.
   */
  lemma UsesClassified(spec: seq<Spec.Service>, u: Use)
    requires Spec.Accepted(spec) && AllPresent(spec) && Uses(spec, u)
    ensures IdOf(spec, u) < 0x1_0000
    ensures u.Event? ==> Classify(IdOf(spec, u)) == Notification
    ensures u.Request? ==> (Classify(IdOf(spec, u)) == Response <==> RpcNum(spec, u.i, u.j) <= 127)
  {
    hide Spec.Accepted, EventId, RequestId;
    AcceptedNumbers(spec, u.i, u.j);
    IdValues(SvcNum(spec, u.i), RpcNum(spec, u.i, u.j));
  }

  // Delivery to a waiting request.

  /**
   A fresh answer to a request that still waits under its entry completes it, as an error exactly on rpc id
   0x0000; only an answer with bit 7 leaves it waiting, with its entry.
   */
  lemma FreshAnswerCompletes(dev: Device, s: System, k: nat, data: seq<byte>, listening: bool)
    requires Genuine(dev, s) && Answer(k, data) in s.down && |s.client.requests| - k <= Py.PERIOD
    ensures k < |s.client.requests| && UnpackFrame(data).Some?
    ensures s.client.requests[k].fut.Waiting? && s.client.requests[k].seqId in s.client.pending ==>
              var t := Step(dev, s, Deliver(Answer(k, data), listening)).client;
              var f := UnpackFrame(data).value;
              && |t.requests| == |s.client.requests|
              && t.requests[k].fut == (match Classify(f.rpcId)
                                       case ErrorFrame => SystemError
                                       case Response => Result(f)
                                       case Notification => Waiting)
              && (s.client.requests[k].seqId in t.pending <==> Classify(f.rpcId).Notification?)
  {
    hide AnswerTo, UnpackFrame, Genuine, Step;
    DeliveredClient(dev, s, Answer(k, data), listening);
    AnswerGenuine(dev, s, k, data);
    if s.client.requests[k].seqId in s.client.pending {
      EntryOwner(s.client, k);
    }
  }

  /** However old, an answer with bit 7 changes no request and no entry. */
  lemma MarkedAnswerIgnored(dev: Device, s: System, k: nat, data: seq<byte>, listening: bool)
    requires Genuine(dev, s) && Answer(k, data) in s.down
    ensures UnpackFrame(data).Some?
    ensures Bit7(UnpackFrame(data).value.rpcId) ==>
              var t := Step(dev, s, Deliver(Answer(k, data), listening)).client;
              t.requests == s.client.requests && t.pending == s.client.pending
  {
    hide AnswerTo, UnpackFrame, Genuine, Step;
    DeliveredClient(dev, s, Answer(k, data), listening);
    AnswerGenuine(dev, s, k, data);
  }

  // Over whole runs.

  /** Only frames taken for responses are results. */
  predicate ResultsAreResponses(c: Py.State) {
    forall k :: 0 <= k < |c.requests| && c.requests[k].fut.Result? ==>
      Classify(c.requests[k].fut.frame.rpcId).Response?
  }

  lemma DatagramResults(c: Py.State, data: seq<byte>, listening: bool)
    requires Py.Valid(c) && ResultsAreResponses(c)
    ensures ResultsAreResponses(Py.Datagram(c, data, listening))
  {
    if UnpackFrame(data).Some? && UnpackFrame(data).value.seqId in c.pending {
      assert PendingOk(c, UnpackFrame(data).value.seqId);
    }
  }

  lemma StepResults(dev: Device, s: System, a: Action)
    requires Genuine(dev, s) && ResultsAreResponses(s.client)
    ensures ResultsAreResponses(Step(dev, s, a).client)
  {
    hide Handle, Py.Datagram, Genuine, Notified;
    GenuineClient(dev, s);
    if a.Deliver? {
      DatagramResults(s.client, a.down.data, a.listening);
    }
  }

  lemma {:induction false} RunResults(dev: Device, s: System, actions: seq<Action>)
    requires Genuine(dev, s) && ResultsAreResponses(s.client)
    ensures ResultsAreResponses(Ran(dev, s, actions).client)
    decreases |actions|
  {
    hide Step, Genuine, ResultsAreResponses;
    if actions != [] {
      StepGenuine(dev, s, actions[0]);
      StepResults(dev, s, actions[0]);
      RunResults(dev, Step(dev, s, actions[0]), actions[1..]);
    }
  }

  /** In no run with fresh deliveries does a request with bit 7 in its rpc id get a result. */
  lemma MarkedRequestsGetNoResult(dev: Device, actions: seq<Action>, bound: nat, k: nat)
    requires bound <= Py.PERIOD && (StartGenuine(dev); AllFresh(dev, START, actions, bound))
    ensures var c := Ran(dev, START, actions).client;
            k < |c.requests| && 0 <= c.requests[k].rpcId < 0x1_0000 && Bit7(c.requests[k].rpcId) ==>
              !c.requests[k].fut.Result?
  {
    hide Ran, AllFresh, Genuine, AnswerTo;
    StartGenuine(dev);
    Matching(dev, actions, bound);
    RunResults(dev, START, actions);
    var c := Ran(dev, START, actions).client;
    assert k < |c.requests| ==> MatchedAt(dev, c.requests[k]);
  }

  // From specifications.

  predicate Settles(data: seq<byte>) {
    UnpackFrame(data).Some? && !Classify(UnpackFrame(data).value.rpcId).Notification?
  }

  /** An answer that is no error comes from an entry that answers, under its id. */
  lemma AnswerInKind(dev: Device, r: Request)
    requires AnswerTo(dev, r).Some?
    ensures UnpackFrame(AnswerTo(dev, r).value).Some?
    ensures var f := UnpackFrame(AnswerTo(dev, r).value).value;
            f.rpcId != 0 ==>
              exists e :: e in dev.fw.table && e.hasResponse && e.rpcId == f.rpcId
  {
    hide Handle, UnpackFrame;
    AnswerShape(dev, r);
    var f := UnpackFrame(AnswerTo(dev, r).value).value;
    if f.rpcId != 0 {
      var data := r.Wire().value;
      PackedReadable(dev.fw, r.rpcId, r.seqId, r.payload);
      HandlerContract(dev.fw, FRESH, data, |data|, dev.tx);
      var frame := AnswerTo(dev, r).value;
      if Answers(frame, 0, r.seqId, dev.tx.value) {
        AnswersUnpack(frame, 0, r.seqId, dev.tx.value);
      }
      FoundHasId(dev.fw.table, r.rpcId);
    }
  }

  /** Every answer any firmware can give from this table can be settled by the client. */
  ghost predicate AllAnswersSettle(table: seq<Entry>) {
    forall dev: Device, r: Request ::
      dev.fw.table == table && AnswerTo(dev, r).Some? ==> Settles(AnswerTo(dev, r).value)
  }

  /** Firmware without structs and with content callbacks. */
  function Quiet(table: seq<Entry>): (dev: Device)
    ensures dev.fw.table == table
  {
    Device(Firmware(table, _ => None, _ => None, _ => 0,
                    (_, _, s) => Server.Decoded(true, s), (_, _) => Encoding([], true),
                    (_, _, _) => Executed(0, [], [], 0, [])),
           Some(64))
  }

  lemma QuietAnswers(table: seq<Entry>, e: Entry, r: Request)
    requires Find(table, e.rpcId) == Some(e) && e.hasResponse
    requires r.rpcId == e.rpcId && r.payload == []
    ensures AnswerTo(Quiet(table), r) == Some(Header(e.rpcId, r.seqId, 0))
  {
    hide Handle, Header;
    var data := r.Wire().value;
    PackedReadable(Quiet(table).fw, r.rpcId, r.seqId, r.payload);
    EmptyResponse(Quiet(table).fw, data, |data|, 64);
  }

  /**
   The server's answers can all be settled, whatever its callbacks do, if and only if the rpc ids of all
   answered rpcs of the specification are at most 127.
   */
  lemma AllAnswersSettleIff(spec: seq<Spec.Service>)
    requires Spec.Accepted(spec) && AllPresent(spec) && SpecNumbersOk(spec)
    ensures AllAnswersSettle(Table(spec)) <==> SevenBitAnswering(spec)
  {
    hide Spec.Accepted, Table, SevenBitAnswering, AnswerTo, UnpackFrame, Header, Quiet;
    SettleableIff(spec);
    var table := Table(spec);
    if Settleable(table) {
      forall dev: Device, r: Request | dev.fw.table == table && AnswerTo(dev, r).Some?
        ensures Settles(AnswerTo(dev, r).value)
      {
        AnswerInKind(dev, r);
      }
    } else {
      MarkedEntry(spec);
      var e :| e in table && e.hasResponse && Bit7(e.rpcId);
      UnsettledAnswer(spec, e);
    }
  }

  lemma MarkedEntry(spec: seq<Spec.Service>)
    requires Spec.Accepted(spec) && AllPresent(spec) && SpecNumbersOk(spec) && !SevenBitAnswering(spec)
    ensures exists e :: e in Table(spec) && e.hasResponse && Bit7(e.rpcId)
  {
    hide Spec.Accepted, Table, EntryAt, Answering;
    var i, j :| 0 <= i < |spec| && 0 <= j < |spec[i].rpcs| && Answering(spec, i, j) && RpcNum(spec, i, j) > 127;
    AnsweringEntry(spec, i, j);
    EntryKey(spec, i, j);
    var e := EntryAt(spec, i, j);
    assert e in Table(spec) && e.hasResponse && Bit7(e.rpcId);
  }

  lemma UnsettledAnswer(spec: seq<Spec.Service>, e: Entry)
    requires Spec.Accepted(spec) && AllPresent(spec) && SpecNumbersOk(spec)
    requires e in Table(spec) && e.hasResponse && Bit7(e.rpcId)
    ensures !AllAnswersSettle(Table(spec))
  {
    hide Spec.Accepted, Table, AnswerTo, Header, Quiet;
    var r := Py.Request.Request(e.rpcId, 1, [], Waiting);
    ScanIsLookup(spec, e);
    QuietAnswers(Table(spec), e, r);
    UnpackHeader(e.rpcId, 1, [], []);
    assert Header(e.rpcId, 1, 0) + [] + [] == Header(e.rpcId, 1, 0);
    var dev := Quiet(Table(spec));
    assert !Settles(AnswerTo(dev, r).value);
  }

  /** With seven-bit ids throughout, every fresh answer completes the request that waits for it. */
  lemma CompletionFromSpec(spec: seq<Spec.Service>, dev: Device, s: System, k: nat, data: seq<byte>, listening: bool)
    requires Spec.Accepted(spec) && AllPresent(spec) && SpecNumbersOk(spec) && SevenBitAnswering(spec)
    requires dev.fw.table == Table(spec) && Genuine(dev, s)
    requires Answer(k, data) in s.down && |s.client.requests| - k <= Py.PERIOD
    ensures k < |s.client.requests|
    ensures s.client.requests[k].fut.Waiting? && s.client.requests[k].seqId in s.client.pending ==>
              var t := Step(dev, s, Deliver(Answer(k, data), listening)).client;
              && |t.requests| == |s.client.requests|
              && (t.requests[k].fut.Result? || t.requests[k].fut.SystemError?)
              && s.client.requests[k].seqId !in t.pending
  {
    hide Spec.Accepted, Table, SevenBitAnswering, AnswerTo, UnpackFrame, Genuine, Step;
    AnswerGenuine(dev, s, k, data);
    AllAnswersSettleIff(spec);
    assert Settles(AnswerTo(dev, s.client.requests[k]).value);
    FreshAnswerCompletes(dev, s, k, data, listening);
  }

  /** Ask, let the server answer, deliver: a request with bit 7 in its rpc id waits on, and nothing is under way. */
  lemma MarkedRequestWaits(dev: Device, a: word, p: seq<byte>, answer: Frame)
    requires AnsweredBy(dev, Request.Request(a, 1, p, Waiting), answer) && Bit7(answer.rpcId)
    ensures Genuine(dev, START)
    ensures exists actions ::
              var t := Ran(dev, START, actions);
              t.client.requests == [Request.Request(a, 1, p, Waiting)] && t.up == multiset{} && t.down == multiset{}
  {
    hide AnswerTo, Genuine, Step, UnpackFrame, PackFrame;
    var first := Request.Request(a, 1, p, Waiting);
    var data := AnswerTo(dev, first).value;
    StartGenuine(dev);
    AskedAndAnswered(dev, a, p);
    var ask, take := Send(a, p), ServerTakes(Up(0, first.Wire().value));
    var late := Deliver(Answer(0, data), true);
    UnpackPack(answer.rpcId, answer.seqId, answer.payload);
    RanTwo(dev, START, ask, take);
    var two := Step(dev, Step(dev, START, ask), take);
    StepGenuine(dev, Step(dev, START, ask), take);
    RanConcat(dev, START, [ask, take], [late], 0);
    RanOne(dev, two, late);
    MarkedAnswerIgnored(dev, two, 0, data, true);
    DeliveredAway(dev, two, Answer(0, data));
    var t := Ran(dev, START, [ask, take] + [late]);
    assert t.client.requests == [first] && t.up == multiset{} && t.down == multiset{};
  }

  lemma DeliveredAway(dev: Device, s: System, m: Down)
    requires Genuine(dev, s)
    ensures Step(dev, s, Deliver(m, true)).up == s.up && Step(dev, s, Deliver(m, true)).down == s.down - multiset{m}
  {
    hide Genuine, Py.Datagram;
  }

  /** So it happens with an accepted specification: rpc 133 of the sensor service is answered, in vain. */
  lemma AcceptedIdNeverCompletes()
    ensures Spec.Accepted(CLASHING) && SpecNumbersOk(CLASHING) && !SevenBitAnswering(CLASHING)
    ensures var dev := Quiet(Table(CLASHING));
            Genuine(dev, START)
            && exists actions ::
                 var t := Ran(dev, START, actions);
                 && t.client.requests == [Request.Request(0x0785, 1, [], Waiting)]
                 && t.up == multiset{} && t.down == multiset{}
  {
    hide Spec.Accepted, Table, Genuine, Quiet, Ran, EntryAt, IdsDistinct;
    ClashIsAccepted();
    KindsOfClashing();
    AcceptedNumbersOk(CLASHING);
    assert Answering(CLASHING, 1, 1) && RpcNum(CLASHING, 1, 1) == 133;
    AnsweringEntry(CLASHING, 1, 1);
    EntryKey(CLASHING, 1, 1);
    var e := EntryAt(CLASHING, 1, 1);
    SensorWaits(Table(CLASHING), e);
  }

  lemma SensorWaits(table: seq<Entry>, e: Entry)
    requires Find(table, e.rpcId) == Some(e) && e.hasResponse && Bit7(e.rpcId)
    ensures Genuine(Quiet(table), START)
    ensures exists actions ::
              var t := Ran(Quiet(table), START, actions);
              && t.client.requests == [Request.Request(e.rpcId, 1, [], Waiting)]
              && t.up == multiset{} && t.down == multiset{}
  {
    hide AnswerTo, Quiet, Header, Genuine, Ran;
    var r := Request.Request(e.rpcId, 1, [], Waiting);
    QuietAnswers(table, e, r);
    assert Header(e.rpcId, 1, 0) + [] == Header(e.rpcId, 1, 0);
    MarkedRequestWaits(Quiet(table), e.rpcId, [], Frame(e.rpcId, 1, []));
  }
}
