/** How old an answer may be before it is delivered to the wrong request. */
module Staleness {
  import opened Bytes
  import opened Wire
  import opened Nanopb
  import opened Server
  import opened Py = PyClient
  import opened Protocol

  function Sends(rpcId: int, payload: seq<byte>, n: nat): seq<Action> {
    if n == 0 then [] else [Send(rpcId, payload)] + Sends(rpcId, payload, n - 1)
  }

  lemma {:induction false} RanConcat(dev: Device, s: System, a: seq<Action>, b: seq<Action>, bound: nat)
    requires Genuine(dev, s)
    ensures Genuine(dev, Ran(dev, s, a))
    ensures Ran(dev, s, a + b) == Ran(dev, Ran(dev, s, a), b)
    ensures AllFresh(dev, s, a + b, bound) <==> AllFresh(dev, s, a, bound) && AllFresh(dev, Ran(dev, s, a), b, bound)
    decreases |a|
  {
    hide Step, Genuine, FreshDelivery;
    if a == [] {
      assert a + b == b;
    } else {
      assert (a + b)[0] == a[0] && (a + b)[1..] == a[1..] + b;
      StepGenuine(dev, s, a[0]);
      RanConcat(dev, Step(dev, s, a[0]), a[1..], b, bound);
    }
  }

  /** Sending a packable frame over and over: answers under way stay, the last send owns its entry and waits. */
  lemma {:induction false} RanSends(dev: Device, s: System, rpcId: int, payload: seq<byte>, n: nat)
    requires Genuine(dev, s) && 0 <= rpcId < 0x1_0000 && |payload| < 0x1_0000 && n > 0
    ensures var t := Ran(dev, s, Sends(rpcId, payload, n));
            var last := |s.client.requests| + n - 1;
            && t.down == s.down
            && |t.client.requests| == last + 1
            && t.client.requests[last] == Request(rpcId, SeqAt(last), payload, Waiting)
            && SeqAt(last) in t.client.pending && t.client.pending[SeqAt(last)] == last
    decreases n
  {
    hide Genuine, UpOk, DownOk;
    var one := Step(dev, s, Send(rpcId, payload));
    var rest := Sends(rpcId, payload, n - 1);
    StepGenuine(dev, s, Send(rpcId, payload));
    GenuineClient(dev, s);
    GenuineClient(dev, one);
    assert Sends(rpcId, payload, n) == [Send(rpcId, payload)] + rest;
    assert Ran(dev, s, Sends(rpcId, payload, n)) == Ran(dev, one, rest);
    if n > 1 {
      RanSends(dev, one, rpcId, payload, n - 1);
    }
  }

  /**
   An answer delivered exactly 65535 sends after its request completes a different request: a server
   that answers some request in kind admits a run ending in a request completed with another one's frame.
   */
  lemma StaleAnswerMisdelivered(dev: Device, a: word, p: seq<byte>, answer: Frame, b: word, q: seq<byte>)
    returns (actions: seq<Action>)
    requires a != b && |q| < 0x1_0000 && !Bit7(a)
    requires AnsweredBy(dev, Request(a, 1, p, Waiting), answer) && answer.rpcId == a != 0
    ensures Genuine(dev, START) && AllFresh(dev, START, actions, Py.PERIOD + 1)
    ensures var c := Ran(dev, START, actions).client;
            && |c.requests| == Py.PERIOD + 1
            && c.requests[Py.PERIOD] == Request(b, 1, q, Result(answer))
            && !Matched(dev, c)
  {
    hide Genuine, Matched, AnsweredBy, Ran, AllFresh;
    StartGenuine(dev);
    SeqRepeats(0, Py.PERIOD);
    actions := StaleRun(dev, a, p, answer, b, q, Py.PERIOD);
  }

  predicate AnsweredBy(dev: Device, r: Request, answer: Frame) {
    AnswerTo(dev, r).Some? && AnswerTo(dev, r) == PackFrame(answer.rpcId, answer.seqId, answer.payload)
  }

  lemma StaleRun(dev: Device, a: word, p: seq<byte>, answer: Frame, b: word, q: seq<byte>, n: nat)
    returns (actions: seq<Action>)
    requires a != b && |q| < 0x1_0000 && !Bit7(a)
    requires AnsweredBy(dev, Request(a, 1, p, Waiting), answer) && answer.rpcId == a != 0
    requires n > 0 && SeqAt(n) == 1
    ensures Genuine(dev, START) && AllFresh(dev, START, actions, n + 1)
    ensures var c := Ran(dev, START, actions).client;
            && |c.requests| == n + 1
            && c.requests[n] == Request(b, 1, q, Result(answer))
            && !Matched(dev, c)
  {
    hide AnswerTo, Genuine, Step, Matched, Sends, UnpackFrame, PackFrame, SeqAt, AllFresh, Ran;
    var first := Request(a, 1, p, Waiting);
    var data := AnswerTo(dev, first).value;
    AnswerShape(dev, first);
    UnpackPack(answer.rpcId, answer.seqId, answer.payload);
    StartGenuine(dev);
    AskedAndAnswered(dev, a, p);
    var up := Up(0, first.Wire().value);
    var ask := [Send(a, p), ServerTakes(up)];
    var two := Step(dev, Step(dev, START, Send(a, p)), ServerTakes(up));
    RanTwo(dev, START, Send(a, p), ServerTakes(up));
    var many := Sends(b, q, n);
    var late := Deliver(Answer(0, data), true);
    actions := ask + many + [late];
    RanConcat(dev, START, ask + many, [late], n + 1);
    RanConcat(dev, START, ask, many, n + 1);
    RanSends(dev, two, b, q, n);
    SendsFresh(dev, two, b, q, n, n + 1);
    var three := Ran(dev, two, many);
    RanOne(dev, three, late);
    OneFresh(dev, three, late, n + 1);
    TwoFresh(dev, START, Send(a, p), ServerTakes(up), n + 1);
    LateDelivery(dev, three, data, a, b, q, n);
  }

  /**
   The age bound, exactly: for a server that answers some request in kind, all runs whose deliveries stem
   from the latest `bound` sends leave every completed request with its own answer if and only if `bound`
   is at most 65535.
   */
  lemma AgeBoundIff(dev: Device, a: word, p: seq<byte>, answer: Frame, bound: nat)
    requires !Bit7(a)
    requires AnsweredBy(dev, Request(a, 1, p, Waiting), answer) && answer.rpcId == a != 0
    ensures Genuine(dev, START)
    ensures (forall actions :: AllFresh(dev, START, actions, bound) ==> Matched(dev, Ran(dev, START, actions).client))
       <==> bound <= Py.PERIOD
  {
    hide Genuine, Matched, AnsweredBy, Ran, AllFresh;
    StartGenuine(dev);
    if bound <= Py.PERIOD {
      forall actions | AllFresh(dev, START, actions, bound)
        ensures Matched(dev, Ran(dev, START, actions).client)
      {
        Matching(dev, actions, bound);
      }
    } else {
      var actions := StaleAnswerMisdelivered(dev, a, p, answer, if a == 1 then 2 else 1, []);
      FreshMonotone(dev, START, actions, Py.PERIOD + 1, bound);
    }
  }

  lemma {:induction false} FreshMonotone(dev: Device, s: System, actions: seq<Action>, bound: nat, wider: nat)
    requires Genuine(dev, s) && AllFresh(dev, s, actions, bound) && bound <= wider
    ensures AllFresh(dev, s, actions, wider)
    decreases |actions|
  {
    hide Step, Genuine;
    if actions != [] {
      StepGenuine(dev, s, actions[0]);
      FreshMonotone(dev, Step(dev, s, actions[0]), actions[1..], bound, wider);
    }
  }

  /** Sends deliver nothing. */
  lemma {:induction false} SendsFresh(dev: Device, s: System, rpcId: int, payload: seq<byte>, n: nat, bound: nat)
    requires Genuine(dev, s)
    ensures AllFresh(dev, s, Sends(rpcId, payload, n), bound)
    decreases n
  {
    hide Step, Genuine;
    if n > 0 {
      var send := Send(rpcId, payload);
      StepGenuine(dev, s, send);
      assert Sends(rpcId, payload, n)[1..] == Sends(rpcId, payload, n - 1);
      SendsFresh(dev, Step(dev, s, send), rpcId, payload, n - 1, bound);
    }
  }

  lemma OneFresh(dev: Device, s: System, a: Action, bound: nat)
    requires Genuine(dev, s)
    ensures AllFresh(dev, s, [a], bound) <==> FreshDelivery(s, a, bound)
  {
    hide Step, Genuine, FreshDelivery;
    StepGenuine(dev, s, a);
    assert [a][1..] == [];
  }

  lemma TwoFresh(dev: Device, s: System, a: Action, b: Action, bound: nat)
    requires Genuine(dev, s) && !a.Deliver? && !b.Deliver?
    ensures AllFresh(dev, s, [a, b], bound)
  {
    hide Step, Genuine;
    StepGenuine(dev, s, a);
    assert [a, b][1..] == [b];
    OneFresh(dev, Step(dev, s, a), b, bound);
  }

  lemma RanOne(dev: Device, s: System, a: Action)
    requires Genuine(dev, s)
    ensures Ran(dev, s, [a]) == Step(dev, s, a)
  {
    hide Step, Genuine;
    StepGenuine(dev, s, a);
    assert [a][1..] == [];
  }

  lemma RanTwo(dev: Device, s: System, a: Action, b: Action)
    requires Genuine(dev, s)
    ensures Genuine(dev, Step(dev, s, a))
    ensures Ran(dev, s, [a, b]) == Step(dev, Step(dev, s, a), b)
  {
    hide Step, Genuine;
    StepGenuine(dev, s, a);
    assert [a, b][1..] == [b];
    RanOne(dev, Step(dev, s, a), b);
  }

  /** The first request is sent as number 0 under sequence number 1 and answered. */
  lemma AskedAndAnswered(dev: Device, a: word, p: seq<byte>)
    requires AnswerTo(dev, Request(a, 1, p, Waiting)).Some?
    ensures Genuine(dev, START) && Genuine(dev, Step(dev, START, Send(a, p)))
    ensures var first := Request(a, 1, p, Waiting);
            first.Wire().Some?
            && var t := Step(dev, Step(dev, START, Send(a, p)), ServerTakes(Up(0, first.Wire().value)));
               && t.up == multiset{} && t.down == multiset{Answer(0, AnswerTo(dev, first).value)}
               && t.client.requests == [first]
  {
    hide AnswerTo, Handle, Genuine;
    StartGenuine(dev);
    StepGenuine(dev, START, Send(a, p));
    var first := Request(a, 1, p, Waiting);
    TooLongUnanswered(dev, first);
    var one := Step(dev, START, Send(a, p));
    assert first.Wire().Some?;
    assert one.client.requests == [first];
    var up := Up(0, first.Wire().value);
    assert up in one.up;
    assert UpOk(one, up);
    TakenGenuine(dev, one, up);
  }

  lemma TooLongUnanswered(dev: Device, r: Request)
    requires AnswerTo(dev, r).Some?
    ensures r.Wire().Some? && |r.Wire().value| < 0x1_0000
  {
  }

  lemma LateDelivery(dev: Device, s: System, data: seq<byte>, a: word, b: word, q: seq<byte>, n: nat)
    requires Genuine(dev, s) && a != b && a != 0 && !Bit7(a)
    requires Answer(0, data) in s.down && UnpackFrame(data).Some?
    requires UnpackFrame(data).value.rpcId == a && UnpackFrame(data).value.seqId == 1
    requires |s.client.requests| == n + 1
    requires s.client.requests[n] == Request(b, 1, q, Waiting)
    requires 1 in s.client.pending && s.client.pending[1] == n
    ensures var c := Step(dev, s, Deliver(Answer(0, data), true)).client;
            && |c.requests| == n + 1
            && c.requests[n] == Request(b, 1, q, Result(UnpackFrame(data).value))
            && !Matched(dev, c)
  {
    hide AnswerTo;
    var c := Step(dev, s, Deliver(Answer(0, data), true)).client;
    assert !MatchedAt(dev, c.requests[n]);
  }

  /** A server with one rpc, 0x0701, that takes and returns nothing. */
  const NOOP := Device(
    Firmware([Entry(0x0701, true, None, None)],
             _ => None, _ => None, _ => 0,
             (_, _, s) => Server.Decoded(true, s), (_, _) => Encoding([], true),
             (_, _, _) => Executed(0, [], [], 0, [])),
    Some(64))

  lemma NoopAnswers()
    ensures AnsweredBy(NOOP, Request(0x0701, 1, [], Waiting), Frame(0x0701, 1, []))
  {
    hide AnsweredBy;
    NoopAnswersUnder(NOOP, Request(0x0701, 1, [], Waiting));
  }

  lemma NoopAnswersUnder(dev: Device, r: Request)
    requires dev == NOOP && r.rpcId == 0x0701 && r.payload == []
    ensures AnsweredBy(dev, r, Frame(r.rpcId, r.seqId, []))
  {
    hide Handle, Header;
    var data := r.Wire().value;
    PackedReadable(dev.fw, r.rpcId, r.seqId, r.payload);
    EmptyResponse(dev.fw, data, |data|, 64);
    assert Header(r.rpcId, r.seqId, 0) + [] == Header(r.rpcId, r.seqId, 0);
  }

  /** So there is a run in which a request for 0x0702, unknown to the server, completes with an answer of 0x0701. */
  lemma MisdeliveryHappens() returns (actions: seq<Action>)
    ensures Genuine(NOOP, START) && !Matched(NOOP, Ran(NOOP, START, actions).client)
  {
    hide Genuine, Matched, AnsweredBy, Ran, AllFresh;
    NoopAnswers();
    actions := StaleAnswerMisdelivered(NOOP, 0x0701, [], Frame(0x0701, 1, []), 0x0702, []);
  }
}
