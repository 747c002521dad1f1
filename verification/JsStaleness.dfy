/**
 How old an answer may be before the JavaScript client takes it for another one, and what a frame built by hand
 under a pending identifier does.
 */
module JsStaleness {
  import opened Bytes
  import opened Wire
  import opened Nanopb
  import opened Server
  import Js = JsClient
  import opened Protocol
  import opened JsProtocol
  import Staleness

  /** Frames built by hand. */
  function JsBuilds(n: nat): seq<JsAction> {
    if n == 0 then [] else [Build(0, [])] + JsBuilds(n - 1)
  }

  lemma {:induction false} JsRanConcat(
    dev: Device, s: JsSystem, a: seq<JsAction>, b: seq<JsAction>, bound: nat, guarded: bool)
    requires Faithful(dev, s)
    ensures JsRan(dev, s, a + b) == JsRan(dev, JsRan(dev, s, a), b)
    ensures AllJsFresh(dev, s, a + b, bound, guarded)
       <==> AllJsFresh(dev, s, a, bound, guarded) && AllJsFresh(dev, JsRan(dev, s, a), b, bound, guarded)
    decreases |a|
  {
    hide JsStep, Faithful, JsFresh;
    if a == [] {
      assert a + b == b;
    } else {
      assert (a + b)[0] == a[0] && (a + b)[1..] == a[1..] + b;
      JsStepFaithful(dev, s, a[0]);
      JsRanConcat(dev, JsStep(dev, s, a[0]), a[1..], b, bound, guarded);
    }
  }

  lemma JsRanOne(dev: Device, s: JsSystem, a: JsAction, bound: nat, guarded: bool)
    requires Faithful(dev, s)
    ensures Faithful(dev, JsStep(dev, s, a)) && JsRan(dev, s, [a]) == JsStep(dev, s, a)
    ensures AllJsFresh(dev, s, [a], bound, guarded) <==> JsFresh(s, a, bound, guarded)
  {
    hide JsStep, Faithful, JsFresh;
    JsStepFaithful(dev, s, a);
    assert [a][1..] == [];
  }

  lemma JsRanTwo(dev: Device, s: JsSystem, a: JsAction, b: JsAction, bound: nat, guarded: bool)
    requires Faithful(dev, s)
    ensures Faithful(dev, JsStep(dev, s, a)) && JsRan(dev, s, [a, b]) == JsStep(dev, JsStep(dev, s, a), b)
    ensures AllJsFresh(dev, s, [a, b], bound, guarded)
       <==> JsFresh(s, a, bound, guarded) && JsFresh(JsStep(dev, s, a), b, bound, guarded)
  {
    hide JsStep, Faithful, JsFresh, JsRan, AllJsFresh;
    JsRanOne(dev, s, a, bound, guarded);
    JsRanOne(dev, JsStep(dev, s, a), b, bound, guarded);
    assert [a] + [b] == [a, b];
    JsRanConcat(dev, s, [a], [b], bound, guarded);
  }

  /** `t` is `s` after `n` frames built by hand, none of them answered. */
  predicate BuiltOn(s: JsSystem, t: JsSystem, n: nat) {
    && t.client == s.client.(seqId := t.client.seqId, issued := s.client.issued + n)
    && t.down == s.down && s.asked <= t.asked
  }

  /** None of the next `n` identifiers is pending: only 1 is, and the counter does not come round to it. */
  predicate Spares(c: Js.State, n: nat) {
    c.pending.Keys <= {1} && 1 <= c.issued && c.issued + n <= Js.PERIOD
  }

  lemma OneBuilt(dev: Device, s: JsSystem, n: nat, bound: nat)
    requires Faithful(dev, s)
    ensures Faithful(dev, JsStep(dev, s, Build(0, []))) && BuiltOn(s, JsStep(dev, s, Build(0, [])), 1)
    ensures Spares(s.client, n + 1) ==>
              JsFresh(s, Build(0, []), bound, true) && Spares(JsStep(dev, s, Build(0, [])).client, n)
  {
    hide Faithful;
    FaithfulClient(dev, s);
    JsStepFaithful(dev, s, Build(0, []));
    Js.Next(s.client.issued);
  }

  lemma {:induction false} RanJsBuilds(dev: Device, s: JsSystem, n: nat, bound: nat, guarded: bool)
    requires Faithful(dev, s) && (guarded ==> Spares(s.client, n))
    ensures BuiltOn(s, JsRan(dev, s, JsBuilds(n)), n) && AllJsFresh(dev, s, JsBuilds(n), bound, guarded)
    decreases n
  {
    hide Faithful, JsStep, Spares;
    if n > 0 {
      assert JsBuilds(n)[1..] == JsBuilds(n - 1);
      OneBuilt(dev, s, n - 1, bound);
      RanJsBuilds(dev, JsStep(dev, s, Build(0, [])), n - 1, bound, guarded);
    }
  }

  /** The server answers a frame under way. */
  lemma AnswerTaken(dev: Device, s: JsSystem, n: nat, data: seq<byte>)
    requires Faithful(dev, s) && n < |s.asked| && AnswerTo(dev, s.asked[n]) == Some(data)
    requires s.asked[n].Wire().Some? && Up(n, s.asked[n].Wire().value) in s.up
    ensures var t := JsStep(dev, s, Take(Up(n, s.asked[n].Wire().value)));
            t.client == s.client && t.asked == s.asked && t.down == s.down + multiset{Answer(n, data)}
  {
    hide Handle, Faithful, AnswerTo;
    FaithfulClient(dev, s);
    Staleness.TooLongUnanswered(dev, s.asked[n]);
    AnswerOfWire(dev, s.statics, s.asked[n], s.asked[n].Wire().value);
  }

  /** An answer that meets the entry of a request for another rpc settles that request. */
  lemma WrongArrival(dev: Device, s: JsSystem, n: nat, data: seq<byte>, frame: Frame, k: nat, listening: bool)
    requires Faithful(dev, s) && Answer(n, data) in s.down
    requires PackFrame(frame.rpcId, frame.seqId, frame.payload) == Some(data)
    requires frame.seqId in s.client.pending && s.client.pending[frame.seqId] == k < |s.client.promises|
    requires frame.rpcId != 0 && frame.rpcId != AskedBy(s.client, s.asked, k).rpcId
    ensures var t := JsStep(dev, s, Arrive(Answer(n, data), listening));
            && Faithful(dev, t) && !JsMatched(dev, t.client, t.asked) && t.asked == s.asked
            && t.client.promises == Js.WithStatus(s.client.promises, k, Js.Resolved(frame))
  {
    hide AnswerTo, UnpackFrame, PackFrame, Js.Datagram, Js.Valid, Faithful;
    UnpackPack(frame.rpcId, frame.seqId, frame.payload);
    FaithfulClient(dev, s);
    JsStepFaithful(dev, s, Arrive(Answer(n, data), listening));
    var t := JsStep(dev, s, Arrive(Answer(n, data), listening));
    FaithfulClient(dev, t);
    DatagramShrinks(s.client, data, listening);
    Settles(s.client, data, listening, k);
    var r := AskedBy(t.client, t.asked, k);
    assert t.client.promises[k].status == Js.Resolved(frame);
    OtherRpc(dev, frame, r);
    assert !SettledRight(dev, t.client.promises[k].status, r);
  }

  lemma OtherRpc(dev: Device, f: Frame, r: Request)
    requires f.rpcId != 0 && f.rpcId != r.rpcId
    ensures !Interchangeable(dev, f, r)
  {
    hide AnswerTo, UnpackFrame;
    if AnswerTo(dev, r).Some? {
      AnswerShape(dev, r);
    }
  }

  /** The server answers the request for `a`, made under identifier 1, with a frame of that rpc. */
  predicate AnswersInKind(dev: Device, a: word, p: seq<byte>, answer: Frame) {
    answer.rpcId == a != 0 && Staleness.AnsweredBy(dev, Masked(a, 1, p), answer)
  }

  lemma InKindShape(dev: Device, a: word, p: seq<byte>, answer: Frame)
    requires AnswersInKind(dev, a, p, answer)
    ensures answer.seqId == 1
    ensures AnswerTo(dev, Masked(a, 1, p)).Some?
    ensures AnswerTo(dev, Masked(a, 1, p)) == PackFrame(answer.rpcId, answer.seqId, answer.payload)
  {
    hide AnswerTo, UnpackFrame, PackFrame;
    AnswerShape(dev, Masked(a, 1, p));
    UnpackPack(answer.rpcId, answer.seqId, answer.payload);
  }

  /** A frame that goes out under identifier 1, with sendRequest or by hand, is answered. */
  lemma SentAndTaken(dev: Device, s: JsSystem, a: word, p: seq<byte>, answer: Frame, x: JsAction)
    returns (take: JsAction, data: seq<byte>)
    requires Faithful(dev, s) && Js.NextSeqId(s.client.seqId) == 1 && AnswersInKind(dev, a, p, answer)
    requires x == Ask(a, p) || x == Build(a, p)
    ensures take.Take? && Faithful(dev, JsStep(dev, s, x))
    ensures answer.rpcId == a != 0 && answer.seqId == 1
    ensures PackFrame(answer.rpcId, answer.seqId, answer.payload) == Some(data)
    ensures var t := JsStep(dev, JsStep(dev, s, x), take);
            && t.client == (if x.Ask? then Js.Sent(s.client) else Js.Built(s.client))
            && t.asked == s.asked + [Masked(a, 1, p)] && Answer(|s.asked|, data) in t.down
  {
    hide AnswerTo, Faithful, UnpackFrame, PackFrame;
    JsStepFaithful(dev, s, x);
    InKindShape(dev, a, p, answer);
    var r := Masked(a, 1, p);
    data := AnswerTo(dev, r).value;
    Staleness.TooLongUnanswered(dev, r);
    take := Take(Up(|s.asked|, r.Wire().value));
    var one := JsStep(dev, s, x);
    assert one.asked == s.asked + [r];
    AnswerTaken(dev, one, |s.asked|, data);
  }

  /** The client after one request: it waits under identifier 1. */
  lemma FirstAsked(dev: Device, b: nat, q: seq<byte>)
    ensures Faithful(dev, JS_START) && Faithful(dev, JsStep(dev, JS_START, Ask(b, q)))
    ensures Js.NextSeqId(JS_START.client.seqId) == 1
    ensures var c := Js.Sent(Js.INITIAL);
            c.seqId == 1 && c.issued == 1 && c.pending == map[1 := 0] && c.promises == [Js.Promise(1, 1, Js.Open)]
    ensures var t := JsStep(dev, JS_START, Ask(b, q));
            t.client == Js.Sent(Js.INITIAL) && t.asked == [Masked(b, 1, q)]
  {
    hide Faithful;
    JsStartFaithful(dev);
    JsStepFaithful(dev, JS_START, Ask(b, q));
  }

  /** One request, 65535 frames built by hand, and then the answer to another one settles the request. */
  lemma BuiltAnswerMisdelivered(
    dev: Device, a: word, p: seq<byte>, answer: Frame, b: word, q: seq<byte>, bound: nat)
    returns (actions: seq<JsAction>)
    requires AnswersInKind(dev, a, p, answer) && b != a && bound > 0
    ensures Faithful(dev, JS_START) && AllJsFresh(dev, JS_START, actions, bound, false) && !JsSafe(dev, actions)
    ensures JsRan(dev, JS_START, actions).client.promises == [Js.Promise(1, 1, Js.Resolved(answer))]
  {
    hide AnswersInKind, Faithful, JsSafe, JsRan, AllJsFresh;
    JsStartFaithful(dev);
    actions := BuiltRun(dev, a, p, answer, b, q, bound, Js.PERIOD - 1);
  }

  lemma BuiltRun(
    dev: Device, a: word, p: seq<byte>, answer: Frame, b: word, q: seq<byte>, bound: nat, n: nat)
    returns (actions: seq<JsAction>)
    requires AnswersInKind(dev, a, p, answer) && b != a && bound > 0 && n + 1 == Js.PERIOD
    ensures Faithful(dev, JS_START) && AllJsFresh(dev, JS_START, actions, bound, false) && !JsSafe(dev, actions)
    ensures JsRan(dev, JS_START, actions).client.promises == [Js.Promise(1, 1, Js.Resolved(answer))]
  {
    hide AnswersInKind, Faithful, JsStep, JsRan, AllJsFresh, PackFrame, JsMatched, JsBuilds;
    FirstAsked(dev, b, q);
    var first := Ask(b, q);
    var one := JsStep(dev, JS_START, first);
    JsRanOne(dev, JS_START, first, bound, false);
    RanJsBuilds(dev, one, n, bound, false);
    JsRanConcat(dev, JS_START, [first], JsBuilds(n), bound, false);
    var two := JsRan(dev, one, JsBuilds(n));
    var build := Build(a, p);
    RoundBuilt(dev, one, two, n);
    var take, data := SentAndTaken(dev, two, a, p, answer, build);
    JsRanTwo(dev, two, build, take, bound, false);
    JsRanConcat(dev, JS_START, [first] + JsBuilds(n), [build, take], bound, false);
    var three := JsRan(dev, two, [build, take]);
    var late := Arrive(Answer(|two.asked|, data), true);
    FaithfulClient(dev, three);
    WrongArrival(dev, three, |two.asked|, data, answer, 0, true);
    JsRanOne(dev, three, late, bound, false);
    actions := [first] + JsBuilds(n) + [build, take] + [late];
    JsRanConcat(dev, JS_START, [first] + JsBuilds(n) + [build, take], [late], bound, false);
  }

  lemma RoundBuilt(dev: Device, one: JsSystem, two: JsSystem, n: nat)
    requires Faithful(dev, one) && Faithful(dev, two) && BuiltOn(one, two, n)
    requires one.client == Js.Sent(Js.INITIAL) && n + 1 == Js.PERIOD
    ensures |two.asked| == two.client.issued == Js.PERIOD && Js.NextSeqId(two.client.seqId) == 1
  {
    hide Faithful;
    FaithfulClient(dev, two);
  }

  /** An answer that arrives 65536 allocations after its request settles the request that took over its identifier. */
  lemma LateAnswerMisdelivered(
    dev: Device, a: word, p: seq<byte>, answer: Frame, b: word, q: seq<byte>, bound: nat)
    returns (actions: seq<JsAction>)
    requires AnswersInKind(dev, a, p, answer) && b != a && bound > Js.PERIOD
    ensures Faithful(dev, JS_START) && AllJsFresh(dev, JS_START, actions, bound, true) && !JsSafe(dev, actions)
    ensures JsRan(dev, JS_START, actions).client.promises
         == [Js.Promise(1, 1, Js.Open), Js.Promise(1, Js.PERIOD + 1, Js.Resolved(answer))]
  {
    hide AnswersInKind, Faithful, JsSafe, JsRan, AllJsFresh;
    JsStartFaithful(dev);
    actions := LateRun(dev, a, p, answer, b, q, bound, Js.PERIOD - 1);
  }

  lemma LateRun(
    dev: Device, a: word, p: seq<byte>, answer: Frame, b: word, q: seq<byte>, bound: nat, n: nat)
    returns (actions: seq<JsAction>)
    requires AnswersInKind(dev, a, p, answer) && b != a && n + 1 == Js.PERIOD < bound
    ensures Faithful(dev, JS_START) && AllJsFresh(dev, JS_START, actions, bound, true) && !JsSafe(dev, actions)
    ensures JsRan(dev, JS_START, actions).client.promises
         == [Js.Promise(1, 1, Js.Open), Js.Promise(1, Js.PERIOD + 1, Js.Resolved(answer))]
  {
    hide AnswersInKind, Faithful, JsStep, JsRan, AllJsFresh, PackFrame, JsMatched, JsBuilds;
    FirstAsked(dev, a, p);
    var ask := Ask(a, p);
    var take, data := SentAndTaken(dev, JS_START, a, p, answer, ask);
    JsRanTwo(dev, JS_START, ask, take, bound, true);
    var one := JsRan(dev, JS_START, [ask, take]);
    RanJsBuilds(dev, one, n, bound, true);
    JsRanConcat(dev, JS_START, [ask, take], JsBuilds(n), bound, true);
    var two := JsRan(dev, one, JsBuilds(n));
    var again := Ask(b, q);
    RoundBuilt(dev, one, two, n);
    JsRanOne(dev, two, again, bound, true);
    JsRanConcat(dev, JS_START, [ask, take] + JsBuilds(n), [again], bound, true);
    var three := JsStep(dev, two, again);
    AskedAgain(dev, two, b, q);
    var late := Arrive(Answer(0, data), true);
    FaithfulClient(dev, three);
    WrongArrival(dev, three, 0, data, answer, 1, true);
    JsRanOne(dev, three, late, bound, true);
    actions := [ask, take] + JsBuilds(n) + [again] + [late];
    JsRanConcat(dev, JS_START, [ask, take] + JsBuilds(n) + [again], [late], bound, true);
  }

  lemma AskedAgain(dev: Device, s: JsSystem, b: word, q: seq<byte>)
    requires Faithful(dev, s) && Js.NextSeqId(s.client.seqId) == 1
    ensures var t := JsStep(dev, s, Ask(b, q));
            && t.client == Js.Sent(s.client) && t.down == s.down && t.asked == s.asked + [Masked(b, 1, q)]
  {
    hide Faithful, PackFrame;
  }

  /**
   Both conditions are exact.  For a server that answers some request in kind, all runs in which answers stem from
   the latest `bound` allocations, frames built by hand avoid pending identifiers if `guarded`, and no event arrives
   while zero is pending are safe, if and only if `bound` is at most 65536 and `guarded` holds; or no answer arrives.
   */
  lemma JsAgeBoundIff(dev: Device, a: word, p: seq<byte>, answer: Frame, bound: nat, guarded: bool)
    requires AnswersInKind(dev, a, p, answer)
    ensures Faithful(dev, JS_START)
    ensures (forall actions :: AllJsFresh(dev, JS_START, actions, bound, guarded) ==> JsSafe(dev, actions))
       <==> bound == 0 || (bound <= Js.PERIOD && guarded)
  {
    hide AnswersInKind, Faithful, JsSafe, AllJsFresh;
    JsStartFaithful(dev);
    if Within(bound, guarded) {
      forall actions | AllJsFresh(dev, JS_START, actions, bound, guarded)
        ensures JsSafe(dev, actions)
      {
        JsMatching(dev, actions, bound, guarded);
      }
    } else if guarded {
      var actions := LateAnswerMisdelivered(dev, a, p, answer, if a == 1 then 2 else 1, [], bound);
    } else {
      var actions := BuiltAnswerMisdelivered(dev, a, p, answer, if a == 1 then 2 else 1, [], bound);
    }
  }

  /** So there is a server and a run in which a request for 0x0702 is resolved with an answer for 0x0701. */
  lemma BuiltMisdeliveryHappens() returns (actions: seq<JsAction>)
    ensures Faithful(Staleness.NOOP, JS_START) && AllJsFresh(Staleness.NOOP, JS_START, actions, 1, false)
    ensures !JsSafe(Staleness.NOOP, actions)
  {
    hide Faithful, JsSafe, AllJsFresh, Staleness.AnsweredBy;
    Staleness.NoopAnswers();
    actions := BuiltAnswerMisdelivered(Staleness.NOOP, 0x0701, [], Frame(0x0701, 1, []), 0x0702, [], 1);
  }
}
