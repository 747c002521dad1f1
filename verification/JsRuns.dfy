/** Conservation over every run of the JavaScript client: each request settles at most once and none is lost. */
module JsRuns {
  import opened Bytes
  import opened Wire
  import opened JsClient
  import JsCobs

  datatype Action =
    | Send
    | Build
    | Bytes(chunk: seq<byte>, listening: bool)
    | RawDatagram(data: seq<byte>, listening: bool)
    | Fire(k: nat)
    | ResetAccumulator

  function Step(s: State, a: Action): (t: State)
    requires Valid(s)
    ensures Valid(t)
  {
    match a
    case Send => SentKeepsValid(s); Sent(s)
    case Build => BuiltKeepsValid(s); Built(s)
    case Bytes(chunk, listening) => Received(s, chunk, listening)
    case RawDatagram(data, listening) => DatagramKeepsValid(s, data, listening); Datagram(s, data, listening)
    case Fire(k) => FiredKeepsValid(s, k); Fired(s, k)
    case ResetAccumulator => ResetSettlesAll(s); Reset(s)
  }

  function Ran(s: State, actions: seq<Action>): (t: State)
    requires Valid(s)
    ensures Valid(t)
    decreases |actions|
  {
    if actions == [] then s else Ran(Step(s, actions[0]), actions[1..])
  }

  /** No send of the run hands out an identifier that is pending at that moment. */
  predicate NoReuse(s: State, actions: seq<Action>)
    requires Valid(s)
    decreases |actions|
  {
    actions == [] ||
    ((actions[0].Send? ==> NextSeqId(s.seqId) !in s.pending) && NoReuse(Step(s, actions[0]), actions[1..]))
  }

  // The accumulator.

  /** What the accumulator can hold: at most 4096 bytes and no delimiter. */
  predicate AccOk(s: State) { ZeroFree(s.acc) && |s.acc| <= ACC_MAX }

  lemma {:induction false} ReceivedAcc(s: State, bytes: seq<byte>, listening: bool)
    requires Valid(s) && AccOk(s)
    ensures AccOk(Received(s, bytes, listening))
    decreases |bytes|
  {
    if bytes != [] {
      OneByteAcc(s, bytes[0], listening);
      ReceivedAcc(OneByte(s, bytes[0], listening), bytes[1..], listening);
    }
  }

  lemma OneByteAcc(s: State, b: byte, listening: bool)
    requires Valid(s) && AccOk(s)
    ensures AccOk(OneByte(s, b, listening))
  {
    hide Valid, Packet;
    if b == 0 {
      AccFree(s, []);
      PacketKeepsValid(s.(acc := []), s.acc, listening);
    }
  }

  /** So it does throughout every run, which the theorems on the stream receiver start from. */
  lemma {:induction false} RunAcc(s: State, actions: seq<Action>)
    requires Valid(s) && AccOk(s)
    ensures AccOk(Ran(s, actions))
    decreases |actions|
  {
    hide Valid, Received, Datagram;
    if actions != [] {
      match actions[0] {
        case Bytes(chunk, listening) => ReceivedAcc(s, chunk, listening);
        case RawDatagram(data, listening) => DatagramKeepsValid(s, data, listening);
        case _ =>
      }
      RunAcc(Step(s, actions[0]), actions[1..]);
    }
  }

  // Counting settled and open promises.

  datatype Kind = IsOpen | IsResolved | IsRejected

  function KindOf(p: Promise): Kind {
    match p.status
    case Open => IsOpen
    case Resolved(_) => IsResolved
    case Rejected(_) => IsRejected
  }

  function Count(ps: seq<Promise>, kind: Kind): nat {
    if ps == [] then 0 else Count(ps[..|ps| - 1], kind) + One(ps[|ps| - 1], kind)
  }

  function One(p: Promise, kind: Kind): nat { if KindOf(p) == kind then 1 else 0 }

  lemma {:induction false} CountUpdate(ps: seq<Promise>, k: nat, p: Promise, kind: Kind)
    requires k < |ps|
    ensures Count(ps[k := p], kind) + One(ps[k], kind) == Count(ps, kind) + One(p, kind)
    decreases |ps|
  {
    var init, last := ps[..|ps| - 1], |ps| - 1;
    if k == last {
      assert ps[k := p][..last] == init;
    } else {
      assert ps[k := p][..last] == init[k := p];
      CountUpdate(init, k, p, kind);
    }
  }

  lemma CountAppend(ps: seq<Promise>, p: Promise, kind: Kind)
    ensures Count(ps + [p], kind) == Count(ps, kind) + One(p, kind)
  {
    assert (ps + [p])[..|ps|] == ps;
  }

  lemma {:induction false} CountsSum(ps: seq<Promise>)
    ensures Count(ps, IsOpen) + Count(ps, IsResolved) + Count(ps, IsRejected) == |ps|
    decreases |ps|
  {
    if ps != [] {
      CountsSum(ps[..|ps| - 1]);
    }
  }

  lemma {:induction false} CountNone(ps: seq<Promise>)
    requires forall k :: 0 <= k < |ps| ==> !ps[k].status.Open?
    ensures Count(ps, IsOpen) == 0
    decreases |ps|
  {
    if ps != [] {
      CountNone(ps[..|ps| - 1]);
    }
  }

  /** Open promises and pending entries are the same in number and name each other. */
  predicate Balanced(s: State) {
    Valid(s) && Reachable(s) && Count(s.promises, IsOpen) == |s.pending|
  }

  /** Settled promises stay as they are; none disappears. */
  predicate Later(s: State, t: State) {
    && |s.promises| <= |t.promises|
    && forall k :: 0 <= k < |s.promises| && !s.promises[k].status.Open? ==> t.promises[k] == s.promises[k]
  }

  predicate Kept(s: State, t: State) {
    Later(s, t) && (Balanced(s) ==> Balanced(t))
  }

  lemma KeptTransitive(s: State, t: State, u: State)
    requires Kept(s, t) && Kept(t, u)
    ensures Kept(s, u)
  {
  }

  lemma SettledKept(s: State, k: nat, status: Status)
    requires Valid(s) && k < |s.promises| && s.promises[k].status.Open? && !status.Open?
    ensures Kept(s, s.(pending := s.pending - {s.promises[k].seqId}, promises := WithStatus(s.promises, k, status)))
  {
    var q := s.promises[k].seqId;
    var t := s.(pending := s.pending - {q}, promises := WithStatus(s.promises, k, status));
    if Balanced(s) {
      SettledKeepsValid(s, k, status);
      assert Listed(s, k);
      CountUpdate(s.promises, k, s.promises[k].(status := status), IsOpen);
      assert t.pending.Keys == s.pending.Keys - {q};
      assert |t.pending| == |s.pending| - 1;
    }
  }

  lemma DispatchedKept(s: State, frame: Frame, listening: bool)
    requires Valid(s)
    ensures Kept(s, Dispatched(s, frame, listening))
  {
    DispatchedKeepsValid(s, frame, listening);
    if frame.seqId in s.pending {
      assert PendingOk(s, frame.seqId);
      SettledKept(s, s.pending[frame.seqId], if frame.rpcId == 0 then Rejected(StatusError) else Resolved(frame));
    }
  }

  lemma DatagramKept(s: State, data: seq<byte>, listening: bool)
    requires Valid(s)
    ensures Kept(s, Datagram(s, data, listening))
  {
    if |data| >= 6 {
      DispatchedKept(s, UnpackFrame(data).value, listening);
    }
  }

  lemma OneByteKept(s: State, b: byte, listening: bool)
    requires Valid(s)
    ensures Kept(s, OneByte(s, b, listening))
  {
    AccFree(s, []);
    AccFree(s, s.acc + [b]);
    var empty := s.(acc := []);
    if b == 0 && s.acc != [] {
      DatagramKept(empty, JsCobs.Decoded(s.acc), listening);
      KeptTransitive(s, empty, OneByte(s, b, listening));
    }
  }

  lemma {:induction false} ReceivedKept(s: State, bytes: seq<byte>, listening: bool)
    requires Valid(s)
    ensures Kept(s, Received(s, bytes, listening))
    decreases |bytes|
  {
    if bytes != [] {
      var t := OneByte(s, bytes[0], listening);
      OneByteKept(s, bytes[0], listening);
      ReceivedKept(t, bytes[1..], listening);
      KeptTransitive(s, t, Received(s, bytes, listening));
    }
  }

  lemma ResetKept(s: State)
    requires Valid(s)
    ensures Kept(s, Reset(s))
  {
    ResetSettlesAll(s);
    if Balanced(s) {
      CountNone(Reset(s).promises);
    }
  }

  lemma SentBalanced(s: State)
    requires Valid(s)
    ensures Later(s, Sent(s))
    ensures Balanced(s) && NextSeqId(s.seqId) !in s.pending ==> Balanced(Sent(s))
  {
    hide Valid, Reachable, Count;
    if Balanced(s) && NextSeqId(s.seqId) !in s.pending {
      SentKeepsValid(s);
      SentReachable(s);
      var q := NextSeqId(s.seqId);
      CountAppend(s.promises, Promise(q, s.issued + 1, Open), IsOpen);
      assert Sent(s).pending.Keys == s.pending.Keys + {q};
    }
  }

  lemma StepKept(s: State, a: Action)
    requires Valid(s)
    ensures Later(s, Step(s, a))
    ensures Balanced(s) && (a.Send? ==> NextSeqId(s.seqId) !in s.pending) ==> Balanced(Step(s, a))
  {
    match a
    case Send => SentBalanced(s);
    case Build => BuiltKeepsValid(s);
    case Bytes(chunk, listening) => ReceivedKept(s, chunk, listening);
    case RawDatagram(data, listening) => DatagramKept(s, data, listening);
    case Fire(k) =>
      if k < |s.promises| && s.promises[k].status.Open? {
        SettledKept(s, k, Rejected(Timeout));
      }
    case ResetAccumulator => ResetKept(s);
  }

  /** Each request settles at most once, on every run whatever identifiers are reused. */
  lemma {:induction false} SettlesAtMostOnce(s: State, actions: seq<Action>)
    requires Valid(s)
    ensures Later(s, Ran(s, actions))
    decreases |actions|
  {
    if actions != [] {
      StepKept(s, actions[0]);
      SettlesAtMostOnce(Step(s, actions[0]), actions[1..]);
    }
  }

  /** However the run goes on: a promise whose timer fires while it is open ends as timed out, with its identifier. */
  lemma TimedOutForGood(s: State, k: nat, rest: seq<Action>)
    requires Valid(s) && k < |s.promises| && s.promises[k].status == Open
    ensures var t := Ran(s, [Fire(k)] + rest);
            k < |t.promises| && t.promises[k] == s.promises[k].(status := Rejected(Timeout))
  {
    hide Valid, Fired, Ran;
    FiredRejects(s, k);
    RanFirst(s, Fire(k), rest);
    SettlesAtMostOnce(Fired(s, k), rest);
  }

  /** And a promise that is pending at a reset ends as rejected by it. */
  lemma ResetForGood(s: State, q: word, rest: seq<Action>)
    requires Valid(s) && q in s.pending
    ensures var t := Ran(s, [ResetAccumulator] + rest);
            var k := s.pending[q];
            && k < |s.promises| && k < |t.promises|
            && t.promises[k] == s.promises[k].(status := Rejected(TransportReset))
  {
    hide Valid, Reset, Ran;
    ResetRejects(s);
    RanFirst(s, ResetAccumulator, rest);
    SettlesAtMostOnce(Reset(s), rest);
    PendingSeqId(s, q);
  }

  lemma PendingSeqId(s: State, q: word)
    requires Valid(s) && q in s.pending
    ensures s.pending[q] < |s.promises| && s.promises[s.pending[q]].seqId == q
  {
    assert PendingOk(s, q);
  }

  lemma RanFirst(s: State, a: Action, rest: seq<Action>)
    requires Valid(s)
    ensures Ran(s, [a] + rest) == Ran(Step(s, a), rest)
  {
    hide Step, Valid;
    assert ([a] + rest)[1..] == rest;
  }

  lemma {:induction false} RunBalanced(s: State, actions: seq<Action>)
    requires Balanced(s) && NoReuse(s, actions)
    ensures Balanced(Ran(s, actions))
    decreases |actions|
  {
    if actions != [] {
      StepKept(s, actions[0]);
      RunBalanced(Step(s, actions[0]), actions[1..]);
    }
  }

  /** Conservation: without reuse of a pending identifier, sent = resolved + rejected + pending. */
  lemma Conservation(actions: seq<Action>)
    requires NoReuse(INITIAL, actions)
    ensures var t := Ran(INITIAL, actions);
            |t.promises| == Count(t.promises, IsResolved) + Count(t.promises, IsRejected) + |t.pending|
  {
    RunBalanced(INITIAL, actions);
    CountsSum(Ran(INITIAL, actions).promises);
  }

  // When no identifier is reused.

  /** At every send of the run, each open promise is fewer than `bound` allocations old. */
  predicate AllTimely(s: State, actions: seq<Action>, bound: nat)
    requires Valid(s)
    decreases |actions|
  {
    actions == [] ||
    ((actions[0].Send? ==> Young(s, bound)) && AllTimely(Step(s, actions[0]), actions[1..], bound))
  }

  predicate Young(s: State, bound: nat) {
    forall k :: 0 <= k < |s.promises| && s.promises[k].status.Open? ==> s.issued + 1 - s.promises[k].born < bound
  }

  lemma YoungIsFree(s: State, bound: nat)
    requires Valid(s) && Young(s, bound) && bound <= PERIOD
    ensures NextSeqId(s.seqId) !in s.pending
  {
    if NextSeqId(s.seqId) in s.pending {
      ReuseAge(s);
    }
  }

  lemma {:induction false} TimelyNoReuse(s: State, actions: seq<Action>, bound: nat)
    requires Valid(s) && AllTimely(s, actions, bound) && bound <= PERIOD
    ensures NoReuse(s, actions)
    decreases |actions|
  {
    hide Step;
    if actions != [] {
      if actions[0].Send? {
        YoungIsFree(s, bound);
      }
      TimelyNoReuse(Step(s, actions[0]), actions[1..], bound);
    }
  }

  /** If every request settles before 65536 further allocations, sent = resolved + rejected + pending. */
  lemma TimelyConservation(actions: seq<Action>, bound: nat)
    requires AllTimely(INITIAL, actions, bound) && bound <= PERIOD
    ensures var t := Ran(INITIAL, actions);
            |t.promises| == Count(t.promises, IsResolved) + Count(t.promises, IsRejected) + |t.pending|
  {
    TimelyNoReuse(INITIAL, actions, bound);
    Conservation(actions);
  }

  /** A send that reuses a pending identifier breaks the balance: the older promise drops out of the table. */
  lemma ReuseLosesOne(s: State)
    requires Balanced(s) && NextSeqId(s.seqId) in s.pending
    ensures Count(Sent(s).promises, IsOpen) == |Sent(s).pending| + 1
  {
    var q := NextSeqId(s.seqId);
    CountAppend(s.promises, Promise(q, s.issued + 1, Open), IsOpen);
    assert Sent(s).pending.Keys == s.pending.Keys;
  }

  // Events carry sequence number zero, and so does the 65536th request.

  /** Identifier zero is not pending before the counter has gone once around. */
  lemma ZeroPendingNeedsWrap(s: State)
    requires Valid(s) && 0 in s.pending
    ensures s.issued >= PERIOD
  {
    assert PendingOk(s, 0);
    assert BornOk(s.issued, s.promises[s.pending[0]]);
  }

  /** A frame with sequence number zero, like every event, leaves all promises alone exactly while zero is free. */
  lemma ZeroFrameIff(s: State, frame: Frame, listening: bool)
    requires Valid(s) && frame.seqId == 0
    ensures Dispatched(s, frame, listening).promises == s.promises <==> 0 !in s.pending
  {
    if 0 in s.pending {
      assert PendingOk(s, 0);
      var k := s.pending[0];
      assert Dispatched(s, frame, listening).promises[k] != s.promises[k];
    }
  }

  predicate LeavesPromises(s: State, frame: Frame, listening: bool)
    requires Valid(s)
  {
    Dispatched(s, frame, listening).promises == s.promises
  }

  /**
   Over runs: after at most `bound` allocations no frame with sequence number zero ever touches a promise,
   if and only if `bound` is below 65536.
   */
  lemma EventsHarmlessIff(bound: nat)
    ensures (forall actions, frame: Frame, listening |
               frame.seqId == 0 && Ran(INITIAL, actions).issued <= bound ::
               LeavesPromises(Ran(INITIAL, actions), frame, listening))
       <==> bound < PERIOD
  {
    hide Dispatched, Ran;
    if bound < PERIOD {
      forall actions, frame: Frame, listening | frame.seqId == 0 && Ran(INITIAL, actions).issued <= bound
        ensures LeavesPromises(Ran(INITIAL, actions), frame, listening)
      {
        var s := Ran(INITIAL, actions);
        ZeroFrameIff(s, frame, listening);
        if 0 in s.pending {
          ZeroPendingNeedsWrap(s);
        }
      }
    } else {
      var actions := ZeroPendingRun(PERIOD - 1);
      var frame := Frame(1, 0, []);
      ZeroFrameIff(Ran(INITIAL, actions), frame, true);
      assert !LeavesPromises(Ran(INITIAL, actions), frame, true);
    }
  }

  /** 65535 built frames and a send, whose request is number zero. */
  lemma ZeroPendingRun(n: nat) returns (actions: seq<Action>)
    requires n + 1 == PERIOD
    ensures Ran(INITIAL, actions).issued == PERIOD && 0 in Ran(INITIAL, actions).pending
  {
    hide Builds, Step;
    actions := Builds(n) + [Send];
    RanBuilds(INITIAL, n);
    RanConcat(INITIAL, Builds(n), [Send]);
    OneSend(Ran(INITIAL, Builds(n)));
    Next(n);
  }

  lemma OneSend(s: State)
    requires Valid(s)
    ensures Ran(s, [Send]) == Sent(s)
  {
    hide Valid;
    SentKeepsValid(s);
    assert [Send][1..] == [];
  }

  function Builds(n: nat): seq<Action> {
    if n == 0 then [] else [Build] + Builds(n - 1)
  }

  lemma {:induction false} RanConcat(s: State, a: seq<Action>, b: seq<Action>)
    requires Valid(s)
    ensures Ran(s, a + b) == Ran(Ran(s, a), b)
    decreases |a|
  {
    hide Step, Valid;
    if a == [] {
      assert a + b == b;
    } else {
      assert (a + b)[0] == a[0] && (a + b)[1..] == a[1..] + b;
      RanConcat(Step(s, a[0]), a[1..], b);
    }
  }

  lemma {:induction false} RanBuilds(s: State, n: nat)
    requires Valid(s)
    ensures var t := Ran(s, Builds(n));
            t == s.(seqId := t.seqId, issued := s.issued + n)
    decreases n
  {
    hide Valid;
    if n > 0 {
      assert Builds(n)[1..] == Builds(n - 1);
      BuiltKeepsValid(s);
      RanBuilds(Built(s), n - 1);
    }
  }

  /**
   A run of 65535 built frames, one request and one event: the request is number zero, and the event
   resolves its promise although the server never answered it.
   */
  lemma EventResolvesRequest(rpcId: word, payload: seq<byte>) returns (actions: seq<Action>)
    requires rpcId != 0 && |payload| < 0x1_0000
    ensures var frame := Frame(rpcId, 0, payload);
            && Ran(INITIAL, actions).promises == [Promise(0, PERIOD, Resolved(frame))]
            && NoReuse(INITIAL, actions)
  {
    actions := WrapRun(rpcId, payload, PERIOD - 1);
  }

  lemma WrapRun(rpcId: word, payload: seq<byte>, n: nat) returns (actions: seq<Action>)
    requires rpcId != 0 && |payload| < 0x1_0000 && n + 1 == PERIOD
    ensures Ran(INITIAL, actions).promises == [Promise(0, PERIOD, Resolved(Frame(rpcId, 0, payload)))]
    ensures NoReuse(INITIAL, actions)
  {
    hide Builds, Step, Header;
    var data := Header(rpcId, 0, |payload|) + payload;
    var tail := [Send, RawDatagram(data, true)];
    actions := Builds(n) + tail;
    RanBuilds(INITIAL, n);
    RanConcat(INITIAL, Builds(n), tail);
    UnpackHeader(rpcId, 0, payload, []);
    assert data + [] == data;
    RequestZeroResolved(Ran(INITIAL, Builds(n)), data, Frame(rpcId, 0, payload));
    RanSendDatagram(Ran(INITIAL, Builds(n)), data);
    BuildsReuse(INITIAL, n, tail);
  }

  /** The request sent next is number zero, and the frame resolves it. */
  lemma RequestZeroResolved(s: State, data: seq<byte>, frame: Frame)
    requires Valid(s) && s.issued + 1 == PERIOD && s.promises == [] && s.pending == map[]
    requires UnpackFrame(data) == Some(frame) && frame.seqId == 0 && frame.rpcId != 0
    ensures Valid(Sent(s)) && NextSeqId(s.seqId) == 0
    ensures Datagram(Sent(s), data, true).promises == [Promise(0, PERIOD, Resolved(frame))]
  {
    hide UnpackFrame;
    Next(s.issued);
    SentKeepsValid(s);
    assert Sent(s).pending == map[0 := 0] && Sent(s).promises == [Promise(0, PERIOD, Open)];
  }

  lemma RanSendDatagram(s: State, data: seq<byte>)
    requires Valid(s) && NextSeqId(s.seqId) !in s.pending
    ensures var tail := [Send, RawDatagram(data, true)];
            NoReuse(s, tail) && Valid(Sent(s)) && Ran(s, tail) == Datagram(Sent(s), data, true)
  {
    hide Valid, Sent, Datagram;
    var tail := [Send, RawDatagram(data, true)];
    SentKeepsValid(s);
    assert tail[1..] == [RawDatagram(data, true)] && tail[1..][1..] == [];
    var t, u := Sent(s), Step(Sent(s), RawDatagram(data, true));
    assert Ran(u, []) == u && NoReuse(u, []);
    assert Ran(t, tail[1..]) == u && NoReuse(t, tail[1..]);
  }

  lemma {:induction false} BuildsReuse(s: State, n: nat, tail: seq<Action>)
    requires Valid(s)
    ensures NoReuse(s, Builds(n) + tail) <==> NoReuse(Ran(s, Builds(n)), tail)
    decreases n
  {
    hide Valid, Step;
    if n == 0 {
      assert Builds(0) + tail == tail;
    } else {
      assert (Builds(n) + tail)[0] == Build && (Builds(n) + tail)[1..] == Builds(n - 1) + tail;
      assert Builds(n)[1..] == Builds(n - 1);
      BuildsReuse(Step(s, Build), n - 1, tail);
    }
  }

  // How long a request may stay open.

  /** The bound is exact: settling in time prevents every reuse if and only if it means fewer than 65536 allocations. */
  lemma TimelyIff(bound: nat)
    ensures (forall actions :: AllTimely(INITIAL, actions, bound) ==> NoReuse(INITIAL, actions)) <==> bound <= PERIOD
  {
    if bound <= PERIOD {
      forall actions | AllTimely(INITIAL, actions, bound)
        ensures NoReuse(INITIAL, actions)
      {
        TimelyNoReuse(INITIAL, actions, bound);
      }
    } else {
      var actions := ReusingRun(PERIOD - 1, bound);
    }
  }

  /** One send, 65535 built frames and another send, which reuses the identifier of the first. */
  lemma ReusingRun(n: nat, bound: nat) returns (actions: seq<Action>)
    requires n + 1 == PERIOD < bound
    ensures AllTimely(INITIAL, actions, bound) && !NoReuse(INITIAL, actions)
  {
    hide Builds, Step, Young;
    var one := Sent(INITIAL);
    SentKeepsValid(INITIAL);
    RanBuilds(one, n);
    var two := Ran(one, Builds(n));
    SecondReuses(one, two, n, bound);
    var rest := Builds(n) + [Send];
    actions := [Send] + rest;
    assert actions[1..] == rest;
    SendFirst(rest, bound);
    BuildsTimely(one, n, [Send], bound);
    BuildsReuse(one, n, [Send]);
    LastSend(two, bound);
  }

  lemma SecondReuses(one: State, two: State, n: nat, bound: nat)
    requires one == Sent(INITIAL) && n + 1 == PERIOD < bound && Valid(two)
    requires two == one.(seqId := two.seqId, issued := one.issued + n)
    ensures Young(two, bound) && NextSeqId(two.seqId) in two.pending
  {
    Next(two.issued);
    assert one.promises == [Promise(1, 1, Open)] && one.pending == map[1 := 0];
  }

  lemma SendFirst(rest: seq<Action>, bound: nat)
    requires bound > 0 && Valid(Sent(INITIAL))
    ensures AllTimely(INITIAL, [Send] + rest, bound) <==> AllTimely(Sent(INITIAL), rest, bound)
    ensures NoReuse(INITIAL, [Send] + rest) <==> NoReuse(Sent(INITIAL), rest)
  {
    assert ([Send] + rest)[1..] == rest;
  }

  lemma LastSend(s: State, bound: nat)
    requires Valid(s)
    ensures AllTimely(s, [Send], bound) <==> Young(s, bound)
    ensures NoReuse(s, [Send]) <==> NextSeqId(s.seqId) !in s.pending
  {
    hide Step, Young, Valid;
    assert [Send][1..] == [];
  }

  lemma {:induction false} BuildsTimely(s: State, n: nat, tail: seq<Action>, bound: nat)
    requires Valid(s)
    ensures AllTimely(s, Builds(n) + tail, bound) <==> AllTimely(Ran(s, Builds(n)), tail, bound)
    decreases n
  {
    hide Valid, Step, Young;
    if n == 0 {
      assert Builds(0) + tail == tail;
    } else {
      assert (Builds(n) + tail)[0] == Build && (Builds(n) + tail)[1..] == Builds(n - 1) + tail;
      assert Builds(n)[1..] == Builds(n - 1);
      BuildsTimely(Step(s, Build), n - 1, tail, bound);
    }
  }
}
