/** Whole runs of the Python client: sends, datagrams, stream chunks, cancellations and timeouts in any order. */
module PyRuns {
  import opened Bytes
  import opened CobsTable
  import opened Deframe
  import opened Wire
  import opened PyClient
  import PyStream

  datatype Action =
    | Send(rpcId: int, payload: seq<byte>)
    | Raw(data: seq<byte>, listening: bool)
    | Stream(chunk: seq<byte>, listening: bool)
    | CancelFuture(k: nat)
    | TimedOut(k: nat)

  function Step(s: State, a: Action): State
    requires Valid(s)
  {
    match a
    case Send(rpcId, payload) => Sent(s, rpcId, payload)
    case Raw(data, listening) => Datagram(s, data, listening)
    case Stream(chunk, listening) => Received(s, chunk, listening)
    case CancelFuture(k) => Cancel(s, k)
    case TimedOut(k) => Forget(s, k)
  }

  lemma StepKeepsValid(s: State, a: Action)
    requires Valid(s)
    ensures Valid(Step(s, a))
  {
    hide Valid, Sent, Datagram, Received, Cancel, Forget;
    match a
    case Send(rpcId, payload) => SentKeepsValid(s, rpcId, payload);
    case Raw(data, listening) => DatagramKeepsValid(s, data, listening);
    case Stream(_, _) =>
    case CancelFuture(k) => CancelKeepsValid(s, k);
    case TimedOut(k) => ForgetKeepsValid(s, k);
  }

  function Ran(s: State, actions: seq<Action>): (t: State)
    requires Valid(s)
    ensures Valid(t)
    decreases |actions|
  {
    if actions == [] then s
    else
      StepKeepsValid(s, actions[0]);
      Ran(Step(s, actions[0]), actions[1..])
  }

  // A settled request never changes again.

  /** Later requests may be added and waiting futures completed; nothing else happens to the history. */
  predicate Grows(a: seq<Request>, b: seq<Request>) {
    && |a| <= |b|
    && forall k :: 0 <= k < |a| ==> b[k] == a[k] || (a[k].fut.Waiting? && b[k] == a[k].(fut := b[k].fut))
  }

  lemma GrowsTrans(a: seq<Request>, b: seq<Request>, c: seq<Request>)
    requires Grows(a, b) && Grows(b, c)
    ensures Grows(a, c)
  {
  }

  lemma DispatchedGrows(s: State, frame: Frame, listening: bool)
    requires Valid(s)
    ensures Grows(s.requests, Dispatched(s, frame, listening).requests)
  {
    if frame.seqId in s.pending {
      assert PendingOk(s, frame.seqId);
    }
  }

  lemma PacketGrows(s: State, packet: seq<byte>, listening: bool)
    requires Valid(s)
    ensures Grows(s.requests, Packet(s, packet, listening).requests)
  {
    hide Decode, Dispatched;
    if Decode(packet).Some? && UnpackFrame(Decode(packet).value).Some? {
      DispatchedGrows(s, UnpackFrame(Decode(packet).value).value, listening);
    }
  }

  lemma {:induction false} PacketsGrow(s: State, packets: seq<seq<byte>>, listening: bool)
    requires Valid(s)
    ensures Grows(s.requests, PacketsIn(s, packets, listening).requests)
    decreases |packets|
  {
    hide Packet, Valid;
    if packets != [] {
      PacketGrows(s, packets[0], listening);
      PacketKeepsValid(s, packets[0], listening);
      PacketsGrow(Packet(s, packets[0], listening), packets[1..], listening);
      GrowsTrans(s.requests, Packet(s, packets[0], listening).requests, PacketsIn(s, packets, listening).requests);
    }
  }

  lemma ReceivedGrows(s: State, chunk: seq<byte>, listening: bool)
    requires Valid(s)
    ensures Grows(s.requests, Received(s, chunk, listening).requests)
  {
    hide PacketsIn, Packets, Leftover, Valid;
    RxBufferFree(s, s.rxBuffer + chunk);
    PacketsGrow(s.(rxBuffer := s.rxBuffer + chunk), Packets(s.rxBuffer + chunk), listening);
  }

  lemma StepGrows(s: State, a: Action)
    requires Valid(s)
    ensures Grows(s.requests, Step(s, a).requests)
  {
    hide Received;
    match a
    case Raw(data, listening) =>
      if UnpackFrame(data).Some? {
        DispatchedGrows(s, UnpackFrame(data).value, listening);
      }
    case Stream(chunk, listening) => ReceivedGrows(s, chunk, listening);
    case _ =>
  }

  /** Every future settles at most once, whatever arrives. */
  lemma {:induction false} SettlesAtMostOnce(s: State, actions: seq<Action>)
    requires Valid(s)
    ensures Grows(s.requests, Ran(s, actions).requests)
    decreases |actions|
  {
    hide Step, Valid;
    if actions != [] {
      StepGrows(s, actions[0]);
      StepKeepsValid(s, actions[0]);
      SettlesAtMostOnce(Step(s, actions[0]), actions[1..]);
      GrowsTrans(s.requests, Step(s, actions[0]).requests, Ran(s, actions).requests);
    }
  }

  // The receive buffer.

  lemma StepRx(s: State, a: Action)
    requires Valid(s) && ZeroFree(s.rxBuffer)
    ensures ZeroFree(Step(s, a).rxBuffer)
  {
    hide Valid, Received;
    match a
    case Raw(data, listening) => DatagramKeepsValid(s, data, listening);
    case Stream(chunk, listening) => PyStream.ReceivedBufferZeroFree(s, chunk, listening);
    case _ =>
  }

  /** Between steps it holds no delimiter, which the theorems on the stream receiver start from. */
  lemma {:induction false} RunRx(s: State, actions: seq<Action>)
    requires Valid(s) && ZeroFree(s.rxBuffer)
    ensures ZeroFree(Ran(s, actions).rxBuffer)
    decreases |actions|
  {
    hide Step, Valid, ZeroFree;
    if actions != [] {
      StepRx(s, actions[0]);
      StepKeepsValid(s, actions[0]);
      RunRx(Step(s, actions[0]), actions[1..]);
    }
  }

  // A waiting request stays reachable by its response.

  /** Every waiting request is pending under its own identifier. */
  predicate Reachable(s: State) {
    forall k :: 0 <= k < |s.requests| && s.requests[k].fut.Waiting? ==>
      s.requests[k].seqId in s.pending && s.pending[s.requests[k].seqId] == k
  }

  /** At a send, waiting requests are fewer than `sends` sends old; a timeout comes within `timeouts` sends. */
  predicate Timely(s: State, a: Action, sends: nat, timeouts: nat) {
    match a
    case Send(_, _) => forall k :: 0 <= k < |s.requests| && s.requests[k].fut.Waiting? ==> |s.requests| - k < sends
    case TimedOut(k) => |s.requests| - k <= timeouts
    case _ => true
  }

  lemma SentReachable(s: State, rpcId: int, payload: seq<byte>)
    requires Valid(s) && Reachable(s)
    ensures Reachable(Sent(s, rpcId, payload)) <==>
            || PackFrame(rpcId, s.nextSeqId, payload).None?
            || s.nextSeqId !in s.pending
            || !s.requests[(assert PendingOk(s, s.nextSeqId); s.pending[s.nextSeqId])].fut.Waiting?
  {
    var t := Sent(s, rpcId, payload);
    var q := s.nextSeqId;
    if PackFrame(rpcId, q, payload).Some? && q in s.pending {
      assert PendingOk(s, q);
      var j := s.pending[q];
      assert t.requests[j] == s.requests[j];
      assert t.pending[q] != j;
    }
  }

  /** An entry that a send overwrites is at least 65535 sends old. */
  lemma OverwriteAge(s: State)
    requires Valid(s) && s.nextSeqId in s.pending
    ensures var age := |s.requests| - s.pending[s.nextSeqId];
            age >= PERIOD && age % PERIOD == 0
  {
    assert PendingOk(s, s.nextSeqId);
    SeqRepeats(s.pending[s.nextSeqId], |s.requests|);
  }

  lemma DispatchedReachable(s: State, frame: Frame, listening: bool)
    requires Valid(s) && Reachable(s)
    ensures Reachable(Dispatched(s, frame, listening))
  {
    if frame.seqId in s.pending {
      assert PendingOk(s, frame.seqId);
    }
  }

  lemma PacketReachable(s: State, packet: seq<byte>, listening: bool)
    requires Valid(s) && Reachable(s)
    ensures Reachable(Packet(s, packet, listening))
  {
    hide Decode, Dispatched;
    if Decode(packet).Some? && UnpackFrame(Decode(packet).value).Some? {
      DispatchedReachable(s, UnpackFrame(Decode(packet).value).value, listening);
    }
  }

  lemma {:induction false} PacketsReachable(s: State, packets: seq<seq<byte>>, listening: bool)
    requires Valid(s) && Reachable(s)
    ensures Reachable(PacketsIn(s, packets, listening))
    decreases |packets|
  {
    hide Packet, Valid, Reachable;
    if packets != [] {
      PacketReachable(s, packets[0], listening);
      PacketKeepsValid(s, packets[0], listening);
      PacketsReachable(Packet(s, packets[0], listening), packets[1..], listening);
    }
  }

  lemma ReceivedReachable(s: State, chunk: seq<byte>, listening: bool)
    requires Valid(s) && Reachable(s)
    ensures Reachable(Received(s, chunk, listening))
  {
    hide PacketsIn, Packets, Leftover, Valid;
    RxBufferFree(s, s.rxBuffer + chunk);
    PacketsReachable(s.(rxBuffer := s.rxBuffer + chunk), Packets(s.rxBuffer + chunk), listening);
  }

  lemma ForgetReachable(s: State, k: nat)
    requires Valid(s) && Reachable(s) && |s.requests| - k <= PERIOD
    ensures Reachable(Forget(s, k))
  {
    if k < |s.requests| && s.requests[k].fut.Cancelled? {
      forall j | 0 <= j < |s.requests| && s.requests[j].fut.Waiting?
        ensures s.requests[j].seqId != s.requests[k].seqId
      {
        if s.requests[j].seqId == s.requests[k].seqId {
          assert PendingOk(s, s.requests[j].seqId);
          assert j > k;
          SeqDistinctWithinPeriod(k, j);
        }
      }
    }
  }

  lemma StepReachable(s: State, a: Action, sends: nat, timeouts: nat)
    requires Valid(s) && Reachable(s) && Timely(s, a, sends, timeouts) && sends <= PERIOD && timeouts <= PERIOD
    ensures Reachable(Step(s, a))
  {
    hide Received, Sent, Forget, Reachable;
    match a
    case Send(rpcId, payload) =>
      SentReachable(s, rpcId, payload);
      if s.nextSeqId in s.pending {
        OverwriteAge(s);
      }
    case Raw(data, listening) =>
      if UnpackFrame(data).Some? {
        DispatchedReachable(s, UnpackFrame(data).value, listening);
      }
    case Stream(chunk, listening) => ReceivedReachable(s, chunk, listening);
    case CancelFuture(k) => CancelReachable(s, k);
    case TimedOut(k) => ForgetReachable(s, k);
  }

  lemma CancelReachable(s: State, k: nat)
    requires Reachable(s)
    ensures Reachable(Cancel(s, k))
  {
  }

  predicate AllTimely(s: State, actions: seq<Action>, sends: nat, timeouts: nat)
    requires Valid(s)
    decreases |actions|
  {
    actions == [] ||
    (StepKeepsValid(s, actions[0]);
     Timely(s, actions[0], sends, timeouts) && AllTimely(Step(s, actions[0]), actions[1..], sends, timeouts))
  }

  lemma {:induction false} RunReachable(s: State, actions: seq<Action>, sends: nat, timeouts: nat)
    requires Valid(s) && Reachable(s) && AllTimely(s, actions, sends, timeouts)
    requires sends <= PERIOD && timeouts <= PERIOD
    ensures Reachable(Ran(s, actions))
    decreases |actions|
  {
    hide Step, Valid, Reachable, Timely;
    if actions != [] {
      StepReachable(s, actions[0], sends, timeouts);
      StepKeepsValid(s, actions[0]);
      RunReachable(Step(s, actions[0]), actions[1..], sends, timeouts);
    }
  }

  /** In every timely run from the start, the response to a waiting request completes that request and no other. */
  lemma ResponseCompletes(
    actions: seq<Action>, sends: nat, timeouts: nat, k: nat, data: seq<byte>, listening: bool)
    requires AllTimely(INITIAL, actions, sends, timeouts) && sends <= PERIOD && timeouts <= PERIOD
    requires var s := Ran(INITIAL, actions);
             k < |s.requests| && s.requests[k].fut.Waiting? && UnpackFrame(data).Some?
             && UnpackFrame(data).value.seqId == s.requests[k].seqId
             && Classify(UnpackFrame(data).value.rpcId) == Response
    ensures var s := Ran(INITIAL, actions);
            var f := UnpackFrame(data).value;
            Datagram(s, data, listening)
            == s.(requests := s.requests[k := s.requests[k].(fut := Result(f))], pending := s.pending - {f.seqId})
  {
    hide Ran;
    RunReachable(INITIAL, actions, sends, timeouts);
  }

  // Both bounds are exact.

  /** Timely runs keep every waiting request under its entry if and only if both bounds are at most 65535. */
  lemma ReachableIff(sends: nat, timeouts: nat)
    ensures (forall actions :: AllTimely(INITIAL, actions, sends, timeouts) ==> Reachable(Ran(INITIAL, actions)))
       <==> sends <= PERIOD && timeouts <= PERIOD
  {
    hide Ran, AllTimely, Reachable;
    StartReachable();
    SeqRepeats(0, PERIOD);
    if sends > PERIOD {
      var actions := OverwritingRun(PERIOD, sends, timeouts);
    } else if timeouts > PERIOD {
      var actions := LateTimeoutRun(PERIOD, sends, timeouts);
    } else {
      forall actions | AllTimely(INITIAL, actions, sends, timeouts)
        ensures Reachable(Ran(INITIAL, actions))
      {
        RunReachable(INITIAL, actions, sends, timeouts);
      }
    }
  }

  lemma StartReachable()
    ensures Valid(INITIAL) && Reachable(INITIAL)
  {
  }

  const ASK := Send(1, [])

  function Asks(n: nat): seq<Action> {
    if n == 0 then [] else Asks(n - 1) + [ASK]
  }

  /** Each request is cancelled at once, and its timeout handler does not come. */
  function Cancels(n: nat): seq<Action> {
    if n == 0 then [] else Cancels(n - 1) + [ASK, CancelFuture(n - 1)]
  }

  lemma {:induction false} RanConcat(s: State, a: seq<Action>, b: seq<Action>, sends: nat, timeouts: nat)
    requires Valid(s)
    ensures Ran(s, a + b) == Ran(Ran(s, a), b)
    ensures AllTimely(s, a + b, sends, timeouts)
       <==> AllTimely(s, a, sends, timeouts) && AllTimely(Ran(s, a), b, sends, timeouts)
    decreases |a|
  {
    hide Step, Valid, Timely;
    if a == [] {
      assert a + b == b;
    } else {
      assert (a + b)[0] == a[0] && (a + b)[1..] == a[1..] + b;
      StepKeepsValid(s, a[0]);
      RanConcat(Step(s, a[0]), a[1..], b, sends, timeouts);
    }
  }

  lemma RanOne(s: State, a: Action, sends: nat, timeouts: nat)
    requires Valid(s)
    ensures Ran(s, [a]) == Step(s, a)
    ensures AllTimely(s, [a], sends, timeouts) <==> Timely(s, a, sends, timeouts)
  {
    hide Step, Valid, Timely;
    StepKeepsValid(s, a);
    assert [a][1..] == [];
  }

  lemma RanTwo(s: State, a: Action, b: Action, sends: nat, timeouts: nat)
    requires Valid(s)
    ensures Valid(Step(s, a)) && Ran(s, [a, b]) == Step(Step(s, a), b)
    ensures AllTimely(s, [a, b], sends, timeouts)
       <==> Timely(s, a, sends, timeouts) && Timely(Step(s, a), b, sends, timeouts)
  {
    hide Step, Valid, Timely, Ran, AllTimely;
    StepKeepsValid(s, a);
    RanOne(s, a, sends, timeouts);
    RanOne(Step(s, a), b, sends, timeouts);
    assert [a] + [b] == [a, b];
    RanConcat(s, [a], [b], sends, timeouts);
  }

  lemma {:induction false} RanAsks(n: nat, sends: nat, timeouts: nat)
    requires n <= sends
    ensures AllTimely(INITIAL, Asks(n), sends, timeouts)
    ensures var t := Ran(INITIAL, Asks(n));
            |t.requests| == n && (n > 0 ==> t.requests[0] == Request(1, 1, [], Waiting))
    decreases n
  {
    hide Ran, AllTimely;
    if n == 0 {
      NothingRan(sends, timeouts);
    } else {
      RanAsks(n - 1, sends, timeouts);
      RanConcat(INITIAL, Asks(n - 1), [ASK], sends, timeouts);
      RanOne(Ran(INITIAL, Asks(n - 1)), ASK, sends, timeouts);
    }
  }

  lemma NothingRan(sends: nat, timeouts: nat)
    ensures Valid(INITIAL) && Ran(INITIAL, []) == INITIAL && AllTimely(INITIAL, [], sends, timeouts)
  {
  }

  lemma {:induction false} RanCancels(n: nat, sends: nat, timeouts: nat)
    ensures AllTimely(INITIAL, Cancels(n), sends, timeouts)
    ensures var t := Ran(INITIAL, Cancels(n));
            |t.requests| == n && forall k :: 0 <= k < n ==> t.requests[k].fut.Cancelled?
    decreases n
  {
    hide Ran, AllTimely, Step, Valid;
    NothingRan(sends, timeouts);
    if n > 0 {
      RanCancels(n - 1, sends, timeouts);
      RanConcat(INITIAL, Cancels(n - 1), [ASK, CancelFuture(n - 1)], sends, timeouts);
      RanTwo(Ran(INITIAL, Cancels(n - 1)), ASK, CancelFuture(n - 1), sends, timeouts);
      AskedAndCancelled(Ran(INITIAL, Cancels(n - 1)), sends, timeouts);
    }
  }

  lemma AskedAndCancelled(s: State, sends: nat, timeouts: nat)
    requires Valid(s) && forall k :: 0 <= k < |s.requests| ==> s.requests[k].fut.Cancelled?
    ensures Timely(s, ASK, sends, timeouts) && Valid(Step(s, ASK))
    ensures var t := Step(Step(s, ASK), CancelFuture(|s.requests|));
            |t.requests| == |s.requests| + 1 && forall k :: 0 <= k < |t.requests| ==> t.requests[k].fut.Cancelled?
  {
    hide Valid;
    StepKeepsValid(s, ASK);
  }

  /** One send too many: request 0 still waits and its entry names request n. */
  lemma OverwritingRun(n: nat, sends: nat, timeouts: nat) returns (actions: seq<Action>)
    requires 0 < n < sends && SeqAt(n) == 1
    ensures AllTimely(INITIAL, actions, sends, timeouts) && !Reachable(Ran(INITIAL, actions))
  {
    hide Ran, AllTimely, SeqAt;
    RanAsks(n, sends, timeouts);
    var s := Ran(INITIAL, Asks(n));
    actions := Asks(n) + [ASK];
    RanConcat(INITIAL, Asks(n), [ASK], sends, timeouts);
    RanOne(s, ASK, sends, timeouts);
    assert Step(s, ASK).requests[0].fut.Waiting?;
  }

  /** The timeout handler of request 0 comes when request n waits under the same identifier. */
  lemma LateTimeoutRun(n: nat, sends: nat, timeouts: nat) returns (actions: seq<Action>)
    requires 0 < n < timeouts && SeqAt(n) == 1
    ensures AllTimely(INITIAL, actions, sends, timeouts) && !Reachable(Ran(INITIAL, actions))
  {
    hide Ran, AllTimely, SeqAt;
    StartReachable();
    RanCancels(n, sends, timeouts);
    var s := Ran(INITIAL, Cancels(n));
    actions := Cancels(n) + [ASK, TimedOut(0)];
    RanConcat(INITIAL, Cancels(n), [ASK, TimedOut(0)], sends, timeouts);
    RanTwo(s, ASK, TimedOut(0), sends, timeouts);
    SeqRepeats(0, n);
    var t := Step(Step(s, ASK), TimedOut(0));
    assert t.requests[n].fut.Waiting? && t.requests[n].seqId !in t.pending;
  }

  // When every cancellation is followed at once by its handler, the table names waiting requests only.

  predicate PendingWaits(s: State)
    requires Valid(s)
  {
    forall q :: q in s.pending ==> EntryWaits(s, q)
  }

  predicate EntryWaits(s: State, q: word)
    requires Valid(s) && q in s.pending
  {
    assert PendingOk(s, q);
    s.requests[s.pending[q]].fut == Waiting
  }

  predicate Prompt(actions: seq<Action>)
    decreases |actions|
  {
    if actions == [] then true
    else if actions[0].CancelFuture? then |actions| > 1 && actions[1] == TimedOut(actions[0].k) && Prompt(actions[2..])
    else Prompt(actions[1..])
  }

  lemma SentWaits(s: State, rpcId: int, payload: seq<byte>)
    requires Valid(s) && PendingWaits(s)
    ensures Valid(Sent(s, rpcId, payload)) && PendingWaits(Sent(s, rpcId, payload))
  {
    SentKeepsValid(s, rpcId, payload);
    var t := Sent(s, rpcId, payload);
    forall q | q in t.pending
      ensures EntryWaits(t, q)
    {
      assert q in s.pending ==> EntryWaits(s, q);
      assert PendingOk(t, q);
    }
  }

  lemma SettledWaits(s: State, seqId: word, outcome: Future)
    requires Valid(s) && PendingWaits(s) && !outcome.Unsent?
    ensures Valid(Settled(s, seqId, outcome)) && PendingWaits(Settled(s, seqId, outcome))
  {
    SettledKeepsValid(s, seqId, outcome);
    var t := Settled(s, seqId, outcome);
    forall q | q in t.pending
      ensures EntryWaits(t, q)
    {
      assert EntryWaits(s, q) && PendingOk(s, q);
      assert seqId in s.pending ==> PendingOk(s, seqId);
    }
  }

  lemma SamePendingWaits(s: State, t: State)
    requires Valid(s) && Valid(t) && PendingWaits(s) && t.pending == s.pending && t.requests == s.requests
    ensures PendingWaits(t)
  {
    forall q | q in t.pending
      ensures EntryWaits(t, q)
    {
      assert EntryWaits(s, q);
    }
  }

  lemma DispatchedWaits(s: State, frame: Frame, listening: bool)
    requires Valid(s) && PendingWaits(s)
    ensures Valid(Dispatched(s, frame, listening)) && PendingWaits(Dispatched(s, frame, listening))
  {
    hide Settled, PendingWaits, Valid;
    DispatchedKeepsValid(s, frame, listening);
    match Classify(frame.rpcId)
    case ErrorFrame => SettledWaits(s, frame.seqId, SystemError);
    case Response => SettledWaits(s, frame.seqId, Result(frame));
    case Notification => SamePendingWaits(s, Dispatched(s, frame, listening));
  }

  lemma DatagramWaits(s: State, data: seq<byte>, listening: bool)
    requires Valid(s) && PendingWaits(s)
    ensures Valid(Datagram(s, data, listening)) && PendingWaits(Datagram(s, data, listening))
  {
    hide Dispatched, PendingWaits, Valid;
    if UnpackFrame(data).Some? {
      DispatchedWaits(s, UnpackFrame(data).value, listening);
    }
  }

  lemma {:induction false} PacketsWait(s: State, packets: seq<seq<byte>>, listening: bool)
    requires Valid(s) && PendingWaits(s)
    ensures PendingWaits(PacketsIn(s, packets, listening))
    decreases |packets|
  {
    hide Datagram, PendingWaits, Valid, Decode;
    if packets != [] {
      PacketKeepsValid(s, packets[0], listening);
      if Decode(packets[0]).Some? {
        DatagramWaits(s, Decode(packets[0]).value, listening);
      }
      PacketsWait(Packet(s, packets[0], listening), packets[1..], listening);
    }
  }

  lemma ReceivedWaits(s: State, chunk: seq<byte>, listening: bool)
    requires Valid(s) && PendingWaits(s)
    ensures PendingWaits(Received(s, chunk, listening))
  {
    hide PendingWaits, Valid, PacketsIn, Packets, Leftover;
    var t := s.(rxBuffer := s.rxBuffer + chunk);
    RxBufferFree(s, t.rxBuffer);
    SamePendingWaits(s, t);
    PacketsWait(t, Packets(t.rxBuffer), listening);
    SamePendingWaits(PacketsIn(t, Packets(t.rxBuffer), listening), Received(s, chunk, listening));
  }

  /** Giving up on a request: its future is cancelled and its entry goes. */
  lemma GivenUpWaits(s: State, k: nat)
    requires Valid(s) && PendingWaits(s)
    ensures Valid(Cancel(s, k)) && Valid(Forget(Cancel(s, k), k)) && PendingWaits(Forget(Cancel(s, k), k))
  {
    CancelKeepsValid(s, k);
    var one := Cancel(s, k);
    ForgetKeepsValid(one, k);
    var t := Forget(one, k);
    forall q | q in t.pending
      ensures EntryWaits(t, q)
    {
      assert EntryWaits(s, q) && PendingOk(s, q) && PendingOk(t, q);
    }
  }

  lemma ForgetWaits(s: State, k: nat)
    requires Valid(s) && PendingWaits(s)
    ensures Valid(Forget(s, k)) && PendingWaits(Forget(s, k))
  {
    ForgetKeepsValid(s, k);
    var t := Forget(s, k);
    forall q | q in t.pending
      ensures EntryWaits(t, q)
    {
      assert EntryWaits(s, q);
    }
  }

  lemma StepWaits(s: State, a: Action)
    requires Valid(s) && PendingWaits(s) && !a.CancelFuture?
    ensures Valid(Step(s, a)) && PendingWaits(Step(s, a))
  {
    hide Valid, PendingWaits, Sent, Datagram, Received, Forget;
    StepKeepsValid(s, a);
    match a
    case Send(rpcId, payload) => SentWaits(s, rpcId, payload);
    case Raw(data, listening) => DatagramWaits(s, data, listening);
    case Stream(chunk, listening) => ReceivedWaits(s, chunk, listening);
    case TimedOut(k) => ForgetWaits(s, k);
  }

  lemma {:induction false} PromptWaits(s: State, actions: seq<Action>)
    requires Valid(s) && PendingWaits(s) && Prompt(actions)
    ensures PendingWaits(Ran(s, actions))
    decreases |actions|
  {
    hide Valid, PendingWaits, Step, Cancel, Forget;
    if actions != [] {
      StepKeepsValid(s, actions[0]);
      if actions[0].CancelFuture? {
        var k := actions[0].k;
        GivenUpWaits(s, k);
        var two := actions[..2];
        assert two == [CancelFuture(k), TimedOut(k)] && actions == two + actions[2..];
        RanConcat(s, two, actions[2..], 0, 0);
        RanTwo(s, CancelFuture(k), TimedOut(k), 0, 0);
        CancelledThenForgotten(s, k);
        PromptWaits(Forget(Cancel(s, k), k), actions[2..]);
      } else {
        StepWaits(s, actions[0]);
        PromptWaits(Step(s, actions[0]), actions[1..]);
      }
    }
  }

  lemma CancelledThenForgotten(s: State, k: nat)
    requires Valid(s)
    ensures Valid(Step(s, CancelFuture(k))) && Step(s, CancelFuture(k)) == Cancel(s, k)
    ensures Step(Step(s, CancelFuture(k)), TimedOut(k)) == Forget(Cancel(s, k), k)
  {
    StepKeepsValid(s, CancelFuture(k));
  }

  /**
   In runs from the start whose timeouts are handled at once and in time, the table and the waiting requests are
   the same thing: an identifier is pending if and only if a request waits under it.
   */
  lemma PendingIffWaiting(actions: seq<Action>, sends: nat, timeouts: nat, q: word)
    requires Prompt(actions) && AllTimely(INITIAL, actions, sends, timeouts) && sends <= PERIOD && timeouts <= PERIOD
    ensures var t := Ran(INITIAL, actions);
            q in t.pending <==>
              exists k :: 0 <= k < |t.requests| && t.requests[k].fut == Waiting && t.requests[k].seqId == q
  {
    hide Ran, AllTimely, Prompt;
    StartReachable();
    PromptWaits(INITIAL, actions);
    RunReachable(INITIAL, actions, sends, timeouts);
    var t := Ran(INITIAL, actions);
    if q in t.pending {
      assert EntryWaits(t, q) && PendingOk(t, q);
    }
  }

  /** Without the handler the entry of a cancelled request stays behind. */
  lemma UnhandledStays()
    ensures var t := Ran(INITIAL, [ASK, CancelFuture(0)]);
            1 in t.pending && t.pending[1] == 0 && t.requests[0].fut == Cancelled
  {
    StartReachable();
    RanTwo(INITIAL, ASK, CancelFuture(0), 0, 0);
  }
}
