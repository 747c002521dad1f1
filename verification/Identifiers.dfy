/** The 16-bit identifiers the generators derive from an accepted specification. */
module Identifiers {
  import opened Bytes
  import opened Spec

  // The bitwise operators of the generators, on naturals of any size.

  function BitOr(a: nat, b: nat): nat
    decreases a + b
  {
    if a == 0 then b
    else if b == 0 then a
    else (if a % 2 == 1 || b % 2 == 1 then 1 else 0) + 2 * BitOr(a / 2, b / 2)
  }

  function Pow2(k: nat): (p: nat)
    ensures p >= 1
  {
    if k == 0 then 1 else 2 * Pow2(k - 1)
  }

  function ShiftLeft(a: nat, k: nat): nat { a * Pow2(k) }

  /** Or-ing a number below 2^k into one shifted left by k is addition. */
  lemma {:induction false} OrBelowShift(a: nat, b: nat, k: nat)
    requires b < Pow2(k)
    ensures BitOr(ShiftLeft(a, k), b) == a * Pow2(k) + b
    decreases k
  {
    hide BitOr;
    if k == 0 {
      OrZero(a);
    } else {
      var h := a * Pow2(k - 1);
      OrBelowShift(a, b / 2, k - 1);
      OrEven(h, b);
      Double(a, Pow2(k - 1));
    }
  }

  lemma OrZero(a: nat)
    ensures BitOr(a, 0) == a
  {
  }

  lemma Double(a: nat, p: nat)
    ensures a * (2 * p) == 2 * (a * p)
  {
  }

  lemma OrEven(h: nat, b: nat)
    ensures BitOr(2 * h, b) == 2 * BitOr(h, b / 2) + b % 2
  {
    assert 2 * h / 2 == h && 2 * h % 2 == 0;
  }

  /** Or-ing 2^k into a number below 2^(k+1) sets bit k. */
  lemma {:induction false} OrTopBit(b: nat, k: nat)
    requires b < 2 * Pow2(k)
    ensures BitOr(b, Pow2(k)) == if b < Pow2(k) then b + Pow2(k) else b
    decreases k
  {
    if k > 0 {
      OrTopBit(b / 2, k - 1);
    }
  }

  /** combine_ids; None stands for the ValueError. */
  function CombineIds(svc: int, rpc: int): Option<nat> {
    if 0 <= svc <= 0xFF && 0 <= rpc <= 0xFF then Some(BitOr(ShiftLeft(svc, 8), rpc)) else None
  }

  /** Identifier of a request, and of a subscription for a notification. */
  function RequestId(svc: nat, rpc: nat): nat { BitOr(ShiftLeft(svc, 8), rpc) }

  /** Identifier of the event a notification pushes. */
  function EventId(svc: nat, rpc: nat): nat { BitOr(ShiftLeft(svc, 8), BitOr(rpc, 0x80)) }

  predicate IsByte(n: int) { 0 <= n <= 255 }

  lemma IdValues(svc: nat, rpc: nat)
    requires IsByte(rpc)
    ensures RequestId(svc, rpc) == 256 * svc + rpc
    ensures EventId(svc, rpc) == 256 * svc + (if rpc < 128 then rpc + 128 else rpc)
  {
    assert Pow2(3) == 8 && Pow2(7) == 16 * Pow2(3) && Pow2(8) == 2 * Pow2(7);
    OrBelowShift(svc, rpc, 8);
    OrTopBit(rpc, 7);
    OrBelowShift(svc, BitOr(rpc, 0x80), 8);
  }

  lemma EventIdHasBit7(svc: byte, rpc: byte)
    ensures EventId(svc, rpc) < 0x1_0000 && Bit7(EventId(svc, rpc))
  {
    hide EventId;
    IdValues(svc, rpc);
  }

  /** Combining two bytes loses nothing, and any other pair is refused. */
  lemma CombineSplits(svc: int, rpc: int)
    ensures CombineIds(svc, rpc).Some? <==> IsByte(svc) && IsByte(rpc)
    ensures CombineIds(svc, rpc).Some? ==>
              CombineIds(svc, rpc).value / 256 == svc && CombineIds(svc, rpc).value % 256 == rpc
  {
    if IsByte(svc) && IsByte(rpc) {
      IdValues(svc, rpc);
    }
  }

  // What a specification uses.

  predicate AllPresent(spec: seq<Service>) {
    forall i :: 0 <= i < |spec| ==>
      spec[i].id.Some? && forall j :: 0 <= j < |spec[i].rpcs| ==> spec[i].rpcs[j].id.Some?
  }

  datatype Use = Request(i: nat, j: nat) | Event(i: nat, j: nat)

  predicate Uses(spec: seq<Service>, u: Use) {
    && u.i < |spec| && u.j < |spec[u.i].rpcs|
    && (u.Event? ==> KindOf(spec[u.i].rpcs[u.j].typ) == Some(Notification))
  }

  function Num(id: Option<Id>): int { if id.Some? && id.value.Number? then id.value.n else 0 }

  function SvcNum(spec: seq<Service>, i: nat): int
    requires i < |spec|
  {
    Num(spec[i].id)
  }

  function RpcNum(spec: seq<Service>, i: nat, j: nat): int
    requires i < |spec| && j < |spec[i].rpcs|
  {
    Num(spec[i].rpcs[j].id)
  }

  /** What acceptance gives: numbers in range, distinct where they must be. */
  lemma AcceptedNumbers(spec: seq<Service>, i: nat, j: nat)
    requires Accepted(spec) && AllPresent(spec) && i < |spec| && j < |spec[i].rpcs|
    ensures 1 <= SvcNum(spec, i) <= 255 && 1 <= RpcNum(spec, i, j) <= 255
    ensures SvcNum(spec, i) <= 6 ==> spec[i].name == "common"
  {
    AcceptedService(spec, i);
    assert !Wrong(spec, BadRpcId(i, j));
  }

  lemma AcceptedService(spec: seq<Service>, i: nat)
    requires Accepted(spec) && AllPresent(spec) && i < |spec|
    ensures 1 <= SvcNum(spec, i) <= 255
    ensures SvcNum(spec, i) <= 6 ==> spec[i].name == "common"
  {
    assert !Wrong(spec, BadServiceId(i));
    assert !Wrong(spec, ReservedServiceId(i));
  }

  lemma ServicesDiffer(spec: seq<Service>, i: nat, k: nat)
    requires Accepted(spec) && AllPresent(spec) && i < |spec| && k < |spec|
    ensures i != k ==> SvcNum(spec, i) != SvcNum(spec, k) && spec[i].name != spec[k].name
  {
    if i != k {
      var lo, hi := if i < k then i else k, if i < k then k else i;
      AcceptedService(spec, i);
      AcceptedService(spec, k);
      assert !Wrong(spec, DuplicateServiceId(hi)) && !Wrong(spec, DuplicateServiceName(hi));
      assert ServiceIds(spec)[lo] != ServiceIds(spec)[hi];
      assert ServiceNames(spec)[lo] != ServiceNames(spec)[hi];
    }
  }

  lemma RpcsDiffer(spec: seq<Service>, i: nat, j: nat, k: nat)
    requires Accepted(spec) && AllPresent(spec) && i < |spec| && j < |spec[i].rpcs| && k < |spec[i].rpcs|
    ensures j != k ==> RpcNum(spec, i, j) != RpcNum(spec, i, k)
  {
    if j != k {
      var lo, hi := if j < k then j else k, if j < k then k else j;
      AcceptedNumbers(spec, i, j);
      AcceptedNumbers(spec, i, k);
      assert !Wrong(spec, DuplicateRpcId(i, hi));
      assert RpcIds(spec[i].rpcs)[lo] != RpcIds(spec[i].rpcs)[hi];
    }
  }

  function IdOf(spec: seq<Service>, u: Use): nat
    requires Accepted(spec) && AllPresent(spec) && Uses(spec, u)
  {
    AcceptedNumbers(spec, u.i, u.j);
    if u.Request? then RequestId(SvcNum(spec, u.i), RpcNum(spec, u.i, u.j))
    else EventId(SvcNum(spec, u.i), RpcNum(spec, u.i, u.j))
  }

  /** An event identifier coincides with the identifier of some request of its service. */
  predicate EventClash(spec: seq<Service>, i: nat, j: nat, k: nat)
    requires i < |spec| && j < |spec[i].rpcs| && k < |spec[i].rpcs|
  {
    && KindOf(spec[i].rpcs[j].typ) == Some(Notification)
    && RpcNum(spec, i, k) == (if RpcNum(spec, i, j) < 128 then RpcNum(spec, i, j) + 128 else RpcNum(spec, i, j))
  }

  /** No notification's event byte (its id with bit 7 set) is itself the id of an rpc of the same service. */
  predicate NoEventClash(spec: seq<Service>) {
    forall i, j, k :: 0 <= i < |spec| && 0 <= j < |spec[i].rpcs| && 0 <= k < |spec[i].rpcs| ==>
      !EventClash(spec, i, j, k)
  }

  lemma IdRange(spec: seq<Service>, u: Use)
    requires Accepted(spec) && AllPresent(spec) && Uses(spec, u)
    ensures 0 < IdOf(spec, u) < 0x1_0000
    ensures IdOf(spec, u) / 256 == SvcNum(spec, u.i)
    ensures IdOf(spec, u) / 256 <= 6 ==> spec[u.i].name == "common"
  {
    AcceptedNumbers(spec, u.i, u.j);
    IdValues(SvcNum(spec, u.i), RpcNum(spec, u.i, u.j));
  }

  lemma EqualIdsClash(spec: seq<Service>, u: Use, v: Use)
    requires Accepted(spec) && AllPresent(spec) && Uses(spec, u) && Uses(spec, v)
    requires IdOf(spec, u) == IdOf(spec, v) && NoEventClash(spec)
    ensures u == v
  {
    IdRange(spec, u);
    IdRange(spec, v);
    ServicesDiffer(spec, u.i, v.i);
    RpcsDiffer(spec, u.i, u.j, v.j);
    AcceptedNumbers(spec, u.i, u.j);
    AcceptedNumbers(spec, v.i, v.j);
    IdValues(SvcNum(spec, u.i), RpcNum(spec, u.i, u.j));
    IdValues(SvcNum(spec, v.i), RpcNum(spec, v.i, v.j));
    assert !EventClash(spec, u.i, u.j, v.j) && !EventClash(spec, u.i, v.j, u.j);
    assert !EventClash(spec, u.i, u.j, u.j) && !EventClash(spec, u.i, v.j, v.j);
  }

  ghost predicate IdsDistinct(spec: seq<Service>)
    requires Accepted(spec) && AllPresent(spec)
  {
    forall u, v :: Uses(spec, u) && Uses(spec, v) && IdOf(spec, u) == IdOf(spec, v) ==> u == v
  }

  /**
   Identifiers of an accepted specification are pairwise distinct exactly when no event byte is taken
   by a request of the same service.
   */
  lemma IdsDistinctIff(spec: seq<Service>)
    requires Accepted(spec) && AllPresent(spec)
    ensures IdsDistinct(spec) <==> NoEventClash(spec)
  {
    if NoEventClash(spec) {
      forall u, v | Uses(spec, u) && Uses(spec, v) && IdOf(spec, u) == IdOf(spec, v)
        ensures u == v
      {
        EqualIdsClash(spec, u, v);
      }
    } else {
      var i, j, k :| 0 <= i < |spec| && 0 <= j < |spec[i].rpcs| && 0 <= k < |spec[i].rpcs| && EventClash(spec, i, j, k);
      AcceptedNumbers(spec, i, j);
      AcceptedNumbers(spec, i, k);
      IdValues(SvcNum(spec, i), RpcNum(spec, i, j));
      IdValues(SvcNum(spec, i), RpcNum(spec, i, k));
      assert Uses(spec, Event(i, j)) && Uses(spec, Request(i, k));
      assert IdOf(spec, Event(i, j)) == IdOf(spec, Request(i, k));
    }
  }

  predicate SevenBit(spec: seq<Service>) {
    forall i, j :: 0 <= i < |spec| && 0 <= j < |spec[i].rpcs| ==> RpcNum(spec, i, j) <= 127
  }

  /** Rpc ids of at most 127 suffice. */
  lemma SevenBitIdsDistinct(spec: seq<Service>)
    requires Accepted(spec) && AllPresent(spec) && SevenBit(spec)
    ensures IdsDistinct(spec)
  {
    forall i, j, k | 0 <= i < |spec| && 0 <= j < |spec[i].rpcs| && 0 <= k < |spec[i].rpcs|
      ensures !EventClash(spec, i, j, k)
    {
      AcceptedNumbers(spec, i, j);
    }
    IdsDistinctIff(spec);
  }

  // The validator accepts identifiers that clash.

  const SENSOR := Service("sensor", Some(Number(7)), [
    Rpc("reading", Some(Number(5)), "NOTIFICATION", None, None),
    Rpc("reset", Some(Number(133)), "REQUEST_RESPONSE", None, None)])

  const CLASHING: seq<Service> := CORE_SERVICES + [SENSOR]

  lemma TwoRpcsAccepted(svc: Service, i: nat)
    requires |svc.rpcs| == 2 && svc.rpcs[0].name != svc.rpcs[1].name && svc.rpcs[0].id != svc.rpcs[1].id
    requires forall j :: 0 <= j < 2 ==>
               KindOf(svc.rpcs[j].typ).Some? && svc.rpcs[j].id.Some? && InByte(svc.rpcs[j].id.value)
    requires svc.id.Some? && InByte(svc.id.value) && (svc.id.value.n <= 6 ==> svc.name == "common")
    ensures forall p :: !WrongInService(svc, i, p)
  {
    forall p
      ensures !WrongInService(svc, i, p)
    {
      if p.DuplicateRpcId? {
        assert RpcIds(svc.rpcs)[0] != RpcIds(svc.rpcs)[1];
      } else if p.DuplicateRpcName? {
        assert RpcNames(svc.rpcs)[0] != RpcNames(svc.rpcs)[1];
      }
    }
  }

  /** The core services together with a sensor that pushes event 5 and answers request 133: both 0x0785. */
  lemma ClashIsAccepted()
    ensures Accepted(CLASHING) && AllPresent(CLASHING) && !IdsDistinct(CLASHING)
  {
    hide Accepted, KindOf, EventClash, IdsDistinct;
    SensorAccepted();
    OneMoreAccepted(SENSOR);
    ClashingClashes();
    IdsDistinctIff(CLASHING);
  }

  lemma SensorAccepted()
    ensures SENSOR.name != "common" && forall p :: !WrongInService(SENSOR, 1, p)
  {
    hide KindOf;
    KindsOfClashing();
    assert "reading"[2] != "reset"[2] && "sensor"[0] != "common"[0];
    TwoRpcsAccepted(SENSOR, 1);
  }

  /** A flawless user service with its own id and name makes an accepted specification. */
  lemma OneMoreAccepted(svc: Service)
    requires forall p :: !WrongInService(svc, 1, p)
    requires svc.id != Some(Number(6)) && svc.name != "common"
    ensures Accepted(CORE_SERVICES + [svc])
  {
    var spec := CORE_SERVICES + [svc];
    KindsOfClashing();
    assert "ping"[0] != "get_device_info"[0];
    TwoRpcsAccepted(CORE_SERVICES[0], 0);
    hide WrongInService, KindOf;
    forall p
      ensures !Wrong(spec, p)
    {
      if p.DuplicateServiceId? {
        assert ServiceIds(spec)[0] != ServiceIds(spec)[1];
      } else if p.DuplicateServiceName? {
        assert ServiceNames(spec)[0] != ServiceNames(spec)[1];
      }
    }
  }

  lemma ClashingClashes()
    ensures AllPresent(CLASHING) && EventClash(CLASHING, 1, 0, 1)
  {
    KindsOfClashing();
  }

  lemma KindsOfClashing()
    ensures KindOf("NOTIFICATION") == Some(Notification)
    ensures KindOf("REQUEST_RESPONSE") == Some(RequestResponse)
  {
    assert Upper("NOTIFICATION") == "NOTIFICATION";
    assert Upper("REQUEST_RESPONSE") == "REQUEST_RESPONSE";
    assert |"NOTIFICATION"| == 12 && |"REQUEST_ONLY"| == 12 && "NOTIFICATION"[0] != "REQUEST_ONLY"[0];
    assert |"REQUEST_RESPONSE"| == 16;
  }

  // The clients' identifier of one rpc.

  /** The Python generator looks at the type as written. */
  function PyCombinedId(svc: nat, rpc: nat, typ: string): nat {
    if typ == "NOTIFICATION" then BitOr(ShiftLeft(svc, 8), BitOr(rpc, 0x80)) else BitOr(ShiftLeft(svc, 8), rpc)
  }

  /** What the server sends frames under: the event identifier for a notification, else the request's. */
  function ServerSideId(svc: nat, rpc: nat, typ: string): nat {
    if KindOf(typ) == Some(Notification) then EventId(svc, rpc) else RequestId(svc, rpc)
  }

  /**
   The Python constant is the server's identifier unless a notification is spelled in other case and its id
   lacks bit 7.
   */
  lemma PyIdMatches(svc: nat, rpc: nat, typ: string)
    requires IsByte(rpc)
    ensures PyCombinedId(svc, rpc, typ) == ServerSideId(svc, rpc, typ)
       <==> !(KindOf(typ) == Some(Notification) && typ != "NOTIFICATION" && rpc < 128)
  {
    IdValues(svc, rpc);
    KindsOfClashing();
  }

  // A notification whose type is not spelled in upper case.

  const BEACON := Service("beacon", Some(Number(7)), [Rpc("tick", Some(Number(5)), "notification", None, None)])

  const LOWER_CASE: seq<Service> := CORE_SERVICES + [BEACON]

  /** The validator accepts it and the server sends 0x0785, but the Python constant is 0x0705. */
  lemma LowerCaseDiffers()
    ensures Accepted(LOWER_CASE) && AllPresent(LOWER_CASE)
    ensures var rpc := BEACON.rpcs[0];
            BEACON in LOWER_CASE
            && PyCombinedId(Num(BEACON.id), Num(rpc.id), rpc.typ) == 0x0705
            && ServerSideId(Num(BEACON.id), Num(rpc.id), rpc.typ) == 0x0785
  {
    hide Accepted, KindOf, PyCombinedId, ServerSideId, WrongInService;
    LowerCaseKind();
    BeaconAccepted();
    OneMoreAccepted(BEACON);
    assert LOWER_CASE[1] == BEACON;
    LowerCaseIds(Num(BEACON.id), Num(BEACON.rpcs[0].id), BEACON.rpcs[0].typ);
  }

  lemma LowerCaseIds(svc: nat, rpc: nat, typ: string)
    requires rpc < 128 && KindOf(typ) == Some(Notification) && typ != "NOTIFICATION"
    ensures PyCombinedId(svc, rpc, typ) == 256 * svc + rpc && ServerSideId(svc, rpc, typ) == 256 * svc + rpc + 128
  {
    hide KindOf, BitOr, ShiftLeft;
    IdValues(svc, rpc);
  }

  lemma LowerCaseKind()
    ensures KindOf("notification") == Some(Notification) && "notification" != "NOTIFICATION"
  {
    assert Upper("notification") == "NOTIFICATION";
    KindsOfClashing();
    assert "notification"[0] != "NOTIFICATION"[0];
  }

  lemma BeaconAccepted()
    ensures AllPresent(LOWER_CASE) && BEACON.name != "common"
    ensures forall p :: !WrongInService(BEACON, 1, p)
  {
    hide KindOf;
    LowerCaseKind();
    assert "beacon"[0] != "common"[0];
  }
}
