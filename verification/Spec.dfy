/** The merged specification, as far as identifiers go: what the validator checks about them. */
module Spec {
  import opened Bytes

  /** A value under the key `id`: an integer, or anything else YAML can hold. */
  datatype Id = Number(n: int) | Other(text: string)

  /** `reqFields` and `resFields` are the descriptors the type names resolve to. */
  datatype Rpc = Rpc(name: string, id: Option<Id>, typ: string, reqFields: Option<string>, resFields: Option<string>)

  datatype Service = Service(name: string, id: Option<Id>, rpcs: seq<Rpc>)

  /** The services of core_spec.yml. */
  const CORE_SERVICES: seq<Service> := [
    Service("common", Some(Number(6)), [
      Rpc("ping", Some(Number(1)), "REQUEST_RESPONSE", Some("types.Empty"), Some("common.PingResponse")),
      Rpc("get_device_info", Some(Number(2)), "REQUEST_RESPONSE", Some("types.Empty"), Some("common.DeviceInfo"))])]

  /** merge_specs: the core services first. */
  function Merged(user: seq<Service>): seq<Service> { CORE_SERVICES + user }

  datatype Kind = RequestOnly | RequestResponse | Notification

  // Upper-casing, of the ASCII letters.

  function UpperChar(c: char): char {
    if 'a' <= c <= 'z' then ((c as int) - 32) as char else c
  }

  function Upper(s: string): string { seq(|s|, i requires 0 <= i < |s| => UpperChar(s[i])) }

  function KindOf(typ: string): Option<Kind> {
    var u := Upper(typ);
    if u == "REQUEST_ONLY" then Some(RequestOnly)
    else if u == "REQUEST_RESPONSE" then Some(RequestResponse)
    else if u == "NOTIFICATION" then Some(Notification)
    else None
  }

  const LOWER := "abcdefghijklmnopqrstuvwxyz"
  const UPPER := "ABCDEFGHIJKLMNOPQRSTUVWXYZ"

  /** The same character, or the small letter for this capital. */
  predicate Spelling(c: char, u: char) {
    c == u || exists k :: 0 <= k < |LOWER| && c == LOWER[k] && u == UPPER[k]
  }

  predicate Spells(typ: string, word: string) {
    |typ| == |word| && forall i :: 0 <= i < |typ| ==> Spelling(typ[i], word[i])
  }

  lemma Alphabets(k: nat)
    requires k < 26
    ensures |LOWER| == |UPPER| == 26 && LOWER[k] as int == 97 + k && UPPER[k] as int == 65 + k
  {
  }

  lemma UpperCharIff(c: char, u: char)
    requires !('a' <= u <= 'z')
    ensures UpperChar(c) == u <==> Spelling(c, u)
  {
    hide LOWER, UPPER;
    if 'a' <= c <= 'z' {
      Alphabets(c as int - 97);
    }
    Alphabets(0);
    if k :| 0 <= k < |LOWER| && c == LOWER[k] && u == UPPER[k] {
      Alphabets(k);
    }
  }

  lemma UpperIff(typ: string, word: string)
    requires forall i :: 0 <= i < |word| ==> !('a' <= word[i] <= 'z')
    ensures Upper(typ) == word <==> Spells(typ, word)
  {
    hide Spelling, UpperChar;
    forall i | 0 <= i < |typ| && |typ| == |word|
      ensures UpperChar(typ[i]) == word[i] <==> Spelling(typ[i], word[i])
    {
      UpperCharIff(typ[i], word[i]);
    }
    if Spells(typ, word) {
      assert Upper(typ) == word;
    } else if Upper(typ) == word {
      forall i | 0 <= i < |typ|
        ensures Spelling(typ[i], word[i])
      {
        assert Upper(typ)[i] == UpperChar(typ[i]);
      }
    }
  }

  lemma KindWords()
    ensures forall i :: 0 <= i < |"REQUEST_ONLY"| ==> !('a' <= "REQUEST_ONLY"[i] <= 'z')
    ensures forall i :: 0 <= i < |"REQUEST_RESPONSE"| ==> !('a' <= "REQUEST_RESPONSE"[i] <= 'z')
    ensures forall i :: 0 <= i < |"NOTIFICATION"| ==> !('a' <= "NOTIFICATION"[i] <= 'z')
    ensures "REQUEST_ONLY" != "NOTIFICATION" && "REQUEST_RESPONSE" != "NOTIFICATION"
    ensures "REQUEST_ONLY" != "REQUEST_RESPONSE"
  {
    assert "REQUEST_ONLY"[0] != "NOTIFICATION"[0] && "REQUEST_RESPONSE"[0] != "NOTIFICATION"[0];
    assert |"REQUEST_ONLY"| != |"REQUEST_RESPONSE"|;
  }

  /** The type of an rpc is read without regard to case, and every other text is no type. */
  lemma KindIff(typ: string)
    ensures KindOf(typ) == Some(RequestOnly) <==> Spells(typ, "REQUEST_ONLY")
    ensures KindOf(typ) == Some(RequestResponse) <==> Spells(typ, "REQUEST_RESPONSE")
    ensures KindOf(typ) == Some(Notification) <==> Spells(typ, "NOTIFICATION")
  {
    hide Spells, Upper;
    KindWords();
    UpperIff(typ, "REQUEST_ONLY");
    UpperIff(typ, "REQUEST_RESPONSE");
    UpperIff(typ, "NOTIFICATION");
  }

  // Uniqueness of the values under one key.

  /** Position i repeats a value seen earlier; missing values are never compared. */
  predicate Repeats<T(==)>(values: seq<Option<T>>, i: nat) {
    i < |values| && values[i].Some? && exists k :: 0 <= k < i && values[k] == values[i]
  }

  predicate AllDistinct<T(==)>(values: seq<Option<T>>) {
    forall k, i :: 0 <= k < i < |values| && values[i].Some? ==> values[k] != values[i]
  }

  /** check_uniqueness: the positions it complains about, in order. */
  method CheckUniqueness<T(==)>(values: seq<Option<T>>) returns (errors: seq<nat>)
    ensures forall i :: i in errors <==> Repeats(values, i)
    ensures forall a, b :: 0 <= a < b < |errors| ==> errors[a] < errors[b]
    ensures errors == [] <==> AllDistinct(values)
  {
    errors := [];
    var seen: set<T> := {};
    for i := 0 to |values|
      invariant forall v :: v in seen <==> Some(v) in values[..i]
      invariant forall e: nat :: e in errors <==> e < i && Repeats(values, e)
      invariant forall a, b :: 0 <= a < b < |errors| ==> errors[a] < errors[b]
      invariant forall a :: 0 <= a < |errors| ==> errors[a] < i
    {
      assert values[..i + 1] == values[..i] + [values[i]];
      if values[i].None? {
        continue;
      }
      var value := values[i].value;
      assert value in seen <==> Repeats(values, i) by {
        if value in seen {
          var k :| 0 <= k < i && values[..i][k] == Some(value);
          assert values[k] == values[i];
        }
      }
      if value in seen {
        errors := errors + [i];
      }
      seen := seen + {value};
    }
    assert errors == [] ==> AllDistinct(values) by {
      if errors == [] && !AllDistinct(values) {
        var k, i :| 0 <= k < i < |values| && values[i].Some? && values[k] == values[i];
        assert Repeats(values, i);
      }
    }
    assert AllDistinct(values) ==> errors == [] by {
      if errors != [] {
        assert errors[0] in errors;
        assert Repeats(values, errors[0]);
      }
    }
  }

  // The identifier rules.

  function ServiceIds(spec: seq<Service>): seq<Option<Id>> { seq(|spec|, i requires 0 <= i < |spec| => spec[i].id) }

  function ServiceNames(spec: seq<Service>): seq<Option<string>> {
    seq(|spec|, i requires 0 <= i < |spec| => Some(spec[i].name))
  }

  function RpcIds(rpcs: seq<Rpc>): seq<Option<Id>> { seq(|rpcs|, j requires 0 <= j < |rpcs| => rpcs[j].id) }

  function RpcNames(rpcs: seq<Rpc>): seq<Option<string>> {
    seq(|rpcs|, j requires 0 <= j < |rpcs| => Some(rpcs[j].name))
  }

  predicate InByte(id: Id) { id.Number? && 1 <= id.n <= 255 }

  datatype Problem =
    | NoService
    | DuplicateServiceId(i: nat)
    | DuplicateServiceName(i: nat)
    | BadServiceId(i: nat)
    | ReservedServiceId(i: nat)
    | DuplicateRpcId(i: nat, j: nat)
    | DuplicateRpcName(i: nat, j: nat)
    | BadRpcId(i: nat, j: nat)
    | BadRpcType(i: nat, j: nat)

  /** What is wrong inside service number i. */
  predicate WrongInService(svc: Service, i: nat, p: Problem) {
    match p
    case BadServiceId(k) => k == i && svc.id.Some? && !InByte(svc.id.value)
    case ReservedServiceId(k) =>
      k == i && svc.id.Some? && InByte(svc.id.value) && svc.id.value.n <= 6 && svc.name != "common"
    case DuplicateRpcId(k, j) => k == i && Repeats(RpcIds(svc.rpcs), j)
    case DuplicateRpcName(k, j) => k == i && Repeats(RpcNames(svc.rpcs), j)
    case BadRpcId(k, j) => k == i && j < |svc.rpcs| && svc.rpcs[j].id.Some? && !InByte(svc.rpcs[j].id.value)
    case BadRpcType(k, j) => k == i && j < |svc.rpcs| && KindOf(svc.rpcs[j].typ).None?
    case _ => false
  }

  predicate Wrong(spec: seq<Service>, p: Problem) {
    match p
    case NoService => spec == []
    case DuplicateServiceId(i) => Repeats(ServiceIds(spec), i)
    case DuplicateServiceName(i) => Repeats(ServiceNames(spec), i)
    case BadServiceId(i) => i < |spec| && WrongInService(spec[i], i, p)
    case ReservedServiceId(i) => i < |spec| && WrongInService(spec[i], i, p)
    case DuplicateRpcId(i, _) => i < |spec| && WrongInService(spec[i], i, p)
    case DuplicateRpcName(i, _) => i < |spec| && WrongInService(spec[i], i, p)
    case BadRpcId(i, _) => i < |spec| && WrongInService(spec[i], i, p)
    case BadRpcType(i, _) => i < |spec| && WrongInService(spec[i], i, p)
  }

  ghost predicate Accepted(spec: seq<Service>) {
    forall p :: !Wrong(spec, p)
  }

  function Reported(positions: seq<nat>, report: nat -> Problem): seq<Problem> {
    seq(|positions|, k requires 0 <= k < |positions| => report(positions[k]))
  }

  lemma ReportedIn(positions: seq<nat>, report: nat -> Problem)
    ensures forall i :: i in positions ==> report(i) in Reported(positions, report)
    ensures forall p :: p in Reported(positions, report) ==> exists i :: i in positions && p == report(i)
  {
    var r := Reported(positions, report);
    forall i | i in positions
      ensures report(i) in r
    {
      var k :| 0 <= k < |positions| && positions[k] == i;
      assert r[k] == report(i);
    }
    forall p | p in r
      ensures exists i :: i in positions && p == report(i)
    {
      var k :| 0 <= k < |r| && r[k] == p;
      assert positions[k] in positions && p == report(positions[k]);
    }
  }

  method ValidateRpc(rpc: Rpc, i: nat, j: nat) returns (errors: seq<Problem>)
    ensures forall p :: p in errors <==>
              || (p == BadRpcId(i, j) && rpc.id.Some? && !InByte(rpc.id.value))
              || (p == BadRpcType(i, j) && KindOf(rpc.typ).None?)
  {
    errors := [];
    if rpc.id.Some? {
      if !rpc.id.value.Number? {
        errors := errors + [BadRpcId(i, j)];
      } else if rpc.id.value.n < 1 || rpc.id.value.n > 255 {
        errors := errors + [BadRpcId(i, j)];
      }
    }
    if KindOf(rpc.typ).None? {
      errors := errors + [BadRpcType(i, j)];
    }
  }

  method ValidateServiceId(svc: Service, i: nat) returns (errors: seq<Problem>)
    ensures forall p :: p in errors <==> (p.BadServiceId? || p.ReservedServiceId?) && WrongInService(svc, i, p)
  {
    errors := [];
    if svc.id.Some? {
      if !svc.id.value.Number? {
        errors := errors + [BadServiceId(i)];
      } else if svc.id.value.n < 1 || svc.id.value.n > 255 {
        errors := errors + [BadServiceId(i)];
      } else if 1 <= svc.id.value.n <= 6 && svc.name != "common" {
        errors := errors + [ReservedServiceId(i)];
      }
    }
  }

  method RepeatedRpcs(svc: Service, i: nat) returns (errors: seq<Problem>)
    ensures forall p :: p in errors <==> (p.DuplicateRpcId? || p.DuplicateRpcName?) && WrongInService(svc, i, p)
  {
    hide Repeats;
    var ids := CheckUniqueness(RpcIds(svc.rpcs));
    var names := CheckUniqueness(RpcNames(svc.rpcs));
    var sameId := (j: nat) => DuplicateRpcId(i, j);
    var sameName := (j: nat) => DuplicateRpcName(i, j);
    ReportedIn(ids, sameId);
    ReportedIn(names, sameName);
    errors := Reported(ids, sameId) + Reported(names, sameName);
    assert forall j :: sameId(j) in errors <==> j in ids;
    assert forall j :: sameName(j) in errors <==> j in names;
  }

  method ValidateService(svc: Service, i: nat) returns (errors: seq<Problem>)
    ensures forall p :: p in errors <==> WrongInService(svc, i, p)
  {
    hide Repeats;
    var bad := ValidateServiceId(svc, i);
    var repeated := RepeatedRpcs(svc, i);
    errors := bad + repeated;
    for j := 0 to |svc.rpcs|
      invariant forall p :: p in errors <==>
                  || p in bad || p in repeated
                  || ((p.BadRpcId? || p.BadRpcType?) && p.j < j && WrongInService(svc, i, p))
    {
      var es := ValidateRpc(svc.rpcs[j], i, j);
      errors := errors + es;
    }
  }

  method RepeatedServices(spec: seq<Service>) returns (errors: seq<Problem>)
    ensures forall p :: p in errors <==> (p.DuplicateServiceId? || p.DuplicateServiceName?) && Wrong(spec, p)
  {
    hide Repeats;
    var ids := CheckUniqueness(ServiceIds(spec));
    var names := CheckUniqueness(ServiceNames(spec));
    var sameId := (j: nat) => DuplicateServiceId(j);
    var sameName := (j: nat) => DuplicateServiceName(j);
    ReportedIn(ids, sameId);
    ReportedIn(names, sameName);
    errors := Reported(ids, sameId) + Reported(names, sameName);
    assert forall j :: sameId(j) in errors <==> j in ids;
    assert forall j :: sameName(j) in errors <==> j in names;
  }

  /** validate, restricted to identifiers: it reports exactly what is wrong, so accepts exactly when nothing is. */
  method Validate(spec: seq<Service>) returns (errors: seq<Problem>)
    ensures forall p :: p in errors <==> Wrong(spec, p)
    ensures errors == [] <==> Accepted(spec)
  {
    hide Repeats, WrongInService;
    errors := [];
    if spec == [] {
      errors := [NoService];
    }
    var repeated := RepeatedServices(spec);
    errors := errors + repeated;
    ghost var head := errors;
    for i := 0 to |spec|
      invariant forall p :: p in errors <==> p in head || (InsideService(p) && p.i < i && Wrong(spec, p))
    {
      var es := ValidateService(spec[i], i);
      WrongInsideOnly(spec[i], i);
      errors := errors + es;
    }
    assert errors != [] ==> errors[0] in errors;
  }

  predicate InsideService(p: Problem) {
    !p.NoService? && !p.DuplicateServiceId? && !p.DuplicateServiceName?
  }

  lemma WrongInsideOnly(svc: Service, i: nat)
    ensures forall p :: WrongInService(svc, i, p) ==> InsideService(p) && p.i == i
  {
  }

  // Acceptance in plain terms.

  predicate IdOk(id: Option<Id>) { id.None? || (id.value.Number? && 1 <= id.value.n <= 255) }

  predicate SameId(a: Option<Id>, b: Option<Id>) { a.Some? && a == b }

  predicate ServiceOk(svc: Service) {
    && IdOk(svc.id) && (svc.id.Some? && svc.id.value.n <= 6 ==> svc.name == "common")
    && (forall j :: 0 <= j < |svc.rpcs| ==> IdOk(svc.rpcs[j].id) && KindOf(svc.rpcs[j].typ).Some?)
    && (forall j, k :: 0 <= j < k < |svc.rpcs| ==>
          !SameId(svc.rpcs[j].id, svc.rpcs[k].id) && svc.rpcs[j].name != svc.rpcs[k].name)
  }

  predicate SpecOk(spec: seq<Service>) {
    && spec != []
    && (forall i :: 0 <= i < |spec| ==> ServiceOk(spec[i]))
    && (forall i, k :: 0 <= i < k < |spec| ==> !SameId(spec[i].id, spec[k].id) && spec[i].name != spec[k].name)
  }

  lemma ServiceOkIff(svc: Service, i: nat)
    ensures ServiceOk(svc) <==> forall p :: !WrongInService(svc, i, p)
  {
    hide KindOf;
    if ServiceOk(svc) {
      forall p
        ensures !WrongInService(svc, i, p)
      {
        ServiceOkNotWrong(svc, i, p);
      }
    }
    if forall p :: !WrongInService(svc, i, p) {
      NotWrongServiceOk(svc, i);
    }
  }

  lemma ServiceOkNotWrong(svc: Service, i: nat, p: Problem)
    requires ServiceOk(svc)
    ensures !WrongInService(svc, i, p)
  {
    hide KindOf;
  }

  lemma NotWrongServiceOk(svc: Service, i: nat)
    requires forall p :: !WrongInService(svc, i, p)
    ensures ServiceOk(svc)
  {
    hide KindOf;
    assert !WrongInService(svc, i, BadServiceId(i)) && !WrongInService(svc, i, ReservedServiceId(i));
    forall j | 0 <= j < |svc.rpcs|
      ensures IdOk(svc.rpcs[j].id) && KindOf(svc.rpcs[j].typ).Some?
    {
      assert !WrongInService(svc, i, BadRpcId(i, j)) && !WrongInService(svc, i, BadRpcType(i, j));
    }
    forall j, k | 0 <= j < k < |svc.rpcs|
      ensures !SameId(svc.rpcs[j].id, svc.rpcs[k].id) && svc.rpcs[j].name != svc.rpcs[k].name
    {
      assert !WrongInService(svc, i, DuplicateRpcId(i, k)) && !WrongInService(svc, i, DuplicateRpcName(i, k));
      assert RpcIds(svc.rpcs)[j] == svc.rpcs[j].id && RpcIds(svc.rpcs)[k] == svc.rpcs[k].id;
      assert RpcNames(svc.rpcs)[j] == Some(svc.rpcs[j].name) && RpcNames(svc.rpcs)[k] == Some(svc.rpcs[k].name);
    }
  }

  lemma OkNotWrong(spec: seq<Service>, p: Problem)
    requires SpecOk(spec)
    ensures !Wrong(spec, p)
  {
    hide WrongInService, ServiceOk;
    if InsideService(p) && p.i < |spec| {
      ServiceOkNotWrong(spec[p.i], p.i, p);
    }
  }

  /** A specification is accepted if and only if it keeps these rules. */
  lemma AcceptedIff(spec: seq<Service>)
    ensures Accepted(spec) <==> SpecOk(spec)
  {
    hide WrongInService, ServiceOk, Wrong, SpecOk;
    if SpecOk(spec) {
      forall p
        ensures !Wrong(spec, p)
      {
        OkNotWrong(spec, p);
      }
    }
    if Accepted(spec) {
      AcceptedOk(spec);
    }
  }

  lemma AcceptedOk(spec: seq<Service>)
    requires Accepted(spec)
    ensures SpecOk(spec)
  {
    hide WrongInService, ServiceOk;
    assert !Wrong(spec, NoService);
    forall i | 0 <= i < |spec|
      ensures ServiceOk(spec[i])
    {
      forall p
        ensures !WrongInService(spec[i], i, p)
      {
        assert !Wrong(spec, p);
        WrongInsideOnly(spec[i], i);
      }
      ServiceOkIff(spec[i], i);
    }
    forall i, k | 0 <= i < k < |spec|
      ensures !SameId(spec[i].id, spec[k].id) && spec[i].name != spec[k].name
    {
      assert !Wrong(spec, DuplicateServiceId(k)) && !Wrong(spec, DuplicateServiceName(k));
      assert ServiceIds(spec)[i] == spec[i].id && ServiceIds(spec)[k] == spec[k].id;
      assert ServiceNames(spec)[i] == Some(spec[i].name) && ServiceNames(spec)[k] == Some(spec[k].name);
    }
  }
}
