/** The dispatch table the server generator emits for an accepted specification. */
module Generator {
  import opened Bytes
  import opened Spec
  import opened Identifiers
  import Server

  type Entry = Server.Entry

  const CORE_ENTRIES: seq<Entry> := [
    Server.Entry(0x0601, true, Some("types.Empty"), Some("common.PingResponse")),
    Server.Entry(0x0602, true, Some("types.Empty"), Some("common.DeviceInfo"))]

  predicate HasResponse(typ: string) {
    KindOf(typ) == Some(RequestResponse) || KindOf(typ) == Some(Notification)
  }

  function EntryOf(svc: Service, rpc: Rpc): Entry
    requires IsByte(Num(svc.id)) && IsByte(Num(rpc.id))
  {
    IdValues(Num(svc.id), Num(rpc.id));
    var has := HasResponse(rpc.typ);
    Server.Entry(RequestId(Num(svc.id), Num(rpc.id)), has, rpc.reqFields, if has then rpc.resFields else None)
  }

  predicate NumbersOk(svc: Service) {
    IsByte(Num(svc.id)) && forall j :: 0 <= j < |svc.rpcs| ==> IsByte(Num(svc.rpcs[j].id))
  }

  function Entries(svc: Service): (es: seq<Entry>)
    requires NumbersOk(svc)
    ensures |es| == |svc.rpcs|
  {
    seq(|svc.rpcs|, j requires 0 <= j < |svc.rpcs| => EntryOf(svc, svc.rpcs[j]))
  }

  /** The core entries are fixed; the service called common contributes nothing else. */
  function ServiceEntries(svc: Service): seq<Entry>
    requires NumbersOk(svc)
  {
    if svc.name == "common" then [] else Entries(svc)
  }

  predicate SpecNumbersOk(spec: seq<Service>) {
    forall i :: 0 <= i < |spec| ==> NumbersOk(spec[i])
  }

  function EntriesUpTo(spec: seq<Service>, n: nat): seq<Entry>
    requires n <= |spec| && SpecNumbersOk(spec)
  {
    if n == 0 then CORE_ENTRIES else EntriesUpTo(spec, n - 1) + ServiceEntries(spec[n - 1])
  }

  function Table(spec: seq<Service>): seq<Entry>
    requires SpecNumbersOk(spec)
  {
    EntriesUpTo(spec, |spec|)
  }

  /** Rpc j of service i gets an entry from the first n services. */
  predicate Listed(spec: seq<Service>, n: nat, i: nat, j: nat)
    requires n <= |spec|
  {
    i < n && spec[i].name != "common" && j < |spec[i].rpcs|
  }

  function EntryAt(spec: seq<Service>, i: nat, j: nat): Entry
    requires SpecNumbersOk(spec) && i < |spec| && j < |spec[i].rpcs|
  {
    assert NumbersOk(spec[i]);
    EntryOf(spec[i], spec[i].rpcs[j])
  }

  predicate FromRpc(spec: seq<Service>, n: nat, e: Entry)
    requires SpecNumbersOk(spec) && n <= |spec|
  {
    exists i, j :: 0 <= i < n && 0 <= j < |spec[i].rpcs| && Listed(spec, n, i, j) && e == EntryAt(spec, i, j)
  }

  /** _generate_flat_dispatch_table, over the entries it appends. */
  method GenerateFlatDispatchTable(spec: seq<Service>) returns (table: seq<Entry>)
    requires SpecNumbersOk(spec)
    ensures table == Table(spec)
  {
    hide BitOr, ShiftLeft, KindOf, IsByte;
    table := CORE_ENTRIES;
    for i := 0 to |spec|
      invariant table == EntriesUpTo(spec, i)
    {
      var service := spec[i];
      if service.name == "common" {
        assert table + [] == table;
        continue;
      }
      ghost var before := table;
      assert before + Entries(service)[..0] == before;
      for j := 0 to |service.rpcs|
        invariant table == before + Entries(service)[..j]
      {
        var rpc := service.rpcs[j];
        IdFits(service, j);
        var combined := BitOr(ShiftLeft(Num(service.id), 8), Num(rpc.id));
        var hasResponse := HasResponse(rpc.typ);
        var entry := Server.Entry(combined, hasResponse, rpc.reqFields, if hasResponse then rpc.resFields else None);
        assert entry == EntryOf(service, rpc);
        assert Entries(service)[..j + 1] == Entries(service)[..j] + [entry];
        Assoc(before, Entries(service)[..j], [entry]);
        table := table + [entry];
      }
      assert Entries(service)[..|service.rpcs|] == Entries(service);
    }
  }

  lemma IdFits(svc: Service, j: nat)
    requires NumbersOk(svc) && j < |svc.rpcs|
    ensures 0 <= Num(svc.id) && 0 <= Num(svc.rpcs[j].id) && IsByte(Num(svc.rpcs[j].id))
    ensures BitOr(ShiftLeft(Num(svc.id), 8), Num(svc.rpcs[j].id)) < 0x1_0000
  {
    IdValues(Num(svc.id), Num(svc.rpcs[j].id));
  }

  lemma AcceptedNumbersOk(spec: seq<Service>)
    requires Accepted(spec) && AllPresent(spec)
    ensures SpecNumbersOk(spec)
  {
    forall i | 0 <= i < |spec|
      ensures NumbersOk(spec[i])
    {
      AcceptedService(spec, i);
      forall j | 0 <= j < |spec[i].rpcs|
        ensures IsByte(Num(spec[i].rpcs[j].id))
      {
        AcceptedNumbers(spec, i, j);
      }
    }
  }

  lemma ServiceEntriesHold(spec: seq<Service>, i: nat, e: Entry)
    requires SpecNumbersOk(spec) && i < |spec| && NumbersOk(spec[i])
    ensures e in ServiceEntries(spec[i]) <==>
              exists j :: 0 <= j < |spec[i].rpcs| && Listed(spec, i + 1, i, j) && e == EntryAt(spec, i, j)
  {
    hide EntryOf;
    var es := ServiceEntries(spec[i]);
    if e in es {
      var j :| 0 <= j < |es| && es[j] == e;
      assert Listed(spec, i + 1, i, j) && e == EntryAt(spec, i, j);
    }
    if j :| 0 <= j < |spec[i].rpcs| && Listed(spec, i + 1, i, j) && e == EntryAt(spec, i, j) {
      assert es[j] == e;
    }
  }

  /** The table holds the two core entries and one entry per rpc of every other service, nothing else. */
  lemma {:induction false} TableHolds(spec: seq<Service>, n: nat, e: Entry)
    requires n <= |spec| && SpecNumbersOk(spec)
    ensures e in EntriesUpTo(spec, n) <==> e in CORE_ENTRIES || FromRpc(spec, n, e)
  {
    hide EntryAt, ServiceEntries, NumbersOk;
    if n > 0 {
      TableHolds(spec, n - 1, e);
      ServiceEntriesHold(spec, n - 1, e);
      if FromRpc(spec, n - 1, e) {
        var i, j :| 0 <= i < n - 1 && 0 <= j < |spec[i].rpcs| && Listed(spec, n - 1, i, j) && e == EntryAt(spec, i, j);
        assert Listed(spec, n, i, j);
      }
      if FromRpc(spec, n, e) {
        var i, j :| 0 <= i < n && 0 <= j < |spec[i].rpcs| && Listed(spec, n, i, j) && e == EntryAt(spec, i, j);
        if i < n - 1 {
          assert Listed(spec, n - 1, i, j);
        }
      }
    }
  }

  lemma EntryKey(spec: seq<Service>, i: nat, j: nat)
    requires Accepted(spec) && AllPresent(spec) && SpecNumbersOk(spec) && i < |spec| && j < |spec[i].rpcs|
    ensures EntryAt(spec, i, j).rpcId == 256 * SvcNum(spec, i) + RpcNum(spec, i, j)
    ensures 1 <= SvcNum(spec, i) <= 255 && 1 <= RpcNum(spec, i, j) <= 255
    ensures spec[i].name != "common" ==> SvcNum(spec, i) >= 7
  {
    AcceptedNumbers(spec, i, j);
    IdValues(SvcNum(spec, i), RpcNum(spec, i, j));
  }

  /** In an accepted specification an entry answers, and may have a response descriptor, unless it is REQUEST_ONLY. */
  lemma SilentIffRequestOnly(spec: seq<Service>, i: nat, j: nat)
    requires Accepted(spec) && SpecNumbersOk(spec) && i < |spec| && j < |spec[i].rpcs|
    ensures !EntryAt(spec, i, j).hasResponse <==> KindOf(spec[i].rpcs[j].typ) == Some(RequestOnly)
    ensures !EntryAt(spec, i, j).hasResponse ==> EntryAt(spec, i, j).resFields.None?
  {
    assert !Wrong(spec, BadRpcType(i, j));
  }

  predicate KeysDistinct(table: seq<Entry>) {
    forall a, b :: 0 <= a < b < |table| ==> table[a].rpcId != table[b].rpcId
  }

  lemma AddedKeys(spec: seq<Service>, i: nat)
    requires Accepted(spec) && AllPresent(spec) && SpecNumbersOk(spec) && i < |spec| && NumbersOk(spec[i])
    ensures KeysDistinct(ServiceEntries(spec[i]))
  {
    hide Accepted, EntryOf;
    var es := ServiceEntries(spec[i]);
    forall a, b | 0 <= a < b < |es|
      ensures es[a].rpcId != es[b].rpcId
    {
      EntryKey(spec, i, a);
      EntryKey(spec, i, b);
      RpcsDiffer(spec, i, a, b);
      assert es[a] == EntryAt(spec, i, a) && es[b] == EntryAt(spec, i, b);
    }
  }

  lemma KeyNotEarlier(spec: seq<Service>, i: nat, j: nat, e: Entry)
    requires Accepted(spec) && AllPresent(spec) && SpecNumbersOk(spec) && i < |spec| && j < |spec[i].rpcs|
    requires Listed(spec, i + 1, i, j) && e in EntriesUpTo(spec, i)
    ensures e.rpcId != EntryAt(spec, i, j).rpcId
  {
    hide Accepted, EntryAt, EntriesUpTo;
    TableHolds(spec, i, e);
    EntryKey(spec, i, j);
    if e !in CORE_ENTRIES {
      var k, l :| 0 <= k < i && 0 <= l < |spec[k].rpcs| && Listed(spec, i, k, l) && e == EntryAt(spec, k, l);
      EntryKey(spec, k, l);
      ServicesDiffer(spec, k, i);
    }
  }

  lemma KeysConcat(a: seq<Entry>, b: seq<Entry>)
    requires KeysDistinct(a) && KeysDistinct(b)
    requires forall i, j :: 0 <= i < |a| && 0 <= j < |b| ==> a[i].rpcId != b[j].rpcId
    ensures KeysDistinct(a + b)
  {
  }

  lemma {:induction false} KeysDistinctUpTo(spec: seq<Service>, n: nat)
    requires Accepted(spec) && AllPresent(spec) && n <= |spec| && SpecNumbersOk(spec)
    ensures KeysDistinct(EntriesUpTo(spec, n))
  {
    hide Accepted, EntryAt, ServiceEntries, KeysDistinct;
    if n == 0 {
      CoreKeysDistinct();
    } else {
      KeysDistinctUpTo(spec, n - 1);
      var svc := spec[n - 1];
      assert NumbersOk(svc);
      var earlier, added := EntriesUpTo(spec, n - 1), ServiceEntries(svc);
      AddedKeys(spec, n - 1);
      forall a, b | 0 <= a < |earlier| && 0 <= b < |added|
        ensures earlier[a].rpcId != added[b].rpcId
      {
        ServiceEntriesHold(spec, n - 1, added[b]);
        var j :| 0 <= j < |svc.rpcs| && Listed(spec, n, n - 1, j) && added[b] == EntryAt(spec, n - 1, j);
        KeyNotEarlier(spec, n - 1, j, earlier[a]);
      }
      KeysConcat(earlier, added);
    }
  }

  lemma CoreKeysDistinct()
    ensures KeysDistinct(CORE_ENTRIES)
  {
  }

  /** The dispatch table of an accepted specification is a function: no two entries share a key. */
  lemma TableKeysDistinct(spec: seq<Service>)
    requires Accepted(spec) && AllPresent(spec)
    ensures SpecNumbersOk(spec) && KeysDistinct(Table(spec))
  {
    AcceptedNumbersOk(spec);
    KeysDistinctUpTo(spec, |spec|);
  }

  lemma {:induction false} FindUnique(table: seq<Entry>, k: nat)
    requires KeysDistinct(table) && k < |table|
    ensures Server.Find(table, table[k].rpcId) == Some(table[k])
    decreases |table|
  {
    if k > 0 {
      assert table[0].rpcId != table[k].rpcId;
      FindUnique(table[1..], k - 1);
    }
  }

  lemma {:induction false} FindNone(table: seq<Entry>, rpcId: word)
    ensures Server.Find(table, rpcId).None? <==> forall e :: e in table ==> e.rpcId != rpcId
    decreases |table|
  {
    if table != [] {
      FindNone(table[1..], rpcId);
      assert forall e :: e in table <==> e == table[0] || e in table[1..];
    }
  }

  /** The linear scan finds the one entry a keyed lookup would, and nothing exactly when there is no such entry. */
  lemma ScanIsLookup(spec: seq<Service>, e: Entry)
    requires Accepted(spec) && AllPresent(spec) && SpecNumbersOk(spec)
    ensures e in Table(spec) <==> Server.Find(Table(spec), e.rpcId) == Some(e)
    ensures forall id: word :: Server.Find(Table(spec), id).None? <==> forall x :: x in Table(spec) ==> x.rpcId != id
  {
    var table := Table(spec);
    TableKeysDistinct(spec);
    if e in table {
      var k :| 0 <= k < |table| && table[k] == e;
      FindUnique(table, k);
    }
    if Server.Find(table, e.rpcId) == Some(e) {
      Server.FoundHasId(table, e.rpcId);
    }
    forall id: word
      ensures Server.Find(table, id).None? <==> forall x :: x in table ==> x.rpcId != id
    {
      FindNone(table, id);
    }
  }

  /** What the engine is to find for an rpc: its own descriptors, and an answer unless it is REQUEST_ONLY. */
  predicate Serves(e: Entry, svc: Service, rpc: Rpc) {
    && e.rpcId == 256 * Num(svc.id) + Num(rpc.id)
    && (e.hasResponse <==> KindOf(rpc.typ) != Some(RequestOnly))
    && e.reqFields == rpc.reqFields
    && e.resFields == (if KindOf(rpc.typ) == Some(RequestOnly) then None else rpc.resFields)
  }

  /** The scan finds just that for every rpc of an accepted specification outside the core service. */
  lemma RpcServed(spec: seq<Service>, i: nat, j: nat)
    requires Accepted(spec) && AllPresent(spec) && SpecNumbersOk(spec) && Listed(spec, |spec|, i, j)
    ensures 0 <= 256 * SvcNum(spec, i) + RpcNum(spec, i, j) < 0x1_0000
    ensures var found := Server.Find(Table(spec), 256 * SvcNum(spec, i) + RpcNum(spec, i, j));
            found.Some? && Serves(found.value, spec[i], spec[i].rpcs[j])
  {
    hide Accepted, EntriesUpTo, KindOf, Table;
    var e := EntryAt(spec, i, j);
    TableIs(spec);
    TableHolds(spec, |spec|, e);
    EntryKey(spec, i, j);
    SilentIffRequestOnly(spec, i, j);
    ScanIsLookup(spec, e);
  }

  /** And for the rpcs of core_spec.yml, although the generator spells their entries out. */
  lemma CoreServed(spec: seq<Service>, j: nat)
    requires Accepted(spec) && AllPresent(spec) && SpecNumbersOk(spec) && j < |CORE_SERVICES[0].rpcs|
    ensures var svc := CORE_SERVICES[0];
            0 <= 256 * Num(svc.id) + Num(svc.rpcs[j].id) < 0x1_0000
            && var found := Server.Find(Table(spec), 256 * Num(svc.id) + Num(svc.rpcs[j].id));
               found.Some? && Serves(found.value, svc, svc.rpcs[j])
  {
    hide Accepted, EntriesUpTo, KindOf, Table, EntryAt;
    var e := CORE_ENTRIES[j];
    TableIs(spec);
    TableHolds(spec, |spec|, e);
    KindsOfClashing();
    ScanIsLookup(spec, e);
  }

  /** No other identifier is served. */
  lemma OnlyTheseServed(spec: seq<Service>, id: word)
    requires Accepted(spec) && AllPresent(spec) && SpecNumbersOk(spec)
    ensures Server.Find(Table(spec), id).Some? <==>
              || id == 0x0601 || id == 0x0602
              || exists i, j :: 0 <= i < |spec| && 0 <= j < |spec[i].rpcs| && Listed(spec, |spec|, i, j)
                                && id == 256 * SvcNum(spec, i) + RpcNum(spec, i, j)
  {
    hide Accepted, EntriesUpTo, KindOf, Table, EntryAt;
    TableIs(spec);
    var found := Server.Find(Table(spec), id);
    if found.Some? {
      Server.FoundHasId(Table(spec), id);
      TableHolds(spec, |spec|, found.value);
      if found.value !in CORE_ENTRIES {
        var i, j :| 0 <= i < |spec| && 0 <= j < |spec[i].rpcs| && Listed(spec, |spec|, i, j)
                    && found.value == EntryAt(spec, i, j);
        EntryKey(spec, i, j);
      }
    }
    if id == 0x0601 {
      CoreServed(spec, 0);
    } else if id == 0x0602 {
      CoreServed(spec, 1);
    } else if i, j :| 0 <= i < |spec| && 0 <= j < |spec[i].rpcs| && Listed(spec, |spec|, i, j)
                      && id == 256 * SvcNum(spec, i) + RpcNum(spec, i, j) {
      RpcServed(spec, i, j);
    }
  }

  // What the clients rely on.

  /** No response of the server can be mistaken for an error or an event. */
  predicate Settleable(table: seq<Entry>) {
    forall e :: e in table && e.hasResponse ==> e.rpcId != 0 && !Bit7(e.rpcId)
  }

  /** Rpc j of service i is no core rpc and is answered. */
  predicate Answering(spec: seq<Service>, i: nat, j: nat) {
    i < |spec| && spec[i].name != "common" && j < |spec[i].rpcs| && KindOf(spec[i].rpcs[j].typ) != Some(RequestOnly)
  }

  predicate SevenBitAnswering(spec: seq<Service>) {
    forall i, j :: 0 <= i < |spec| && 0 <= j < |spec[i].rpcs| && Answering(spec, i, j) ==> RpcNum(spec, i, j) <= 127
  }

  /** That is so exactly when the ids of all answered rpcs are at most 127. */
  lemma SettleableIff(spec: seq<Service>)
    requires Accepted(spec) && AllPresent(spec) && SpecNumbersOk(spec)
    ensures Settleable(Table(spec)) <==> SevenBitAnswering(spec)
  {
    hide Accepted, EntryAt, EntriesUpTo, KindOf;
    if SevenBitAnswering(spec) {
      forall e | e in Table(spec) && e.hasResponse
        ensures e.rpcId != 0 && !Bit7(e.rpcId)
      {
        TableHolds(spec, |spec|, e);
        if e !in CORE_ENTRIES {
          var i, j :|
            0 <= i < |spec| && 0 <= j < |spec[i].rpcs| && Listed(spec, |spec|, i, j) && e == EntryAt(spec, i, j);
          EntryKey(spec, i, j);
          SilentIffRequestOnly(spec, i, j);
          assert Answering(spec, i, j);
        }
      }
    }
    if Settleable(Table(spec)) {
      forall i, j | 0 <= i < |spec| && 0 <= j < |spec[i].rpcs| && Answering(spec, i, j)
        ensures RpcNum(spec, i, j) <= 127
      {
        AnsweringEntry(spec, i, j);
        EntryKey(spec, i, j);
      }
    }
  }

  lemma AnsweringEntry(spec: seq<Service>, i: nat, j: nat)
    requires Accepted(spec) && AllPresent(spec) && SpecNumbersOk(spec) && Answering(spec, i, j)
    ensures EntryAt(spec, i, j) in Table(spec) && EntryAt(spec, i, j).hasResponse
    ensures Server.Find(Table(spec), EntryAt(spec, i, j).rpcId) == Some(EntryAt(spec, i, j))
  {
    hide Accepted, EntryAt, EntriesUpTo, KindOf, Table;
    assert Listed(spec, |spec|, i, j);
    TableHolds(spec, |spec|, EntryAt(spec, i, j));
    SilentIffRequestOnly(spec, i, j);
    TableIs(spec);
    ScanIsLookup(spec, EntryAt(spec, i, j));
  }

  lemma TableIs(spec: seq<Service>)
    requires SpecNumbersOk(spec)
    ensures Table(spec) == EntriesUpTo(spec, |spec|)
  {
  }

  /** In a merged specification the core service alone uses high bytes up to 6: user services start at 7. */
  lemma OnlyCommonBelowSeven(user: seq<Service>, u: Use)
    requires Accepted(Merged(user)) && AllPresent(Merged(user)) && Uses(Merged(user), u)
    ensures IdOf(Merged(user), u) / 256 <= 6 <==> u.i == 0
    ensures u.i == 0 ==> IdOf(Merged(user), u) / 256 == 6
  {
    IdRange(Merged(user), u);
    assert Merged(user)[0] == CORE_SERVICES[0];
    ServicesDiffer(Merged(user), 0, u.i);
  }
}
