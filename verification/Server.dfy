/**
 The C server engine.  Protobuf structs are memory images; the descriptors, the request decoder, the
 response encoder and the callbacks are parameters of the firmware.  `Handle` is one packet as a
 function of the memory the engine reads, including its static request and response structs; the
 class works on real buffers, where the transmit buffer may be the receive buffer.
 */
module Server {
  import opened Bytes
  import opened Wire
  import opened Nanopb

  type Struct = seq<byte>
  type Slot = string
  type Desc = string

  datatype Entry = Entry(rpcId: word, hasResponse: bool, reqFields: Option<Desc>, resFields: Option<Desc>)

  datatype Decoded = Decoded(ok: bool, value: Struct)

  /** A callback's status, and what it left in both structs and in the context. */
  datatype Executed = Executed(status: int, req: Struct, res: Struct, code: int, message: seq<byte>)

  datatype Firmware = Firmware(
    table: seq<Entry>,
    reqSlot: word -> Option<Slot>,
    resSlot: word -> Option<Slot>,
    sizeOf: Slot -> nat,
    decode: (Desc, seq<byte>, Struct) -> Decoded,
    encode: (Desc, Struct) -> Encoding,
    execute: (word, Option<Struct>, Option<Struct>) -> Executed)

  /** The static structs, which keep their contents from packet to packet. */
  datatype Statics = Statics(reqs: map<Slot, Struct>, ress: map<Slot, Struct>)

  datatype Context = Context(statusCode: int, message: seq<byte>, handler: Option<Entry>)

  /** Return code, final bytes_written, and the transmitted bytes when there are any. */
  datatype Reply = Reply(code: int, bytesWritten: word, frame: seq<byte>, ctx: Context)

  const UNIMPLEMENTED := 12
  const INTERNAL := 13
  const INVALID_DATA_FORMAT := 17
  const MESSAGE_MAX: nat := 64

  // Texts.

  function Ascii(s: string): seq<byte> { seq(|s|, i requires 0 <= i < |s| => s[i] as int % 0x100) }

  function HexDigit(n: nat): char
    requires n < 16
  {
    "0123456789ABCDEF"[n]
  }

  function Hex4(w: word): string {
    [HexDigit(w / 4096), HexDigit(w / 256 % 16), HexDigit(w / 16 % 16), HexDigit(w % 16)]
  }

  function NotFoundMessage(rpcId: word): seq<byte> { Ascii("RPC ID 0x" + Hex4(rpcId) + " not found") }

  function DigitValue(c: char): int { if '0' <= c <= '9' then c as int - 48 else c as int - 55 }

  /** A number read from hexadecimal digits. */
  function HexValue(s: string): int {
    if s == "" then 0 else 16 * HexValue(s[..|s| - 1]) + DigitValue(s[|s| - 1])
  }

  lemma FourDigits(a: char, b: char, c: char, d: char)
    ensures HexValue([a, b, c, d]) == 4096 * DigitValue(a) + 256 * DigitValue(b) + 16 * DigitValue(c) + DigitValue(d)
  {
    hide DigitValue;
    assert [a, b, c, d][..3] == [a, b, c] && [a, b, c][..2] == [a, b] && [a, b][..1] == [a] && [a][..0] == "";
    assert HexValue([a]) == DigitValue(a);
    assert HexValue([a, b]) == 16 * DigitValue(a) + DigitValue(b);
    assert HexValue([a, b, c]) == 256 * DigitValue(a) + 16 * DigitValue(b) + DigitValue(c);
  }

  /** The identifier in the text of an error is the one asked for. */
  lemma HexReads(w: word)
    ensures |Hex4(w)| == 4 && HexValue(Hex4(w)) == w
    ensures forall i :: 0 <= i < 4 ==> '0' <= Hex4(w)[i] <= '9' || 'A' <= Hex4(w)[i] <= 'F'
  {
    hide HexDigit, HexValue, DigitValue;
    var a, b, c, d := w / 4096, w / 256 % 16, w / 16 % 16, w % 16;
    HexDigitReads(a);
    HexDigitReads(b);
    HexDigitReads(c);
    HexDigitReads(d);
    FourDigits(HexDigit(a), HexDigit(b), HexDigit(c), HexDigit(d));
    NibbleSum(w);
  }

  lemma NibbleSum(w: word)
    ensures w == 4096 * (w / 4096) + 256 * (w / 256 % 16) + 16 * (w / 16 % 16) + w % 16
  {
    DivTwice(w, 16);
    DivTwice(w, 256);
    var a, b, c := w / 16, w / 256, w / 4096;
    assert w == 16 * a + w % 16;
    assert a == 16 * b + a % 16;
    assert b == 16 * c + b % 16;
  }

  lemma DivTwice(w: nat, n: nat)
    requires n == 16 || n == 256
    ensures w / n / 16 == w / (n * 16)
  {
    var a := w / n;
    var b := a / 16;
    assert w == n * a + w % n && a == 16 * b + a % 16;
  }

  lemma HexDigitReads(n: nat)
    requires n < 16
    ensures var c := HexDigit(n);
            DigitValue(c) == n && ('0' <= c <= '9' || 'A' <= c <= 'F')
  {
  }

  function StrError(code: int): seq<byte> {
    Ascii(match code
          case 0 => "OK"
          case 1 => "Cancelled"
          case 2 => "Unknown error"
          case 3 => "Invalid argument"
          case 4 => "Deadline exceeded"
          case 5 => "Resource not found"
          case 6 => "Resource already exists"
          case 7 => "Permission denied"
          case 8 => "Resource exhausted"
          case 9 => "Failed precondition"
          case 10 => "Operation aborted"
          case 11 => "Out of range"
          case 12 => "Unimplemented"
          case 13 => "Internal error"
          case 14 => "Service unavailable"
          case 15 => "Data loss"
          case 16 => "Unauthenticated"
          case 17 => "Invalid data format"
          case 18 => "Missing required field"
          case 19 => "Version mismatch"
          case _ => "Unknown status code")
  }

  // One packet.

  /** The linear scan of the dispatch table. */
  function Find(table: seq<Entry>, rpcId: word): Option<Entry> {
    if table == [] then None
    else if table[0].rpcId == rpcId then Some(table[0])
    else Find(table[1..], rpcId)
  }

  /** The status message: each write that does not fit is skipped and the next one is still tried. */
  function StatusPayload(cap: nat, code: int, message: seq<byte>): (p: seq<byte>)
    ensures |p| <= cap
  {
    var p := Write(cap, Write(cap, [], [0x08]), Varint(ZigZag(code)));
    var text := message[..Min(|message|, MESSAGE_MAX)];
    if text == [] then p
    else
      var tagged := Write(cap, p, [0x12]);
      if |tagged| + |Varint(|text|)| <= cap
      then Write(cap, tagged + Varint(|text|), text)
      else tagged
  }

  /** `tx` is the size of the transmit buffer, None for a null pointer. */
  predicate NoRoom(tx: Option<word>) { tx.None? || tx.value < 6 }

  function ErrorReply(tx: Option<word>, seqId: word, code: int, message: seq<byte>, ctx: Context): Reply {
    if NoRoom(tx) then Reply(-1, 0, [], ctx)
    else
      var payload := StatusPayload(tx.value - 6, code, message);
      Reply(0, 6 + |payload|, Header(0, seqId, |payload|) + payload, ctx)
  }

  function Zeroed(size: nat): Struct { seq(size, _ => 0) }

  /** The getters clear the struct they return. */
  function Cleared(structs: map<Slot, Struct>, fw: Firmware, slot: Option<Slot>): map<Slot, Struct> {
    if slot.None? then structs else structs[slot.value := Zeroed(fw.sizeOf(slot.value))]
  }

  function At(structs: map<Slot, Struct>, slot: Option<Slot>): Option<Struct> {
    if slot.Some? && slot.value in structs then Some(structs[slot.value]) else None
  }

  function Put(structs: map<Slot, Struct>, slot: Option<Slot>, value: Struct): map<Slot, Struct> {
    if slot.None? then structs else structs[slot.value := value]
  }

  function RxRpcId(rx: seq<byte>): word
    requires 6 <= |rx|
  {
    Word(rx[0], rx[1])
  }

  function RxSeqId(rx: seq<byte>): word
    requires 6 <= |rx|
  {
    Word(rx[2], rx[3])
  }

  /** The request is decoded only when the entry has a descriptor and the getter a struct for it. */
  predicate Decodes(fw: Firmware, h: Entry) { h.reqFields.Some? && fw.reqSlot(h.rpcId).Some? }

  /**
   The memory the engine reads exists.  The engine itself never compares PAYLOAD_LEN with the number
   of bytes received.
   */
  predicate Readable(fw: Firmware, rx: seq<byte>, n: word) {
    n >= 6 ==>
      && 6 <= |rx|
      && (var h := Find(fw.table, RxRpcId(rx));
          h.Some? && Decodes(fw, h.value) ==> 6 + HeaderLength(rx) <= |rx|)
  }

  lemma {:induction false} FoundHasId(table: seq<Entry>, rpcId: word)
    requires Find(table, rpcId).Some?
    ensures Find(table, rpcId).value.rpcId == rpcId && Find(table, rpcId).value in table
  {
    if table[0].rpcId != rpcId {
      FoundHasId(table[1..], rpcId);
    }
  }

  /** It stops at the first entry with the identifier. */
  lemma {:induction false} FoundFirst(table: seq<Entry>, rpcId: word) returns (k: nat)
    requires Find(table, rpcId).Some?
    ensures k < |table| && Find(table, rpcId) == Some(table[k]) && table[k].rpcId == rpcId
    ensures forall j :: 0 <= j < k ==> table[j].rpcId != rpcId
  {
    k := 0;
    if table[0].rpcId != rpcId {
      var m := FoundFirst(table[1..], rpcId);
      k := m + 1;
    }
  }

  /** windrpc_handle on receive memory `rx` of which `n` bytes were received. */
  function Handle(fw: Firmware, st: Statics, rx: seq<byte>, n: word, tx: Option<word>): (Statics, Reply)
    requires Readable(fw, rx, n)
  {
    if n < 6 then (st, Reply(-1, n, [], Context(INVALID_DATA_FORMAT, [], None)))
    else
      var rpcId, seqId := RxRpcId(rx), RxSeqId(rx);
      match Find(fw.table, rpcId)
      case None =>
        var message := NotFoundMessage(rpcId);
        (st, ErrorReply(tx, seqId, UNIMPLEMENTED, message, Context(UNIMPLEMENTED, message, None)))
      case Some(h) =>
        FoundHasId(fw.table, rpcId);
        var d := Decode(fw, st, h, rx);
        if !d.1 then
          var message := Ascii("Invalid data format");
          (d.0, ErrorReply(tx, seqId, INVALID_DATA_FORMAT, message, Context(INVALID_DATA_FORMAT, message, Some(h))))
        else
          var e := Execute(fw, d.0, h);
          (e.0, Respond(fw, e.0, h, seqId, e.1, tx))
  }

  function Decode(fw: Firmware, st: Statics, h: Entry, rx: seq<byte>): (Statics, bool)
    requires 6 <= |rx| && (Decodes(fw, h) ==> 6 + HeaderLength(rx) <= |rx|)
  {
    var slot := fw.reqSlot(h.rpcId);
    var reqs := Cleared(st.reqs, fw, slot);
    if Decodes(fw, h) then
      var d := fw.decode(h.reqFields.value, rx[6..6 + HeaderLength(rx)], reqs[slot.value]);
      (st.(reqs := Put(reqs, slot, d.value)), d.ok)
    else (st.(reqs := reqs), true)
  }

  function Execute(fw: Firmware, st: Statics, h: Entry): (Statics, Executed) {
    var reqSlot, resSlot := fw.reqSlot(h.rpcId), fw.resSlot(h.rpcId);
    var ress := Cleared(st.ress, fw, resSlot);
    var e := fw.execute(h.rpcId, At(st.reqs, reqSlot), At(ress, resSlot));
    (Statics(Put(st.reqs, reqSlot, e.req), Put(ress, resSlot, e.res)), e)
  }

  /** The response struct encoded into `cap` bytes: success, and the bytes written either way. */
  function Encoded(fw: Firmware, st: Statics, h: Entry, cap: nat): (w: (bool, seq<byte>))
    ensures |w.1| <= cap
  {
    var res := At(st.ress, fw.resSlot(h.rpcId));
    if h.resFields.Some? && res.Some? then Encode(cap, fw.encode(h.resFields.value, res.value)) else (true, [])
  }

  /** Everything after the callback. */
  function Respond(fw: Firmware, st: Statics, h: Entry, seqId: word, e: Executed, tx: Option<word>): Reply {
    var ctx := Context(e.code, e.message, Some(h));
    if e.status != 0 then
      ErrorReply(tx, seqId, e.status, if e.message != [] then e.message else StrError(e.status),
                 ctx.(statusCode := e.status))
    else if !h.hasResponse then Reply(0, 0, [], ctx)
    else Response(fw, st, h, seqId, ctx, tx)
  }

  function Response(fw: Firmware, st: Statics, h: Entry, seqId: word, ctx: Context, tx: Option<word>): Reply {
    if NoRoom(tx) then Reply(-1, 0, [], ctx)
    else
      var w := Encoded(fw, st, h, tx.value - 6);
      if !w.0 then ErrorReply(tx, seqId, INTERNAL, Ascii("Failed to encode response"), ctx)
      else Reply(0, 6 + |w.1|, Header(h.rpcId, seqId, |w.1|) + w.1, ctx)
  }

  // The contract of the handler.

  /** A transmitted frame: it fits the buffer, and its header announces exactly the bytes that follow it. */
  predicate Answers(frame: seq<byte>, rpcId: word, seqId: word, tx: word) {
    6 <= |frame| <= tx && frame == Header(rpcId, seqId, |frame| - 6) + frame[6..]
  }

  /** The client's unpack_frame recovers both ids and the payload of every such frame. */
  lemma AnswersUnpack(frame: seq<byte>, rpcId: word, seqId: word, tx: word)
    requires Answers(frame, rpcId, seqId, tx)
    ensures UnpackFrame(frame) == Some(Frame(rpcId, seqId, frame[6..])) && HeaderLength(frame) == |frame| - 6
  {
    HeaderReads(rpcId, seqId, |frame| - 6, frame[6..]);
    assert frame[6..Min(|frame|, |frame|)] == frame[6..];
  }

  lemma FramedAnswers(rpcId: word, seqId: word, payload: seq<byte>, tx: word)
    requires 6 + |payload| <= tx
    ensures Answers(Header(rpcId, seqId, |payload|) + payload, rpcId, seqId, tx)
  {
    assert (Header(rpcId, seqId, |payload|) + payload)[6..] == payload;
  }

  /** What is owed once six bytes were received; `silent` when the callback succeeded and no answer is wanted. */
  predicate Contract(r: Reply, h: Option<Entry>, rpcId: word, seqId: word, tx: Option<word>, silent: bool) {
    && r.bytesWritten == |r.frame|
    && (if silent then r.code == 0 && r.frame == []
        else if NoRoom(tx) then r.code == -1 && r.frame == []
        else r.code == 0 && (|| Answers(r.frame, 0, seqId, tx.value)
                             || (h.Some? && h.value.hasResponse && Answers(r.frame, rpcId, seqId, tx.value))))
  }

  lemma ErrorReplyContract(tx: Option<word>, h: Option<Entry>, rpcId: word, seqId: word, code: int, message: seq<byte>,
                           ctx: Context)
    ensures Contract(ErrorReply(tx, seqId, code, message, ctx), h, rpcId, seqId, tx, false)
  {
    hide StatusPayload, Answers;
    if !NoRoom(tx) {
      var payload := StatusPayload(tx.value - 6, code, message);
      FramedAnswers(0, seqId, payload, tx.value);
      assert |Header(0, seqId, |payload|) + payload| == 6 + |payload|;
    }
  }

  lemma RespondContract(fw: Firmware, st: Statics, h: Entry, seqId: word, e: Executed, tx: Option<word>)
    ensures Contract(Respond(fw, st, h, seqId, e, tx), Some(h), h.rpcId, seqId, tx, e.status == 0 && !h.hasResponse)
  {
    hide ErrorReply, Answers, StrError, Ascii;
    var ctx := Context(e.code, e.message, Some(h));
    if e.status != 0 {
      ErrorReplyContract(tx, Some(h), h.rpcId, seqId, e.status,
                         if e.message != [] then e.message else StrError(e.status), ctx.(statusCode := e.status));
    } else if h.hasResponse && !NoRoom(tx) {
      ErrorReplyContract(tx, Some(h), h.rpcId, seqId, INTERNAL, Ascii("Failed to encode response"), ctx);
      var w := Encoded(fw, st, h, tx.value - 6);
      FramedAnswers(h.rpcId, seqId, w.1, tx.value);
      assert |Header(h.rpcId, seqId, |w.1|) + w.1| == 6 + |w.1|;
    }
  }

  /** The request decodes, the callback succeeds, and its entry wants no answer. */
  predicate SilentSuccess(fw: Firmware, st: Statics, h: Option<Entry>, rx: seq<byte>)
    requires 6 <= |rx| && (h.Some? && Decodes(fw, h.value) ==> 6 + HeaderLength(rx) <= |rx|)
  {
    && h.Some? && !h.value.hasResponse
    && Decode(fw, st, h.value, rx).1
    && Execute(fw, Decode(fw, st, h.value, rx).0, h.value).1.status == 0
  }

  /**
   A short packet returns -1 and leaves bytes_written alone.  Otherwise: nothing is written and 0
   returned exactly after a successful request that wants no answer; -1 is returned exactly when
   something has to be sent and there is no room for a header; else a well-formed frame goes out with
   the request's sequence number and either its rpc id, for an entry that answers, or 0x0000.
   */
  lemma HandlerContract(fw: Firmware, st: Statics, rx: seq<byte>, n: word, tx: Option<word>)
    requires Readable(fw, rx, n)
    ensures n < 6 ==> Handle(fw, st, rx, n, tx).1.code == -1 && Handle(fw, st, rx, n, tx).1.bytesWritten == n
    ensures n >= 6 ==>
              Contract(Handle(fw, st, rx, n, tx).1, Find(fw.table, RxRpcId(rx)), RxRpcId(rx), RxSeqId(rx), tx,
                       SilentSuccess(fw, st, Find(fw.table, RxRpcId(rx)), rx))
  {
    hide ErrorReply, Respond, Contract, Decode, Execute, NotFoundMessage, Ascii;
    if n >= 6 {
      var rpcId, seqId := RxRpcId(rx), RxSeqId(rx);
      match Find(fw.table, rpcId)
      case None =>
        var message := NotFoundMessage(rpcId);
        ErrorReplyContract(tx, None, rpcId, seqId, UNIMPLEMENTED, message, Context(UNIMPLEMENTED, message, None));
      case Some(h) =>
        FoundHasId(fw.table, rpcId);
        var d := Decode(fw, st, h, rx);
        if d.1 {
          var e := Execute(fw, d.0, h);
          RespondContract(fw, e.0, h, seqId, e.1, tx);
        } else {
          var message := Ascii("Invalid data format");
          ErrorReplyContract(tx, Some(h), rpcId, seqId, INVALID_DATA_FORMAT, message,
                             Context(INVALID_DATA_FORMAT, message, Some(h)));
        }
    }
  }

  // History independence.

  const FRESH := Statics(map[], map[])

  lemma DecodeForgets(fw: Firmware, st: Statics, st': Statics, h: Entry, rx: seq<byte>)
    requires 6 <= |rx| && (Decodes(fw, h) ==> 6 + HeaderLength(rx) <= |rx|)
    ensures Decode(fw, st, h, rx).1 == Decode(fw, st', h, rx).1
    ensures At(Decode(fw, st, h, rx).0.reqs, fw.reqSlot(h.rpcId))
         == At(Decode(fw, st', h, rx).0.reqs, fw.reqSlot(h.rpcId))
  {
  }

  lemma ExecuteForgets(fw: Firmware, st: Statics, st': Statics, h: Entry)
    requires At(st.reqs, fw.reqSlot(h.rpcId)) == At(st'.reqs, fw.reqSlot(h.rpcId))
    ensures Execute(fw, st, h).1 == Execute(fw, st', h).1
    ensures At(Execute(fw, st, h).0.ress, fw.resSlot(h.rpcId)) == At(Execute(fw, st', h).0.ress, fw.resSlot(h.rpcId))
  {
  }

  /** What a packet is answered with does not depend on what the static structs were left with. */
  lemma HistoryIndependence(fw: Firmware, st: Statics, rx: seq<byte>, n: word, tx: Option<word>)
    requires Readable(fw, rx, n)
    ensures Handle(fw, st, rx, n, tx).1 == Handle(fw, FRESH, rx, n, tx).1
  {
    hide Decode, Execute, ErrorReply, NotFoundMessage, Ascii, StrError, Encode;
    if n >= 6 && Find(fw.table, RxRpcId(rx)).Some? {
      var h := Find(fw.table, RxRpcId(rx)).value;
      FoundHasId(fw.table, RxRpcId(rx));
      DecodeForgets(fw, st, FRESH, h, rx);
      ExecuteForgets(fw, Decode(fw, st, h, rx).0, Decode(fw, FRESH, h, rx).0, h);
    }
  }

  /** What the engine reads when `n` bytes are received into `memory`. */
  datatype Reception = Reception(memory: seq<byte>, n: word)

  predicate AllReadable(fw: Firmware, inputs: seq<Reception>) {
    forall r :: r in inputs ==> Readable(fw, r.memory, r.n)
  }

  /** The replies to a sequence of receptions handled one after the other on the same static structs. */
  function Session(fw: Firmware, st: Statics, inputs: seq<Reception>, tx: Option<word>): seq<Reply>
    requires AllReadable(fw, inputs)
    decreases |inputs|
  {
    if inputs == [] then []
    else
      var r := Handle(fw, st, inputs[0].memory, inputs[0].n, tx);
      [r.1] + Session(fw, r.0, inputs[1..], tx)
  }

  lemma {:induction false} SessionIsMemoryless(fw: Firmware, st: Statics, inputs: seq<Reception>, tx: Option<word>)
    requires AllReadable(fw, inputs)
    ensures |Session(fw, st, inputs, tx)| == |inputs|
    ensures forall i :: 0 <= i < |inputs| ==>
              Session(fw, st, inputs, tx)[i] == Handle(fw, FRESH, inputs[i].memory, inputs[i].n, tx).1
    decreases |inputs|
  {
    hide Handle;
    if inputs != [] {
      HistoryIndependence(fw, st, inputs[0].memory, inputs[0].n, tx);
      SessionIsMemoryless(fw, Handle(fw, st, inputs[0].memory, inputs[0].n, tx).0, inputs[1..], tx);
    }
  }

  // What the reply depends on: the received bytes, as long as they cover what is decoded.

  /** Whatever the engine reads of this packet lies within its `n` received bytes. */
  predicate Covered(fw: Firmware, memory: seq<byte>, n: word) {
    n as int <= |memory| && Readable(fw, memory[..n], n)
  }

  /** Then the reply is a function of the packet: the bytes behind it do not matter. */
  lemma HandleReadsPacket(fw: Firmware, st: Statics, memory: seq<byte>, n: word, tx: Option<word>)
    requires Covered(fw, memory, n)
    ensures Readable(fw, memory, n)
    ensures Handle(fw, st, memory, n, tx) == Handle(fw, st, memory[..n], n, tx)
  {
    hide Decode, Execute, Respond, ErrorReply, Find, NotFoundMessage, Ascii;
    if n >= 6 {
      var packet := memory[..n];
      assert forall i :: 0 <= i < 6 ==> packet[i] == memory[i];
      var found := Find(fw.table, RxRpcId(memory));
      if found.Some? {
        FoundHasId(fw.table, RxRpcId(memory));
        DecodeReadsPacket(fw, st, found.value, memory, n);
      }
    }
  }

  lemma DecodeReadsPacket(fw: Firmware, st: Statics, h: Entry, memory: seq<byte>, n: word)
    requires 6 <= n as int <= |memory| && (Decodes(fw, h) ==> 6 + HeaderLength(memory) <= n)
    ensures Decode(fw, st, h, memory) == Decode(fw, st, h, memory[..n])
  {
    assert HeaderLength(memory) == HeaderLength(memory[..n]);
    if Decodes(fw, h) {
      SliceOfPrefix(memory, n, 6, 6 + HeaderLength(memory));
    }
  }

  lemma SliceOfPrefix<T>(s: seq<T>, n: nat, i: nat, j: nat)
    requires i <= j <= n <= |s|
    ensures s[..n][i..j] == s[i..j]
  {
  }

  /** One answering rpc whose payload decodes if and only if it ends in zero. */
  function Picky(rpcId: word): Firmware {
    Firmware([Entry(rpcId, true, Some("fields"), None)], _ => Some("req"), _ => None, _ => 0,
             (_, payload, s) => Decoded(payload != [] && payload[|payload| - 1] == 0, s), (_, _) => Encoding([], true),
             (_, _, _) => Executed(0, [], [], 0, []))
  }

  /** A payload of at least one byte decides by its last byte between the bare header and an error frame. */
  lemma PickyReplies(memory: seq<byte>, n: word, tx: word)
    requires n >= 6 && tx >= 7 && 6 <= |memory| && 6 < 6 + HeaderLength(memory) <= |memory|
    ensures var fw := Picky(RxRpcId(memory));
            && Readable(fw, memory, n)
            && (|Handle(fw, FRESH, memory, n, Some(tx)).1.frame| == 6 <==> memory[5 + HeaderLength(memory)] == 0)
  {
    hide StatusPayload, Header, Ascii, NotFoundMessage;
    StatusNotEmpty(tx - 6, INVALID_DATA_FORMAT, Ascii("Invalid data format"));
  }

  lemma StatusNotEmpty(cap: nat, code: int, message: seq<byte>)
    requires cap >= 1
    ensures StatusPayload(cap, code, message) != []
  {
    hide Varint, ZigZag;
  }

  /**
   The condition is needed: for every packet that announces more than it holds there are a firmware and two
   continuations of the same received bytes that are answered differently.
   */
  lemma UncoveredLeaks(packet: seq<byte>, tx: word) returns (one: seq<byte>, other: seq<byte>)
    requires 6 <= |packet| < 6 + HeaderLength(packet) && |packet| < 0x1_0000 && tx >= 7
    ensures packet <= one && packet <= other
    ensures var fw := Picky(RxRpcId(packet));
            && Readable(fw, one, |packet|) && Readable(fw, other, |packet|) && !Covered(fw, one, |packet|)
            && Handle(fw, FRESH, one, |packet|, Some(tx)).1 != Handle(fw, FRESH, other, |packet|, Some(tx)).1
  {
    hide Handle, Readable;
    var missing := 6 + HeaderLength(packet) - |packet|;
    one, other := packet + seq(missing, _ => 0), packet + seq(missing, _ => 1);
    PickyReplies(one, |packet|, tx);
    PickyReplies(other, |packet|, tx);
    NotCovered(packet, one);
  }

  /** So the received bytes decide the reply, whatever the firmware, exactly when they cover the announced payload. */
  lemma PacketSufficesIff(packet: seq<byte>, tx: word)
    requires 6 <= |packet| < 0x1_0000 && tx >= 7
    ensures (forall fw: Firmware, one: seq<byte>, other: seq<byte> |
               packet <= one && packet <= other && Readable(fw, one, |packet|) && Readable(fw, other, |packet|) ::
               Handle(fw, FRESH, one, |packet|, Some(tx)).1 == Handle(fw, FRESH, other, |packet|, Some(tx)).1)
       <==> 6 + HeaderLength(packet) <= |packet|
  {
    hide Handle, Picky;
    if 6 + HeaderLength(packet) <= |packet| {
      forall fw: Firmware, one: seq<byte>, other: seq<byte> |
        packet <= one && packet <= other && Readable(fw, one, |packet|) && Readable(fw, other, |packet|)
        ensures Handle(fw, FRESH, one, |packet|, Some(tx)).1 == Handle(fw, FRESH, other, |packet|, Some(tx)).1
      {
        assert one[..|packet|] == packet && other[..|packet|] == packet;
        HandleReadsPacket(fw, FRESH, one, |packet|, Some(tx));
        HandleReadsPacket(fw, FRESH, other, |packet|, Some(tx));
      }
    } else {
      var one, other := UncoveredLeaks(packet, tx);
      assert Readable(Picky(RxRpcId(packet)), one, |packet|);
    }
  }

  lemma NotCovered(packet: seq<byte>, memory: seq<byte>)
    requires packet <= memory && 6 <= |packet| < 6 + HeaderLength(packet) && |packet| < 0x1_0000
    ensures !Covered(Picky(RxRpcId(packet)), memory, |packet|)
  {
    assert memory[..|packet|] == packet;
  }

  // The raw packet entry point and the notification helper.

  /**
   windrpc_process_packet: return code and the bytes copied out.  No static state occurs here: it is a
   function of the packet.  `limit` is None when the caller gave no output buffer or length pointer.
   */
  function Processed(fw: Firmware, rx: Option<seq<byte>>, n: word, txSize: word, limit: Option<word>): (int, seq<byte>)
    requires rx.Some? ==> Readable(fw, rx.value, n)
  {
    if rx.None? || n < 6 then (-1, [])
    else
      var r := Handle(fw, FRESH, rx.value, n, Some(txSize)).1;
      (r.code, if limit.None? then [] else r.frame[..Min(|r.frame|, limit.value)])
  }

  /** A covered packet is processed as if nothing lay behind it. */
  lemma ProcessedReadsPacket(fw: Firmware, memory: seq<byte>, n: word, txSize: word, limit: Option<word>)
    requires Covered(fw, memory, n)
    ensures Readable(fw, memory, n)
    ensures Processed(fw, Some(memory), n, txSize, limit) == Processed(fw, Some(memory[..n]), n, txSize, limit)
  {
    hide Handle;
    HandleReadsPacket(fw, FRESH, memory, n, Some(txSize));
  }

  /** The caller gets a prefix of the reply, and all of it exactly when its buffer is large enough. */
  lemma ProcessedWholeIff(fw: Firmware, rx: seq<byte>, n: word, txSize: word, limit: word)
    requires Readable(fw, rx, n) && n >= 6
    ensures var out := Processed(fw, Some(rx), n, txSize, Some(limit)).1;
            var frame := Handle(fw, FRESH, rx, n, Some(txSize)).1.frame;
            out <= frame && |out| <= limit && (out == frame <==> |frame| <= limit)
  {
    hide Handle;
  }

  /** An emitted windrpc_notify function: sequence number zero; None when it does not fit or encode. */
  function Notified(eventId: word, txSize: word, e: Encoding): Option<seq<byte>> {
    if txSize < 6 || !Encode(txSize - 6, e).0 then None
    else Some(Header(eventId, 0, |Encode(txSize - 6, e).1|) + Encode(txSize - 6, e).1)
  }

  lemma NotifiedAnswers(eventId: word, txSize: word, e: Encoding)
    ensures Notified(eventId, txSize, e).Some? <==> e.complete && 6 + |Flatten(e.chunks)| <= txSize
    ensures Notified(eventId, txSize, e).Some? ==> Answers(Notified(eventId, txSize, e).value, eventId, 0, txSize)
    ensures Notified(eventId, txSize, e).Some? ==> Notified(eventId, txSize, e).value[6..] == Flatten(e.chunks)
  {
    hide Answers, Encode, Header;
    if txSize >= 6 && Encode(txSize - 6, e).0 {
      var payload := Flatten(e.chunks);
      FramedAnswers(eventId, 0, payload, txSize);
      assert (Header(eventId, 0, |payload|) + payload)[6..] == payload;
    }
  }

  /**
   A request that decodes is answered with its own rpc id exactly when the callback succeeds and its
   response encodes in full within the transmit buffer; the payload is then that encoding.
   */
  lemma AnsweredInKind(fw: Firmware, st: Statics, h: Entry, seqId: word, e: Executed, tx: Option<word>)
    requires h.rpcId != 0 && !NoRoom(tx)
    ensures var r := Respond(fw, st, h, seqId, e, tx);
            var res := At(st.ress, fw.resSlot(h.rpcId));
            var enc := if h.resFields.Some? && res.Some? then fw.encode(h.resFields.value, res.value)
                       else Encoding([], true);
            var fits := enc.complete && 6 + |Flatten(enc.chunks)| <= tx.value;
            && (r.frame != [] && Word(r.frame[0], r.frame[1]) == h.rpcId <==> e.status == 0 && h.hasResponse && fits)
            && (e.status == 0 && h.hasResponse && fits ==>
                  r.frame == Header(h.rpcId, seqId, |Flatten(enc.chunks)|) + Flatten(enc.chunks))
  {
    hide StatusPayload, StrError, Ascii;
  }

  /** The server gets through to a response: entry found, request decoded, callback content, response encoded. */
  predicate Succeeds(fw: Firmware, st: Statics, rx: seq<byte>, tx: word)
    requires 6 <= |rx| && Readable(fw, rx, 6) && tx >= 6
  {
    var h := Find(fw.table, RxRpcId(rx));
    && h.Some? && h.value.hasResponse
    && Decode(fw, st, h.value, rx).1
    && var e := Execute(fw, Decode(fw, st, h.value, rx).0, h.value);
       e.1.status == 0 && Encoded(fw, e.0, h.value, tx - 6).0
  }

  predicate Carries(frame: seq<byte>, rpcId: word) {
    frame == [] || (2 <= |frame| && Word(frame[0], frame[1]) == rpcId)
  }

  lemma ErrorReplyCarries(tx: word, seqId: word, code: int, message: seq<byte>, ctx: Context)
    requires tx >= 6
    ensures Carries(ErrorReply(Some(tx), seqId, code, message, ctx).frame, 0)
  {
    hide StatusPayload;
  }

  lemma RespondCarries(fw: Firmware, st: Statics, h: Entry, seqId: word, e: Executed, tx: word)
    requires tx >= 6
    ensures Carries(Respond(fw, st, h, seqId, e, Some(tx)).frame,
                    if e.status == 0 && h.hasResponse && Encoded(fw, st, h, tx - 6).0 then h.rpcId else 0)
  {
    hide ErrorReply, Encoded, Ascii, StrError;
    var ctx := Context(e.code, e.message, Some(h));
    ErrorReplyCarries(tx, seqId, e.status, if e.message != [] then e.message else StrError(e.status),
                      ctx.(statusCode := e.status));
    ErrorReplyCarries(tx, seqId, INTERNAL, Ascii("Failed to encode response"), ctx);
  }

  /** A reply carries the request's rpc id exactly when the server got through to a response, and else 0x0000. */
  lemma RepliesCarry(fw: Firmware, st: Statics, rx: seq<byte>, n: word, tx: word)
    requires n >= 6 && Readable(fw, rx, n) && tx >= 6
    ensures Carries(Handle(fw, st, rx, n, Some(tx)).1.frame, if Succeeds(fw, st, rx, tx) then RxRpcId(rx) else 0)
  {
    hide Decode, Execute, Encoded, ErrorReply, Respond, Ascii, NotFoundMessage, Carries;
    var rpcId, seqId := RxRpcId(rx), RxSeqId(rx);
    match Find(fw.table, rpcId)
    case None =>
      var message := NotFoundMessage(rpcId);
      ErrorReplyCarries(tx, seqId, UNIMPLEMENTED, message, Context(UNIMPLEMENTED, message, None));
    case Some(h) =>
      FoundHasId(fw.table, rpcId);
      var d := Decode(fw, st, h, rx);
      if d.1 {
        var e := Execute(fw, d.0, h);
        RespondCarries(fw, e.0, h, seqId, e.1, tx);
      } else {
        var message := Ascii("Invalid data format");
        ErrorReplyCarries(tx, seqId, INVALID_DATA_FORMAT, message, Context(INVALID_DATA_FORMAT, message, Some(h)));
      }
  }

  /** An answering entry whose rpc has no structs is answered with the bare header. */
  lemma EmptyResponse(fw: Firmware, rx: seq<byte>, n: word, tx: word)
    requires n >= 6 && Readable(fw, rx, n) && tx >= 6
    requires var rpcId := RxRpcId(rx);
             var h := Find(fw.table, rpcId);
             && h.Some? && h.value.rpcId == rpcId && h.value.hasResponse
             && fw.reqSlot(rpcId) == None && fw.resSlot(rpcId) == None && fw.execute(rpcId, None, None).status == 0
    ensures Handle(fw, FRESH, rx, n, Some(tx)).1.code == 0
    ensures Handle(fw, FRESH, rx, n, Some(tx)).1.frame == Header(RxRpcId(rx), RxSeqId(rx), 0)
  {
    hide Header, Find, ErrorReply, StrError, Ascii, NotFoundMessage;
  }
}
