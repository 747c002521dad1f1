/**
 What becomes of one packet, in terms of the firmware's own decoder, callback and encoder: what the callback is
 given, that what it leaves in the response struct is what goes out, and what the static structs hold afterwards.
 */
module Outcome {
  import opened Bytes
  import opened Wire
  import opened Nanopb
  import opened Server
  import Status

  /**
   The callback's request argument, and whether it is called at all: no struct without a slot; a blank one
   without a descriptor; else what decoding exactly the announced payload into a blank one leaves.
   */
  predicate Given(fw: Firmware, h: Entry, rx: seq<byte>, req: Option<Struct>, called: bool)
    requires 6 <= |rx| && (h.reqFields.Some? && fw.reqSlot(h.rpcId).Some? ==> 6 + HeaderLength(rx) <= |rx|)
  {
    match (fw.reqSlot(h.rpcId), h.reqFields)
    case (None, _) => req == None && called
    case (Some(slot), None) => req == Some(Zeroed(fw.sizeOf(slot))) && called
    case (Some(slot), Some(fields)) =>
      var d := fw.decode(fields, rx[6..6 + HeaderLength(rx)], Zeroed(fw.sizeOf(slot)));
      req == Some(d.value) && called == d.ok
  }

  /** The callback's response argument: a blank struct, or none. */
  predicate Offered(fw: Firmware, h: Entry, res: Option<Struct>) {
    match fw.resSlot(h.rpcId)
    case None => res == None
    case Some(slot) => res == Some(Zeroed(fw.sizeOf(slot)))
  }

  lemma ClearedIsZero(size: nat)
    ensures |Zeroed(size)| == size && forall i :: 0 <= i < size ==> Zeroed(size)[i] == 0
  {
  }

  /** A static struct holds a new value, and every other one is as before. */
  predicate Holds(after: map<Slot, Struct>, before: map<Slot, Struct>, slot: Option<Slot>, value: Struct) {
    match slot
    case None => after == before
    case Some(s) => after == before[s := value]
  }

  /** The error frame with this code and text, as far as there is room, or -1 without room for a header. */
  predicate Failed(r: Reply, tx: Option<word>, seqId: word, code: int, message: seq<byte>) {
    if tx.None? || tx.value < 6 then r.code == -1 && r.bytesWritten == 0 && r.frame == []
    else r.code == 0 && r.bytesWritten == |r.frame| && Status.Reports(r, tx.value, seqId, code, message)
         && Answers(r.frame, 0, seqId, tx.value)
  }

  lemma ErrorReplyFailed(tx: Option<word>, seqId: word, code: int, message: seq<byte>, ctx: Context)
    ensures Failed(ErrorReply(tx, seqId, code, message, ctx), tx, seqId, code, message)
    ensures ErrorReply(tx, seqId, code, message, ctx).ctx == ctx
  {
    hide Status.Reports, Answers, StatusPayload;
    ErrorReplyContract(tx, None, 0, seqId, code, message, ctx);
    if !NoRoom(tx) {
      Status.ErrorReplyReports(tx.value, seqId, code, message, ctx);
    }
  }

  // Before the callback.

  /** A packet without a whole header is refused, and nothing else happens. */
  lemma ShortPacket(fw: Firmware, st: Statics, rx: seq<byte>, n: word, tx: Option<word>)
    requires n < 6
    ensures Handle(fw, st, rx, n, tx) == (st, Reply(-1, n, [], Context(17, [], None)))
  {
  }

  /** An identifier without an entry is answered UNIMPLEMENTED, with the identifier in the text. */
  lemma UnknownRpc(fw: Firmware, st: Statics, rx: seq<byte>, n: word, tx: Option<word>)
    requires n >= 6 && Readable(fw, rx, n) && forall h :: h in fw.table ==> h.rpcId != RxRpcId(rx)
    ensures var r := Handle(fw, st, rx, n, tx);
            && r.0 == st && Failed(r.1, tx, RxSeqId(rx), 12, NotFoundMessage(RxRpcId(rx)))
            && r.1.ctx == Context(12, NotFoundMessage(RxRpcId(rx)), None)
  {
    hide Failed, ErrorReply, NotFoundMessage;
    var rpcId := RxRpcId(rx);
    if Find(fw.table, rpcId).Some? {
      FoundHasId(fw.table, rpcId);
    }
    ErrorReplyFailed(tx, RxSeqId(rx), UNIMPLEMENTED, NotFoundMessage(rpcId),
                     Context(UNIMPLEMENTED, NotFoundMessage(rpcId), None));
  }

  /** A payload that does not decode: the callback is not called and the response structs are left alone. */
  lemma NotDecoded(
    fw: Firmware, st: Statics, rx: seq<byte>, n: word, tx: Option<word>, h: Entry, req: Option<Struct>)
    requires n >= 6 && Readable(fw, rx, n) && Find(fw.table, RxRpcId(rx)) == Some(h) && h.rpcId == RxRpcId(rx)
    requires Given(fw, h, rx, req, false)
    ensures var r := Handle(fw, st, rx, n, tx);
            && req.Some? && Holds(r.0.reqs, st.reqs, fw.reqSlot(h.rpcId), req.value) && r.0.ress == st.ress
            && Failed(r.1, tx, RxSeqId(rx), 17, Ascii("Invalid data format"))
            && r.1.ctx == Context(17, Ascii("Invalid data format"), Some(h))
  {
    hide Failed, ErrorReply, Ascii, Find, Zeroed, Respond, Execute;
    var message := Ascii("Invalid data format");
    ErrorReplyFailed(tx, RxSeqId(rx), INVALID_DATA_FORMAT, message, Context(INVALID_DATA_FORMAT, message, Some(h)));
  }

  // The callback and after.

  /** What is to be sent after the callback returned 0 and left `res` in its response struct. */
  function Message(fw: Firmware, h: Entry, res: Struct): Encoding {
    match (h.resFields, fw.resSlot(h.rpcId))
    case (Some(fields), Some(_)) => fw.encode(fields, res)
    case _ => Encoding([], true)
  }

  /** The reply to a request whose callback returned `e`. */
  predicate Replied(fw: Firmware, h: Entry, seqId: word, tx: Option<word>, e: Executed, r: Reply) {
    var m := Message(fw, h, e.res);
    var payload := Flatten(m.chunks);
    if e.status != 0 then
      && Failed(r, tx, seqId, e.status, if e.message != [] then e.message else StrError(e.status))
      && r.ctx == Context(e.status, e.message, Some(h))
    else
      && r.ctx == Context(e.code, e.message, Some(h))
      && if !h.hasResponse then r.code == 0 && r.bytesWritten == 0 && r.frame == []
         else if tx.None? || tx.value < 6 then r.code == -1 && r.bytesWritten == 0 && r.frame == []
         else if m.complete && 6 + |payload| <= tx.value then
           && r.code == 0 && r.bytesWritten == 6 + |payload|
           && r.frame == Header(h.rpcId, seqId, |payload|) + payload
         else Failed(r, tx, seqId, 13, Ascii("Failed to encode response"))
  }

  lemma RespondReplied(fw: Firmware, st: Statics, h: Entry, seqId: word, e: Executed, tx: Option<word>)
    requires fw.resSlot(h.rpcId).Some? ==> At(st.ress, fw.resSlot(h.rpcId)) == Some(e.res)
    ensures Replied(fw, h, seqId, tx, e, Respond(fw, st, h, seqId, e, tx))
  {
    hide Failed, ErrorReply, Ascii, StrError, Header;
    var ctx := Context(e.code, e.message, Some(h));
    ErrorReplyFailed(tx, seqId, e.status, if e.message != [] then e.message else StrError(e.status),
                     ctx.(statusCode := e.status));
    ErrorReplyFailed(tx, seqId, INTERNAL, Ascii("Failed to encode response"), ctx);
  }

  /**
   The callback gets the decoded request and a blank response struct; what it leaves in the structs is what they
   hold from then on, and what it left in the response struct, encoded, is what the client is sent.
   */
  lemma CallbackAnswered(
    fw: Firmware, st: Statics, rx: seq<byte>, n: word, tx: Option<word>,
    h: Entry, req: Option<Struct>, res: Option<Struct>)
    requires n >= 6 && Readable(fw, rx, n) && Find(fw.table, RxRpcId(rx)) == Some(h) && h.rpcId == RxRpcId(rx)
    requires Given(fw, h, rx, req, true) && Offered(fw, h, res)
    ensures var r := Handle(fw, st, rx, n, tx);
            var e := fw.execute(RxRpcId(rx), req, res);
            && Holds(r.0.reqs, st.reqs, fw.reqSlot(h.rpcId), e.req)
            && Holds(r.0.ress, st.ress, fw.resSlot(h.rpcId), e.res)
            && Replied(fw, h, RxSeqId(rx), tx, e, r.1)
  {
    hide Replied, ErrorReply, Ascii, Find, Zeroed, Respond, NotFoundMessage, Decode, Execute;
    CallbackGiven(fw, st, rx, h, req, res, true);
    var d := Decode(fw, st, h, rx);
    var e := Execute(fw, d.0, h);
    RespondReplied(fw, e.0, h, RxSeqId(rx), e.1, tx);
  }

  lemma CallbackGiven(
    fw: Firmware, st: Statics, rx: seq<byte>, h: Entry, req: Option<Struct>, res: Option<Struct>, called: bool)
    requires 6 <= |rx| && (Decodes(fw, h) ==> 6 + HeaderLength(rx) <= |rx|)
    requires Given(fw, h, rx, req, called) && Offered(fw, h, res)
    ensures var d := Decode(fw, st, h, rx);
            var e := Execute(fw, d.0, h);
            && d.1 == called && e.1 == fw.execute(h.rpcId, req, res)
            && Holds(e.0.reqs, st.reqs, fw.reqSlot(h.rpcId), e.1.req)
            && Holds(e.0.ress, st.ress, fw.resSlot(h.rpcId), e.1.res)
            && (fw.resSlot(h.rpcId).Some? ==> At(e.0.ress, fw.resSlot(h.rpcId)) == Some(e.1.res))
  {
    hide Zeroed;
  }

  /** The cases are all there are: every request is given something or does not decode. */
  lemma AlwaysGiven(fw: Firmware, h: Entry, rx: seq<byte>)
    returns (req: Option<Struct>, called: bool, res: Option<Struct>)
    requires 6 <= |rx| && (Decodes(fw, h) ==> 6 + HeaderLength(rx) <= |rx|)
    ensures Given(fw, h, rx, req, called) && Offered(fw, h, res)
  {
    hide Zeroed;
    var d := Decode(fw, FRESH, h, rx);
    req, called := At(d.0.reqs, fw.reqSlot(h.rpcId)), d.1;
    res := At(Cleared(map[], fw, fw.resSlot(h.rpcId)), fw.resSlot(h.rpcId));
  }

  /** So, where all descriptors and structs exist, the client is sent what the callback made of the decoded request. */
  lemma ResultSent(
    fw: Firmware, st: Statics, rx: seq<byte>, n: word, tx: word, h: Entry,
    reqFields: Desc, resFields: Desc, reqSlot: Slot, resSlot: Slot)
    requires n >= 6 && Readable(fw, rx, n) && Find(fw.table, RxRpcId(rx)) == Some(h)
    requires h == Entry(RxRpcId(rx), true, Some(reqFields), Some(resFields))
    requires fw.reqSlot(h.rpcId) == Some(reqSlot) && fw.resSlot(h.rpcId) == Some(resSlot)
    ensures var d := fw.decode(reqFields, rx[6..6 + HeaderLength(rx)], Zeroed(fw.sizeOf(reqSlot)));
            var e := fw.execute(RxRpcId(rx), Some(d.value), Some(Zeroed(fw.sizeOf(resSlot))));
            var out := fw.encode(resFields, e.res);
            var payload := Flatten(out.chunks);
            d.ok && e.status == 0 && out.complete && 6 + |payload| <= tx ==>
              var r := Handle(fw, st, rx, n, Some(tx));
              && r.0 == Statics(st.reqs[reqSlot := e.req], st.ress[resSlot := e.res])
              && r.1 == Reply(0, 6 + |payload|, Header(RxRpcId(rx), RxSeqId(rx), |payload|) + payload,
                              Context(e.code, e.message, Some(h)))
  {
    hide Failed, Handle, Find, Zeroed, Header;
    var d := fw.decode(reqFields, rx[6..6 + HeaderLength(rx)], Zeroed(fw.sizeOf(reqSlot)));
    if d.ok {
      CallbackAnswered(fw, st, rx, n, Some(tx), h, Some(d.value), Some(Zeroed(fw.sizeOf(resSlot))));
    }
  }

  // The raw packet entry point.

  /** Silence is owed exactly after a REQUEST_ONLY request that decoded and whose callback returned 0. */
  lemma SilentIff(
    fw: Firmware, st: Statics, rx: seq<byte>, h: Entry, req: Option<Struct>, res: Option<Struct>, called: bool)
    requires 6 <= |rx| && (Decodes(fw, h) ==> 6 + HeaderLength(rx) <= |rx|)
    requires Given(fw, h, rx, req, called) && Offered(fw, h, res)
    ensures SilentSuccess(fw, st, Some(h), rx)
       <==> !h.hasResponse && called && fw.execute(h.rpcId, req, res).status == 0
  {
    hide Zeroed, Decode, Execute, Given, Offered;
    CallbackGiven(fw, st, rx, h, req, res, called);
  }

  /** The return code is -1 exactly when something is owed and no header fits, and 0 otherwise. */
  lemma ProcessedCode(fw: Firmware, rx: seq<byte>, n: word, txSize: word, limit: Option<word>)
    requires Readable(fw, rx, n) && n >= 6
    ensures Processed(fw, Some(rx), n, txSize, limit).0
         == if txSize < 6 && !SilentSuccess(fw, FRESH, Find(fw.table, RxRpcId(rx)), rx) then -1 else 0
  {
    hide Handle, SilentSuccess, Answers, Find;
    HandlerContract(fw, FRESH, rx, n, Some(txSize));
  }

  /** No packet, or one without a whole header: -1 and nothing copied out. */
  lemma NothingProcessed(fw: Firmware, rx: Option<seq<byte>>, n: word, txSize: word, limit: Option<word>)
    requires rx.None? || n < 6
    ensures Processed(fw, rx, n, txSize, limit) == (-1, [])
  {
  }

  /** Without an output buffer the code is the same and nothing is copied out. */
  lemma NoOutputBuffer(fw: Firmware, rx: Option<seq<byte>>, n: word, txSize: word, limit: word)
    requires rx.Some? ==> Readable(fw, rx.value, n)
    ensures Processed(fw, rx, n, txSize, None) == (Processed(fw, rx, n, txSize, Some(limit)).0, [])
  {
    hide Handle;
  }
}
