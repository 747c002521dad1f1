/** What an error frame tells: the status message read back by a reader of the form the server writes. */
module Status {
  import opened Bytes
  import opened Wire
  import opened Nanopb
  import opened Server

  datatype Status = Status(code: int, message: seq<byte>)

  /** Field 1, the code; then field 2, the message, unless nothing follows. */
  function Parse(s: seq<byte>): Option<Status> {
    if s == [] || s[0] != 0x08 then None
    else
      match ReadVarint(s[1..])
      case None => None
      case Some((code, rest)) =>
        if rest == [] then Some(Status(UnZigZag(code), []))
        else if rest[0] != 0x12 then None
        else
          match ReadVarint(rest[1..])
          case None => None
          case Some((length, text)) => if |text| == length then Some(Status(UnZigZag(code), text)) else None
  }

  /** The message in full, as if there were no end to the buffer. */
  function Whole(status: Status): seq<byte> {
    [0x08] + Varint(ZigZag(status.code))
    + if status.message == [] then [] else [0x12] + Varint(|status.message|) + status.message
  }

  function Clipped(code: int, message: seq<byte>): Status { Status(code, message[..Min(|message|, 64)]) }

  lemma ZigZagBack(v: int)
    ensures UnZigZag(ZigZag(v)) == v
  {
  }

  /** Writing in full and reading back is the identity on statuses. */
  lemma WholeReadsBack(status: Status)
    ensures Parse(Whole(status)) == Some(status)
  {
    hide Varint, ReadVarint, ZigZag, UnZigZag;
    var rest := if status.message == [] then [] else [0x12] + Varint(|status.message|) + status.message;
    var code := Varint(ZigZag(status.code));
    assert Whole(status)[1..] == code + rest;
    VarintReadsBack(ZigZag(status.code), rest);
    ZigZagBack(status.code);
    if status.message != [] {
      assert rest[1..] == Varint(|status.message|) + status.message;
      VarintReadsBack(|status.message|, status.message);
    }
  }

  /** The unchecked bounded writes leave the whole message, clipped to 64 bytes of text, exactly when it fits. */
  lemma PayloadWholeIff(cap: nat, code: int, message: seq<byte>)
    ensures StatusPayload(cap, code, message) == Whole(Clipped(code, message))
       <==> |Whole(Clipped(code, message))| <= cap
  {
    hide Varint, ZigZag;
    var text := message[..Min(|message|, MESSAGE_MAX)];
    var head := [0x08] + Varint(ZigZag(code));
    if |Whole(Clipped(code, message))| <= cap {
      assert [] + [0x08] == [0x08];
      if text == [] {
        assert head + [] == head;
      } else {
        assert head + ([0x12] + Varint(|text|) + text) == head + [0x12] + Varint(|text|) + text;
      }
    }
  }

  /** With less room, after the code as much of tag, length and text is there as fits. */
  lemma PayloadByRoom(cap: nat, code: int, message: seq<byte>)
    requires cap >= 1 + |Varint(ZigZag(code))|
    ensures var text := Clipped(code, message).message;
            var head := [0x08] + Varint(ZigZag(code));
            StatusPayload(cap, code, message) == head + Remainder(cap - |head|, text)
  {
    hide Varint, ZigZag, Write;
    var text := message[..Min(|message|, MESSAGE_MAX)];
    var head := [0x08] + Varint(ZigZag(code));
    TooLong(cap, [], [0x08]);
    TooLong(cap, [0x08], Varint(ZigZag(code)));
    assert [] + [0x08] == [0x08];
    if text == [] {
      assert head + [] == head;
    } else {
      VarintNotEmpty(|text|);
      TooLong(cap, head, [0x12]);
      var tagged := Write(cap, head, [0x12]);
      TooLong(cap, tagged + Varint(|text|), text);
      if cap == |head| {
        assert head + [] == head;
      } else {
        Assoc(head, [0x12], Varint(|text|));
        Assoc(head, [0x12] + Varint(|text|), text);
      }
    }
  }

  /** Where the code does not fit, what follows it is still tried. */
  lemma PayloadWithoutCode(cap: nat, code: int, message: seq<byte>)
    requires 0 < cap < 1 + |Varint(ZigZag(code))|
    ensures var text := Clipped(code, message).message;
            StatusPayload(cap, code, message) == [0x08] + Remainder(cap - 1, text)
  {
    hide Varint, ZigZag, Write;
    var text := message[..Min(|message|, MESSAGE_MAX)];
    TooLong(cap, [], [0x08]);
    TooLong(cap, [0x08], Varint(ZigZag(code)));
    assert [] + [0x08] == [0x08];
    if text == [] {
      assert [0x08] + [] == [0x08];
    } else {
      AfterCode(cap, text);
    }
  }

  /** Tag, length and text as far as `room` goes. */
  function Remainder(room: nat, text: seq<byte>): seq<byte> {
    if text == [] || room == 0 then []
    else if 1 + |Varint(|text|)| > room then [0x12]
    else if 1 + |Varint(|text|)| + |text| > room then [0x12] + Varint(|text|)
    else [0x12] + Varint(|text|) + text
  }

  lemma AfterCode(cap: nat, text: seq<byte>)
    requires cap > 0 && text != []
    ensures var tagged := Write(cap, [0x08], [0x12]);
            (if |tagged| + |Varint(|text|)| <= cap then Write(cap, tagged + Varint(|text|), text) else tagged)
            == [0x08] + Remainder(cap - 1, text)
  {
    hide Varint, Write;
    VarintNotEmpty(|text|);
    TooLong(cap, [0x08], [0x12]);
    var tagged := Write(cap, [0x08], [0x12]);
    TooLong(cap, tagged + Varint(|text|), text);
    if cap == 1 {
      assert [0x08] + [] == [0x08];
    } else {
      assert tagged == [0x08] + [0x12];
      Assoc([0x08], [0x12], Varint(|text|));
      Assoc([0x08], [0x12] + Varint(|text|), text);
    }
  }

  lemma TooLong(cap: nat, written: seq<byte>, chunk: seq<byte>)
    ensures Write(cap, written, chunk) == if |written| + |chunk| > cap then written else written + chunk
  {
  }

  lemma VarintNotEmpty(n: nat)
    ensures Varint(n) != []
  {
  }

  /** With room for it, the reply is the error frame that carries this code and text in full. */
  predicate Reports(r: Reply, tx: word, seqId: word, code: int, message: seq<byte>) {
    var whole := Whole(Clipped(code, message));
    6 + |whole| <= tx ==> r.code == 0 && r.frame == Header(0, seqId, |whole|) + whole
  }

  lemma ErrorReplyReports(tx: word, seqId: word, code: int, message: seq<byte>, ctx: Context)
    requires tx >= 6
    ensures Reports(ErrorReply(Some(tx), seqId, code, message, ctx), tx, seqId, code, message)
  {
    hide StatusPayload, Whole, Clipped, Header;
    PayloadWholeIff(tx - 6, code, message);
  }

  lemma RespondReports(fw: Firmware, st: Statics, h: Entry, seqId: word, e: Executed, tx: word)
    requires tx >= 6
    ensures e.status != 0 ==> Reports(Respond(fw, st, h, seqId, e, Some(tx)), tx, seqId, e.status,
                                      if e.message != [] then e.message else StrError(e.status))
    ensures e.status == 0 && h.hasResponse && !Encoded(fw, st, h, tx - 6).0 ==>
              Reports(Respond(fw, st, h, seqId, e, Some(tx)), tx, seqId, INTERNAL, Ascii("Failed to encode response"))
  {
    hide Reports, ErrorReply, StrError, Ascii, Encoded;
    var ctx := Context(e.code, e.message, Some(h));
    ErrorReplyReports(tx, seqId, e.status, if e.message != [] then e.message else StrError(e.status),
                      ctx.(statusCode := e.status));
    ErrorReplyReports(tx, seqId, INTERNAL, Ascii("Failed to encode response"), ctx);
  }

  /**
   What goes wrong with a packet, if anything: an unknown rpc id, a payload that does not decode, the
   callback's own status, or a response that does not encode.
   */
  function Failure(fw: Firmware, st: Statics, rx: seq<byte>, tx: word): Option<Status>
    requires 6 <= |rx| && Readable(fw, rx, 6) && tx >= 6
  {
    var found := Find(fw.table, RxRpcId(rx));
    if found.None? then Some(Status(UNIMPLEMENTED, NotFoundMessage(RxRpcId(rx))))
    else
      var h := found.value;
      var d := Decode(fw, st, h, rx);
      var (after, e) := Execute(fw, d.0, h);
      if !d.1 then Some(Status(INVALID_DATA_FORMAT, Ascii("Invalid data format")))
      else if e.status != 0 then Some(Status(e.status, if e.message != [] then e.message else StrError(e.status)))
      else if h.hasResponse && !Encoded(fw, after, h, tx - 6).0 then
        Some(Status(INTERNAL, Ascii("Failed to encode response")))
      else None
  }

  /** Whatever goes wrong is what the client is told. */
  lemma FailuresReported(fw: Firmware, st: Statics, rx: seq<byte>, n: word, tx: word, failure: Status)
    requires n >= 6 && Readable(fw, rx, n) && tx >= 6 && Failure(fw, st, rx, tx) == Some(failure)
    ensures Reports(Handle(fw, st, rx, n, Some(tx)).1, tx, RxSeqId(rx), failure.code, failure.message)
  {
    hide Reports, ErrorReply, Respond, StrError, Ascii, NotFoundMessage, Encoded, Decode, Execute;
    var rpcId, seqId := RxRpcId(rx), RxSeqId(rx);
    match Find(fw.table, rpcId)
    case None =>
      var message := NotFoundMessage(rpcId);
      ErrorReplyReports(tx, seqId, UNIMPLEMENTED, message, Context(UNIMPLEMENTED, message, None));
    case Some(h) =>
      FoundHasId(fw.table, rpcId);
      var d := Decode(fw, st, h, rx);
      if d.1 {
        var e := Execute(fw, d.0, h);
        RespondReports(fw, e.0, h, seqId, e.1, tx);
      } else {
        var message := Ascii("Invalid data format");
        ErrorReplyReports(tx, seqId, INVALID_DATA_FORMAT, message, Context(INVALID_DATA_FORMAT, message, Some(h)));
      }
  }
}
