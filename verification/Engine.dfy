/**
 The C server engine on its real buffers.  Nothing here requires the transmit buffer to be distinct
 from the receive buffer: every contract holds for double-buffer and for in-place operation alike.
 */
module Engine {
  import opened Bytes
  import opened Wire
  import opened Nanopb
  import opened Model = Server

  class Transaction {
    var data: array<byte>
    var bytesWritten: word
    var txData: array?<byte>
    var txSize: word
    var statusCode: int
    var statusMessage: seq<byte>
    var handler: Option<Entry>

    constructor (data: array<byte>, bytesWritten: word, txData: array?<byte>, txSize: word)
      ensures this.data == data && this.bytesWritten == bytesWritten && this.txData == txData && this.txSize == txSize
    {
      this.data, this.bytesWritten, this.txData, this.txSize := data, bytesWritten, txData, txSize;
      statusCode, statusMessage, handler := 0, [], None;
    }

    function Tx(): Option<word>
      reads this
    {
      if txData == null then None else Some(txSize)
    }

    /** The transmit buffer is at least as large as announced. */
    predicate TxOk()
      reads this
    {
      txData != null ==> txSize as int <= txData.Length
    }

    function Ctx(): Context
      reads this
    {
      Context(statusCode, statusMessage, handler)
    }

    function TxFootprint(): set<object>
      reads this
    {
      if txData == null then {} else {txData}
    }

    /** The return code, the context and the bytes put on the wire are those of the reply. */
    predicate Shows(r: Reply, code: int)
      reads this, TxFootprint()
    {
      && code == r.code && bytesWritten == r.bytesWritten && Ctx() == r.ctx
      && (r.frame != [] ==> txData != null && bytesWritten as int <= txData.Length && txData[..bytesWritten] == r.frame)
    }
  }

  // The output stream: `written` bytes so far, after the six header bytes.

  function Out(tx: array<byte>, written: nat): seq<byte>
    requires 6 + written <= tx.Length
    reads tx
  {
    tx[6..6 + written]
  }

  method PbWrite(tx: array<byte>, cap: nat, written: nat, chunk: seq<byte>) returns (ok: bool, total: nat)
    requires 6 + cap <= tx.Length && written <= cap
    modifies tx
    ensures ok <==> written + |chunk| <= cap
    ensures total <= cap && tx[..6] == old(tx[..6])
    ensures Out(tx, total) == Write(cap, old(Out(tx, written)), chunk)
  {
    if written + |chunk| > cap {
      return false, written;
    }
    forall i | 0 <= i < |chunk| { tx[6 + written + i] := chunk[i]; }
    total := written + |chunk|;
    ok := true;
    assert tx[6..6 + written] == old(tx[6..6 + written]);
    assert tx[6 + written..6 + total] == chunk;
    assert tx[6..6 + total] == tx[6..6 + written] + tx[6 + written..6 + total];
  }

  /** pb_encode: on failure the chunks that did fit stay in the buffer. */
  method PbEncode(tx: array<byte>, cap: nat, e: Encoding) returns (ok: bool, total: nat)
    requires 6 + cap <= tx.Length
    modifies tx
    ensures total <= cap && tx[..6] == old(tx[..6])
    ensures (ok, Out(tx, total)) == Encode(cap, e)
  {
    total := 0;
    assert Out(tx, 0) == [] && e.chunks[0..] == e.chunks;
    for i := 0 to |e.chunks|
      invariant total <= cap && tx[..6] == old(tx[..6])
      invariant WriteChunks(cap, Out(tx, total), e.chunks[i..]) == WriteChunks(cap, [], e.chunks)
    {
      assert e.chunks[i..][0] == e.chunks[i] && e.chunks[i..][1..] == e.chunks[i + 1..];
      var fits;
      fits, total := PbWrite(tx, cap, total, e.chunks[i]);
      if !fits {
        return false, total;
      }
    }
    return e.complete, total;
  }

  method PutIds(tx: array<byte>, rpcId: word, seqId: word)
    requires 6 <= tx.Length
    modifies tx
    ensures tx[..4] == [Lo(rpcId), Hi(rpcId), Lo(seqId), Hi(seqId)]
  {
    tx[0] := rpcId % 0x100;
    tx[1] := rpcId / 0x100 % 0x100;
    tx[2] := seqId % 0x100;
    tx[3] := seqId / 0x100 % 0x100;
  }

  method PutLength(tx: array<byte>, rpcId: word, seqId: word, length: word)
    requires 6 + length as int <= tx.Length && tx[..4] == [Lo(rpcId), Hi(rpcId), Lo(seqId), Hi(seqId)]
    modifies tx
    ensures tx[..6 + length] == Header(rpcId, seqId, length) + old(tx[6..6 + length])
  {
    tx[4] := length % 0x100;
    tx[5] := length / 0x100 % 0x100;
    assert tx[..4] == old(tx[..4]);
    assert tx[..6] == tx[..4] + [tx[4], tx[5]];
    assert tx[6..6 + length] == old(tx[6..6 + length]);
    assert tx[..6 + length] == tx[..6] + tx[6..6 + length];
  }

  /** The status message of an error frame; no write is checked before the next one is made. */
  method WriteStatus(tx: array<byte>, cap: nat, code: int, message: seq<byte>) returns (total: nat)
    requires 6 + cap <= tx.Length
    modifies tx
    ensures total <= cap && tx[..4] == old(tx[..4])
    ensures Out(tx, total) == StatusPayload(cap, code, message)
  {
    hide Varint, ZigZag;
    total := 0;
    assert Out(tx, 0) == [];
    var ok;
    ok, total := PbWrite(tx, cap, total, [0x08]);
    ok, total := PbWrite(tx, cap, total, Varint(ZigZag(code)));
    var text := message[..Min(|message|, MESSAGE_MAX)];
    if text != [] {
      ok, total := PbWrite(tx, cap, total, [0x12]);
      ok, total := PbWrite(tx, cap, total, Varint(|text|));
      if ok {
        ok, total := PbWrite(tx, cap, total, text);
      }
    }
    assert tx[..4] == tx[..6][..4];
  }

  method SendFlatErrorResponse(t: Transaction, seqId: word, code: int, message: seq<byte>) returns (rc: int)
    requires t.TxOk()
    modifies t`bytesWritten, t.TxFootprint()
    ensures t.Shows(ErrorReply(t.Tx(), seqId, code, message, t.Ctx()), rc)
  {
    hide StatusPayload;
    if t.txData == null || t.txSize < 6 {
      t.bytesWritten := 0;
      return -1;
    }
    PutIds(t.txData, 0, seqId);
    var total := WriteStatus(t.txData, t.txSize - 6, code, message);
    PutLength(t.txData, 0, seqId, total);
    t.bytesWritten := 6 + total;
    return 0;
  }

  class FlatServer {
    const fw: Firmware
    const txRawBuf: array<byte>
    var reqs: map<Slot, Struct>
    var ress: map<Slot, Struct>

    constructor (fw: Firmware, maxBufferSize: nat)
      ensures this.fw == fw && fresh(txRawBuf) && txRawBuf.Length == maxBufferSize
    {
      this.fw := fw;
      txRawBuf := new byte[maxBufferSize];
      reqs, ress := map[], map[];
    }

    function Structs(): Statics
      reads this
    {
      Statics(reqs, ress)
    }

    method FindFlatHandler(rpcId: word) returns (h: Option<Entry>)
      ensures h == Find(fw.table, rpcId)
    {
      assert fw.table[0..] == fw.table;
      for i := 0 to |fw.table|
        invariant Find(fw.table, rpcId) == Find(fw.table[i..], rpcId)
      {
        if fw.table[i].rpcId == rpcId {
          return Some(fw.table[i]);
        }
        assert fw.table[i..][1..] == fw.table[i + 1..];
      }
      return None;
    }

    /** windrpc_get_flat_req_struct: clears the request struct of this id, if it has one. */
    method GetFlatReqStruct(rpcId: word) returns (slot: Option<Slot>)
      modifies this`reqs
      ensures slot == fw.reqSlot(rpcId) && reqs == Cleared(old(reqs), fw, slot)
    {
      slot := fw.reqSlot(rpcId);
      if slot.Some? {
        reqs := reqs[slot.value := Zeroed(fw.sizeOf(slot.value))];
      }
    }

    method GetFlatResStruct(rpcId: word) returns (slot: Option<Slot>)
      modifies this`ress
      ensures slot == fw.resSlot(rpcId) && ress == Cleared(old(ress), fw, slot)
    {
      slot := fw.resSlot(rpcId);
      if slot.Some? {
        ress := ress[slot.value := Zeroed(fw.sizeOf(slot.value))];
      }
    }

    /** The request struct and whether the payload decoded into it, where there is anything to decode. */
    method DecodeRequest(rx: array<byte>, h: Entry) returns (reqSlot: Option<Slot>, ok: bool)
      requires 6 <= rx.Length && (Decodes(fw, h) ==> 6 + HeaderLength(rx[..]) as int <= rx.Length)
      modifies this`reqs
      ensures reqSlot == fw.reqSlot(h.rpcId)
      ensures (Structs(), ok) == Model.Decode(fw, old(Structs()), h, rx[..])
    {
      hide Zeroed;
      var payloadLen := Word(rx[4], rx[5]);
      reqSlot := GetFlatReqStruct(h.rpcId);
      ok := true;
      if h.reqFields.Some? && reqSlot.Some? {
        assert rx[6..6 + payloadLen as int] == rx[..][6..6 + payloadLen];
        var d := fw.decode(h.reqFields.value, rx[6..6 + payloadLen as int], reqs[reqSlot.value]);
        reqs := reqs[reqSlot.value := d.value];
        ok := d.ok;
      }
    }

    /** windrpc_handle.  `t.txData` may be `t.data` itself. */
    method Handle(t: Transaction) returns (rc: int)
      requires t.TxOk() && Readable(fw, t.data[..], t.bytesWritten)
      modifies this, t, t.TxFootprint()
      ensures t.data == old(t.data) && t.txData == old(t.txData) && t.txSize == old(t.txSize)
      ensures var r := Model.Handle(fw, old(Structs()), old(t.data[..]), old(t.bytesWritten), old(t.Tx()));
              Structs() == r.0 && t.Shows(r.1, rc)
    {
      hide ErrorReply, NotFoundMessage, Ascii, Find, Model.Decode, Respond;
      t.statusCode, t.statusMessage, t.handler := 0, [], None;
      if t.bytesWritten < 6 {
        t.statusCode := INVALID_DATA_FORMAT;
        return -1;
      }
      var rx := t.data;
      var rpcId := Word(rx[0], rx[1]);
      var seqId := Word(rx[2], rx[3]);

      var found := FindFlatHandler(rpcId);
      if found.None? {
        t.statusCode := UNIMPLEMENTED;
        t.statusMessage := NotFoundMessage(rpcId);
        rc := SendFlatErrorResponse(t, seqId, t.statusCode, t.statusMessage);
        return;
      }
      var h := found.value;
      FoundHasId(fw.table, rpcId);
      t.handler := Some(h);

      var reqSlot, decoded := DecodeRequest(rx, h);
      if !decoded {
        t.statusCode := INVALID_DATA_FORMAT;
        t.statusMessage := Ascii("Invalid data format");
        rc := SendFlatErrorResponse(t, seqId, t.statusCode, t.statusMessage);
        return;
      }

      var resSlot := GetFlatResStruct(rpcId);
      rc := Finish(t, h, seqId, reqSlot, resSlot);
    }

    /** The callback and everything after it. */
    method Finish(t: Transaction, h: Entry, seqId: word, reqSlot: Option<Slot>, resSlot: Option<Slot>) returns (rc: int)
      requires t.TxOk() && t.handler == Some(h)
      requires reqSlot == fw.reqSlot(h.rpcId) && resSlot == fw.resSlot(h.rpcId)
      requires ress == Cleared(ress, fw, resSlot)
      modifies this, t`statusCode, t`statusMessage, t`bytesWritten, t.TxFootprint()
      ensures var e := Model.Execute(fw, old(Structs()), h);
              Structs() == e.0 && t.Shows(Respond(fw, e.0, h, seqId, e.1, old(t.Tx())), rc)
    {
      hide ErrorReply, Response, StrError, Ascii, Zeroed;
      var e := fw.execute(h.rpcId, At(reqs, reqSlot), At(ress, resSlot));
      reqs, ress := Put(reqs, reqSlot, e.req), Put(ress, resSlot, e.res);
      t.statusCode, t.statusMessage := e.code, e.message;
      if e.status != 0 {
        t.statusCode := e.status;
        var msg := if t.statusMessage != [] then t.statusMessage else StrError(e.status);
        rc := SendFlatErrorResponse(t, seqId, e.status, msg);
        return;
      }
      if !h.hasResponse {
        t.bytesWritten := 0;
        return 0;
      }
      rc := BuildResponse(t, h, seqId, resSlot);
    }

    method BuildResponse(t: Transaction, h: Entry, seqId: word, resSlot: Option<Slot>) returns (rc: int)
      requires t.TxOk() && resSlot == fw.resSlot(h.rpcId)
      modifies t`bytesWritten, t.TxFootprint()
      ensures t.Shows(Response(fw, Structs(), h, seqId, t.Ctx(), t.Tx()), rc)
    {
      hide ErrorReply, Ascii, Encode;
      if t.txData == null || t.txSize < 6 {
        t.bytesWritten := 0;
        return -1;
      }
      PutIds(t.txData, h.rpcId, seqId);
      var total := 0;
      var res := At(ress, resSlot);
      assert Out(t.txData, 0) == [];
      if h.resFields.Some? && res.Some? {
        var ok;
        ok, total := PbEncode(t.txData, t.txSize - 6, fw.encode(h.resFields.value, res.value));
        if !ok {
          rc := SendFlatErrorResponse(t, seqId, INTERNAL, Ascii("Failed to encode response"));
          return;
        }
        assert t.txData[..4] == t.txData[..6][..4];
      }
      PutLength(t.txData, h.rpcId, seqId, total);
      t.bytesWritten := 6 + total;
      return 0;
    }

    /** windrpc_process_packet.  The static transmit buffer is private; its size is passed on as 16 bits. */
    method ProcessPacket(rx: array?<byte>, rxLen: word, out: array?<byte>, maxRespLen: word)
      returns (rc: int, outLen: word)
      requires rx != null ==> Readable(fw, rx[..], rxLen)
      requires rx != txRawBuf && out != txRawBuf
      requires out != null ==> maxRespLen as int <= out.Length
      modifies this, txRawBuf, if out == null then {} else {out}
      ensures var packet := if rx == null then None else Some(old(rx[..]));
              var limit := if out == null then None else Some(maxRespLen);
              var r := Processed(fw, packet, rxLen, txRawBuf.Length % 0x1_0000, limit);
              && rc == r.0 && outLen as int == |r.1|
              && (out != null ==> out[..outLen] == r.1)
      ensures rx != null && Covered(fw, old(rx[..]), rxLen) ==>
                var limit := if out == null then None else Some(maxRespLen);
                var r := Processed(fw, Some(old(rx[..rxLen])), rxLen, txRawBuf.Length % 0x1_0000, limit);
                && rc == r.0 && outLen as int == |r.1|
                && (out != null ==> out[..outLen] == r.1)
    {
      hide Model.Handle, Answers;
      if rx != null && Covered(fw, rx[..], rxLen) {
        var limit := if out == null then None else Some(maxRespLen);
        ProcessedReadsPacket(fw, rx[..], rxLen, txRawBuf.Length % 0x1_0000, limit);
        assert rx[..][..rxLen] == rx[..rxLen];
      }
      if rx == null || rxLen < 6 {
        return -1, 0;
      }
      ghost var packet := rx[..];
      HistoryIndependence(fw, Structs(), packet, rxLen, Some(txRawBuf.Length % 0x1_0000));
      HandlerContract(fw, FRESH, packet, rxLen, Some(txRawBuf.Length % 0x1_0000));
      var t := new Transaction(rx, rxLen, txRawBuf, txRawBuf.Length % 0x1_0000);
      rc := Handle(t);
      if t.bytesWritten > 0 && out != null {
        var copyLen := if t.bytesWritten < maxRespLen then t.bytesWritten else maxRespLen;
        forall i | 0 <= i < copyLen { out[i] := txRawBuf[i]; }
        assert out[..copyLen] == txRawBuf[..copyLen];
        PrefixOfPrefix(txRawBuf[..], t.bytesWritten as nat, copyLen as nat);
        assert txRawBuf[..][..t.bytesWritten] == txRawBuf[..t.bytesWritten];
        assert txRawBuf[..][..copyLen] == txRawBuf[..copyLen];
        outLen := copyLen;
      } else {
        outLen := 0;
      }
    }
  }

  lemma PrefixOfPrefix<T>(s: seq<T>, n: nat, m: nat)
    requires m <= n <= |s|
    ensures s[..n][..m] == s[..m]
  {
  }

  /** An emitted windrpc_notify function, for an event identifier and the encoding of its data. */
  method Notify(t: Transaction, eventId: word, e: Encoding) returns (rc: int)
    requires t.txData != null && t.TxOk()
    modifies t`bytesWritten, t.txData
    ensures var r := Notified(eventId, t.txSize, e);
            && (rc == 0 <==> r.Some?) && (rc == 0 || rc == -1)
            && (r.Some? ==> t.bytesWritten as int == |r.value| <= t.txData.Length
                            && t.txData[..t.bytesWritten] == r.value)
            && (r.None? ==> t.bytesWritten == if t.txSize < 6 then old(t.bytesWritten) else 0)
  {
    hide Encode;
    if t.txSize < 6 {
      return -1;
    }
    PutIds(t.txData, eventId, 0);
    var ok, total := PbEncode(t.txData, t.txSize - 6, e);
    if !ok {
      t.bytesWritten := 0;
      return -1;
    }
    assert t.txData[..4] == t.txData[..6][..4];
    PutLength(t.txData, eventId, 0, total);
    t.bytesWritten := 6 + total;
    return 0;
  }

  /** One packet on a fresh server, in place or with a separate transmit buffer; what goes on the wire. */
  method HandleMemory(fw: Firmware, memory: seq<byte>, n: word, txSize: word, inPlace: bool)
    returns (code: int, bytesWritten: word, out: seq<byte>)
    requires Readable(fw, memory, n) && txSize as int <= |memory|
    ensures var r := Model.Handle(fw, FRESH, memory, n, Some(txSize)).1;
            code == r.code && bytesWritten == r.bytesWritten && out == r.frame
  {
    hide Model.Handle, Answers;
    var rx := new byte[|memory|];
    forall i | 0 <= i < |memory| { rx[i] := memory[i]; }
    assert rx[..] == memory;
    var tx := rx;
    if !inPlace {
      tx := new byte[txSize];
    }
    var t := new Transaction(rx, n, tx, txSize);
    var server := new FlatServer(fw, 0);
    HandlerContract(fw, FRESH, memory, n, Some(txSize));
    HistoryIndependence(fw, server.Structs(), memory, n, Some(txSize));
    if n < 6 {
      ShortPacketFrame(fw, memory, n, Some(txSize));
    }
    code := server.Handle(t);
    bytesWritten := t.bytesWritten;
    out := if code == 0 && t.bytesWritten > 0 then tx[..t.bytesWritten] else [];
  }

  lemma ShortPacketFrame(fw: Firmware, memory: seq<byte>, n: word, tx: Option<word>)
    requires Readable(fw, memory, n) && n < 6
    ensures Model.Handle(fw, FRESH, memory, n, tx).1.frame == []
  {
  }

  /** In-place handling refines double buffering: equal return code, length and bytes on every path. */
  method BothBufferModes(fw: Firmware, memory: seq<byte>, n: word, txSize: word)
    returns (code: int, written: word, out: seq<byte>, codeInPlace: int, writtenInPlace: word, outInPlace: seq<byte>)
    requires Readable(fw, memory, n) && txSize as int <= |memory|
    ensures code == codeInPlace && written == writtenInPlace && out == outInPlace
  {
    code, written, out := HandleMemory(fw, memory, n, txSize, false);
    codeInPlace, writtenInPlace, outInPlace := HandleMemory(fw, memory, n, txSize, true);
  }

  /**
   A whole session on one buffer that is received into and answered from in place, over and over, on one
   server: each packet is answered as if it were the only one, whatever earlier packets and replies left
   in the buffer and in the static structs.
   */
  method ServeInPlace(fw: Firmware, size: word, packets: seq<seq<byte>>)
    returns (codes: seq<int>, frames: seq<seq<byte>>)
    requires forall p :: p in packets ==> |p| <= size as int && Readable(fw, p, |p|)
    ensures |codes| == |frames| == |packets|
    ensures forall i :: 0 <= i < |packets| ==>
              (codes[i], frames[i]) == Alone(fw, packets[i], size)
  {
    hide Model.Handle, Alone;
    var buffer := new byte[size];
    var server := new FlatServer(fw, 0);
    codes, frames := [], [];
    for i := 0 to |packets|
      invariant |codes| == |frames| == i
      invariant forall k :: 0 <= k < i ==> (codes[k], frames[k]) == Alone(fw, packets[k], size)
    {
      var code, frame := ServeOne(server, buffer, packets[i]);
      codes, frames := codes + [code], frames + [frame];
    }
  }

  /** Return code and frame for a packet on fresh structs, with nothing behind it. */
  function Alone(fw: Firmware, packet: seq<byte>, size: word): (int, seq<byte>)
    requires |packet| <= size as int && Readable(fw, packet, |packet|)
  {
    var r := Model.Handle(fw, FRESH, packet, |packet|, Some(size)).1;
    (r.code, r.frame)
  }

  method ServeOne(server: FlatServer, buffer: array<byte>, packet: seq<byte>) returns (code: int, frame: seq<byte>)
    requires buffer.Length < 0x1_0000 && |packet| <= buffer.Length && Readable(server.fw, packet, |packet|)
    modifies server, buffer
    ensures (code, frame) == Alone(server.fw, packet, buffer.Length)
  {
    hide Model.Handle, Answers;
    var n: word, size: word := |packet|, buffer.Length;
    forall i | 0 <= i < |packet| { buffer[i] := packet[i]; }
    ghost var memory := buffer[..];
    assert memory[..n] == packet && packet[..n] == packet;
    HandleReadsPacket(server.fw, server.Structs(), memory, n, Some(size));
    HistoryIndependence(server.fw, server.Structs(), packet, n, Some(size));
    HandlerContract(server.fw, FRESH, packet, n, Some(size));
    if n < 6 {
      ShortPacketFrame(server.fw, packet, n, Some(size));
    }
    var t := new Transaction(buffer, n, buffer, size);
    code := server.Handle(t);
    frame := if code == 0 && t.bytesWritten > 0 then buffer[..t.bytesWritten] else [];
  }
}
