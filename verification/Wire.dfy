/** The six-byte little-endian header: RPC_ID, SEQ_ID, PAYLOAD_LEN, then the payload. */
module Wire {
  import opened Bytes

  datatype Frame = Frame(rpcId: word, seqId: word, payload: seq<byte>)

  function Header(rpcId: word, seqId: word, length: word): (h: seq<byte>)
    ensures |h| == 6
  {
    [Lo(rpcId), Hi(rpcId), Lo(seqId), Hi(seqId), Lo(length), Hi(length)]
  }

  function HeaderLength(data: seq<byte>): word
    requires 6 <= |data|
  {
    Word(data[4], data[5])
  }

  /** Python pack_frame; None stands for the struct.error on a field that does not fit 16 bits. */
  function PackFrame(rpcId: int, seqId: word, payload: seq<byte>): Option<seq<byte>> {
    if 0 <= rpcId < 0x1_0000 && |payload| < 0x1_0000
    then Some(Header(rpcId, seqId, |payload|) + payload)
    else None
  }

  /** Python unpack_frame, and the slicing of the JavaScript dispatcher; None for fewer than six bytes. */
  function UnpackFrame(data: seq<byte>): Option<Frame> {
    if |data| < 6 then None
    else Some(Frame(Word(data[0], data[1]), Word(data[2], data[3]),
                    data[6..Min(|data|, 6 + HeaderLength(data))]))
  }

  /** Every six bytes are a frame: a payload that ends early is what there is of it, and excess bytes are cut off. */
  lemma UnpackAny(rpcId: word, seqId: word, length: word, bytes: seq<byte>)
    ensures UnpackFrame(Header(rpcId, seqId, length) + bytes)
         == Some(Frame(rpcId, seqId, if |bytes| <= length then bytes else bytes[..length]))
  {
    hide Header;
    HeaderReads(rpcId, seqId, length, bytes);
    var data := Header(rpcId, seqId, length) + bytes;
    assert data[6..|data|] == bytes;
    assert |bytes| > length ==> data[6..6 + length] == bytes[..length];
  }

  /** JavaScript buildRawFrame masks every field to 16 bits instead of refusing. */
  function BuildRawFrame(rpcId: nat, seqId: word, payload: seq<byte>): seq<byte> {
    Header(rpcId % 0x1_0000, seqId, |payload| % 0x1_0000) + payload
  }

  lemma HeaderReads(rpcId: word, seqId: word, length: word, payload: seq<byte>)
    ensures var data := Header(rpcId, seqId, length) + payload;
            && Word(data[0], data[1]) == rpcId
            && Word(data[2], data[3]) == seqId
            && HeaderLength(data) == length
  {
  }

  /** A header over a payload of the announced length reads back, whatever bytes follow it. */
  lemma UnpackHeader(rpcId: word, seqId: word, payload: seq<byte>, junk: seq<byte>)
    requires |payload| < 0x1_0000
    ensures UnpackFrame(Header(rpcId, seqId, |payload|) + payload + junk) == Some(Frame(rpcId, seqId, payload))
  {
    var data := Header(rpcId, seqId, |payload|) + payload + junk;
    assert data[6..6 + |payload|] == payload;
  }

  /** pack_frame then unpack_frame is the identity on everything pack_frame accepts. */
  lemma UnpackPack(rpcId: int, seqId: word, payload: seq<byte>)
    ensures PackFrame(rpcId, seqId, payload).Some? <==> 0 <= rpcId < 0x1_0000 && |payload| < 0x1_0000
    ensures PackFrame(rpcId, seqId, payload).Some? ==>
              UnpackFrame(PackFrame(rpcId, seqId, payload).value) == Some(Frame(rpcId, seqId, payload))
  {
    if 0 <= rpcId < 0x1_0000 && |payload| < 0x1_0000 {
      UnpackHeader(rpcId, seqId, payload, []);
      var data := PackFrame(rpcId, seqId, payload).value;
      assert data + [] == data;
    }
  }

  lemma UnpackBuild(rpcId: nat, seqId: word, payload: seq<byte>)
    ensures UnpackFrame(BuildRawFrame(rpcId, seqId, payload))
         == Some(Frame(rpcId % 0x1_0000, seqId, payload[..|payload| % 0x1_0000]))
  {
    var length: word := |payload| % 0x1_0000;
    var head, tail := payload[..length], payload[length..];
    assert payload == head + tail;
    Assoc(Header(rpcId % 0x1_0000, seqId, length), head, tail);
    UnpackHeader(rpcId % 0x1_0000, seqId, head, tail);
  }

  /** The masked JavaScript frame reads back as what was asked for exactly when nothing was masked away. */
  lemma BuildFaithful(rpcId: nat, seqId: word, payload: seq<byte>)
    ensures UnpackFrame(BuildRawFrame(rpcId, seqId, payload)).Some?
    ensures var got := UnpackFrame(BuildRawFrame(rpcId, seqId, payload)).value;
            (got.rpcId == rpcId && got.seqId == seqId && got.payload == payload)
            <==> rpcId < 0x1_0000 && |payload| < 0x1_0000
  {
    hide BuildRawFrame, UnpackFrame;
    UnpackBuild(rpcId, seqId, payload);
    Fits(rpcId);
    Fits(|payload|);
    var length := |payload| % 0x1_0000;
    assert |payload[..length]| == length;
    assert length == |payload| ==> payload[..length] == payload;
  }

  lemma Fits(n: nat)
    ensures n % 0x1_0000 == n <==> n < 0x1_0000
  {
  }

  /**
   JavaScript buildRawFrame: header bytes filled in one at a time, then both parts copied into the
   packet array.
   */
  method BuildRawFrameJs(rpcId: nat, seqId: word, payload: seq<byte>) returns (packet: array<byte>)
    ensures fresh(packet) && packet[..] == BuildRawFrame(rpcId, seqId, payload)
  {
    var payloadLen := |payload|;
    var header := new byte[6];
    header[0] := rpcId % 0x100;
    header[1] := (rpcId / 0x100) % 0x100;
    header[2] := seqId % 0x100;
    header[3] := (seqId / 0x100) % 0x100;
    header[4] := payloadLen % 0x100;
    header[5] := (payloadLen / 0x100) % 0x100;
    packet := new byte[6 + payloadLen];
    forall i | 0 <= i < 6 { packet[i] := header[i]; }
    forall i | 0 <= i < payloadLen { packet[6 + i] := payload[i]; }
    MaskedBytes(rpcId);
    MaskedBytes(payloadLen);
    assert packet[..6] == Header(rpcId % 0x1_0000, seqId, payloadLen % 0x1_0000);
    assert packet[6..] == payload;
    assert packet[..] == packet[..6] + packet[6..];
  }

  lemma MaskedBytes(n: nat)
    ensures Lo(n % 0x1_0000) == n % 0x100 && Hi(n % 0x1_0000) == (n / 0x100) % 0x100
  {
    var q, r := n / 0x1_0000, n % 0x1_0000;
    assert n == 0x100 * (0x100 * q) + r;
    assert n / 0x100 == 0x100 * q + r / 0x100;
  }
}
