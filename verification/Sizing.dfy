/** Buffer and stack sizes the generator computes from the largest payload. */
module Sizing {
  import opened Bytes
  import opened CobsTable
  import opened Deframe
  import opened Wire
  import Server

  function Max(a: nat, b: nat): nat { if a >= b then a else b }

  /** (x + n - 1) & ~(n - 1), which for a power of two n clears the remainder by n. */
  function AlignUp(x: nat, n: nat): nat
    requires n > 0
  {
    var y := x + n - 1;
    y - y % n
  }

  function BufferSize(payload: nat): nat {
    AlignUp(Max(256, payload + 64), 64)
  }

  function StackSize(payload: nat): nat {
    AlignUp(Max(2048, BufferSize(payload) * 2 + 1024), 256)
  }

  /** The buffer is the least multiple of 64 that holds 256 bytes and the payload with 64 to spare. */
  lemma BufferIsLeast(payload: nat)
    ensures BufferSize(payload) % 64 == 0
    ensures forall k: nat :: BufferSize(payload) <= 64 * k <==> 256 <= 64 * k && payload + 64 <= 64 * k
  {
    forall k: nat
      ensures BufferSize(payload) <= 64 * k <==> 256 <= 64 * k && payload + 64 <= 64 * k
    {
    }
  }

  lemma StackHoldsTwoBuffers(payload: nat)
    ensures StackSize(payload) % 256 == 0
    ensures 2048 <= StackSize(payload) && 2 * BufferSize(payload) + 1024 <= StackSize(payload)
    ensures StackSize(payload) < Max(2048, 2 * BufferSize(payload) + 1024) + 256
  {
  }

  // The engine passes the size of its static buffer on as 16 bits.

  function AnnouncedSize(payload: nat): word { BufferSize(payload) % 0x1_0000 }

  /** The size survives exactly up to a computed payload of 65408 bytes. */
  lemma AnnouncedIff(payload: nat)
    ensures AnnouncedSize(payload) == BufferSize(payload) <==> payload <= 65408
  {
  }

  /**
   Right above, up to 65472 bytes, the announced size is zero: a packet with a header gets no reply at all, and
   the return code is -1 unless its rpc wants no answer and succeeds.
   */
  lemma NothingAnnounced(payload: nat, fw: Server.Firmware, rx: seq<byte>, n: word, limit: Option<word>)
    requires 65409 <= payload <= 65472 && n >= 6 && Server.Readable(fw, rx, n)
    ensures var silent := Server.SilentSuccess(fw, Server.FRESH, Server.Find(fw.table, Server.RxRpcId(rx)), rx);
            Server.Processed(fw, Some(rx), n, AnnouncedSize(payload), limit) == (if silent then 0 else -1, [])
  {
    hide Server.Handle, Server.SilentSuccess, Server.Find;
    assert BufferSize(payload) == 0x1_0000;
    Server.HandlerContract(fw, Server.FRESH, rx, n, Some(AnnouncedSize(payload)));
  }

  // Does the buffer hold every frame once it is COBS encoded and delimited?

  predicate HoldsFramed(raw: seq<byte>, size: nat) {
    |Stuffed(raw)| <= size
  }

  ghost predicate AllFramesFit(payload: nat) {
    forall raw: seq<byte> :: |raw| <= 6 + payload ==> HoldsFramed(raw, BufferSize(payload))
  }

  function WorstCase(payload: nat): nat { payload + 6 + (payload + 6) / 254 + 2 }

  lemma AllFramesFitIff(payload: nat)
    ensures AllFramesFit(payload) <==> WorstCase(payload) <= BufferSize(payload)
  {
    hide BufferSize, Body, FullRuns;
    if WorstCase(payload) <= BufferSize(payload) {
      forall raw: seq<byte> | |raw| <= 6 + payload
        ensures HoldsFramed(raw, BufferSize(payload))
      {
        BodyLength(raw);
      }
    } else {
      var raw: seq<byte> := seq(payload + 6, _ => 1);
      ZeroFreeBodyLength(raw);
      assert !HoldsFramed(raw, BufferSize(payload));
    }
  }

  lemma SmallPayloadsFit(payload: nat)
    requires payload <= 14527
    ensures AllFramesFit(payload)
  {
    hide AllFramesFit;
    AllFramesFitIff(payload);
    BufferIsLeast(payload);
  }

  /** 30465 bytes is the last payload size that is covered. */
  lemma LastCoveredPayload(payload: nat)
    requires payload >= 30465
    ensures AllFramesFit(payload) <==> payload == 30465
  {
    hide AllFramesFit;
    AllFramesFitIff(payload);
    if payload < 30474 {
      assert (payload + 6) / 254 == 119;
    } else {
      assert (payload + 6) / 254 >= 120;
    }
  }

  /** The first payload size that fails: request 0x0701, sequence 0x0101, 14528 bytes 0x01, no zero byte anywhere. */
  lemma FirstUncoveredFrame()
    ensures var payload: seq<byte> := seq(14528, _ => 1);
            && PackFrame(0x0701, 0x0101, payload).Some?
            && !HoldsFramed(PackFrame(0x0701, 0x0101, payload).value, BufferSize(|payload|))
  {
    var payload: seq<byte> := seq(14528, _ => 1);
    UncoveredFrame(payload);
  }

  lemma UncoveredFrame(payload: seq<byte>)
    requires |payload| == 14528 && ZeroFree(payload)
    ensures !HoldsFramed(Header(0x0701, 0x0101, |payload|) + payload, BufferSize(|payload|))
  {
    hide Body, FullRuns;
    ZeroFreeBodyLength(Header(0x0701, 0x0101, |payload|) + payload);
  }
}
