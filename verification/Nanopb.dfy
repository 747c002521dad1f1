/**
 The little of the nanopb output stream that the server engine itself relies on: a bounded stream
 over a byte buffer whose write either fits as a whole or fails without writing, plus the varint
 and zigzag forms used for the status code.
 */
module Nanopb {
  import opened Bytes

  function Write(cap: nat, written: seq<byte>, chunk: seq<byte>): (r: seq<byte>)
    ensures |written| <= cap ==> |r| <= cap
    ensures written <= r
  {
    if |written| + |chunk| <= cap then written + chunk else written
  }

  /** A message encoder emits its chunks in order and may give up by itself after the last one. */
  datatype Encoding = Encoding(chunks: seq<seq<byte>>, complete: bool)

  /** Chunks are written up to the first that does not fit; what went before it stays in the buffer. */
  function WriteChunks(cap: nat, written: seq<byte>, chunks: seq<seq<byte>>): (r: (bool, seq<byte>))
    ensures |written| <= cap ==> |r.1| <= cap
    ensures r.0 ==> r.1 == written + Flatten(chunks)
    ensures |written| <= cap ==> (r.0 <==> |written| + |Flatten(chunks)| <= cap)
    decreases |chunks|
  {
    if chunks == [] then (true, written)
    else if |written| + |chunks[0]| <= cap then
      Assoc(written, chunks[0], Flatten(chunks[1..]));
      WriteChunks(cap, written + chunks[0], chunks[1..])
    else (false, written)
  }

  function Encode(cap: nat, e: Encoding): (r: (bool, seq<byte>))
    ensures |r.1| <= cap
    ensures r.0 <==> e.complete && |Flatten(e.chunks)| <= cap
    ensures r.0 ==> r.1 == Flatten(e.chunks)
  {
    var w := WriteChunks(cap, [], e.chunks);
    (w.0 && e.complete, w.1)
  }

  function Varint(n: nat): seq<byte> {
    if n < 128 then [n] else [n % 128 + 128] + Varint(n / 128)
  }

  /** A varint at the front of a stream, and what follows it. */
  function ReadVarint(s: seq<byte>): Option<(nat, seq<byte>)> {
    if s == [] then None
    else if s[0] < 128 then Some((s[0], s[1..]))
    else
      match ReadVarint(s[1..])
      case None => None
      case Some((high, rest)) => Some((s[0] - 128 + 128 * high, rest))
  }

  function ZigZag(v: int): nat { if v < 0 then -2 * v - 1 else 2 * v }

  function UnZigZag(n: nat): int { if n % 2 == 0 then n / 2 else -((n + 1) / 2) }

  /** What a reader of a plain int32 field keeps of a varint: the low 32 bits, signed. */
  function AsInt32(n: nat): int {
    var low := n % 0x1_0000_0000;
    if low < 0x8000_0000 then low else low - 0x1_0000_0000
  }

  lemma {:induction false} VarintReadsBack(n: nat, rest: seq<byte>)
    ensures ReadVarint(Varint(n) + rest) == Some((n, rest))
    decreases n
  {
    var s := Varint(n) + rest;
    if n < 128 {
      assert s[1..] == rest;
    } else {
      assert s[1..] == Varint(n / 128) + rest;
      VarintReadsBack(n / 128, rest);
    }
  }

  /**
   The server writes the status code in zigzag form while the schema declares a plain int32: a
   conforming reader recovers the code exactly when it is zero.
   */
  lemma StatusCodeMisread(code: int)
    ensures var read := ReadVarint(Varint(ZigZag(code)));
            read.Some? && (AsInt32(read.value.0) == code <==> code == 0)
  {
    hide Varint, ReadVarint;
    VarintReadsBack(ZigZag(code), []);
    assert Varint(ZigZag(code)) + [] == Varint(ZigZag(code));
  }
}
