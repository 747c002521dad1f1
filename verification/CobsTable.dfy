/**
 Consistent Overhead Byte Stuffing as its code table (Cheshire and Baker, IEEE/ACM ToN 1999):
 code n in 1..0xFE stands for n-1 data bytes and an implied zero, code 0xFF for 254 data bytes
 and no zero; the implied zero of the last block is dropped.  The Python and the JavaScript
 codec are proved against these functions.
 */
module CobsTable {
  import opened Bytes

  /** Length of the leading non-zero run of `d`, capped at 254 bytes. */
  function Run(d: seq<byte>): (n: nat)
    ensures n <= |d| && n <= 254
    ensures forall i :: 0 <= i < n ==> d[i] != 0
    ensures n < 254 && n < |d| ==> d[n] == 0
  {
    RunFrom(d, 0)
  }

  function RunFrom(d: seq<byte>, from: nat): (n: nat)
    requires from <= |d| && from <= 254
    ensures from <= n <= |d| && n <= 254
    ensures forall i :: from <= i < n ==> d[i] != 0
    ensures n < 254 && n < |d| ==> d[n] == 0
    decreases |d| - from
  {
    if from == 254 || from == |d| || d[from] == 0 then from else RunFrom(d, from + 1)
  }

  /** The encoded body of `d`, without the trailing delimiter. */
  function Body(d: seq<byte>): seq<byte>
    decreases |d|
  {
    var n := Run(d);
    if n == 254 then [0xFF] + d[..254] + Body(d[254..])
    else if n == |d| then [n + 1] + d
    else [n + 1] + d[..n] + Body(d[n + 1..])
  }

  /** The zero a block of this code implies when another block follows. */
  function Gap(code: byte): seq<byte> { if code < 0xFF then [0] else [] }

  /** What the code table makes of a body; a code byte of zero has no meaning, a last block may be cut short. */
  function Decode(b: seq<byte>): Option<seq<byte>>
    decreases |b|
  {
    if b == [] then Some([])
    else if b[0] == 0 then None
    else if |b| <= b[0] then Some(b[1..])
    else
      match Decode(b[b[0]..])
      case None => None
      case Some(tail) => Some(b[1..b[0]] + Gap(b[0]) + tail)
  }

  /** Bodies that split exactly into blocks, are zero-free and do not end with a 0xFF block. */
  predicate WellFormed(b: seq<byte>)
    decreases |b|
  {
    && 0 < |b|
    && 0 < b[0] <= |b|
    && ZeroFree(b[1..b[0]])
    && (if |b| == b[0] then b[0] < 0xFF else WellFormed(b[b[0]..]))
  }

  /** How many full 254-byte runs the encoder meets. */
  function FullRuns(d: seq<byte>): nat
    decreases |d|
  {
    var n := Run(d);
    if n == 254 then 1 + FullRuns(d[254..])
    else if n == |d| then 0
    else FullRuns(d[n + 1..])
  }

  // The three ways a block ends.

  lemma RunOf(run: seq<byte>, rest: seq<byte>)
    requires ZeroFree(run) && |run| <= 254
    requires |run| == 254 || rest == [] || rest[0] == 0
    ensures Run(run + rest) == |run|
  {
    var d := run + rest;
    var n := Run(d);
    assert forall i :: 0 <= i < |run| ==> d[i] == run[i] != 0;
    assert rest != [] ==> d[|run|] == rest[0];
  }

  lemma BodyFullRun(run: seq<byte>, rest: seq<byte>)
    requires ZeroFree(run) && |run| == 254
    ensures Body(run + rest) == [0xFF] + run + Body(rest)
  {
    RunOf(run, rest);
    assert (run + rest)[..254] == run && (run + rest)[254..] == rest;
  }

  lemma BodyRunZero(run: seq<byte>, rest: seq<byte>)
    requires ZeroFree(run) && |run| < 254
    ensures Body(run + ([0] + rest)) == [|run| + 1] + run + Body(rest)
  {
    RunOf(run, [0] + rest);
    Assoc(run, [0], rest);
    var d := run + [0] + rest;
    assert d[..|run|] == run;
    assert d[|run| + 1..] == rest;
  }

  lemma BodyLastRun(run: seq<byte>)
    requires ZeroFree(run) && |run| < 254
    ensures Body(run) == [|run| + 1] + run
  {
    RunOf(run, []);
    assert run + [] == run;
  }

  // The encoder's loop: finished blocks, an open code byte at `codeIdx`, and the run it will count.

  predicate Midway(data: seq<byte>, i: nat, dest: seq<byte>, codeIdx: nat, code: byte) {
    && i <= |data| && codeIdx < |dest|
    && code == |dest| - codeIdx <= 254
    && ZeroFree(dest[codeIdx + 1..])
    && Body(data) == dest[..codeIdx] + Body(dest[codeIdx + 1..] + data[i..])
  }

  lemma MidwayStart(data: seq<byte>)
    ensures Midway(data, 0, [0], 0, 1)
  {
    assert [0][1..] + data[0..] == data;
    assert [] + Body(data) == Body(data);
  }

  lemma MidwayPush(data: seq<byte>, i: nat, dest: seq<byte>, codeIdx: nat, code: byte)
    requires Midway(data, i, dest, codeIdx, code) && i < |data| && data[i] != 0 && code < 254
    ensures Midway(data, i + 1, dest + [data[i]], codeIdx, code + 1)
  {
    var dest' := dest + [data[i]];
    assert dest'[..codeIdx] == dest[..codeIdx];
    assert dest'[codeIdx + 1..] == dest[codeIdx + 1..] + [data[i]];
    assert dest[codeIdx + 1..] + data[i..] == dest'[codeIdx + 1..] + data[i + 1..];
  }

  /** Patching the open code byte and opening the next block, after the byte that ends the run. */
  lemma MidwayClose(data: seq<byte>, i: nat, dest: seq<byte>, codeIdx: nat, run: seq<byte>)
    requires codeIdx + 1 + |run| == |dest| && dest[codeIdx + 1..] == run && |run| <= 254 && i <= |data|
    requires Body(data) == dest[..codeIdx] + ([|run| + 1] + run + Body(data[i..]))
    ensures Midway(data, i, dest[codeIdx := |run| + 1] + [0], |dest|, 1)
  {
    var dest' := dest[codeIdx := |run| + 1] + [0];
    Patched(dest, codeIdx, |run| + 1);
    assert dest'[..|dest|] == dest[codeIdx := |run| + 1];
    assert dest'[|dest| + 1..] == [];
    assert dest'[|dest| + 1..] + data[i..] == data[i..];
    Assoc(dest[..codeIdx], [|run| + 1] + run, Body(data[i..]));
  }

  lemma MidwayZero(data: seq<byte>, i: nat, dest: seq<byte>, codeIdx: nat, code: byte)
    requires Midway(data, i, dest, codeIdx, code) && i < |data| && data[i] == 0
    ensures Midway(data, i + 1, dest[codeIdx := code] + [0], |dest|, 1)
  {
    var run := dest[codeIdx + 1..];
    assert data[i..] == [0] + data[i + 1..];
    BodyRunZero(run, data[i + 1..]);
    MidwayClose(data, i + 1, dest, codeIdx, run);
  }

  lemma MidwayFull(data: seq<byte>, i: nat, dest: seq<byte>, codeIdx: nat)
    requires Midway(data, i, dest, codeIdx, 254) && i < |data| && data[i] != 0
    ensures Midway(data, i + 1, (dest + [data[i]])[codeIdx := 0xFF] + [0], |dest| + 1, 1)
  {
    var dest' := dest + [data[i]];
    var run := dest'[codeIdx + 1..];
    assert dest'[..codeIdx] == dest[..codeIdx];
    assert run == dest[codeIdx + 1..] + [data[i]];
    assert data[i..] == [data[i]] + data[i + 1..];
    assert dest[codeIdx + 1..] + ([data[i]] + data[i + 1..]) == run + data[i + 1..];
    BodyFullRun(run, data[i + 1..]);
    MidwayClose(data, i + 1, dest', codeIdx, run);
  }

  lemma MidwayEnd(data: seq<byte>, dest: seq<byte>, codeIdx: nat, code: byte)
    requires Midway(data, |data|, dest, codeIdx, code)
    ensures dest[codeIdx := code] == Body(data)
  {
    var run := dest[codeIdx + 1..];
    assert data[|data|..] == [] && run + [] == run;
    BodyLastRun(run);
    Patched(dest, codeIdx, code);
  }

  // The decoders' inner loop copies a stretch of the source.

  predicate Copied(src: seq<byte>, before: seq<byte>, from: nat, to: nat, dest: seq<byte>) {
    from <= to <= |src| && dest == before + src[from..to]
  }

  lemma CopiedNone(src: seq<byte>, before: seq<byte>, from: nat)
    requires from <= |src|
    ensures Copied(src, before, from, from, before)
  {
    assert src[from..from] == [] && before + [] == before;
  }

  lemma CopiedOne(src: seq<byte>, before: seq<byte>, from: nat, to: nat, dest: seq<byte>)
    requires Copied(src, before, from, to, dest) && to < |src|
    ensures Copied(src, before, from, to + 1, dest + [src[to]])
  {
    assert src[from..to + 1] == src[from..to] + [src[to]];
    Assoc(before, src[from..to], [src[to]]);
  }

  function PutGap(s: seq<byte>, gap: bool): seq<byte> { if gap then s + [0] else s }

  // Decoding inverts encoding, and encoding inverts decoding on exactly the well-formed bodies.

  lemma WellFormedBlock(run: seq<byte>, rest: seq<byte>)
    requires ZeroFree(run) && |run| <= 254
    requires if rest == [] then |run| < 254 else WellFormed(rest)
    ensures WellFormed([|run| + 1] + run + rest)
  {
    var b := [|run| + 1] + run + rest;
    assert b[1..|run| + 1] == run && b[|run| + 1..] == rest;
  }

  lemma {:induction false} BodyWellFormed(d: seq<byte>)
    ensures WellFormed(Body(d))
    decreases |d|
  {
    hide WellFormed;
    var n := Run(d);
    if n == 254 {
      BodyWellFormed(d[254..]);
      WellFormedNotEmpty(Body(d[254..]));
      WellFormedBlock(d[..254], Body(d[254..]));
    } else if n == |d| {
      WellFormedBlock(d, []);
      assert [n + 1] + d + [] == [n + 1] + d;
    } else {
      BodyWellFormed(d[n + 1..]);
      WellFormedNotEmpty(Body(d[n + 1..]));
      WellFormedBlock(d[..n], Body(d[n + 1..]));
    }
  }

  lemma WellFormedNotEmpty(b: seq<byte>)
    requires WellFormed(b)
    ensures b != []
  {
  }

  /** Decoding one whole block that is not the last. */
  lemma DecodeBlock(run: seq<byte>, rest: seq<byte>)
    requires |run| <= 254 && rest != [] && Decode(rest).Some?
    ensures Decode([|run| + 1] + run + rest) == Some(run + Gap(|run| + 1) + Decode(rest).value)
  {
    var b := [|run| + 1] + run + rest;
    assert b[1..1 + |run|] == run && b[1 + |run|..] == rest;
  }

  /** Encoding one whole block that is not the last. */
  lemma BodyBlock(run: seq<byte>, d: seq<byte>)
    requires ZeroFree(run) && |run| <= 254
    ensures Body(run + Gap(|run| + 1) + d) == [|run| + 1] + run + Body(d)
  {
    if |run| == 254 {
      assert run + [] + d == run + d;
      BodyFullRun(run, d);
    } else {
      assert run + [0] + d == run + ([0] + d);
      BodyRunZero(run, d);
    }
  }

  lemma DecodeBodyStep(run: seq<byte>, d: seq<byte>)
    requires ZeroFree(run) && |run| <= 254 && Decode(Body(d)) == Some(d)
    ensures var whole := run + Gap(|run| + 1) + d;
            Decode(Body(whole)) == Some(whole)
  {
    BodyBlock(run, d);
    BodyWellFormed(d);
    DecodeBlock(run, Body(d));
  }

  lemma SplitAtRun(d: seq<byte>)
    ensures var n := Run(d);
            if n == 254 then d == d[..n] + Gap(n + 1) + d[n..]
            else n < |d| ==> d == d[..n] + Gap(n + 1) + d[n + 1..]
  {
  }

  lemma {:induction false} DecodeBody(d: seq<byte>)
    ensures Decode(Body(d)) == Some(d)
    decreases |d|
  {
    var n := Run(d);
    SplitAtRun(d);
    if n == 254 {
      DecodeBody(d[n..]);
      DecodeBodyStep(d[..n], d[n..]);
    } else if n < |d| {
      DecodeBody(d[n + 1..]);
      DecodeBodyStep(d[..n], d[n + 1..]);
    } else {
      BodyLastRun(d);
    }
  }

  lemma {:induction false} BodyDecode(b: seq<byte>)
    requires WellFormed(b)
    ensures Decode(b).Some? && Body(Decode(b).value) == b
    decreases |b|
  {
    var run, rest := b[1..b[0]], b[b[0]..];
    assert b == [|run| + 1] + run + rest;
    if rest == [] {
      assert b == [|run| + 1] + run;
      BodyLastRun(run);
    } else {
      BodyDecode(rest);
      DecodeBlock(run, rest);
      BodyBlock(run, Decode(rest).value);
    }
  }

  // Size and content of the encoded body.

  lemma {:induction false} WellFormedIsZeroFree(b: seq<byte>)
    requires WellFormed(b)
    ensures ZeroFree(b)
    decreases |b|
  {
    if |b| > b[0] {
      WellFormedIsZeroFree(b[b[0]..]);
    }
    assert b == [b[0]] + b[1..b[0]] + b[b[0]..];
  }

  lemma BodyZeroFree(d: seq<byte>)
    ensures ZeroFree(Body(d)) && Body(d) != []
  {
    BodyWellFormed(d);
    WellFormedIsZeroFree(Body(d));
  }

  lemma {:induction false} BodyLength(d: seq<byte>)
    ensures |Body(d)| == |d| + 1 + FullRuns(d)
    ensures FullRuns(d) <= |d| / 254
    decreases |d|
  {
    var n := Run(d);
    if n == 254 {
      BodyLength(d[254..]);
    } else if n < |d| {
      BodyLength(d[n + 1..]);
    }
  }

  lemma {:induction false} ZeroFreeBodyLength(d: seq<byte>)
    requires ZeroFree(d)
    ensures |Body(d)| == |d| + 1 + |d| / 254
    decreases |d|
  {
    if Run(d) == 254 {
      ZeroFreeBodyLength(d[254..]);
    }
  }

  lemma {:induction false} DecodeShrinks(b: seq<byte>)
    requires Decode(b).Some?
    ensures |Decode(b).value| <= |b|
    ensures b != [] ==> |Decode(b).value| < |b|
    decreases |b|
  {
    if b != [] && b[0] < |b| {
      DecodeShrinks(b[b[0]..]);
    }
  }

  lemma {:induction false} ZeroFreeDecodes(b: seq<byte>)
    requires ZeroFree(b)
    ensures Decode(b).Some?
    decreases |b|
  {
    if b != [] && b[0] < |b| {
      ZeroFreeDecodes(b[b[0]..]);
    }
  }
}
