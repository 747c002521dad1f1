/** The COBS codec of the generated Python client: a byte buffer with a back-patched code byte. */
module PyCobs {
  import opened Bytes
  import opened CobsTable

  method CobsEncode(data: seq<byte>) returns (dest: seq<byte>)
    ensures dest == Body(data) + [0]
  {
    if data == [] {
      BodyLastRun([]);
      return [0x01, 0x00];
    }
    dest := [];
    var codeIdx: nat := |dest|;
    dest := dest + [0];
    var code: byte := 1;
    MidwayStart(data);
    for i := 0 to |data|
      invariant Midway(data, i, dest, codeIdx, code)
    {
      var b := data[i];
      if b != 0 {
        if code < 254 {
          MidwayPush(data, i, dest, codeIdx, code);
        } else {
          MidwayFull(data, i, dest, codeIdx);
        }
        dest := dest + [b];
        code := code + 1;
        if code == 0xFF {
          dest := dest[codeIdx := code];
          codeIdx := |dest|;
          dest := dest + [0];
          code := 1;
        }
      } else {
        MidwayZero(data, i, dest, codeIdx, code);
        dest := dest[codeIdx := code];
        codeIdx := |dest|;
        dest := dest + [0];
        code := 1;
      }
    }
    MidwayEnd(data, dest, codeIdx, code);
    dest := dest[codeIdx := code];
    dest := dest + [0];
  }

  function StripDelimiter(data: seq<byte>): seq<byte> {
    if data != [] && data[|data| - 1] == 0 then data[..|data| - 1] else data
  }

  /** One delimiter is taken off, and only one. */
  lemma OneDelimiterStripped(data: seq<byte>)
    ensures StripDelimiter(data + [0]) == data
    ensures data == [] || data[|data| - 1] != 0 ==> StripDelimiter(data) == data
  {
    assert (data + [0])[..|data|] == data;
  }

  /** None stands for the ValueError raised on a zero code byte. */
  method CobsDecode(data: seq<byte>) returns (r: Option<seq<byte>>)
    ensures r == Decode(StripDelimiter(data))
  {
    hide Decoding, Copied;
    if data == [] {
      return Some([]);
    }
    var body := data;
    if body[|body| - 1] == 0 {
      body := body[..|body| - 1];
    }
    if body == [] {
      return Some([]);
    }
    var dest: seq<byte> := [];
    var idx: nat := 0;
    var length := |body|;
    DecodingStart(body);
    while idx < length
      invariant idx <= length
      invariant Decoding(body, dest, idx)
    {
      var code := body[idx];
      if code == 0 {
        DecodingRefused(body, dest, idx);
        return None;
      }
      ghost var start, before := idx, dest;
      idx := idx + 1;
      CopiedNone(body, dest, idx);
      for i := 1 to code
        invariant idx == start + i <= length
        invariant Copied(body, before, start + 1, idx, dest)
      {
        if idx >= length {
          break;
        }
        CopiedOne(body, before, start + 1, idx, dest);
        dest := dest + [body[idx]];
        idx := idx + 1;
      }
      DecodingBlock(body, before, start, dest);
      if code < 0xFF && idx < length {
        dest := dest + [0];
      }
    }
    DecodingEnd(body, dest);
    return Some(dest);
  }

  // The decoder's loop: `done` is the meaning of body[..idx], and what remains decodes on its own.

  predicate Decoding(body: seq<byte>, done: seq<byte>, idx: nat) {
    && idx <= |body|
    && match Decode(body[idx..])
       case None => Decode(body).None?
       case Some(tail) => Decode(body) == Some(done + tail)
  }

  lemma DecodingStart(body: seq<byte>)
    ensures Decoding(body, [], 0)
  {
    assert body[0..] == body;
    if Decode(body).Some? {
      assert [] + Decode(body).value == Decode(body).value;
    }
  }

  lemma DecodingBlock(body: seq<byte>, done: seq<byte>, idx: nat, copied: seq<byte>)
    requires Decoding(body, done, idx) && idx < |body| && body[idx] != 0
    requires Copied(body, done, idx + 1, Min(idx + body[idx], |body|), copied)
    ensures var next := Min(idx + body[idx], |body|);
            Decoding(body, PutGap(copied, body[idx] < 0xFF && next < |body|), next)
  {
    var b, next := body[idx..], Min(idx + body[idx], |body|);
    if next < |body| {
      assert b[1..b[0]] == body[idx + 1..next] && b[b[0]..] == body[next..];
      if Decode(body[next..]).Some? {
        var tail := Decode(body[next..]).value;
        Assoc(done, b[1..b[0]] + Gap(b[0]), tail);
        Assoc(done, b[1..b[0]], Gap(b[0]));
        assert done + b[1..b[0]] + [] == done + b[1..b[0]];
      }
    } else {
      assert b[1..] == body[idx + 1..next] && body[next..] == [];
      assert done + b[1..] == done + b[1..] + [];
    }
  }

  lemma DecodingRefused(body: seq<byte>, done: seq<byte>, idx: nat)
    requires Decoding(body, done, idx) && idx < |body| && body[idx] == 0
    ensures Decode(body).None?
  {
  }

  lemma DecodingEnd(body: seq<byte>, done: seq<byte>)
    requires Decoding(body, done, |body|)
    ensures Decode(body) == Some(done)
  {
    assert body[|body|..] == [] && done + [] == done;
  }

  /** Decoding undoes encoding with the delimiter still attached and with it already removed. */
  method RoundTrip(d: seq<byte>) returns (framed: Option<seq<byte>>, bare: Option<seq<byte>>)
    ensures framed == bare == Some(d)
  {
    var e := CobsEncode(d);
    DecodeBody(d);
    BodyZeroFree(d);
    framed := CobsDecode(e);
    bare := CobsDecode(e[..|e| - 1]);
    assert StripDelimiter(Body(d) + [0]) == Body(d) == StripDelimiter(Body(d));
  }
}
