/** The COBS codec of the JavaScript client, and how it compares with the Python one. */
module JsCobs {
  import opened Bytes
  import opened CobsTable
  import PyCobs

  method CobsEncode(input: seq<byte>) returns (output: seq<byte>)
    ensures output == Body(input)
  {
    output := [];
    var codeIndex: nat := 0;
    var code: byte := 1;
    output := output + [0];
    MidwayStart(input);
    for i := 0 to |input|
      invariant Midway(input, i, output, codeIndex, code)
    {
      if input[i] == 0 {
        MidwayZero(input, i, output, codeIndex, code);
      } else if code < 254 {
        MidwayPush(input, i, output, codeIndex, code);
      } else {
        MidwayFull(input, i, output, codeIndex);
      }
      if input[i] != 0 {
        output := output + [input[i]];
        code := code + 1;
      }
      if input[i] == 0 || code == 0xFF {
        output := output[codeIndex := code];
        codeIndex := |output|;
        output := output + [0];
        code := 1;
      }
    }
    MidwayEnd(input, output, codeIndex, code);
    output := output[codeIndex := code];
  }

  /** What the decoder returns: it stops at a zero code byte and adds no gap before one. */
  function Decoded(b: seq<byte>): seq<byte>
    decreases |b|
  {
    if b == [] || b[0] == 0 then []
    else if |b| <= b[0] then b[1..]
    else b[1..b[0]] + (if b[b[0]] != 0 then Gap(b[0]) else []) + Decoded(b[b[0]..])
  }

  method CobsDecode(input: seq<byte>) returns (output: seq<byte>)
    ensures output == Decoded(input)
  {
    hide Decoding, Copied;
    output := [];
    var i: nat := 0;
    DecodingStart(input);
    while i < |input|
      invariant i <= |input|
      invariant Decoding(input, output, i)
    {
      var code := input[i];
      if code == 0 {
        break;
      }
      ghost var start, before := i, output;
      i := i + 1;
      CopiedNone(input, output, i);
      for j := 1 to code
        invariant i == Min(start + j, |input|)
        invariant Copied(input, before, start + 1, i, output)
      {
        if i < |input| {
          CopiedOne(input, before, start + 1, i, output);
          output := output + [input[i]];
          i := i + 1;
        }
      }
      DecodingBlock(input, before, start, output);
      if code < 0xFF && i < |input| && input[i] != 0 {
        output := output + [0];
      }
    }
    DecodingEnd(input, output, i);
  }

  // The loop: what is written so far, followed by what the rest decodes to, is the whole result.

  predicate Decoding(input: seq<byte>, done: seq<byte>, i: nat) {
    i <= |input| && Decoded(input) == done + Decoded(input[i..])
  }

  lemma DecodingStart(input: seq<byte>)
    ensures Decoding(input, [], 0)
  {
    assert input[0..] == input && [] + Decoded(input) == Decoded(input);
  }

  lemma DecodingBlock(input: seq<byte>, done: seq<byte>, i: nat, copied: seq<byte>)
    requires Decoding(input, done, i) && i < |input| && input[i] != 0
    requires Copied(input, done, i + 1, Min(i + input[i], |input|), copied)
    ensures var next := Min(i + input[i], |input|);
            Decoding(input, PutGap(copied, input[i] < 0xFF && next < |input| && input[next] != 0), next)
  {
    var b, next := input[i..], Min(i + input[i], |input|);
    if next < |input| {
      assert b[1..b[0]] == input[i + 1..next] && b[b[0]..] == input[next..] && b[b[0]] == input[next];
      var gap := if input[next] != 0 then Gap(b[0]) else [];
      var tail := Decoded(input[next..]);
      assert Decoded(b) == b[1..b[0]] + gap + tail;
      Assoc(done, b[1..b[0]] + gap, tail);
      Assoc(done, b[1..b[0]], gap);
      assert done + b[1..b[0]] + [] == done + b[1..b[0]];
    } else {
      assert b[1..] == input[i + 1..next] && input[next..] == [];
      assert done + b[1..] == done + b[1..] + [];
    }
  }

  lemma DecodingEnd(input: seq<byte>, done: seq<byte>, i: nat)
    requires Decoding(input, done, i) && (i == |input| || input[i] == 0)
    ensures Decoded(input) == done
  {
    assert Decoded(input[i..]) == [];
    assert done + [] == done;
  }

  // Agreement of the two implementations.

  /** Wherever the code table gives a meaning, the JavaScript decoder finds the same bytes. */
  lemma {:induction false} DecodersAgree(b: seq<byte>)
    requires Decode(b).Some?
    ensures Decoded(b) == Decode(b).value
    decreases |b|
  {
    if b != [] && b[0] < |b| {
      DecodersAgree(b[b[0]..]);
    }
  }

  /** The body stops inside a block: its last code byte asks for more data than there is. */
  predicate CutShort(b: seq<byte>)
    decreases |b|
  {
    b != [] && b[0] != 0 && (|b| < b[0] || (b[0] < |b| && CutShort(b[b[0]..])))
  }

  /** A delimiter left on the input is seen as data exactly when the body before it was cut short. */
  lemma {:induction false} DelimiterSeen(b: seq<byte>)
    requires Decode(b).Some?
    ensures Decoded(b + [0]) == Decode(b).value + (if CutShort(b) then [0] else [])
    decreases |b|
  {
    var d := b + [0];
    if b != [] {
      if |b| < b[0] {
        assert d[1..] == b[1..] + [0];
      } else if |b| == b[0] {
        assert d[1..b[0]] == b[1..] && d[b[0]..] == [0];
        assert Decoded([0]) == [];
      } else {
        var rest := b[b[0]..];
        assert d[1..b[0]] == b[1..b[0]] && d[b[0]..] == rest + [0];
        DelimiterSeen(rest);
        assert rest[0] != 0;
        var end := if CutShort(rest) then [0] else [];
        assert b[1..b[0]] + Gap(b[0]) + (Decode(rest).value + end)
            == b[1..b[0]] + Gap(b[0]) + Decode(rest).value + end;
      }
    }
  }

  /** The decoder stops at the first zero code byte: nothing behind a whole body and a zero is looked at. */
  lemma {:induction false} StopsAtZero(b: seq<byte>, rest: seq<byte>)
    requires WellFormed(b)
    ensures Decoded(b + [0] + rest) == Decoded(b + [0])
    decreases |b|
  {
    var d, e := b + [0] + rest, b + [0];
    if |b| == b[0] {
      assert d[1..b[0]] == b[1..] == e[1..b[0]] && d[b[0]..] == [0] + rest && e[b[0]..] == [0];
      assert Decoded([0] + rest) == [] == Decoded([0]);
    } else {
      var tail := b[b[0]..];
      assert d[1..b[0]] == b[1..b[0]] == e[1..b[0]] && d[b[0]..] == tail + [0] + rest && e[b[0]..] == tail + [0];
      StopsAtZero(tail, rest);
    }
  }

  /**
   The two decoders on any input the Python one accepts: they differ by one trailing zero, and only
   on a delimited input whose body is cut short.
   */
  lemma DecodersCompared(data: seq<byte>)
    requires Decode(PyCobs.StripDelimiter(data)).Some?
    ensures var body := PyCobs.StripDelimiter(data);
            Decode(body).value == Decoded(data) <==> body == data || !CutShort(body)
  {
    var body := PyCobs.StripDelimiter(data);
    if body == data {
      DecodersAgree(body);
    } else {
      assert data == body + [0];
      DelimiterSeen(body);
    }
  }

  lemma {:induction false} WellFormedNotCutShort(b: seq<byte>)
    requires WellFormed(b)
    ensures !CutShort(b)
    decreases |b|
  {
    if b[0] < |b| {
      WellFormedNotCutShort(b[b[0]..]);
    }
  }

  /** JavaScript decodes both its own output and the delimited Python output. */
  lemma JsDecodesBothForms(d: seq<byte>)
    ensures Decoded(Body(d)) == Decoded(Body(d) + [0]) == d
  {
    DecodeBody(d);
    BodyWellFormed(d);
    WellFormedNotCutShort(Body(d));
    DecodersAgree(Body(d));
    DelimiterSeen(Body(d));
  }

  /** Both encoders and both decoders side by side on the same data. */
  method Interoperate(d: seq<byte>) returns (py: seq<byte>, js: seq<byte>)
    ensures py == js + [0]
    ensures Decoded(js) == Decoded(py) == d
    ensures Decode(PyCobs.StripDelimiter(js)) == Decode(PyCobs.StripDelimiter(py)) == Some(d)
  {
    py := PyCobs.CobsEncode(d);
    js := CobsEncode(d);
    JsDecodesBothForms(d);
    DecodeBody(d);
    BodyZeroFree(d);
    assert PyCobs.StripDelimiter(js + [0]) == js == PyCobs.StripDelimiter(js);
  }
}
