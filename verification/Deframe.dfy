/** Cutting a byte stream at its zero bytes, the view of a stream that both receivers implement. */
module Deframe {
  import opened Bytes
  import opened CobsTable

  /** Position of the first zero, or the length when there is none. */
  function FirstZero(s: seq<byte>, from: nat := 0): (z: nat)
    requires from <= |s|
    ensures from <= z <= |s|
    ensures forall i :: from <= i < z ==> s[i] != 0
    ensures z < |s| ==> s[z] == 0
    decreases |s| - from
  {
    if from == |s| || s[from] == 0 then from else FirstZero(s, from + 1)
  }

  /** The pieces that a zero ends, in order. */
  function Packets(s: seq<byte>): seq<seq<byte>>
    decreases |s|
  {
    var z := FirstZero(s);
    if z == |s| then [] else [s[..z]] + Packets(s[z + 1..])
  }

  /** The unfinished piece after the last zero. */
  function Leftover(s: seq<byte>): seq<byte>
    decreases |s|
  {
    var z := FirstZero(s);
    if z == |s| then s else Leftover(s[z + 1..])
  }

  /** A frame on the wire: its encoded body and the delimiter. */
  function Stuffed(raw: seq<byte>): seq<byte> { Body(raw) + [0] }

  function StuffedAll(raws: seq<seq<byte>>): seq<byte> {
    if raws == [] then [] else Stuffed(raws[0]) + StuffedAll(raws[1..])
  }

  function Bodies(raws: seq<seq<byte>>): seq<seq<byte>> {
    if raws == [] then [] else [Body(raws[0])] + Bodies(raws[1..])
  }

  lemma CutOne(x: seq<byte>, rest: seq<byte>)
    requires ZeroFree(x)
    ensures Packets(x + ([0] + rest)) == [x] + Packets(rest)
    ensures Leftover(x + ([0] + rest)) == Leftover(rest)
  {
    Assoc(x, [0], rest);
    var s := x + [0] + rest;
    assert s[|x|] == 0;
    assert FirstZero(s) == |x| by {
      assert forall i :: 0 <= i < |x| ==> s[i] == x[i] != 0;
    }
    assert s[..|x|] == x;
    assert s[|x| + 1..] == rest;
  }

  lemma CutNone(x: seq<byte>)
    requires ZeroFree(x)
    ensures Packets(x) == [] && Leftover(x) == x
  {
  }

  /** A stream can be cut piecewise: finish the first part, carry its leftover into the second. */
  lemma {:induction false} CutConcat(a: seq<byte>, b: seq<byte>)
    ensures Packets(a + b) == Packets(a) + Packets(Leftover(a) + b)
    ensures Leftover(a + b) == Leftover(Leftover(a) + b)
    decreases |a|
  {
    var z := FirstZero(a);
    if z == |a| {
      assert Packets(a) == [];
    } else {
      var x, rest := a[..z], a[z + 1..];
      assert a == x + ([0] + rest);
      assert a + b == x + ([0] + (rest + b));
      CutOne(x, rest);
      CutOne(x, rest + b);
      CutConcat(rest, b);
      Assoc([x], Packets(rest), Packets(Leftover(rest) + b));
    }
  }

  lemma {:induction false} PiecesZeroFree(s: seq<byte>)
    ensures forall p :: p in Packets(s) ==> ZeroFree(p)
    ensures ZeroFree(Leftover(s))
    decreases |s|
  {
    var z := FirstZero(s);
    if z < |s| {
      PiecesZeroFree(s[z + 1..]);
    }
  }

  lemma {:induction false} CutStuffed(raws: seq<seq<byte>>)
    ensures Packets(StuffedAll(raws)) == Bodies(raws)
    ensures Leftover(StuffedAll(raws)) == []
  {
    if raws != [] {
      BodyZeroFree(raws[0]);
      var rest := StuffedAll(raws[1..]);
      Assoc(Body(raws[0]), [0], rest);
      CutOne(Body(raws[0]), rest);
      CutStuffed(raws[1..]);
    }
  }

  /** Prefixing zero-free bytes only lengthens the first piece. */
  lemma CutPrefix(x: seq<byte>, s: seq<byte>)
    requires ZeroFree(x)
    ensures var p := Packets(s);
            Packets(x + s) == (if p == [] then [] else [x + p[0]] + p[1..])
            && Leftover(x + s) == (if p == [] then x + Leftover(s) else Leftover(s))
  {
    var z := FirstZero(s);
    if z == |s| {
      assert ZeroFree(x + s);
      CutNone(x + s);
    } else {
      var first, rest := s[..z], s[z + 1..];
      assert s == first + ([0] + rest);
      assert x + s == (x + first) + ([0] + rest);
      CutOne(first, rest);
      CutOne(x + first, rest);
    }
  }
}
