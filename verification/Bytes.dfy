/** Bytes, 16-bit words and the small sequence vocabulary shared by every module. */
module Bytes {

  type byte = b: int | 0 <= b < 0x100
  type word = w: int | 0 <= w < 0x1_0000

  datatype Option<+T> = None | Some(value: T)

  function Lo(w: word): byte { w % 256 }

  function Hi(w: word): byte { w / 256 }

  function Word(lo: byte, hi: byte): word { lo + 256 * hi }

  function Min(a: int, b: int): int { if a <= b then a else b }

  predicate ZeroFree(s: seq<byte>) {
    forall i :: 0 <= i < |s| ==> s[i] != 0
  }

  function Flatten<T>(ss: seq<seq<T>>): seq<T> {
    if ss == [] then [] else ss[0] + Flatten(ss[1..])
  }

  lemma Assoc<T>(a: seq<T>, b: seq<T>, c: seq<T>)
    ensures a + (b + c) == a + b + c
  {
  }

  lemma Patched<T>(s: seq<T>, i: nat, x: T)
    requires i < |s|
    ensures s[i := x] == s[..i] + ([x] + s[i + 1..])
  {
  }

  /** Bit 7 of the low byte: set on event identifiers, clear on requests. */
  predicate Bit7(w: word) { w % 256 >= 128 }
}
