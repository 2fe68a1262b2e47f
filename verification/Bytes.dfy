/** Little-endian integers, and reading them back at an offset. */
module Bytes {
  import opened Basics

  type U16 = n: nat | n < 0x1_0000
  type U32 = n: nat | n < 0x1_0000_0000

  function Enc16(n: U16): (b: seq<Byte>)
    ensures |b| == 2
  {
    [n % 0x100, n / 0x100]
  }

  function Enc32(n: U32): (b: seq<Byte>)
    ensures |b| == 4
  {
    [n % 0x100, (n / 0x100) % 0x100, (n / 0x1_0000) % 0x100, n / 0x100_0000]
  }

  function Load16(b: seq<Byte>, o: nat): U16
    requires o + 2 <= |b|
  {
    b[o] as int + 0x100 * (b[o + 1] as int)
  }

  function Load32(b: seq<Byte>, o: nat): U32
    requires o + 4 <= |b|
  {
    b[o] as int + 0x100 * (b[o + 1] as int) + 0x1_0000 * (b[o + 2] as int) + 0x100_0000 * (b[o + 3] as int)
  }

  /** `part` stands in `b` at offset `o`. */
  predicate At(b: seq<Byte>, o: nat, part: seq<Byte>) {
    o + |part| <= |b| && forall i :: 0 <= i < |part| ==> b[o + i] == part[i]
  }

  lemma {:induction false} AtSplit(b: seq<Byte>, o: nat, x: seq<Byte>, y: seq<Byte>)
    ensures At(b, o, x + y) <==> At(b, o, x) && At(b, o + |x|, y)
  {
    var z := x + y;
    if At(b, o, z) {
      assert forall i :: 0 <= i < |x| ==> z[i] == x[i];
      forall i | 0 <= i < |y| ensures b[o + |x| + i] == y[i] {
        assert b[o + (|x| + i)] == z[|x| + i];
      }
    }
    if At(b, o, x) && At(b, o + |x|, y) {
      forall i | 0 <= i < |z| ensures b[o + i] == z[i] {
        if i >= |x| { assert b[o + |x| + (i - |x|)] == y[i - |x|]; }
      }
    }
  }

  lemma {:induction false} Load16At(b: seq<Byte>, o: nat, n: U16)
    requires At(b, o, Enc16(n))
    ensures o + 2 <= |b| && Load16(b, o) == n
  {
    assert b[o + 0] == Enc16(n)[0] && b[o + 1] == Enc16(n)[1];
  }

  lemma {:induction false} Load32At(b: seq<Byte>, o: nat, n: U32)
    requires At(b, o, Enc32(n))
    ensures o + 4 <= |b| && Load32(b, o) == n
  {
    assert b[o + 0] == Enc32(n)[0] && b[o + 1] == Enc32(n)[1] && b[o + 2] == Enc32(n)[2] && b[o + 3] == Enc32(n)[3];
  }

  lemma {:induction false} AtSlice(b: seq<Byte>, o: nat, part: seq<Byte>)
    requires At(b, o, part)
    ensures b[o..o + |part|] == part
  {
  }
}
