/** Little-endian fixed-width numbers over byte strings. */
module Bytes {
  import opened NumberTheory

  type Byte = b: nat | b < 256

  type Bytes = seq<Byte>

  function Pow256(w: nat): (p: nat)
    ensures p > 0
  {
    if w == 0 then 1 else 256 * Pow256(w - 1)
  }

  /** The low w bytes of a number, least significant first. */
  function Encode(v: nat, w: nat): (bs: Bytes)
    ensures |bs| == w
  {
    if w == 0 then [] else [v % 256] + Encode(v / 256, w - 1)
  }

  function Decode(bs: Bytes): (v: nat)
    ensures v < Pow256(|bs|)
  {
    if bs == [] then 0 else bs[0] + 256 * Decode(bs[1..])
  }

  /** Encoding keeps a number modulo the width. */
  lemma {:induction false} DecodeEncode(v: nat, w: nat)
    ensures Decode(Encode(v, w)) == v % Pow256(w)
  {
    if w > 0 {
      DecodeEncode(v / 256, w - 1);
      assert Encode(v, w)[1..] == Encode(v / 256, w - 1);
      LowAndHigh(v, Pow256(w - 1));
    }
  }

  lemma LowAndHigh(v: nat, p: nat)
    requires p > 0
    ensures v % 256 + 256 * ((v / 256) % p) == v % (256 * p)
  {
    var h := v / 256;
    var q, r := h / p, h % p;
    assert h == q * p + r;
    assert v == q * (256 * p) + (256 * r + v % 256);
    DivisionIsUnique(v, 256 * p, q, 256 * r + v % 256);
  }

  lemma LowByte(b: Byte, high: nat)
    ensures (b + 256 * high) % 256 == b && (b + 256 * high) / 256 == high
  {}

  lemma {:induction false} EncodeDecode(bs: Bytes)
    ensures Encode(Decode(bs), |bs|) == bs
  {
    if bs != [] {
      EncodeDecode(bs[1..]);
      LowByte(bs[0], Decode(bs[1..]));
      assert bs == [bs[0]] + bs[1..];
    }
  }

  /** Byte j of an encoded number is its j-th digit to the base 256. */
  lemma {:induction false} EncodeDigit(v: nat, w: nat, j: nat)
    requires j < w
    ensures Encode(v, w)[j] == v / Pow256(j) % 256
  {
    if j > 0 {
      EncodeDigit(v / 256, w - 1, j - 1);
      DivideTwice(v, Pow256(j - 1));
    }
  }

  lemma DivideTwice(v: nat, p: nat)
    requires p > 0
    ensures v / 256 / p == v / (256 * p)
  {
    var h := v / 256;
    var q, r := h / p, h % p;
    assert v == q * (256 * p) + (256 * r + v % 256);
    DivisionIsUnique(v, 256 * p, q, 256 * r + v % 256);
  }
}
