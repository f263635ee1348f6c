/** Bits and the 64-letter alphabet of URI-safe lz-string. A character carries six bits, the most
    significant first; a number inside the stream is written with its least significant bit first. */
module LZBits {
  type Byte = b: nat | b < 256

  function Pow2(n: nat): (r: nat)
    ensures r > 0
  {
    if n == 0 then 1 else 2 * Pow2(n - 1)
  }

  /** The number whose bits, least significant first, are bs. */
  function FromBits(bs: seq<bool>): nat {
    if bs == [] then 0 else (if bs[0] then 1 else 0) + 2 * FromBits(bs[1..])
  }

  /** The n low bits of v, least significant first. */
  function ToBits(v: nat, n: nat): (r: seq<bool>)
    ensures |r| == n
  {
    if n == 0 then [] else [v % 2 == 1] + ToBits(v / 2, n - 1)
  }

  /** Writing v in n bits and reading it back loses exactly the part that does not fit. */
  lemma {:induction false} FromBitsToBits(v: nat, n: nat)
    ensures v < Pow2(n) <==> FromBits(ToBits(v, n)) == v
    ensures FromBits(ToBits(v, n)) < Pow2(n)
  {
    if n > 0 {
      FromBitsToBits(v / 2, n - 1);
      assert ToBits(v, n)[1..] == ToBits(v / 2, n - 1);
    }
  }

  /** Reading one more bit adds it with the weight of its position: the step of the reading loop. */
  lemma {:induction false} FromBitsSnoc(bs: seq<bool>, b: bool)
    ensures FromBits(bs + [b]) == FromBits(bs) + (if b then Pow2(|bs|) else 0)
  {
    if bs == [] {
      assert bs + [b] == [b];
    } else {
      FromBitsSnoc(bs[1..], b);
      assert (bs + [b])[1..] == bs[1..] + [b];
    }
  }

  /** The decoding table: position of a byte in the alphabet, 64 for '$', and 0 for any byte
      that is not in the table (a Go map returns the zero value for a missing key). */
  function BaseValue(c: Byte): (v: nat)
    ensures v <= 64
  {
    if 65 <= c <= 90 then c - 65
    else if 97 <= c <= 122 then c - 71
    else if 48 <= c <= 57 then c + 4
    else if c == 43 then 62
    else if c == 45 then 63
    else if c == 36 then 64
    else 0
  }

  /** The letter of the alphabet for a six-bit value. */
  function Letter(v: nat): (c: Byte)
    requires v < 64
    ensures BaseValue(c) == v
  {
    if v < 26 then v + 65
    else if v < 52 then v + 71
    else if v < 62 then v - 4
    else if v == 62 then 43
    else 45
  }

  /** Weight of the k-th bit of a character: the values the reader's `position` runs through. */
  function Weight(k: nat): (w: nat)
    requires k < 6
    ensures w > 0
  {
    Pow2(5 - k)
  }

  /** The k-th bit of a six-bit value; this is `val & position` for position Weight(k). */
  predicate BitOf(v: nat, k: nat)
    requires k < 6
  {
    v / Weight(k) % 2 == 1
  }

  /** The whole input as one flat sequence of bits. */
  function Stream(input: seq<Byte>): (r: seq<bool>)
    ensures |r| == 6 * |input|
  {
    seq(6 * |input|, i requires 0 <= i < 6 * |input| => BitOf(BaseValue(input[i / 6]), i % 6))
  }

  function SixBits(bs: seq<bool>): (v: nat)
    requires |bs| == 6
    ensures v < 64
  {
    (if bs[0] then 32 else 0) + (if bs[1] then 16 else 0) + (if bs[2] then 8 else 0)
      + (if bs[3] then 4 else 0) + (if bs[4] then 2 else 0) + (if bs[5] then 1 else 0)
  }

  function Zeros(n: nat): (r: seq<bool>)
    ensures |r| == n
  {
    seq(n, _ => false)
  }

  /** Cut a bit stream into characters. The last character is always written, so at least one
      zero bit of padding follows the data: a whole character of it when the data ends on a
      character boundary. */
  function Pack(bs: seq<bool>): seq<Byte> {
    if |bs| < 6 then [Letter(SixBits(bs + Zeros(6 - |bs|)))]
    else [Letter(SixBits(bs[..6]))] + Pack(bs[6..])
  }

  function Padding(bs: seq<bool>): (r: seq<bool>)
    ensures 1 <= |r| <= 6
  {
    Zeros(6 - |bs| % 6)
  }

  lemma SixBitsOf(bs: seq<bool>, k: nat)
    requires |bs| == 6 && k < 6
    ensures BitOf(SixBits(bs), k) == bs[k]
  {
    assert Weight(0) == 32 && Weight(1) == 16 && Weight(2) == 8;
    assert Weight(3) == 4 && Weight(4) == 2 && Weight(5) == 1;
  }

  lemma StreamOfLetter(bs: seq<bool>)
    requires |bs| == 6
    ensures Stream([Letter(SixBits(bs))]) == bs
  {
    forall k | 0 <= k < 6
      ensures Stream([Letter(SixBits(bs))])[k] == bs[k]
    {
      SixBitsOf(bs, k);
    }
  }

  lemma StreamAppend(a: seq<Byte>, b: seq<Byte>)
    ensures Stream(a + b) == Stream(a) + Stream(b)
  {
    var n := |a|;
    forall i | 0 <= i < 6 * |a + b|
      ensures Stream(a + b)[i] == (Stream(a) + Stream(b))[i]
    {
      if i >= 6 * n {
        assert (i - 6 * n) / 6 == i / 6 - n && (i - 6 * n) % 6 == i % 6;
        assert (a + b)[i / 6] == b[(i - 6 * n) / 6];
      }
    }
  }

  /** The characters written for a bit stream carry that stream followed by its padding. */
  lemma {:induction false} StreamOfPack(bs: seq<bool>)
    ensures Stream(Pack(bs)) == bs + Padding(bs)
  {
    if |bs| < 6 {
      StreamOfLetter(bs + Zeros(6 - |bs|));
    } else {
      StreamOfPack(bs[6..]);
      StreamOfLetter(bs[..6]);
      StreamAppend([Letter(SixBits(bs[..6]))], Pack(bs[6..]));
      assert bs == bs[..6] + bs[6..];
      assert Padding(bs) == Padding(bs[6..]);
    }
  }
}
