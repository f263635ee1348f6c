/** The reference lz-string compressor (compressToEncodedURIComponent of pieroxy's lz-string, the
    library internal/lzstring/lz.go names as the format it reads), as the specification the decoder
    is measured against. Characters are 16-bit code units. */
module LZCompressor {
  import opened LZBits

  type Unit = c: nat | c < 0x10000
  type Units = seq<Unit>

  /** The compressor's state: phrases with their codes, the characters that have a code but have not
      been written yet, the phrase being extended, and the width bookkeeping. */
  datatype Enc = Enc(codes: map<Units, nat>, toCreate: set<Units>, w: Units,
                     enlargeIn: int, numBits: nat, dictSize: nat)

  const INITIAL_ENC := Enc(map[], {}, [], 2, 2, 3)

  function Bump(e: Enc): Enc {
    if e.enlargeIn - 1 == 0 then e.(enlargeIn := Pow2(e.numBits), numBits := e.numBits + 1)
    else e.(enlargeIn := e.enlargeIn - 1)
  }

  /** The bits written for the phrase w: a literal on first use, otherwise its code. */
  function CodeBits(e: Enc): seq<bool>
    requires e.w != []
  {
    if e.w in e.toCreate then
      if e.w[0] < 256 then ToBits(0, e.numBits) + ToBits(e.w[0], 8)
      else ToBits(1, e.numBits) + ToBits(e.w[0], 16)
    else ToBits(if e.w in e.codes then e.codes[e.w] else 0, e.numBits)
  }

  function AfterCode(e: Enc): Enc {
    Bump(if e.w in e.toCreate then Bump(e).(toCreate := e.toCreate - {e.w}) else e)
  }

  /** A character seen for the first time gets the next code. */
  function Learn(e: Enc, c: Unit): Enc {
    if [c] in e.codes then e
    else e.(codes := e.codes[[c] := e.dictSize], toCreate := e.toCreate + {[c]}, dictSize := e.dictSize + 1)
  }

  /** After writing w, w + c becomes a phrase and c starts the next one. */
  function NextPhrase(e: Enc, c: Unit): Enc {
    var a := AfterCode(e);
    a.(codes := a.codes[e.w + [c] := a.dictSize], dictSize := a.dictSize + 1, w := [c])
  }

  /** The bits still to be written when s is the rest of the text; code 2 marks the end. */
  function CompressFrom(e: Enc, s: Units): seq<bool>
    decreases |s|
  {
    if s == [] then
      if e.w == [] then ToBits(2, e.numBits) else CodeBits(e) + ToBits(2, AfterCode(e).numBits)
    else
      var l := Learn(e, s[0]);
      if l.w + [s[0]] in l.codes then CompressFrom(l.(w := l.w + [s[0]]), s[1..])
      else
        assert l.w != [] by { assert [] + [s[0]] == [s[0]]; }
        CodeBits(l) + CompressFrom(NextPhrase(l, s[0]), s[1..])
  }

  function Compress(s: Units): seq<Byte> {
    Pack(CompressFrom(INITIAL_ENC, s))
  }
}
