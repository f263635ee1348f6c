/** The decompressor of internal/lzstring/lz.go: what it computes, as functions on the bits not yet
    read, and the imperative decoder that computes it. Strings are sequences of code points. */
module LZDecoder {
  import opened LZBits

  type Rune = c: nat | c < 0x10000
  type Text = seq<Rune>

  const REPLACEMENT: Rune := 0xFFFD

  /** Go's string(rune(v)): a surrogate is not a character and becomes U+FFFD. */
  function RuneOf(v: Rune): (c: Rune) {
    if 0xD800 <= v < 0xE000 then REPLACEMENT else v
  }

  /** str followed by the first character of s; decoding the first rune of "" gives U+FFFD. */
  function ConcatWithFirstRune(str: Text, s: Text): Text {
    str + [if s == [] then REPLACEMENT else s[0]]
  }

  /** The decoder's dictionary together with the width of the next code. */
  datatype Dict = Dict(entries: seq<Text>, enlargeIn: int, numBits: nat)

  const INITIAL_DICT := Dict([['0' as int], ['1' as int], ['2' as int]], 5, 2)

  function Append(d: Dict, s: Text): Dict {
    var entries, left := d.entries + [s], d.enlargeIn - 1;
    if left == 0 then Dict(entries, Pow2(d.numBits), d.numBits + 1)
    else Dict(entries, left, d.numBits)
  }

  datatype Take = Short | Bits(value: nat, rest: seq<bool>)

  /** Take nb bits off the stream. The reader loads the next character as soon as it has used up
      the current one, so a read that ends on the very last bit already runs past the input. */
  function TakeBits(bits: seq<bool>, nb: nat): Take {
    if nb == 0 then Bits(0, bits)
    else if nb < |bits| then Bits(FromBits(bits[..nb]), bits[nb..])
    else Short
  }

  /** Result of reading one code. OutOfRange is Go's index-out-of-range panic. */
  datatype Got = Phrase(text: Text, dict: Dict, rest: seq<bool>) | End | BadCode | OutOfRange

  function GetLiteral(d: Dict, bits: seq<bool>, nb: nat): Got
    requires nb <= 16
  {
    match TakeBits(bits, nb)
    case Short => OutOfRange
    case Bits(v, rest) =>
      TakeBound(bits, nb);
      Phrase([RuneOf(v)], Append(d, [RuneOf(v)]), rest)
  }

  function GetPhrase(last: Text, d: Dict, bits: seq<bool>): Got {
    match TakeBits(bits, d.numBits)
    case Short => OutOfRange
    case Bits(c, rest) =>
      if c == 0 then GetLiteral(d, rest, 8)
      else if c == 1 then GetLiteral(d, rest, 16)
      else if c == 2 then End
      else if c < |d.entries| then Phrase(d.entries[c], d, rest)
      else if c == |d.entries| then Phrase(ConcatWithFirstRune(last, last), d, rest)
      else BadCode
  }

  datatype Status = Done | InputEmpty | BadEncoding | Panicked

  /** What the decoder returns: text with nil error (Done), the text so far with an error, or a panic. */
  datatype Outcome = Outcome(text: Text, status: Status)

  function Prepend(s: Text, o: Outcome): Outcome {
    if o.status == Panicked then o else Outcome(s + o.text, o.status)
  }

  function Stop(g: Got): Outcome
    requires !g.Phrase?
  {
    Outcome([], match g case End => Done case BadCode => BadEncoding case OutOfRange => Panicked)
  }

  /** The loop of the decoder from the phrase `last` on. */
  function DecodeFrom(last: Text, d: Dict, bits: seq<bool>): Outcome
    requires d.numBits > 0
    decreases |bits|
  {
    var g := GetPhrase(last, d, bits);
    if g.Phrase? then
      Prepend(g.text, DecodeFrom(g.text, Append(g.dict, ConcatWithFirstRune(last, g.text)), g.rest))
    else Stop(g)
  }

  function Widen(d: Dict): Dict {
    d.(numBits := d.numBits + 1)
  }

  /** The decoder on a stream of bits: the first code has two bits, the next three. */
  function DecodeStream(bits: seq<bool>): Outcome {
    var g := GetPhrase([], INITIAL_DICT, bits);
    if g.Phrase? then Prepend(g.text, DecodeFrom(g.text, Widen(g.dict), g.rest)) else Stop(g)
  }

  function Decode(input: seq<Byte>): Outcome {
    if input == [] then Outcome([], InputEmpty) else DecodeStream(Stream(input))
  }

  // ---------- the width of a code ----------

  /** The dictionary fills up exactly when the codes of the current width run out. */
  predicate WellSized(d: Dict) {
    d.enlargeIn >= 1 && |d.entries| + d.enlargeIn == Pow2(d.numBits)
  }

  lemma {:induction false} FromBitsBound(bs: seq<bool>)
    ensures FromBits(bs) < Pow2(|bs|)
  {
    if bs != [] { FromBitsBound(bs[1..]); }
  }

  lemma TakeBound(bits: seq<bool>, nb: nat)
    ensures TakeBits(bits, nb).Bits? && nb <= 16 ==> TakeBits(bits, nb).value < 0x10000
    ensures TakeBits(bits, nb).Bits? && nb <= 8 ==> TakeBits(bits, nb).value < 256
  {
    if 0 < nb <= 16 && nb < |bits| {
      FromBitsBound(bits[..nb]);
      Pow2Monotone(nb, 16);
      if nb <= 8 { Pow2Monotone(nb, 8); }
      assert Pow2(8) == 256 && Pow2(16) == 256 * Pow2(8);
    }
  }

  lemma {:induction false} Pow2Monotone(a: nat, b: nat)
    requires a <= b
    ensures Pow2(a) <= Pow2(b)
  {
    if a < b { Pow2Monotone(a, b - 1); }
  }

  /** On every input, malformed ones included, the sizes agree after the first code and after every
      later turn of the loop; a code equal to the dictionary length therefore fits in numBits bits. */
  lemma FirstCodeWellSized(bits: seq<bool>)
    ensures var g := GetPhrase([], INITIAL_DICT, bits);
            g.Phrase? ==> WellSized(Widen(g.dict)) && Widen(g.dict).numBits == 3 && |g.rest| + 2 <= |bits|
  {
    assert Pow2(3) == 8;
  }

  lemma TurnKeepsWellSized(last: Text, d: Dict, bits: seq<bool>)
    requires WellSized(d)
    ensures var g := GetPhrase(last, d, bits);
            g.Phrase? ==>
              var d' := Append(g.dict, ConcatWithFirstRune(last, g.text));
              && WellSized(d') && d'.numBits >= d.numBits
              && |d'.entries| < Pow2(d'.numBits)
              && |g.rest| + d.numBits <= |bits|
  {
  }

  // ---------- longer inputs ----------

  lemma {:induction false} TakeBitsExtends(bits: seq<bool>, more: seq<bool>, nb: nat)
    requires TakeBits(bits, nb).Bits?
    ensures TakeBits(bits + more, nb) == Bits(TakeBits(bits, nb).value, TakeBits(bits, nb).rest + more)
  {
    if nb > 0 {
      assert (bits + more)[..nb] == bits[..nb] && (bits + more)[nb..] == bits[nb..] + more;
    }
  }

  lemma GetPhraseExtends(last: Text, d: Dict, bits: seq<bool>, more: seq<bool>)
    requires !GetPhrase(last, d, bits).OutOfRange?
    ensures var g := GetPhrase(last, d, bits);
            GetPhrase(last, d, bits + more) == if g.Phrase? then g.(rest := g.rest + more) else g
  {
    TakeBitsExtends(bits, more, d.numBits);
    var t := TakeBits(bits, d.numBits);
    if t.value == 0 { TakeBitsExtends(t.rest, more, 8); }
    if t.value == 1 { TakeBitsExtends(t.rest, more, 16); }
  }

  lemma {:induction false} DecodeFromExtends(last: Text, d: Dict, bits: seq<bool>, more: seq<bool>)
    requires d.numBits > 0 && DecodeFrom(last, d, bits).status != Panicked
    ensures DecodeFrom(last, d, bits + more) == DecodeFrom(last, d, bits)
    decreases |bits|
  {
    var g := GetPhrase(last, d, bits);
    GetPhraseExtends(last, d, bits, more);
    if g.Phrase? {
      DecodeFromExtends(g.text, Append(g.dict, ConcatWithFirstRune(last, g.text)), g.rest, more);
    }
  }

  /** Unless the decoder runs off its input, more input does not change what it returns. */
  lemma DecodeStreamExtends(bits: seq<bool>, more: seq<bool>)
    requires DecodeStream(bits).status != Panicked
    ensures DecodeStream(bits + more) == DecodeStream(bits)
  {
    var g := GetPhrase([], INITIAL_DICT, bits);
    GetPhraseExtends([], INITIAL_DICT, bits, more);
    if g.Phrase? {
      DecodeFromExtends(g.text, Widen(g.dict), g.rest, more);
    }
  }

  // ---------- the imperative decoder ----------

  datatype Read<T> = Value(value: T) | IndexOutOfRange

  /** Offset of a reader position inside its character: 32 is the first bit, 1 the last. */
  function OffsetOf(position: nat): (k: nat)
    ensures k < 6
  {
    if position == 32 then 0 else if position == 16 then 1 else if position == 8 then 2
    else if position == 4 then 3 else if position == 2 then 4 else 5
  }

  lemma {:induction false} OneMoreBit(bits: seq<bool>, i: nat)
    requires i < |bits|
    ensures FromBits(bits[..i + 1]) == FromBits(bits[..i]) + (if bits[i] then Pow2(i) else 0)
    ensures bits[i..][0] == bits[i] && bits[i..][1..] == bits[i + 1..]
  {
    FromBitsSnoc(bits[..i], bits[i]);
    assert bits[..i + 1] == bits[..i] + [bits[i]];
  }

  class DataStruct {
    const input: seq<Byte>
    var val: nat
    var position: nat
    var index: nat
    var dictionary: seq<Text>
    var enlargeIn: int
    var numBits: nat

    ghost predicate Valid()
      reads this
    {
      && 1 <= index <= |input|
      && position in {32, 16, 8, 4, 2, 1}
      && val == BaseValue(input[index - 1])
    }

    /** Number of bits already used. */
    ghost function Used(): (n: nat)
      reads this
      requires Valid()
      ensures n < 6 * |input|
    {
      6 * (index - 1) + OffsetOf(position)
    }

    ghost function Rest(): (r: seq<bool>)
      reads this
      requires Valid()
      ensures |r| == 6 * |input| - Used()
    {
      Stream(input)[Used()..]
    }

    ghost function D(): Dict
      reads this
    {
      Dict(dictionary, enlargeIn, numBits)
    }

    constructor (input: seq<Byte>)
      requires input != []
      ensures Valid() && this.input == input && Rest() == Stream(input) && D() == INITIAL_DICT
    {
      this.input := input;
      val, position, index := BaseValue(input[0]), 32, 1;
      dictionary, enlargeIn, numBits := INITIAL_DICT.entries, 5, 2;
    }

    lemma CurrentBit()
      requires Valid()
      ensures Rest()[0] <==> val / position % 2 == 1
    {
      assert Used() / 6 == index - 1 && Used() % 6 == OffsetOf(position);
      assert Weight(0) == 32 && Weight(1) == 16 && Weight(2) == 8;
      assert Weight(3) == 4 && Weight(4) == 2 && Weight(5) == 1;
      assert position == Weight(OffsetOf(position));
    }

    /** One turn of the reading loop: use the current bit and move on. */
    method NextBit() returns (r: Read<bool>)
      requires Valid()
      modifies this`val, this`position, this`index
      ensures r.IndexOutOfRange? <==> old(|Rest()|) == 1
      ensures r.Value? ==> Valid() && r.value == old(Rest())[0] && Rest() == old(Rest())[1..]
    {
      CurrentBit();
      var respB := val / position % 2;
      position := position / 2;
      if position == 0 {
        position := 32;
        if index >= |input| { return IndexOutOfRange; }
        val := BaseValue(input[index]);
        index := index + 1;
      }
      return Value(respB > 0);
    }

    method ReadBits(nb: nat) returns (r: Read<nat>)
      requires Valid()
      modifies this`val, this`position, this`index
      ensures match TakeBits(old(Rest()), nb)
              case Short => r == IndexOutOfRange
              case Bits(v, rest) => r == Value(v) && Valid() && Rest() == rest
    {
      var result, power := 0, 1;
      ghost var bits := Rest();
      for i := 0 to nb
        invariant Valid() && i < |bits| && Rest() == bits[i..]
        invariant power == Pow2(i) && result == FromBits(bits[..i])
      {
        var b := NextBit();
        if b.IndexOutOfRange? { return IndexOutOfRange; }
        OneMoreBit(bits, i);
        if b.value { result := result + power; }
        power := power * 2;
      }
      return Value(result);
    }

    method AppendValue(str: Text)
      modifies this`dictionary, this`enlargeIn, this`numBits
      ensures D() == Append(old(D()), str)
    {
      dictionary := dictionary + [str];
      enlargeIn := enlargeIn - 1;
      if enlargeIn == 0 {
        enlargeIn := Pow2(numBits);
        numBits := numBits + 1;
      }
    }

    /** The literal branches: a character of nb bits, which also enters the dictionary. */
    method ReadLiteral(nb: nat) returns (str: Text, ok: bool)
      requires Valid() && nb <= 16
      modifies this
      ensures var g := GetLiteral(old(D()), old(Rest()), nb);
              if ok then Valid() && g == Phrase(str, D(), Rest()) else g.OutOfRange?
    {
      TakeBound(Rest(), nb);
      var v := ReadBits(nb);
      if v.IndexOutOfRange? { return [], false; }
      str, ok := [RuneOf(v.value)], true;
      AppendValue(str);
    }

    method GetString(last: Text) returns (str: Text, stop: Got)
      requires Valid()
      modifies this
      ensures var g := GetPhrase(last, old(D()), old(Rest()));
              if g.Phrase? then stop.Phrase? && str == g.text && Valid() && D() == g.dict && Rest() == g.rest
              else stop == g
    {
      str, stop := [], Phrase([], INITIAL_DICT, []);
      var ok := true;
      var c := ReadBits(numBits);
      if c.IndexOutOfRange? { return [], OutOfRange; }
      if c.value == 0 {
        str, ok := ReadLiteral(8);
        if !ok { stop := OutOfRange; }
      } else if c.value == 1 {
        str, ok := ReadLiteral(16);
        if !ok { stop := OutOfRange; }
      } else if c.value == 2 {
        stop := End;
      } else if c.value < |dictionary| {
        str := dictionary[c.value];
      } else if c.value == |dictionary| {
        str := ConcatWithFirstRune(last, last);
      } else {
        stop := BadCode;
      }
    }
  }

  lemma PrependTwice(r: Text, s: Text, o: Outcome)
    ensures Prepend(r, Prepend(s, o)) == Prepend(r + s, o)
  {
    assert r + (s + o.text) == r + s + o.text;
  }

  /** One turn of the loop: decode a phrase and enter it into the dictionary. */
  method Turn(data: DataStruct, last: Text) returns (str: Text, stop: Got)
    requires data.Valid() && WellSized(data.D()) && data.numBits >= 3
    modifies data
    ensures var all := DecodeFrom(last, old(data.D()), old(data.Rest()));
            if stop.Phrase? then
              && data.Valid() && WellSized(data.D()) && data.numBits >= 3
              && |data.Rest()| + 3 <= old(|data.Rest()|)
              && all == Prepend(str, DecodeFrom(str, data.D(), data.Rest()))
            else all == Stop(stop)
  {
    TurnKeepsWellSized(last, data.D(), data.Rest());
    str, stop := data.GetString(last);
    if stop.Phrase? {
      data.AppendValue(ConcatWithFirstRune(last, str));
    }
  }

  /** The loop of the decoder. It computes DecodeFrom, ends on every input, and every turn but the
      last uses up three bits or more. */
  method DecodeLoop(data: DataStruct, first: Text) returns (o: Outcome, ghost turns: nat)
    requires data.Valid() && WellSized(data.D()) && data.numBits >= 3
    modifies data
    ensures o == DecodeFrom(first, old(data.D()), old(data.Rest()))
    ensures 3 * turns <= old(|data.Rest()|) + 2
  {
    ghost var goal, total := DecodeFrom(first, data.D(), data.Rest()), |data.Rest()|;
    turns := 0;
    var r: Text, last := [], first;
    while true
      invariant data.Valid() && WellSized(data.D()) && data.numBits >= 3
      invariant goal == Prepend(r, DecodeFrom(last, data.D(), data.Rest()))
      invariant 3 * turns + |data.Rest()| <= total
      decreases |data.Rest()|
    {
      var str, stop := Turn(data, last);
      turns := turns + 1;
      if !stop.Phrase? {
        return Prepend(r, Stop(stop)), turns;
      }
      PrependTwice(r, str, DecodeFrom(str, data.D(), data.Rest()));
      r := r + str;
      last := str;
    }
  }

  /** The first code has two bits, the ones after it three. */
  method FirstCode(data: DataStruct) returns (str: Text, stop: Got)
    requires data.Valid() && data.D() == INITIAL_DICT
    modifies data
    ensures var g := GetPhrase([], INITIAL_DICT, old(data.Rest()));
            if g.Phrase? then
              && stop.Phrase? && str == g.text
              && data.Valid() && data.D() == Widen(g.dict) && data.Rest() == g.rest
              && WellSized(data.D()) && data.numBits == 3 && |data.Rest()| + 2 <= old(|data.Rest()|)
            else stop == g
  {
    FirstCodeWellSized(data.Rest());
    str, stop := data.GetString([]);
    if stop.Phrase? {
      data.numBits := data.numBits + 1;
    }
  }

  method DecompressFromEncodedUriComponent(input: seq<Byte>) returns (o: Outcome, ghost turns: nat)
    ensures o == Decode(input)
    ensures 3 * turns <= 6 * |input|
  {
    if input == [] { return Outcome([], InputEmpty), 0; }
    var data := new DataStruct(input);
    var result, stop := FirstCode(data);
    if !stop.Phrase? { return Stop(stop), 0; }
    o, turns := DecodeLoop(data, result);
    o := Prepend(result, o);
  }
}
