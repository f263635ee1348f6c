/** How the decompressor of internal/lzstring/lz.go ends, on every input: by the first code at which it cannot go on. */
module LZOutcomes {
  import opened LZBits
  import opened LZDecoder

  /** Before a code is read: the phrase before it, the dictionary, the bits left, and the text written so far. */
  datatype Point = Point(last: Text, dict: Dict, bits: seq<bool>, text: Text)

  datatype Reached = At(p: Point) | Stopped

  /** Where the loop is after n more turns. */
  function After(p: Point, n: nat): Reached
    decreases n
  {
    if n == 0 then At(p)
    else
      var g := GetPhrase(p.last, p.dict, p.bits);
      if !g.Phrase? then Stopped
      else After(Point(g.text, Append(g.dict, ConcatWithFirstRune(p.last, g.text)), g.rest, p.text + g.text), n - 1)
  }

  /** Where the decoder is before code n of its input, the first being code 0. */
  function PointAt(input: seq<Byte>, n: nat): Reached {
    var p := Point([], INITIAL_DICT, Stream(input), []);
    if n == 0 then At(p)
    else
      var g := GetPhrase(p.last, p.dict, p.bits);
      if g.Phrase? then After(Point(g.text, Widen(g.dict), g.rest, g.text), n - 1) else Stopped
  }

  /** More than n bits are left: reading the last one already loads the next character. */
  predicate CanRead(bits: seq<bool>, n: nat) {
    |bits| > n
  }

  /** The value of the code at a point. */
  function CodeAt(p: Point): nat
    requires CanRead(p.bits, p.dict.numBits)
  {
    FromBits(p.bits[..p.dict.numBits])
  }

  /** The code is the end marker. */
  predicate IsEnd(p: Point) {
    CanRead(p.bits, p.dict.numBits) && CodeAt(p) == 2
  }

  /** The code is larger than the dictionary. */
  predicate IsBad(p: Point) {
    CanRead(p.bits, p.dict.numBits) && CodeAt(p) > 2 && CodeAt(p) > |p.dict.entries|
  }

  /** The bits run out: in the code itself, or in the 8 or 16 bits of the character that follows the codes 0 and 1. */
  predicate RunsOut(p: Point) {
    || !CanRead(p.bits, p.dict.numBits)
    || (CodeAt(p) == 0 && !CanRead(p.bits, p.dict.numBits + 8))
    || (CodeAt(p) == 1 && !CanRead(p.bits, p.dict.numBits + 16))
  }

  /** What happens at a point that stops the decoder. */
  predicate StopsWith(p: Point, o: Outcome) {
    match o.status
    case Done => IsEnd(p) && o.text == p.text
    case BadEncoding => IsBad(p) && o.text == p.text
    case Panicked => RunsOut(p)
    case InputEmpty => false
  }

  lemma StepOutcome(p: Point)
    requires p.dict.numBits > 0
    ensures var g := GetPhrase(p.last, p.dict, p.bits);
            && (IsEnd(p) <==> g == End) && (IsBad(p) <==> g == BadCode) && (RunsOut(p) <==> g == OutOfRange)
            && (g.Phrase? ==> |g.rest| < |p.bits| && g.dict.numBits > 0)
  {
  }

  /** The rest of the loop, as a result for the whole input. */
  function Whole(p: Point): Outcome
    requires p.dict.numBits > 0
  {
    Prepend(p.text, DecodeFrom(p.last, p.dict, p.bits))
  }

  lemma {:induction false} LoopStops(p: Point) returns (n: nat)
    requires p.dict.numBits > 0
    ensures After(p, n).At? && StopsWith(After(p, n).p, Whole(p))
    decreases |p.bits|
  {
    StepOutcome(p);
    var g := GetPhrase(p.last, p.dict, p.bits);
    if g.Phrase? {
      var q := Point(g.text, Append(g.dict, ConcatWithFirstRune(p.last, g.text)), g.rest, p.text + g.text);
      PrependTwice(p.text, g.text, DecodeFrom(q.last, q.dict, q.bits));
      var m := LoopStops(q);
      n := m + 1;
    } else {
      n := 0;
    }
  }

  /** The point at which a decoder stops is its last one. */
  lemma {:induction false} NothingAfter(p: Point, n: nat, m: nat)
    requires p.dict.numBits > 0 && n < m && After(p, n).At?
    requires IsEnd(After(p, n).p) || IsBad(After(p, n).p) || RunsOut(After(p, n).p)
    ensures After(p, m).Stopped?
    decreases n
  {
    StepOutcome(p);
    var g := GetPhrase(p.last, p.dict, p.bits);
    if n > 0 {
      NothingAfter(Point(g.text, Append(g.dict, ConcatWithFirstRune(p.last, g.text)), g.rest, p.text + g.text),
                   n - 1, m - 1);
    }
  }

  ghost predicate Happens(input: seq<Byte>, what: Point -> bool) {
    exists n :: PointAt(input, n).At? && what(PointAt(input, n).p)
  }

  lemma {:induction false} PointIsLast(input: seq<Byte>, n: nat, m: nat)
    requires PointAt(input, n).At? && n < m
    requires IsEnd(PointAt(input, n).p) || IsBad(PointAt(input, n).p) || RunsOut(PointAt(input, n).p)
    ensures PointAt(input, m).Stopped?
  {
    var p := Point([], INITIAL_DICT, Stream(input), []);
    StepOutcome(p);
    var g := GetPhrase([], INITIAL_DICT, Stream(input));
    if n > 0 {
      NothingAfter(Point(g.text, Widen(g.dict), g.rest, g.text), n - 1, m - 1);
    }
  }

  /** The point at which the decoder of a non-empty input stops. */
  lemma {:induction false} DecodeStops(input: seq<Byte>) returns (n: nat)
    requires input != []
    ensures PointAt(input, n).At? && StopsWith(PointAt(input, n).p, Decode(input))
  {
    var p := Point([], INITIAL_DICT, Stream(input), []);
    StepOutcome(p);
    var g := GetPhrase([], INITIAL_DICT, Stream(input));
    if g.Phrase? {
      var k := LoopStops(Point(g.text, Widen(g.dict), g.rest, g.text));
      n := k + 1;
    } else {
      n := 0;
    }
  }

  lemma {:induction false} StopsThere(input: seq<Byte>, n: nat)
    requires input != [] && PointAt(input, n).At?
    requires IsEnd(PointAt(input, n).p) || IsBad(PointAt(input, n).p) || RunsOut(PointAt(input, n).p)
    ensures StopsWith(PointAt(input, n).p, Decode(input))
  {
    var m := DecodeStops(input);
    if n < m {
      PointIsLast(input, n, m);
    } else if m < n {
      PointIsLast(input, m, n);
    }
  }

  /** For every input: the empty one is an error of its own; otherwise the decoder succeeds if and only if it reads the
      end marker, reports a bad encoding if and only if it reads a code larger than the dictionary, and indexes past
      its input if and only if the bits run out. What it returns is the text written by then. */
  lemma {:induction false} DecodeEndsBy(input: seq<Byte>)
    ensures Decode(input).status == InputEmpty <==> input == []
    ensures input != [] ==>
              && (Decode(input).status == Done <==> Happens(input, IsEnd))
              && (Decode(input).status == BadEncoding <==> Happens(input, IsBad))
              && (Decode(input).status == Panicked <==> Happens(input, RunsOut))
    ensures forall n :: input != [] && PointAt(input, n).At?
                        && (IsEnd(PointAt(input, n).p) || IsBad(PointAt(input, n).p)) ==>
              Decode(input).text == PointAt(input, n).p.text
  {
    if input != [] {
      var m := DecodeStops(input);
      forall n | PointAt(input, n).At?
                 && (IsEnd(PointAt(input, n).p) || IsBad(PointAt(input, n).p) || RunsOut(PointAt(input, n).p))
        ensures StopsWith(PointAt(input, n).p, Decode(input))
      {
        StopsThere(input, n);
      }
    }
  }

  // ---------- characters outside the alphabet ----------

  predicate IsLetter(c: Byte) {
    'A' as int <= c <= 'Z' as int || 'a' as int <= c <= 'z' as int || '0' as int <= c <= '9' as int
    || c == '+' as int || c == '-' as int
  }

  /** The input with "A" for every byte that is not one of the 64 letters; "$", the table's 65th entry, is not. */
  function Lettered(input: seq<Byte>): (r: seq<Byte>)
    ensures |r| == |input|
    ensures forall i :: 0 <= i < |r| ==> r[i] == if IsLetter(input[i]) then input[i] else 'A' as int
  {
    seq(|input|, i requires 0 <= i < |input| => if IsLetter(input[i]) then input[i] else 'A' as int)
  }

  lemma NoBits(c: Byte, k: nat)
    requires !IsLetter(c) && k < 6
    ensures !BitOf(BaseValue(c), k) && !BitOf(BaseValue('A' as int), k)
  {
    assert Weight(0) == 32 && Weight(1) == 16 && Weight(2) == 8;
    assert Weight(3) == 4 && Weight(4) == 2 && Weight(5) == 1;
  }

  /** A byte outside the alphabet is never an error: it is read as "A". */
  lemma OtherBytesAreA(input: seq<Byte>)
    ensures Decode(input) == Decode(Lettered(input))
  {
    forall i | 0 <= i < 6 * |input| ensures Stream(input)[i] == Stream(Lettered(input))[i] {
      if !IsLetter(input[i / 6]) { NoBits(input[i / 6], i % 6); }
    }
    assert Stream(input) == Stream(Lettered(input));
  }
}
