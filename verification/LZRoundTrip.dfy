/** Decoding inverts the reference compressor. */
module LZRoundTrip {
  import opened LZBits
  import opened LZDecoder
  import opened LZCompressor

  /** The text as the decoder can represent it: every surrogate code unit becomes U+FFFD. */
  function Clean(s: Units): (r: Text)
    ensures |r| == |s| && forall i :: 0 <= i < |s| ==> r[i] == RuneOf(s[i])
  {
    seq(|s|, i requires 0 <= i < |s| => RuneOf(s[i]))
  }

  predicate HasSurrogate(s: Units) {
    exists i :: 0 <= i < |s| && 0xD800 <= s[i] < 0xE000
  }

  lemma CleanAppend(a: Units, b: Units)
    ensures Clean(a + b) == Clean(a) + Clean(b)
  {
  }

  /** m gives code i exactly to phrase number i of the list ps (numbers 0, 1 and 2 are reserved). */
  ghost predicate Numbers(m: map<Units, nat>, ps: seq<Units>) {
    && |ps| >= 3
    && (forall x :: x in m ==> 3 <= m[x] < |ps| && ps[m[x]] == x)
    && (forall i :: 3 <= i < |ps| ==> ps[i] in m && m[ps[i]] == i)
  }

  /** Every character of a phrase is itself a phrase. */
  ghost predicate Closed(m: map<Units, nat>) {
    forall x, k :: x in m && 0 <= k < |x| ==> [x[k]] in m
  }

  /** The compressor's phrase table. */
  ghost predicate Table(e: Enc, ps: seq<Units>) {
    Numbers(e.codes, ps) && |ps| == e.dictSize && Closed(e.codes)
  }

  /** The decoder's entries are the first phrases of the compressor. */
  ghost predicate SamePhrases(d: Dict, ps: seq<Units>) {
    && 3 <= |d.entries| <= |ps|
    && forall i :: 3 <= i < |d.entries| ==> d.entries[i] == Clean(ps[i])
  }

  /** How far the compressor's list is ahead of the decoder's: by the phrase made at the last
      emission, preceded by the current character when that one is new and not yet written. */
  ghost predicate Ahead(e: Enc, ps: seq<Units>, n: nat, last: Units)
    requires e.w != [] && n <= |ps|
  {
    if e.w in e.toCreate then
      && ps[n..] == [e.w, last + e.w[..1]]
      && |e.w| == 1 && e.toCreate == {e.w} && e.w[0] !in last
      && forall i :: 3 <= i < n ==> e.w[0] !in ps[i]
    else
      ps[n..] == [last + e.w[..1]] && e.toCreate == {}
  }

  ghost predicate SameWidth(e: Enc, d: Dict) {
    e.enlargeIn == d.enlargeIn && e.numBits == d.numBits && WellSized(d) && d.numBits >= 3
  }

  /** Compressor and decoder just after the decoder has produced `last` and before w is written. */
  ghost predicate InStep(e: Enc, ps: seq<Units>, d: Dict, last: Units) {
    && Table(e, ps) && e.w != [] && e.w in e.codes && last != []
    && SamePhrases(d, ps) && Ahead(e, ps, |d.entries|, last) && SameWidth(e, d)
  }

  lemma {:induction false} TakeWritten(v: nat, n: nat, rest: seq<bool>)
    requires v < Pow2(n) && n > 0 && rest != []
    ensures TakeBits(ToBits(v, n) + rest, n) == Bits(v, rest)
  {
    var bits := ToBits(v, n) + rest;
    FromBitsToBits(v, n);
    assert bits[..n] == ToBits(v, n) && bits[n..] == rest;
  }

  lemma {:induction false} SmallPow2(n: nat)
    requires n >= 2
    ensures Pow2(n) > 2
  {
    Pow2Monotone(2, n);
    assert Pow2(2) == 4;
  }

  /** A literal written with the marker 0 or 1 is read back as that character. */
  lemma {:induction false} LiteralDecodes(c: Unit, last: Text, d: Dict, rest: seq<bool>)
    requires d.numBits >= 2 && rest != []
    ensures var m, n := if c < 256 then 0 else 1, if c < 256 then 8 else 16;
            GetPhrase(last, d, ToBits(m, d.numBits) + ToBits(c, n) + rest)
            == Phrase([RuneOf(c)], Append(d, [RuneOf(c)]), rest)
  {
    var m, n := if c < 256 then 0 else 1, if c < 256 then 8 else 16;
    SmallPow2(d.numBits);
    assert ToBits(m, d.numBits) + ToBits(c, n) + rest == ToBits(m, d.numBits) + (ToBits(c, n) + rest);
    TakeWritten(m, d.numBits, ToBits(c, n) + rest);
    assert Pow2(8) == 256 && Pow2(16) == 256 * Pow2(8);
    TakeWritten(c, n, rest);
  }

  /** The end marker is recognised only when something follows it. */
  lemma EndDecodes(last: Text, d: Dict, rest: seq<bool>)
    requires d.numBits >= 2
    ensures GetPhrase(last, d, ToBits(2, d.numBits) + rest) == if rest != [] then End else OutOfRange
  {
    SmallPow2(d.numBits);
    if rest != [] { TakeWritten(2, d.numBits, rest); }
  }

  /** How decoding ends when pad follows the end marker. */
  function Ending(text: Text, pad: seq<bool>): Outcome {
    if pad != [] then Outcome(text, Done) else Outcome([], Panicked)
  }

  /** The decoder has caught up: its entries are all the phrases made so far, at the same width. */
  ghost predicate CaughtUp(e: Enc, ps: seq<Units>, d: Dict) {
    SamePhrases(d, ps) && |d.entries| == |ps| && SameWidth(AfterCode(e), d)
  }

  /** The entry the decoder makes after reading w is the phrase the compressor made before. */
  lemma EntryAfter(last: Units, w: Units)
    requires w != []
    ensures ConcatWithFirstRune(Clean(last), Clean(w)) == Clean(last + w[..1])
  {
  }

  lemma NewPhraseDecodes(e: Enc, ps: seq<Units>, d: Dict, last: Units, rest: seq<bool>)
    requires |e.w| == 1 && e.w in e.toCreate && SameWidth(e, d) && rest != []
    requires SamePhrases(d, ps) && ps[|d.entries|..] == [e.w, last + e.w[..1]]
    ensures GetPhrase(Clean(last), d, CodeBits(e) + rest) == Phrase(Clean(e.w), Append(d, Clean(e.w)), rest)
    ensures CaughtUp(e, ps, Append(Append(d, Clean(e.w)), Clean(last + e.w[..1])))
  {
    var n, x := |d.entries|, last + e.w[..1];
    assert ps[n] == ps[n..][0] && ps[n + 1] == ps[n..][1];
    LiteralDecodes(e.w[0], Clean(last), d, rest);
    assert Clean(e.w) == [RuneOf(e.w[0])];
  }

  /** A known phrase has a code the decoder knows, or the one it is about to assign. */
  lemma OldPhraseDecodes(e: Enc, ps: seq<Units>, d: Dict, last: Units, rest: seq<bool>, c: nat)
    requires e.w != [] && last != [] && e.w !in e.toCreate && SameWidth(e, d) && rest != []
    requires SamePhrases(d, ps) && ps[|d.entries|..] == [last + e.w[..1]]
    requires e.w in e.codes && e.codes[e.w] == c && 3 <= c < |ps| && ps[c] == e.w
    ensures GetPhrase(Clean(last), d, CodeBits(e) + rest) == Phrase(Clean(e.w), d, rest)
    ensures CaughtUp(e, ps, Append(d, Clean(last + e.w[..1])))
  {
    var n, x := |d.entries|, last + e.w[..1];
    assert ps[n] == ps[n..][0];
    TakeWritten(c, d.numBits, rest);
    if c == n {
      assert e.w[0] == last[0];
      EntryAfter(last, last);
    }
  }

  /** What the compressor writes for w, the decoder reads as w, including a code equal to the length
      of its dictionary; afterwards its entries are all the phrases the compressor has so far. */
  lemma PhraseDecodes(e: Enc, ps: seq<Units>, d: Dict, last: Units, rest: seq<bool>) returns (d': Dict)
    requires InStep(e, ps, d, last) && rest != []
    ensures CaughtUp(e, ps, d')
    ensures DecodeFrom(Clean(last), d, CodeBits(e) + rest)
            == Prepend(Clean(e.w), DecodeFrom(Clean(e.w), d', rest))
  {
    EntryAfter(last, e.w);
    if e.w in e.toCreate {
      NewPhraseDecodes(e, ps, d, last, rest);
    } else {
      OldPhraseDecodes(e, ps, d, last, rest, e.codes[e.w]);
    }
    d' := Append(if e.w in e.toCreate then Append(d, Clean(e.w)) else d, Clean(last + e.w[..1]));
  }

  /** Recording a phrase that has no code yet. */
  lemma RecordPhrase(m: map<Units, nat>, ps: seq<Units>, x: Units)
    requires Numbers(m, ps) && Closed(m) && x !in m
    requires forall k :: 0 <= k < |x| ==> [x[k]] in m || [x[k]] == x
    ensures Numbers(m[x := |ps|], ps + [x]) && Closed(m[x := |ps|])
  {
  }

  lemma NewCharacterIsFresh(e: Enc, ps: seq<Units>, c: Unit)
    requires Table(e, ps) && [c] !in e.codes
    ensures forall x :: x in e.codes ==> c !in x
    ensures forall i :: 3 <= i < |ps| ==> c !in ps[i]
  {
    forall x | x in e.codes ensures c !in x {
      assert forall k :: 0 <= k < |x| ==> [x[k]] in e.codes;
    }
  }

  lemma LearnKeepsTable(e: Enc, ps: seq<Units>, c: Unit) returns (ps': seq<Units>)
    requires Table(e, ps)
    ensures Table(Learn(e, c), ps') && [c] in Learn(e, c).codes
    ensures ps' == if [c] in e.codes then ps else ps + [[c]]
  {
    if [c] in e.codes {
      ps' := ps;
    } else {
      RecordPhrase(e.codes, ps, [c]);
      ps' := ps + [[c]];
    }
  }

  lemma LearnKeepsCode(e: Enc, c: Unit)
    requires e.w != [] && e.w in e.codes && e.toCreate <= {e.w}
    ensures var l := Learn(e, c);
            && l.w == e.w && CodeBits(l) == CodeBits(e)
            && AfterCode(l).enlargeIn == AfterCode(e).enlargeIn && AfterCode(l).numBits == AfterCode(e).numBits
            && AfterCode(l).toCreate == (if [c] in e.codes then {} else {[c]})
            && AfterCode(l).codes == l.codes && AfterCode(l).dictSize == l.dictSize
  {
  }

  /** When w cannot be extended by c, writing it and starting again at c keeps the two in step. */
  lemma EmissionKeepsStep(e: Enc, ps: seq<Units>, d': Dict, c: Unit) returns (ps': seq<Units>)
    requires Table(e, ps) && e.w != [] && e.w in e.codes && e.toCreate <= {e.w}
    requires e.w + [c] !in Learn(e, c).codes
    requires CaughtUp(e, ps, d')
    ensures InStep(NextPhrase(Learn(e, c), c), ps', d', e.w)
    ensures CodeBits(Learn(e, c)) == CodeBits(e)
  {
    var l, wc := Learn(e, c), e.w + [c];
    LearnKeepsCode(e, c);
    var e' := NextPhrase(l, c);
    assert SameWidth(e', d');
    ps' := TableAfter(e, ps, c);
    assert SamePhrases(d', ps');
  }

  lemma TableAfter(e: Enc, ps: seq<Units>, c: Unit) returns (ps': seq<Units>)
    requires Table(e, ps) && e.w != [] && e.w in e.codes && e.toCreate <= {e.w}
    requires e.w + [c] !in Learn(e, c).codes
    ensures var e' := NextPhrase(Learn(e, c), c);
            && Table(e', ps') && ps <= ps' && e'.w == [c] && [c] in e'.codes
            && Ahead(e', ps', |ps|, e.w)
  {
    var l, wc := Learn(e, c), e.w + [c];
    LearnKeepsCode(e, c);
    var learned := LearnKeepsTable(e, ps, c);
    assert forall k :: 0 <= k < |e.w| ==> [e.w[k]] in e.codes;
    assert forall k :: 0 <= k < |wc| ==> [wc[k]] in l.codes;
    RecordPhrase(l.codes, learned, wc);
    ps' := learned + [wc];
    assert [c][..1] == [c];
    if [c] !in e.codes {
      NewCharacterIsFresh(e, ps, c);
      assert ps' == ps + [[c], wc];
    } else {
      assert ps'[|ps|..] == [wc];
    }
  }

  /** A phrase whose first character has not been written yet is always written before it grows. */
  lemma PendingCannotGrow(e: Enc, ps: seq<Units>, d: Dict, last: Units, c: Unit)
    requires InStep(e, ps, d, last) && e.w in e.toCreate
    ensures e.w + [c] !in Learn(e, c).codes
  {
    var wc, n := e.w + [c], |d.entries|;
    assert ps[n] == ps[n..][0] && ps[n + 1] == ps[n..][1];
    assert wc[0] == e.w[0] && wc[0] in wc;
    assert ps[n + 1][0] == last[0] && last[0] in last;
    assert forall i :: 3 <= i < |ps| ==> ps[i] != wc;
  }

  lemma GrowthKeepsStep(e: Enc, ps: seq<Units>, d: Dict, last: Units, c: Unit)
    requires InStep(e, ps, d, last) && e.w + [c] in Learn(e, c).codes
    ensures Learn(e, c) == e && InStep(e.(w := e.w + [c]), ps, d, last)
  {
    var wc := e.w + [c];
    if e.w in e.toCreate {
      PendingCannotGrow(e, ps, d, last, c);
    }
    assert |wc| > 1 && wc in e.codes;
    assert wc[|e.w|] == c;
    assert wc[..1] == e.w[..1];
  }

  /** The last phrase and the end marker. */
  lemma {:induction false} LastPhraseDecodes(e: Enc, ps: seq<Units>, d: Dict, last: Units, pad: seq<bool>)
    requires InStep(e, ps, d, last)
    ensures DecodeFrom(Clean(last), d, CompressFrom(e, []) + pad) == Ending(Clean(e.w), pad)
  {
    var tail := ToBits(2, AfterCode(e).numBits) + pad;
    assert CompressFrom(e, []) + pad == CodeBits(e) + tail;
    var d' := PhraseDecodes(e, ps, d, last, tail);
    EndDecodes(Clean(e.w), d', pad);
  }

  /** Writing w because c cannot extend it. */
  lemma EmissionDecodes(e: Enc, ps: seq<Units>, d: Dict, last: Units, c: Unit, rest: seq<bool>)
    returns (ps': seq<Units>, d': Dict)
    requires InStep(e, ps, d, last) && e.w + [c] !in Learn(e, c).codes && rest != []
    ensures InStep(NextPhrase(Learn(e, c), c), ps', d', e.w)
    ensures DecodeFrom(Clean(last), d, CodeBits(Learn(e, c)) + rest)
            == Prepend(Clean(e.w), DecodeFrom(Clean(e.w), d', rest))
  {
    d' := PhraseDecodes(e, ps, d, last, rest);
    ps' := EmissionKeepsStep(e, ps, d', c);
  }

  /** One step of the compressor, as an equation on the bits it has still to write. */
  lemma CompressStep(e: Enc, s: Units, pad: seq<bool>) returns (rest: seq<bool>)
    requires s != [] && e.w != []
    ensures var l := Learn(e, s[0]);
            var grows := e.w + [s[0]] in l.codes;
            var next := if grows then l.(w := e.w + [s[0]]) else NextPhrase(l, s[0]);
            && rest == CompressFrom(next, s[1..]) + pad
            && CompressFrom(e, s) + pad == (if grows then [] else CodeBits(l)) + rest
  {
    var l := Learn(e, s[0]);
    if e.w + [s[0]] in l.codes {
      rest := CompressFrom(l.(w := e.w + [s[0]]), s[1..]) + pad;
      assert [] + rest == rest;
    } else {
      rest := CompressFrom(NextPhrase(l, s[0]), s[1..]) + pad;
    }
  }

  lemma Glue(w: Units, s: Units, pad: seq<bool>)
    requires s != []
    ensures Prepend(Clean(w), Ending(Clean([s[0]] + s[1..]), pad)) == Ending(Clean(w + s), pad)
    ensures w + [s[0]] + s[1..] == w + s
  {
    assert [s[0]] + s[1..] == s;
    CleanAppend(w, s);
  }

  lemma {:induction false} WritesSomething(e: Enc, s: Units)
    requires e.numBits > 0
    ensures CompressFrom(e, s) != []
    decreases |s|
  {
    if s != [] {
      var l := Learn(e, s[0]);
      if l.w + [s[0]] in l.codes { WritesSomething(l.(w := l.w + [s[0]]), s[1..]); }
    }
  }

  /** From any point in step, the decoder turns the rest of the compressed stream into the rest of
      the text and stops at the end marker, without error and without running off the input, provided
      something follows the marker. */
  lemma {:induction false} StreamDecodes(e: Enc, ps: seq<Units>, d: Dict, last: Units, s: Units, pad: seq<bool>)
    requires InStep(e, ps, d, last)
    ensures DecodeFrom(Clean(last), d, CompressFrom(e, s) + pad) == Ending(Clean(e.w + s), pad)
    decreases |s|
  {
    if s == [] {
      LastPhraseDecodes(e, ps, d, last, pad);
      assert e.w + s == e.w;
    } else {
      Glue(e.w, s, pad);
      var rest := CompressStep(e, s, pad);
      if e.w + [s[0]] in Learn(e, s[0]).codes {
        GrowthKeepsStep(e, ps, d, last, s[0]);
        StreamDecodes(e.(w := e.w + [s[0]]), ps, d, last, s[1..], pad);
      } else {
        WritesSomething(NextPhrase(Learn(e, s[0]), s[0]), s[1..]);
        var ps', d' := EmissionDecodes(e, ps, d, last, s[0], rest);
        StreamDecodes(NextPhrase(Learn(e, s[0]), s[0]), ps', d', e.w, s[1..], pad);
      }
    }
  }

  /** The compressor once it holds the first character. */
  function FirstEnc(c: Unit): Enc {
    Enc(map[[c] := 3], {[c]}, [c], 2, 2, 4)
  }

  lemma {:induction false} FirstStep(s: Units)
    requires s != []
    ensures CompressFrom(INITIAL_ENC, s) == CompressFrom(FirstEnc(s[0]), s[1..])
  {
    assert [] + [s[0]] == [s[0]];
    assert Learn(INITIAL_ENC, s[0]).(w := [s[0]]) == FirstEnc(s[0]);
  }

  /** The first phrase is one literal, written and read with two bits; the decoder then widens. */
  lemma FirstLiteral(c: Unit, rest: seq<bool>) returns (d: Dict, ps: seq<Units>)
    requires rest != []
    ensures GetPhrase([], INITIAL_DICT, CodeBits(FirstEnc(c)) + rest)
            == Phrase(Clean([c]), Append(INITIAL_DICT, Clean([c])), rest)
    ensures d == Widen(Append(INITIAL_DICT, Clean([c])))
    ensures Table(FirstEnc(c), ps) && CaughtUp(FirstEnc(c), ps, d)
  {
    LiteralDecodes(c, [], INITIAL_DICT, rest);
    assert Clean([c]) == [RuneOf(c)];
    d := Widen(Append(INITIAL_DICT, Clean([c])));
    ps := [[], [], [], [c]];
    assert Pow2(3) == 8 && Pow2(2) == 4;
    assert forall x, k :: x in FirstEnc(c).codes && 0 <= k < |x| ==> [x[k]] == x;
  }

  lemma {:induction false} FirstPhraseDecodes(c: Unit, s: Units, pad: seq<bool>)
    ensures var g := GetPhrase([], INITIAL_DICT, CompressFrom(FirstEnc(c), s) + pad);
            && g.Phrase? && g.text == Clean([c])
            && DecodeFrom(g.text, Widen(g.dict), g.rest) == Ending(Clean(s), pad)
  {
    var e := FirstEnc(c);
    if s == [] {
      var tail := ToBits(2, 3) + pad;
      assert Pow2(2) == 4;
      assert CompressFrom(e, s) + pad == CodeBits(e) + tail;
      var d, ps := FirstLiteral(c, tail);
      EndDecodes(Clean([c]), d, pad);
    } else {
      assert e.w + [s[0]] !in Learn(e, s[0]).codes;
      var rest := CompressStep(e, s, pad);
      WritesSomething(NextPhrase(Learn(e, s[0]), s[0]), s[1..]);
      var d, ps := FirstLiteral(c, rest);
      var ps' := EmissionKeepsStep(e, ps, d, s[0]);
      StreamDecodes(NextPhrase(Learn(e, s[0]), s[0]), ps', d, e.w, s[1..], pad);
      assert [s[0]] + s[1..] == s;
    }
  }

  lemma {:induction false} CompressedStreamDecodes(s: Units, pad: seq<bool>)
    ensures DecodeStream(CompressFrom(INITIAL_ENC, s) + pad) == Ending(Clean(s), pad)
  {
    if s == [] {
      EndDecodes([], INITIAL_DICT, pad);
    } else {
      FirstStep(s);
      FirstPhraseDecodes(s[0], s[1..], pad);
      CleanAppend([s[0]], s[1..]);
      assert [s[0]] + s[1..] == s;
    }
  }

  /** The main result, on every text: decoding the compressed text succeeds and gives the text back
      with its surrogates replaced. */
  lemma DecodeInvertsCompress(s: Units)
    ensures Decode(Compress(s)) == Outcome(Clean(s), Done) && |Decode(Compress(s)).text| == |s|
    ensures forall i :: 0 <= i < |s| ==>
              Decode(Compress(s)).text[i] == if 0xD800 <= s[i] <= 0xDFFF then 0xFFFD else s[i]
  {
    var bits := CompressFrom(INITIAL_ENC, s);
    StreamOfPack(bits);
    CompressedStreamDecodes(s, Padding(bits));
  }

  /** Whatever follows a compressed text is ignored. */
  lemma TrailingInputIgnored(s: Units, more: seq<Byte>)
    ensures Decode(Compress(s) + more) == Outcome(Clean(s), Done)
  {
    DecodeInvertsCompress(s);
    StreamAppend(Compress(s), more);
    DecodeStreamExtends(Stream(Compress(s)), Stream(more));
  }

  /** Dropping a character drops all of the padding. */
  lemma PartOfStream(whole: seq<Byte>, n: nat, bits: seq<bool>, pad: seq<bool>) returns (more: seq<bool>)
    requires Stream(whole) == bits + pad && |pad| <= 6 && n < |whole|
    ensures bits == Stream(whole[..n]) + more
  {
    var part := Stream(whole[..n]);
    StreamAppend(whole[..n], whole[n..]);
    assert whole == whole[..n] + whole[n..];
    assert part == (bits + pad)[..|part|] == bits[..|part|];
    more := bits[|part|..];
  }

  /** A compressed text of which characters at the end are missing, but not all, makes the decoder run
      off its input: Go panics. The error for an unexpected end is never returned. */
  lemma TruncatedInputPanics(s: Units, n: nat)
    requires 0 < n < |Compress(s)|
    ensures Decode(Compress(s)[..n]).status == Panicked
  {
    var bits := CompressFrom(INITIAL_ENC, s);
    StreamOfPack(bits);
    var more := PartOfStream(Compress(s), n, bits, Padding(bits));
    CompressedStreamDecodes(s, []);
    assert bits + [] == bits;
    TooShortPanics(Compress(s)[..n], more);
  }

  lemma TooShortPanics(input: seq<Byte>, more: seq<bool>)
    requires input != [] && DecodeStream(Stream(input) + more).status == Panicked
    ensures Decode(input).status == Panicked
  {
    if DecodeStream(Stream(input)).status != Panicked {
      DecodeStreamExtends(Stream(input), more);
    }
  }

  /** So of the non-empty beginnings of a compressed text exactly the proper ones make it panic. */
  lemma PrefixPanicsWhen(s: Units, n: nat)
    requires 0 < n <= |Compress(s)|
    ensures Decode(Compress(s)[..n]).status == Panicked <==> n < |Compress(s)|
  {
    if n < |Compress(s)| {
      TruncatedInputPanics(s, n);
    } else {
      DecodeInvertsCompress(s);
      assert Compress(s)[..n] == Compress(s);
    }
  }

  /** Exactly the texts without surrogate code units survive the round trip; no text makes the
      decoder fail. */
  lemma RoundTrip(s: Units)
    ensures Decode(Compress(s)) == Outcome(s, Done) <==> !HasSurrogate(s)
  {
    DecodeInvertsCompress(s);
    forall i | 0 <= i < |s| && 0xD800 <= s[i] < 0xE000 ensures Clean(s) != s {
      if s[i] == REPLACEMENT { assert false; }
      assert Clean(s)[i] == REPLACEMENT;
    }
    if !HasSurrogate(s) {
      assert Clean(s) == s;
    }
  }
}
