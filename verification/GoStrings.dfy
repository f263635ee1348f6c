/** The string functions of Go's standard library the repository builds its text formats from. */
module GoStrings {
  import opened Options

  // ---------- decimal numbers ----------

  function Digit(d: nat): char
    requires d < 10
  {
    ('0' as int + d) as char
  }

  predicate IsDigit(c: char) {
    '0' <= c <= '9'
  }

  function Digits(n: nat): (s: string)
    ensures s != "" && forall i :: 0 <= i < |s| ==> IsDigit(s[i])
  {
    if n < 10 then [Digit(n)] else Digits(n / 10) + [Digit(n % 10)]
  }

  /** Value of a digit string, None when a character is not a digit. */
  function Number(s: string): Option<nat> {
    if s == "" then Some(0)
    else
      var c := s[|s| - 1];
      match Number(s[..|s| - 1])
      case Some(v) => if IsDigit(c) then Some(10 * v + (c as int - '0' as int)) else None
      case None => None
  }

  /** strconv.Itoa. */
  function Itoa(n: int): (s: string) {
    if n < 0 then "-" + Digits(-n) else Digits(n)
  }

  predicate FitsInt(n: int) {
    -0x8000_0000_0000_0000 <= n < 0x8000_0000_0000_0000
  }

  /** Go's int on a 64-bit machine. */
  type GoInt = n: int | FitsInt(n)

  /** strconv.Atoi: an optional sign and at least one digit, and a value that fits a 64-bit int. */
  function Atoi(s: string): Option<GoInt> {
    var signed := s != "" && (s[0] == '-' || s[0] == '+');
    var digits := if signed then s[1..] else s;
    if digits == "" then None
    else match Number(digits)
      case None => None
      case Some(v) =>
        var n := if signed && s[0] == '-' then -(v as int) else v as int;
        if FitsInt(n) then Some(n) else None
  }

  lemma {:induction false} NumberOfDigits(n: nat)
    ensures Number(Digits(n)) == Some(n)
  {
    if n < 10 {
      assert Digits(n)[..0] == "";
    } else {
      NumberOfDigits(n / 10);
      assert Digits(n)[..|Digits(n)| - 1] == Digits(n / 10);
    }
  }

  lemma {:induction false} AtoiDigits(n: nat)
    ensures Atoi(Digits(n)) == (if FitsInt(n) then Some(n) else None)
  {
    NumberOfDigits(n);
    assert IsDigit(Digits(n)[0]);
  }

  lemma {:induction false} AtoiMinus(n: int)
    requires n < 0
    ensures Atoi("-" + Digits(-n)) == (if FitsInt(n) then Some(n) else None)
  {
    var s := "-" + Digits(-n);
    NumberOfDigits(-n);
    assert s != "" && s[0] == '-' && s[1..] == Digits(-n);
  }

  /** Printing and parsing: every 64-bit number is read back, and no other printed number parses. */
  lemma AtoiItoa(n: int)
    ensures Atoi(Itoa(n)) == (if FitsInt(n) then Some(n) else None)
  {
    if n < 0 { AtoiMinus(n); } else { AtoiDigits(n); }
  }

  lemma ItoaInjective(m: int, n: int)
    requires Itoa(m) == Itoa(n)
    ensures m == n
  {
    NumberOfDigits(if m < 0 then -m else m);
    NumberOfDigits(if n < 0 then -n else n);
    assert m < 0 ==> Itoa(m)[0] == '-' && Itoa(m)[1..] == Digits(-m);
    assert n < 0 ==> Itoa(n)[0] == '-' && Itoa(n)[1..] == Digits(-n);
    assert m >= 0 ==> IsDigit(Itoa(m)[0]);
    assert n >= 0 ==> IsDigit(Itoa(n)[0]);
  }

  lemma ItoaCharacters(n: int)
    ensures Itoa(n) != ""
    ensures forall c :: c in Itoa(n) ==> IsDigit(c) || c == '-'
    ensures n >= 0 ==> '-' !in Itoa(n)
  {
  }

  /** Every number of a list in decimal. */
  function Itoas(vs: seq<GoInt>): (r: seq<string>)
    ensures |r| == |vs| && forall i :: 0 <= i < |r| ==> r[i] == Itoa(vs[i])
  {
    if vs == [] then [] else Itoas(vs[..|vs| - 1]) + [Itoa(vs[|vs| - 1])]
  }

  lemma {:induction false} ItoasShape(vs: seq<GoInt>)
    ensures forall s, c :: s in Itoas(vs) && c in s ==> IsDigit(c) || c == '-'
  {
    if vs != [] {
      ItoasShape(vs[..|vs| - 1]);
      ItoaCharacters(vs[|vs| - 1]);
    }
  }

  // ---------- cutting and joining ----------

  /** strings.Cut: what precedes and follows the first occurrence of sep. */
  function Cut(s: string, sep: string): (string, string, bool)
    requires sep != ""
  {
    if sep <= s then ("", s[|sep|..], true)
    else if s == "" then ("", "", false)
    else
      var (before, after, found) := Cut(s[1..], sep);
      ([s[0]] + before, after, found)
  }

  predicate Contains(s: string, sub: string) {
    sub <= s || (s != "" && Contains(s[1..], sub))
  }

  /** Cutting at the separator between a and b recovers them when sep does not begin inside a. */
  lemma {:induction false} CutJoined(a: string, sep: string, b: string)
    requires sep != "" && forall i :: 0 <= i < |a| ==> !(sep <= (a + sep + b)[i..])
    ensures Cut(a + sep + b, sep) == (a, b, true)
  {
    var s := a + sep + b;
    if a == "" {
      assert s == sep + b;
    } else {
      assert !(sep <= s[0..]) && s[0..] == s;
      var t := a[1..] + sep + b;
      assert s[1..] == t;
      forall i | 0 <= i < |a[1..]| ensures !(sep <= t[i..]) {
        assert t[i..] == s[i + 1..];
      }
      CutJoined(a[1..], sep, b);
      assert s[0] == a[0] && [a[0]] + a[1..] == a;
    }
  }

  lemma {:induction false} CutAtChar(a: string, c: char, b: string)
    requires c !in a
    ensures Cut(a + [c] + b, [c]) == (a, b, true)
  {
    forall i | 0 <= i < |a| ensures !([c] <= (a + [c] + b)[i..]) {
      assert (a + [c] + b)[i..][0] == a[i];
    }
    CutJoined(a, [c], b);
  }

  lemma {:induction false} CutAbsent(s: string, c: char)
    requires c !in s
    ensures Cut(s, [c]) == (s, "", false)
  {
    if s != "" {
      CutAbsent(s[1..], c);
      assert s == [s[0]] + s[1..];
    }
  }

  lemma ConsRejoins(c: char, before: string, sep: string, after: string)
    ensures [c] + (before + sep + after) == [c] + before + sep + after
  {
  }

  lemma {:induction false} CutRejoins(s: string, sep: string)
    requires sep != ""
    ensures var (before, after, found) := Cut(s, sep);
            if found then s == before + sep + after else before == s && after == ""
  {
    if sep <= s {
      assert s == "" + sep + s[|sep|..];
    } else if s != "" {
      CutRejoins(s[1..], sep);
      var (before, after, found) := Cut(s[1..], sep);
      assert s == [s[0]] + s[1..];
      ConsRejoins(s[0], before, sep, after);
    }
  }

  /** What Cut returns: the parts around the first occurrence, or all of s when there is none. */
  lemma {:induction false} CutParts(s: string, sep: string)
    requires sep != ""
    ensures var (before, after, found) := Cut(s, sep);
            && !Contains(before, sep)
            && (found ==> s == before + sep + after)
            && (!found ==> before == s && after == "" && !Contains(s, sep))
  {
    CutRejoins(s, sep);
    if !(sep <= s) && s != "" {
      CutParts(s[1..], sep);
      var before := Cut(s[1..], sep).0;
      var b := [s[0]] + before;
      assert b[1..] == before && b == s[..|b|];
    }
  }

  /** strings.Split at a single character. */
  function Split(s: string, c: char): (r: seq<string>)
    ensures r != [] && forall p :: p in r ==> c !in p
  {
    if s == "" then [""]
    else if s[0] == c then [""] + Split(s[1..], c)
    else
      var r := Split(s[1..], c);
      [[s[0]] + r[0]] + r[1..]
  }

  /** strings.Join. */
  function Join(parts: seq<string>, sep: string): string {
    if parts == [] then ""
    else if |parts| == 1 then parts[0]
    else parts[0] + sep + Join(parts[1..], sep)
  }

  lemma {:induction false} SplitCons(a: string, c: char, rest: string)
    requires c !in a
    ensures Split(a + [c] + rest, c) == [a] + Split(rest, c)
  {
    var s := a + [c] + rest;
    if a == "" {
      assert s[1..] == rest;
    } else {
      SplitCons(a[1..], c, rest);
      assert s[0] == a[0] && s[1..] == a[1..] + [c] + rest;
      assert [a[0]] + a[1..] == a;
    }
  }

  lemma {:induction false} SplitNone(a: string, c: char)
    requires c !in a
    ensures Split(a, c) == [a]
  {
    if a != "" {
      SplitNone(a[1..], c);
      assert [a[0]] + a[1..] == a;
    }
  }

  lemma {:induction false} SplitJoin(parts: seq<string>, c: char)
    requires parts != [] && forall p :: p in parts ==> c !in p
    ensures Split(Join(parts, [c]), c) == parts
  {
    if |parts| == 1 {
      SplitNone(parts[0], c);
    } else {
      SplitJoin(parts[1..], c);
      SplitCons(parts[0], c, Join(parts[1..], [c]));
      assert [parts[0]] + parts[1..] == parts;
    }
  }

  // ---------- trimming and fields ----------

  function TrimLeft(s: string, c: char): string {
    if s != "" && s[0] == c then TrimLeft(s[1..], c) else s
  }

  function TrimRight(s: string, c: char): string {
    if s != "" && s[|s| - 1] == c then TrimRight(s[..|s| - 1], c) else s
  }

  /** strings.Trim with a one-character cutset. */
  function Trim(s: string, c: char): string {
    TrimRight(TrimLeft(s, c), c)
  }

  function NonEmpty(parts: seq<string>): seq<string> {
    if parts == [] then []
    else if parts[0] == "" then NonEmpty(parts[1..])
    else [parts[0]] + NonEmpty(parts[1..])
  }

  /** strings.FieldsFunc for "is c": the maximal runs of other characters. */
  function Fields(s: string, c: char): seq<string> {
    NonEmpty(Split(s, c))
  }

  lemma {:induction false} NonEmptyCons(p: string, parts: seq<string>)
    ensures NonEmpty([p] + parts) == (if p == "" then [] else [p]) + NonEmpty(parts)
  {
    assert ([p] + parts)[1..] == parts;
  }

  lemma {:induction false} NonEmptyAppend(a: seq<string>, b: seq<string>)
    ensures NonEmpty(a + b) == NonEmpty(a) + NonEmpty(b)
  {
    if a == [] {
      assert a + b == b;
    } else {
      NonEmptyAppend(a[1..], b);
      NonEmptyCons(a[0], a[1..]);
      NonEmptyCons(a[0], a[1..] + b);
      assert a == [a[0]] + a[1..] && a + b == [a[0]] + (a[1..] + b);
    }
  }

  lemma {:induction false} SplitSnoc(s: string, c: char)
    ensures Split(s + [c], c) == Split(s, c) + [""]
  {
    if s == "" {
      assert s + [c] == [c] && [c][1..] == "";
    } else {
      SplitSnoc(s[1..], c);
      assert (s + [c])[1..] == s[1..] + [c];
    }
  }

  lemma {:induction false} FieldsTrimLeft(s: string, c: char)
    ensures Fields(TrimLeft(s, c), c) == Fields(s, c)
  {
    if s != "" && s[0] == c {
      FieldsTrimLeft(s[1..], c);
      NonEmptyAppend([""], Split(s[1..], c));
    }
  }

  lemma {:induction false} FieldsTrimRight(s: string, c: char)
    ensures Fields(TrimRight(s, c), c) == Fields(s, c)
  {
    if s != "" && s[|s| - 1] == c {
      var t := s[..|s| - 1];
      FieldsTrimRight(t, c);
      SplitSnoc(t, c);
      assert t + [c] == s;
      NonEmptyAppend(Split(t, c), [""]);
    }
  }

  /** Trimming separators first does not change the fields. */
  lemma FieldsTrim(s: string, c: char)
    ensures Fields(Trim(s, c), c) == Fields(s, c)
  {
    FieldsTrimLeft(s, c);
    FieldsTrimRight(TrimLeft(s, c), c);
  }
}
