/** Node IDs as hexadecimal numbers, and the distance between them. */
module Distance {
  import opened Sequences

  // ---- Exclusive or ------------------------------------------------------------------------

  function Size(a: int): (n: nat) { if a >= 0 then a else -1 - a }

  predicate Base(a: int) { a == 0 || a == -1 }

  /** Of all integers, bit by bit; a negative number has infinitely many leading ones. */
  function Xor(a: int, b: int): (d: int)
    decreases Size(a) + Size(b)
  {
    if Base(a) && Base(b) then if a == b then 0 else -1
    else 2 * Xor(a / 2, b / 2) + if a % 2 == b % 2 then 0 else 1
  }

  lemma SizeHalves(a: int)
    ensures Size(a / 2) <= Size(a) && (!Base(a) ==> Size(a / 2) < Size(a))
  {
  }

  lemma XorOfBases(a: int, b: int, c: int)
    requires Base(a) && Base(b) && Base(c) && Xor(a, b) == Xor(a, c)
    ensures b == c
  {
  }

  /** The distance determines the other end. */
  lemma {:induction false} XorInjective(a: int, b: int, c: int)
    requires Xor(a, b) == Xor(a, c)
    ensures b == c
    decreases Size(a) + Size(b) + Size(c)
  {
    hide Xor, Size;
    if Base(a) && Base(b) && Base(c) {
      XorOfBases(a, b, c);
    } else {
      XorBits(a, b);
      XorBits(a, c);
      SizeHalves(a);
      SizeHalves(b);
      SizeHalves(c);
      XorInjective(a / 2, b / 2, c / 2);
    }
  }

  /** The definition, without its base case. */
  lemma XorBits(a: int, b: int)
    ensures Xor(a, b) / 2 == Xor(a / 2, b / 2) && (Xor(a, b) % 2 == 0 <==> a % 2 == b % 2)
  {
  }

  // ---- Numbers in text ---------------------------------------------------------------------

  function Digit(c: char): (d: Option<nat>)
    ensures d.Some? ==> d.value < 16
  {
    if '0' <= c <= '9' then Some(c as int - '0' as int)
    else if 'a' <= c <= 'f' then Some(c as int - 'a' as int + 10)
    else if 'A' <= c <= 'F' then Some(c as int - 'A' as int + 10)
    else None
  }

  function Digits(s: string): (n: Option<nat>) {
    if s == [] then Some(0)
    else
      var high := Digits(s[..|s| - 1]);
      var low := Digit(s[|s| - 1]);
      if high.None? || low.None? then None else Some(16 * high.value + low.value)
  }

  /** A hexadecimal number with an optional sign and at least one digit. */
  function Parse(s: string): (n: Option<int>) {
    if s == [] then None
    else
      var signed := s[0] == '+' || s[0] == '-';
      var digits := if signed then s[1..] else s;
      if digits == [] || Digits(digits).None? then None
      else
        var n: int := Digits(digits).value;
        Some(if s[0] == '-' then -n else n)
  }

  /** The digit of a number below 16, in lower case. */
  function Glyph(d: nat): (c: char)
    requires d < 16
  {
    "0123456789abcdef"[d]
  }

  /** A number as the table prints it: no sign, no leading zeros. */
  function Hex(n: nat): (s: string)
    ensures s != [] && forall i :: 0 <= i < |s| ==> s[i] in "0123456789abcdef"
  {
    if n < 16 then [Glyph(n)] else Hex(n / 16) + [Glyph(n % 16)]
  }

  lemma GlyphReads(d: nat)
    requires d < 16
    ensures Digit(Glyph(d)) == Some(d)
  {
  }

  lemma {:induction false} HexReads(n: nat)
    ensures Digits(Hex(n)) == Some(n)
  {
    hide Glyph, Digit;
    var s := Hex(n);
    GlyphReads(n % 16);
    if n < 16 {
      assert s[..0] == [] && Digits(s[..0]) == Some(0);
    } else {
      HexReads(n / 16);
      assert s[..|s| - 1] == Hex(n / 16);
    }
  }

  lemma NoSign(c: char)
    requires c in "0123456789abcdef"
    ensures c != '+' && c != '-'
  {
  }

  /** What is printed parses to the number, also behind a sign. */
  lemma HexParses(n: nat)
    ensures Parse(Hex(n)) == Some(n as int) && Parse("+" + Hex(n)) == Some(n as int)
    ensures Parse("-" + Hex(n)) == Some(-(n as int))
  {
    HexReads(n);
    var s := Hex(n);
    hide Hex, Digits, Glyph;
    NoSign(s[0]);
    assert ("+" + s)[1..] == s && ("-" + s)[1..] == s;
  }

  predicate IsHexDigit(c: char) { '0' <= c <= '9' || 'a' <= c <= 'f' || 'A' <= c <= 'F' }

  predicate AllHex(s: string) { forall i :: 0 <= i < |s| ==> IsHexDigit(s[i]) }

  lemma {:induction false} DigitsExactly(s: string)
    ensures Digits(s).Some? <==> AllHex(s)
  {
    if s != [] {
      var n := |s| - 1;
      DigitsExactly(s[..n]);
      assert Digit(s[n]).Some? <==> IsHexDigit(s[n]);
      hide Digit, IsHexDigit;
    }
  }

  /** A string is a number exactly when it is one or more hexadecimal digits, of either case, behind at most one
      sign. */
  lemma ParseExactly(s: string)
    ensures Parse(s).Some? <==>
              (s != [] && AllHex(s)) || (|s| > 1 && (s[0] == '+' || s[0] == '-') && AllHex(s[1..]))
  {
    hide Digits;
    DigitsExactly(s);
    if s != [] { DigitsExactly(s[1..]); }
  }
}
