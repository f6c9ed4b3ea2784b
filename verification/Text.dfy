/** The C string routines the request code uses: strstr, atoi, printf of numbers. */
module Text {
  import opened Messages

  const CR: Byte := 13
  const LF: Byte := 10
  const SPACE: Byte := 32

  function Ascii(s: string): (r: seq<Byte>)
    requires forall i | 0 <= i < |s| :: s[i] as int < 256
    ensures |r| == |s|
  {
    seq(|s|, i requires 0 <= i < |s| => s[i] as int)
  }

  /** The bytes before the first NUL. */
  function CString(s: seq<Byte>): (r: seq<Byte>)
    ensures r <= s && 0 !in r
    ensures |r| < |s| ==> s[|r|] == 0
  {
    if s == [] || s[0] == 0 then [] else [s[0]] + CString(s[1..])
  }

  lemma {:induction false} CStringOfText(a: seq<Byte>, b: seq<Byte>)
    requires 0 !in a
    ensures CString(a + b) == a + CString(b)
  {
    if a == [] {
      assert a + b == b;
    } else {
      assert (a + b)[1..] == a[1..] + b;
      CStringOfText(a[1..], b);
    }
  }

  // ---- strstr -----------------------------------------------------------------

  predicate At(hay: seq<Byte>, needle: seq<Byte>, i: int) {
    0 <= i && i + |needle| <= |hay| && hay[i..i + |needle|] == needle
  }

  /** The first place of needle in hay, or -1. */
  function Find(hay: seq<Byte>, needle: seq<Byte>): int {
    if At(hay, needle, 0) then 0
    else if hay == [] then -1
    else
      var r := Find(hay[1..], needle);
      if r < 0 then -1 else r + 1
  }

  lemma AtShifts(hay: seq<Byte>, needle: seq<Byte>, i: int)
    requires hay != [] && i >= 0
    ensures At(hay[1..], needle, i) <==> At(hay, needle, i + 1)
  {
    if i + 1 + |needle| <= |hay| {
      assert hay[1..][i..i + |needle|] == hay[i + 1..i + 1 + |needle|];
    }
  }

  /** Find is the least place there is. */
  lemma {:induction false} FindIsFirst(hay: seq<Byte>, needle: seq<Byte>)
    ensures var r := Find(hay, needle);
            if r < 0 then r == -1 && forall i :: !At(hay, needle, i)
            else At(hay, needle, r) && forall i | 0 <= i < r :: !At(hay, needle, i)
  {
    if !At(hay, needle, 0) && hay != [] {
      FindIsFirst(hay[1..], needle);
      var r := Find(hay[1..], needle);
      forall i | 0 < i && At(hay, needle, i)
        ensures At(hay[1..], needle, i - 1)
      {
        AtShifts(hay, needle, i - 1);
      }
      if r >= 0 {
        AtShifts(hay, needle, r);
      }
    }
  }

  lemma FindHits(hay: seq<Byte>, needle: seq<Byte>)
    requires Find(hay, needle) >= 0
    ensures At(hay, needle, Find(hay, needle))
  {
  }

  lemma FindUnique(hay: seq<Byte>, needle: seq<Byte>, i: int)
    requires At(hay, needle, i) && forall j | 0 <= j < i :: !At(hay, needle, j)
    ensures Find(hay, needle) == i
  {
    FindIsFirst(hay, needle);
  }

  /** More text after a match does not move it. */
  lemma FindExtends(hay: seq<Byte>, more: seq<Byte>, needle: seq<Byte>)
    requires Find(hay, needle) >= 0
    ensures Find(hay + more, needle) == Find(hay, needle)
  {
    var r := Find(hay, needle);
    FindIsFirst(hay, needle);
    assert (hay + more)[r..r + |needle|] == hay[r..r + |needle|];
    forall j | 0 <= j < r
      ensures !At(hay + more, needle, j)
    {
      if At(hay + more, needle, j) {
        assert (hay + more)[j..j + |needle|] == hay[j..j + |needle|];
        assert At(hay, needle, j);
      }
    }
    FindUnique(hay + more, needle, r);
  }

  /** Text in which the search's first byte does not occur is skipped. */
  lemma {:induction false} FindSkips(text: seq<Byte>, rest: seq<Byte>, needle: seq<Byte>)
    requires needle != [] && needle[0] !in text && Find(rest, needle) >= 0
    ensures Find(text + rest, needle) == |text| + Find(rest, needle)
  {
    if text == [] {
      assert text + rest == rest;
    } else {
      assert (text + rest)[0] == text[0] && text[0] in text;
      assert !At(text + rest, needle, 0);
      assert (text + rest)[1..] == text[1..] + rest;
      FindSkips(text[1..], rest, needle);
    }
  }

  /** A near miss, which starts like the search but differs at offset d, is skipped whole. */
  lemma FindSkipsMiss(text: seq<Byte>, rest: seq<Byte>, needle: seq<Byte>, d: nat)
    requires d < |text| && d < |needle| && text[d] != needle[d]
    requires needle[0] !in text[1..] && Find(rest, needle) >= 0
    ensures Find(text + rest, needle) == |text| + Find(rest, needle)
  {
    FindSkips(text[1..], rest, needle);
    assert (text + rest)[1..] == text[1..] + rest;
    assert |needle| <= |text + rest| ==> (text + rest)[0..|needle|][d] == text[d];
  }

  // ---- atoi and %d ---------------------------------------------------------

  predicate IsDigit(b: Byte) { 48 <= b <= 57 }

  function Digits(s: seq<Byte>, acc: nat): nat {
    if s == [] || !IsDigit(s[0]) then acc else Digits(s[1..], acc * 10 + (s[0] - 48))
  }

  predicate IsSpace(b: Byte) { b == 32 || 9 <= b <= 13 }

  function SkipBlanks(s: seq<Byte>): seq<Byte> {
    if s != [] && IsSpace(s[0]) then SkipBlanks(s[1..]) else s
  }

  /** The conversion of a long to int on the platforms glibc supports. */
  function ToInt32(x: int): int {
    (x + 0x8000_0000) % 0x1_0000_0000 - 0x8000_0000
  }

  function Atoi(s: seq<Byte>): int {
    var t := SkipBlanks(s);
    if t != [] && t[0] == 45 then ToInt32(0 - Digits(t[1..], 0))
    else if t != [] && t[0] == 43 then ToInt32(Digits(t[1..], 0))
    else ToInt32(Digits(t, 0))
  }

  function Decimal(n: nat): (r: seq<Byte>)
    ensures r != [] && forall i | 0 <= i < |r| :: IsDigit(r[i])
  {
    if n < 10 then [48 + n] else Decimal(n / 10) + [48 + n % 10]
  }

  lemma {:induction false} DigitsAppend(s: seq<Byte>, d: Byte, acc: nat)
    requires IsDigit(d) && forall i | 0 <= i < |s| :: IsDigit(s[i])
    ensures Digits(s + [d], acc) == Digits(s, acc) * 10 + (d - 48)
  {
    if s == [] {
      assert (s + [d])[1..] == [];
    } else {
      assert (s + [d])[1..] == s[1..] + [d];
      DigitsAppend(s[1..], d, acc * 10 + (s[0] - 48));
    }
  }

  lemma {:induction false} DigitsOfDecimal(n: nat)
    ensures Digits(Decimal(n), 0) == n
  {
    if n < 10 {
      assert Decimal(n)[1..] == [];
    } else {
      DigitsOfDecimal(n / 10);
      DigitsAppend(Decimal(n / 10), 48 + n % 10, 0);
    }
  }

  /** Printing a number and reading it back with atoi. */
  lemma AtoiOfDecimal(n: nat)
    requires n < 0x8000_0000
    ensures Atoi(Decimal(n)) == n
  {
    assert IsDigit(Decimal(n)[0]);
    DigitsOfDecimal(n);
  }

  function Power10(k: nat): nat {
    if k == 0 then 1 else 10 * Power10(k - 1)
  }

  lemma Powers()
    ensures Power10(2) == 100 && Power10(3) == 1000 && Power10(9) == 1_000_000_000
    ensures Power10(10) == 10_000_000_000 && Power10(19) == 10_000_000_000_000_000_000
  {
    assert Power10(4) == 10_000;
    assert Power10(8) == 100_000_000;
    assert Power10(12) == 1_000_000_000_000;
    assert Power10(16) == 10_000_000_000_000_000;
  }

  lemma {:induction false} DecimalLength(n: nat, k: nat)
    requires k >= 1 && n < Power10(k)
    ensures |Decimal(n)| <= k
  {
    if n >= 10 {
      assert Power10(1) == 10 * Power10(0);
      DecimalLength(n / 10, k - 1);
    }
  }

  // ---- what else atoi reads --------------------------------------------------

  /** Digits stop at the first byte that is none. */
  lemma {:induction false} DigitsStop(s: seq<Byte>, rest: seq<Byte>, acc: nat)
    requires (forall i | 0 <= i < |s| :: IsDigit(s[i])) && (rest == [] || !IsDigit(rest[0]))
    ensures Digits(s + rest, acc) == Digits(s, acc)
  {
    if s == [] {
      assert s + rest == rest;
    } else {
      assert (s + rest)[1..] == s[1..] + rest;
      DigitsStop(s[1..], rest, acc * 10 + (s[0] - 48));
    }
  }

  /** Blanks in front, an optional sign, digits, anything behind: the number with its sign. */
  lemma AtoiReads(blanks: seq<Byte>, sign: seq<Byte>, n: nat, rest: seq<Byte>)
    requires n < 0x8000_0000 && (forall i | 0 <= i < |blanks| :: blanks[i] == 32 || 9 <= blanks[i] <= 13)
    requires sign == [] || sign == [45] || sign == [43]
    requires rest == [] || rest[0] < 48 || rest[0] > 57
    ensures Atoi(blanks + (sign + (Decimal(n) + rest))) == (if sign == [45] then -1 else 1) * n
  {
    var number := sign + (Decimal(n) + rest);
    AtoiOfNumber(sign, n, rest);
    BlanksSkipped(blanks, number);
    BlanksSkipped([], number);
    assert [] + number == number;
  }

  lemma {:induction false} AtoiOfNumber(sign: seq<Byte>, n: nat, rest: seq<Byte>)
    requires n < 0x8000_0000 && (sign == [] || sign == [45] || sign == [43])
    requires rest == [] || rest[0] < 48 || rest[0] > 57
    ensures var number := sign + (Decimal(n) + rest);
            number != [] && !IsSpace(number[0]) && Atoi(number) == (if sign == [45] then -1 else 1) * n
  {
    var digits := Decimal(n) + rest;
    var number := sign + digits;
    assert IsDigit(Decimal(n)[0]) && digits[0] == Decimal(n)[0];
    DigitsStop(Decimal(n), rest, 0);
    DigitsOfDecimal(n);
    assert SkipBlanks(number) == number;
    if sign == [] {
      assert number == digits;
    } else {
      assert number[1..] == digits;
    }
  }

  /** Longer numbers wrap to 32 bits. */
  lemma AtoiWraps(n: nat)
    ensures -0x8000_0000 <= Atoi(Decimal(n)) < 0x8000_0000
    ensures (Atoi(Decimal(n)) - n) % 0x1_0000_0000 == 0
  {
    assert IsDigit(Decimal(n)[0]);
    DigitsOfDecimal(n);
  }

  lemma {:induction false} BlanksSkipped(blanks: seq<Byte>, text: seq<Byte>)
    requires (forall i | 0 <= i < |blanks| :: IsSpace(blanks[i])) && text != [] && !IsSpace(text[0])
    ensures SkipBlanks(blanks + text) == text
  {
    if blanks == [] {
      assert blanks + text == text;
    } else {
      assert (blanks + text)[1..] == blanks[1..] + text;
      BlanksSkipped(blanks[1..], text);
    }
  }

  /** A text without a number in front converts to 0. */
  lemma AtoiOfNoNumber(s: seq<Byte>)
    requires s == [] || (!IsSpace(s[0]) && !IsDigit(s[0]) && s[0] != 45 && s[0] != 43)
    ensures Atoi(s) == 0
  {
  }
}
