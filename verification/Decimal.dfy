/** What `sprintf("%d")` prints and what `atoi` reads. */
module Decimal {

  predicate IsDigit(c: char) {
    '0' <= c <= '9'
  }

  predicate IsBlank(c: char) {
    c == ' ' || '\t' <= c <= '\r'
  }

  function Digit(d: nat): (c: char)
    requires d < 10
    ensures IsDigit(c) && DigitValue(c) == d
  {
    ('0' as int + d) as char
  }

  function DigitValue(c: char): nat
    requires IsDigit(c)
  {
    c as int - '0' as int
  }

  function PrintNat(n: nat): (t: string)
    ensures t != [] && forall i | 0 <= i < |t| :: IsDigit(t[i])
  {
    if n < 10 then [Digit(n)] else PrintNat(n / 10) + [Digit(n % 10)]
  }

  function Print(n: int): string {
    if n < 0 then "-" + PrintNat(-n) else PrintNat(n)
  }

  /** The digits at the start of `t`, read on from the value `acc`. */
  function ReadDigits(t: string, acc: nat): nat
    decreases t
  {
    if t == [] || !IsDigit(t[0]) then acc else ReadDigits(t[1..], acc * 10 + DigitValue(t[0]))
  }

  function SkipBlanks(t: string): (r: string)
    ensures |r| <= |t|
  {
    if t != [] && IsBlank(t[0]) then SkipBlanks(t[1..]) else t
  }

  /** The value `atoi` is asked for; the C library defines it when it fits an `int`. */
  function Atoi(t: string): int {
    var r := SkipBlanks(t);
    if r != [] && r[0] == '-' then 0 - ReadDigits(r[1..], 0)
    else if r != [] && r[0] == '+' then ReadDigits(r[1..], 0)
    else ReadDigits(r, 0)
  }

  predicate FitsInt(n: int) {
    -0x8000_0000 <= n < 0x8000_0000
  }

  predicate NoDigitFirst(t: string) {
    t == [] || !IsDigit(t[0])
  }

  predicate AllBlank(t: string) {
    forall i | 0 <= i < |t| :: IsBlank(t[i])
  }

  predicate AllDigits(t: string) {
    forall i | 0 <= i < |t| :: IsDigit(t[i])
  }

  lemma {:induction false} ReadDigitsConcat(d: string, t: string, acc: nat)
    requires AllDigits(d)
    ensures ReadDigits(d + t, acc) == ReadDigits(t, ReadDigits(d, acc))
    decreases d
  {
    if d == [] {
      assert d + t == t;
    } else {
      assert (d + t)[1..] == d[1..] + t;
      ReadDigitsConcat(d[1..], t, acc * 10 + DigitValue(d[0]));
    }
  }

  lemma {:induction false} ReadOfPrintNat(n: nat, tail: string)
    requires NoDigitFirst(tail)
    ensures ReadDigits(PrintNat(n) + tail, 0) == n
  {
    ReadDigitsConcat(PrintNat(n), tail, 0);
    ReadPrinted(n);
  }

  lemma {:induction false} ReadPrinted(n: nat)
    ensures ReadDigits(PrintNat(n), 0) == n
  {
    if n >= 10 {
      var last := [Digit(n % 10)];
      ReadDigitsConcat(PrintNat(n / 10), last, 0);
      ReadPrinted(n / 10);
      assert ReadDigits(last, n / 10) == ReadDigits(last[1..], n / 10 * 10 + n % 10);
    }
  }

  /** `atoi` undoes printing, whatever blanks come before and non-digits after. */
  lemma {:induction false} AtoiOfPrint(blanks: string, n: int, tail: string)
    requires AllBlank(blanks) && NoDigitFirst(tail)
    ensures Atoi(blanks + Print(n) + tail) == n
  {
    assert blanks + Print(n) + tail == blanks + (Print(n) + tail);
    SkipBlanksConcat(blanks, Print(n) + tail);
    AtoiOfPrinted(n, tail);
  }

  lemma {:induction false} AtoiOfPrinted(n: int, tail: string)
    requires NoDigitFirst(tail)
    ensures Atoi(Print(n) + tail) == n
  {
    AtoiOfDigits(if n < 0 then -n else n, tail);
  }

  lemma {:induction false} AtoiOfDigits(m: nat, tail: string)
    requires NoDigitFirst(tail)
    ensures Atoi(PrintNat(m) + tail) == m && Atoi("-" + PrintNat(m) + tail) == 0 - m
  {
    var d := PrintNat(m);
    var t, u := d + tail, "-" + d + tail;
    ReadOfPrintNat(m, tail);
    assert t[0] == d[0] && SkipBlanks(t) == t;
    assert u[0] == '-' && u[1..] == t && SkipBlanks(u) == u;
  }

  lemma {:induction false} SkipBlanksConcat(blanks: string, t: string)
    requires AllBlank(blanks) && t != [] && !IsBlank(t[0])
    ensures SkipBlanks(blanks + t) == t
    decreases blanks
  {
    if blanks == [] {
      assert blanks + t == t;
    } else {
      assert (blanks + t)[1..] == blanks[1..] + t;
      SkipBlanksConcat(blanks[1..], t);
    }
  }

  function Pow10(k: nat): (p: nat)
    ensures p > 0
  {
    if k == 0 then 1 else 10 * Pow10(k - 1)
  }

  /** What was read before counts as many tens as digits follow. */
  lemma {:induction false} ReadFrom(d: string, acc: nat)
    requires AllDigits(d)
    ensures ReadDigits(d, acc) == acc * Pow10(|d|) + ReadDigits(d, 0)
    decreases d
  {
    if d != [] {
      var v, p := DigitValue(d[0]), Pow10(|d| - 1);
      ReadFrom(d[1..], acc * 10 + v);
      ReadFrom(d[1..], v);
      Distributes(acc, v, p);
    }
  }

  lemma {:induction false} Distributes(acc: nat, v: nat, p: nat)
    ensures (acc * 10 + v) * p == acc * (10 * p) + v * p
  {}

  /** Without its first digit a number reads the same exactly when that digit is a zero. */
  lemma {:induction false} DroppedDigit(d: string)
    requires AllDigits(d) && d != []
    ensures ReadDigits(d[1..], 0) == ReadDigits(d, 0) <==> d[0] == '0'
  {
    ReadFrom(d[1..], DigitValue(d[0]));
    assert DigitValue(d[0]) * Pow10(|d| - 1) == 0 <==> DigitValue(d[0]) == 0;
  }

  lemma {:induction false} ReadBeforeTail(d: string, tail: string)
    requires AllDigits(d) && NoDigitFirst(tail)
    ensures ReadDigits(d + tail, 0) == ReadDigits(d, 0)
  {
    ReadDigitsConcat(d, tail, 0);
  }

  /** `atoi` of unsigned digits, whatever blanks come before and non-digits after. */
  lemma {:induction false} AtoiOfNumber(blanks: string, d: string, tail: string)
    requires AllBlank(blanks) && AllDigits(d) && d != [] && NoDigitFirst(tail)
    ensures Atoi(blanks + d + tail) == ReadDigits(d, 0)
  {
    assert blanks + d + tail == blanks + (d + tail);
    assert (d + tail)[0] == d[0];
    SkipBlanksConcat(blanks, d + tail);
    ReadBeforeTail(d, tail);
  }

  /** A sign of either kind before the digits counts, after any of the six white-space characters
      of C. */
  lemma {:induction false} AtoiOfSigned(blanks: string, d: string, tail: string)
    requires forall c | c in blanks :: c in " \t\n\U{B}\U{C}\r"
    requires AllDigits(d) && d != [] && NoDigitFirst(tail)
    ensures Atoi(blanks + "+" + d + tail) == ReadDigits(d, 0)
    ensures Atoi(blanks + "-" + d + tail) == 0 - ReadDigits(d, 0)
  {
    WhiteSpaceOfC(blanks);
    SignIsRead(blanks, "+", d, tail);
    SignIsRead(blanks, "-", d, tail);
  }

  lemma {:induction false} WhiteSpaceOfC(t: string)
    requires forall c | c in t :: c in " \t\n\U{B}\U{C}\r"
    ensures AllBlank(t)
  {
    assert forall i | 0 <= i < |t| :: t[i] in t;
  }

  lemma {:induction false} SignIsRead(blanks: string, sign: string, d: string, tail: string)
    requires AllBlank(blanks) && (sign == "+" || sign == "-")
    requires AllDigits(d) && d != [] && NoDigitFirst(tail)
    ensures Atoi(blanks + sign + d + tail) == if sign == "+" then ReadDigits(d, 0) else 0 - ReadDigits(d, 0)
  {
    var t := sign + (d + tail);
    assert blanks + sign + d + tail == blanks + t;
    assert t[0] == sign[0] && t[1..] == d + tail;
    SkipBlanksConcat(blanks, t);
    ReadBeforeTail(d, tail);
  }

  lemma {:induction false} AtoiOfBlanks(t: string)
    requires AllBlank(t)
    ensures Atoi(t) == 0
    decreases t
  {
    if t != [] {
      AtoiOfBlanks(t[1..]);
    }
  }

  /** Digits without a zero in front of others. */
  predicate IsNumeral(t: string) {
    t != [] && AllDigits(t) && (|t| > 1 ==> t[0] != '0')
  }

  lemma {:induction false} PrintNatIsNumeral(n: nat)
    ensures IsNumeral(PrintNat(n)) && (n > 0 ==> PrintNat(n)[0] != '0')
  {
    if n >= 10 {
      PrintNatIsNumeral(n / 10);
      assert PrintNat(n)[0] == PrintNat(n / 10)[0];
    }
  }

  lemma {:induction false} NumeralIsPrinted(t: string)
    requires IsNumeral(t)
    ensures PrintNat(ReadDigits(t, 0)) == t
    ensures t[0] != '0' ==> ReadDigits(t, 0) > 0
    decreases |t|
  {
    var k := |t| - 1;
    var front, v := t[..k], DigitValue(t[k]);
    LastDigit(t);
    assert Digit(v) == t[k];
    if k > 0 {
      assert front[0] == t[0];
      NumeralIsPrinted(front);
      var n := ReadDigits(front, 0);
      assert (10 * n + v) / 10 == n && (10 * n + v) % 10 == v;
      assert t == front + [t[k]];
    } else {
      assert front == [] && t == [t[k]];
    }
  }

  lemma {:induction false} LastDigit(t: string)
    requires AllDigits(t) && t != []
    ensures ReadDigits(t, 0) == 10 * ReadDigits(t[..|t| - 1], 0) + DigitValue(t[|t| - 1])
  {
    var front, last := t[..|t| - 1], t[|t| - 1..];
    assert t == front + last && last[1..] == [];
    ReadDigitsConcat(front, last, 0);
  }

  /** `sprintf("%d")` gives the one decimal numeral that stands for the number. */
  lemma {:induction false} PrintIsTheNumeral(n: int, t: string)
    ensures t == Print(n) <==>
              && Atoi(t) == n
              && if n < 0 then t != "" && t[0] == '-' && IsNumeral(t[1..]) else IsNumeral(t)
  {
    AtoiOfPrint("", n, "");
    assert "" + Print(n) + "" == Print(n);
    PrintNatIsNumeral(if n < 0 then -n else n);
    if n < 0 && t != "" && t[0] == '-' && IsNumeral(t[1..]) {
      NumeralIsPrinted(t[1..]);
      assert SkipBlanks(t) == t && t == "-" + t[1..];
    } else if n >= 0 && IsNumeral(t) {
      NumeralIsPrinted(t);
      assert SkipBlanks(t) == t;
    }
  }

  lemma {:induction false} PrintedChars(n: int)
    ensures forall i | 0 <= i < |Print(n)| :: IsDigit(Print(n)[i]) || Print(n)[i] == '-'
  {
    var m: nat := if n < 0 then -n else n;
    assert AllDigits(PrintNat(m));
  }

  /** A printed `int` and its NUL fit any buffer of at least twelve characters. */
  lemma {:induction false} PrintedIntIsShort(n: int)
    requires FitsInt(n)
    ensures |Print(n)| <= 11
  {
    PrintedLength(if n < 0 then -n else n, 10);
  }

  lemma {:induction false} PrintedLength(n: nat, digits: nat)
    requires digits > 0 && n < Pow10(digits)
    ensures |PrintNat(n)| <= digits
  {
    if n >= 10 {
      PrintedLength(n / 10, digits - 1);
    }
  }
}
