/** Low-byte-first loads and stores of fixed-width integers (`byte_order_generic.h` and
    `my_byteorder.h`).  Fixed-width C arithmetic is written out on integers: an unsigned sum
    or left shift is reduced modulo its width, a right shift is a quotient, a narrowing cast
    is a remainder, and a cast to a signed type reads the two's complement pattern. */
module LittleEndian {

  import opened Remainders
  import opened Widths

  // ---------------------------------------------------------------------------
  // What a run of bytes is worth: the reference that loads and stores are held to
  // ---------------------------------------------------------------------------

  function Pow256(n: nat): (p: nat)
    ensures p > 0
  {
    if n == 0 then 1 else 256 * Pow256(n - 1)
  }

  function Value(a: seq<uchar>): nat {
    if a == [] then 0 else a[0] + 256 * Value(a[1..])
  }

  /** The `n` low bytes of `x`, least significant first. */
  function Image(x: nat, n: nat): (b: seq<uchar>)
    ensures |b| == n
  {
    if n == 0 then [] else [x % 256] + Image(x / 256, n - 1)
  }

  lemma {:induction false} ImageOfValue(a: seq<uchar>)
    ensures Image(Value(a), |a|) == a
  {
    if a != [] {
      ImageOfValue(a[1..]);
      QuotientIsUnique(Value(a), 256, Value(a[1..]), a[0]);
    }
  }

  lemma {:induction false} ValueOfImage(x: nat, n: nat)
    ensures Value(Image(x, n)) == x % Pow256(n)
  {
    if n > 0 {
      var p := Pow256(n - 1);
      ValueOfImage(x / 256, n - 1);
      assert Image(x, n)[1..] == Image(x / 256, n - 1);
      ModByProduct(x, p);
    }
  }

  lemma {:induction false} ModByProduct(x: nat, p: nat)
    requires p > 0
    ensures x % (256 * p) == x % 256 + 256 * (x / 256 % p)
  {
    var q := x / 256 / p;
    var r := x % 256 + 256 * (x / 256 % p);
    assert x / 256 == p * q + x / 256 % p;
    assert 256 * (p * q) == (256 * p) * q;
    assert x == (256 * p) * q + r;
    QuotientIsUnique(x, 256 * p, q, r);
  }

  /** Bytes of the same length are worth the same only when they are the same. */
  lemma {:induction false} ValueIsInjective(a: seq<uchar>, b: seq<uchar>)
    requires |a| == |b|
    ensures Value(a) == Value(b) <==> a == b
  {
    ImageOfValue(a);
    ImageOfValue(b);
  }

  lemma {:induction false} ValueSplit(a: seq<uchar>, n: nat)
    requires n <= |a|
    ensures Value(a) == Value(a[..n]) + Pow256(n) * Value(a[n..])
  {
    if n == 0 {
      assert a[n..] == a;
    } else {
      var p, v := Pow256(n - 1), Value(a[n..]);
      ValueSplit(a[1..], n - 1);
      assert a[..n][1..] == a[1..][..n - 1];
      assert a[1..][n - 1..] == a[n..];
      MulAssociates(256, p, v);
      assert Value(a) == a[0] as int + 256 * (Value(a[..n][1..]) + p * v);
    }
  }

  lemma {:induction false} Pow256Table()
    ensures Pow256(1) == 0x100 && Pow256(2) == U16 && Pow256(3) == 0x100_0000
    ensures Pow256(4) == U32 && Pow256(5) == 0x100_0000_0000
    ensures Pow256(6) == 0x1_0000_0000_0000 && Pow256(8) == U64
  {
    assert Pow256(3) == 256 * Pow256(2);
    assert Pow256(5) == 256 * Pow256(4);
    assert Pow256(7) == 256 * Pow256(6);
  }

  lemma {:induction false} ShortValues(a: seq<uchar>)
    ensures |a| == 1 ==> Value(a) == a[0]
    ensures |a| == 2 ==> Value(a) == a[0] as int + 0x100 * a[1] as int
    ensures |a| == 3 ==> Value(a) == a[0] as int + 0x100 * a[1] as int + 0x1_0000 * a[2] as int
    ensures |a| == 4 ==>
              Value(a) == a[0] as int + 0x100 * a[1] as int + 0x1_0000 * a[2] as int + 0x100_0000 * a[3] as int
  {
    if 0 < |a| <= 4 {
      ShortValues(a[1..]);
    }
  }

  // ---------------------------------------------------------------------------
  // Loads
  // ---------------------------------------------------------------------------

  /** The two's complement reading of an unsigned pattern. */
  function ToInt16(x: uint16): int {
    if x < 0x8000 then x else x - U16
  }

  function ToInt32(x: uint32): int {
    if x < 0x8000_0000 then x else x - U32
  }

  function ToInt64(x: uint64): int {
    if x < 0x8000_0000_0000_0000 then x else x - U64
  }

  function Uint2korr(a: seq<uchar>): uint16
    requires |a| >= 2
  {
    (a[0] + a[1] * 0x100) % U16
  }

  function Sint2korr(a: seq<uchar>): int
    requires |a| >= 2
  {
    ToInt16((a[0] + a[1] * 0x100) % U16)
  }

  function Uint3korr(a: seq<uchar>): uint32
    requires |a| >= 3
  {
    (a[0] + a[1] * 0x100 % U32 + a[2] * 0x1_0000 % U32) % U32
  }

  function Uint4korr(a: seq<uchar>): uint32
    requires |a| >= 4
  {
    (a[0] + a[1] * 0x100 % U32 + a[2] * 0x1_0000 % U32 + a[3] * 0x100_0000 % U32) % U32
  }

  function Sint4korr(a: seq<uchar>): int
    requires |a| >= 4
  {
    ToInt32((a[0] + a[1] * 0x100 % U32 + a[2] * 0x1_0000 % U32 + a[3] * 0x100_0000 % U32) % U32)
  }

  function Uint5korr(a: seq<uchar>): uint64
    requires |a| >= 5
  {
    (Uint4korr(a) + a[4] * U32 % U64) % U64
  }

  function Uint6korr(a: seq<uchar>): uint64
    requires |a| >= 6
  {
    (Uint4korr(a) + (a[4] * U32 % U64 + a[5] * 0x100_0000_0000 % U64) % U64) % U64
  }

  function Uint8korr(a: seq<uchar>): uint64
    requires |a| >= 8
  {
    (Uint4korr(a) + Uint4korr(a[4..]) * U32 % U64) % U64
  }

  function Sint8korr(a: seq<uchar>): int
    requires |a| >= 8
  {
    ToInt64(Uint8korr(a))
  }

  /** Bitwise OR of two unsigned integers. */
  function BitOr(x: nat, y: nat): nat {
    if x == 0 then y
    else if y == 0 then x
    else 2 * BitOr(x / 2, y / 2) + if x % 2 == 1 || y % 2 == 1 then 1 else 0
  }

  /** Bitwise AND of two unsigned integers. */
  function BitAnd(x: nat, y: nat): nat {
    if x == 0 || y == 0 then 0
    else 2 * BitAnd(x / 2, y / 2) + if x % 2 == 1 && y % 2 == 1 then 1 else 0
  }

  function OrBytes(high: nat, a1: uchar, a0: uchar): nat {
    BitOr(BitOr(high, a1 * 0x100), a0)
  }

  function Sint3korr(a: seq<uchar>): int
    requires |a| >= 3
  {
    ToInt32(
      (if BitAnd(a[2], 128) != 0
       then OrBytes(BitOr(255 * 0x100_0000, a[2] as int * 0x1_0000), a[1], a[0])
       else OrBytes(a[2] as int * 0x1_0000, a[1], a[0])) % U32)
  }

  // Every load is worth exactly the bytes it reads.

  lemma {:induction false} Load2IsValue(a: seq<uchar>)
    requires |a| == 2
    ensures Uint2korr(a) == Value(a) && Sint2korr(a) == ToInt16(Value(a))
  {
    ShortValues(a);
  }

  lemma {:induction false} NoWrap4(a0: uchar, a1: uchar, a2: uchar, a3: uchar)
    ensures (a0 + a1 * 0x100 % U32 + a2 * 0x1_0000 % U32 + a3 * 0x100_0000 % U32) % U32
         == a0 as int + 0x100 * a1 as int + 0x1_0000 * a2 as int + 0x100_0000 * a3 as int
  {}

  lemma {:induction false} Load3IsValue(a: seq<uchar>)
    requires |a| == 3
    ensures Uint3korr(a) == Value(a)
  {
    ShortValues(a);
    NoWrap4(a[0], a[1], a[2], 0);
  }

  lemma {:induction false} Load4IsValue(a: seq<uchar>)
    requires |a| == 4
    ensures Uint4korr(a) == Value(a) && Sint4korr(a) == ToInt32(Value(a))
  {
    ShortValues(a);
    NoWrap4(a[0], a[1], a[2], a[3]);
  }

  lemma {:induction false} FirstWord(a: seq<uchar>)
    requires |a| >= 4
    ensures Value(a) == Uint4korr(a) as int + U32 * Value(a[4..])
  {
    var p := Pow256(4);
    ValueSplit(a, 4);
    Load4IsValue(a[..4]);
    assert p == U32 by {
      Pow256Table();
    }
  }

  // The sums and shifts of the wide loads stay below 2^64.

  lemma {:induction false} NoWrap8(lo: uint32, hi: uint32)
    ensures (lo + hi * U32 % U64) % U64 == lo as int + U32 * hi as int
  {}

  lemma {:induction false} NoWrap6(lo: uint32, b4: uchar, b5: uchar)
    ensures (lo + (b4 * U32 % U64 + b5 * 0x100_0000_0000 % U64) % U64) % U64
         == lo as int + U32 * (b4 as int + 0x100 * b5 as int)
  {}

  lemma {:induction false} Load5IsValue(a: seq<uchar>)
    requires |a| == 5
    ensures Uint5korr(a) == Value(a)
  {
    FirstWord(a);
    ShortValues(a[4..]);
    NoWrap8(Uint4korr(a), a[4]);
  }

  lemma {:induction false} Load6IsValue(a: seq<uchar>)
    requires |a| == 6
    ensures Uint6korr(a) == Value(a)
  {
    FirstWord(a);
    var h := a[4..];
    ShortValues(h);
    assert Value(h) == a[4] as int + 0x100 * a[5] as int;
    NoWrap6(Uint4korr(a), a[4], a[5]);
  }

  lemma {:induction false} Load8IsValue(a: seq<uchar>)
    requires |a| == 8
    ensures Uint8korr(a) == Value(a) && Sint8korr(a) == ToInt64(Value(a))
  {
    FirstWord(a);
    Load4IsValue(a[4..]);
    NoWrap8(Uint4korr(a), Uint4korr(a[4..]));
  }

  // `sint3korr` joins its bytes with OR; on bytes that do not overlap that is the sum.

  lemma {:induction false} OrOfDisjoint(x: nat, y: nat, k: nat)
    requires y < Pow2(k)
    ensures BitOr(x * Pow2(k), y) == x * Pow2(k) + y
  {
    if k == 0 {
      assert x * 1 == x;
    } else {
      var p := Pow2(k - 1);
      var z := x * p;
      assert x * Pow2(k) == 2 * z by {
        MulAssociates(2, x, p);
        MulAssociates(x, 2, p);
      }
      OrOfDisjoint(x, y / 2, k - 1);
      OrStep(z, y);
    }
  }

  lemma {:induction false} OrStep(z: nat, y: nat)
    requires BitOr(z, y / 2) == z + y / 2
    ensures BitOr(2 * z, y) == 2 * z + y
  {}

  function Pow2(k: nat): (p: nat)
    ensures p > 0
  {
    if k == 0 then 1 else 2 * Pow2(k - 1)
  }

  lemma {:induction false} Pow2Table()
    ensures Pow2(8) == 0x100 && Pow2(16) == 0x1_0000 && Pow2(24) == 0x100_0000
  {
    assert Pow2(4) == 16;
    assert Pow2(8) == 0x100;
    assert Pow2(12) == 0x1000;
    assert Pow2(16) == 0x1_0000;
    assert Pow2(20) == 0x10_0000;
  }

  lemma {:induction false} SignBit(b: uchar)
    ensures BitAnd(b, 128) != 0 <==> b >= 128
  {
    AndWithPower(b, 7);
    assert Pow2(3) == 8;
    assert Pow2(7) == 128;
  }

  lemma {:induction false} AndWithPower(x: nat, k: nat)
    ensures BitAnd(x, Pow2(k)) != 0 <==> x / Pow2(k) % 2 == 1
  {
    if k == 0 {
      assert BitAnd(x / 2, 0) == 0;
    } else {
      var p := Pow2(k - 1);
      AndWithPower(x / 2, k - 1);
      assert Pow2(k) == 2 * p;
      DivByTwice(x, p);
      AndWithEven(x, p);
    }
  }

  lemma {:induction false} AndWithEven(x: nat, p: nat)
    requires p > 0
    ensures BitAnd(x, 2 * p) == 2 * BitAnd(x / 2, p)
  {}

  lemma {:induction false} DivByTwice(x: nat, p: nat)
    requires p > 0
    ensures x / (2 * p) == x / 2 / p
  {
    var q, r := x / 2 / p, x / 2 % p;
    MulAssociates(2, p, q);
    QuotientIsUnique(x, 2 * p, q, 2 * r + x % 2);
  }

  lemma {:induction false} OrJoins(h: nat, a1: uchar, a0: uchar)
    ensures OrBytes(h * 0x1_0000, a1, a0) == h * 0x1_0000 + a1 as int * 0x100 + a0 as int
  {
    Pow2Table();
    OrOfDisjoint(h, a1 * 0x100, 16);
    OrOfDisjoint(h * 0x100 + a1 as int, a0, 8);
  }

  lemma {:induction false} OrSignBytes(a2: uchar)
    ensures BitOr(255 * 0x100_0000, a2 * 0x1_0000) == (0xFF00 + a2 as int) * 0x1_0000
  {
    Pow2Table();
    OrOfDisjoint(255, a2 * 0x1_0000, 24);
  }

  lemma {:induction false} SignedSum(a0: uchar, a1: uchar, h: nat)
    requires h < U16
    ensures ToInt32((h * 0x1_0000 + a1 as int * 0x100 + a0 as int) % U32)
         == h * 0x1_0000 + a1 as int * 0x100 + a0 as int - if h >= 0x8000 then U32 else 0
  {}

  lemma {:induction false} Sint3IsSum(a: seq<uchar>)
    requires |a| >= 3
    ensures Sint3korr(a) ==
            a[0] as int + 0x100 * a[1] as int + 0x1_0000 * a[2] as int - if a[2] >= 128 then 0x100_0000 else 0
  {
    var a0, a1, a2 := a[0], a[1], a[2];
    SignBit(a2);
    if a2 >= 128 {
      OrSignBytes(a2);
      OrJoins(0xFF00 + a2 as int, a1, a0);
      SignedSum(a0, a1, 0xFF00 + a2 as int);
    } else {
      OrJoins(a2, a1, a0);
      SignedSum(a0, a1, a2);
    }
  }

  /** `sint3korr` is the sign extension of the three bytes it reads: the four-byte load of
      the same bytes with the sign repeated above them. */
  lemma {:induction false} Sint3IsSignExtension(a: seq<uchar>, b: seq<uchar>)
    requires |a| == 3 && b == a + [if a[2] >= 128 then 255 else 0]
    ensures Sint3korr(a) == if Value(a) < 0x80_0000 then Value(a) else Value(a) - 0x100_0000
    ensures Sint3korr(a) == Sint4korr(b)
  {
    ShortValues(a);
    Sint3IsSum(a);
    Load4IsValue(b);
    FirstThree(a, b);
  }

  lemma {:induction false} FirstThree(a: seq<uchar>, b: seq<uchar>)
    requires |a| == 3 && |b| == 4 && b[..3] == a
    ensures Value(b) == Value(a) + 0x100_0000 * b[3] as int
  {
    ShortValues(a);
    ShortValues(b);
    assert b[0] == a[0] && b[1] == a[1] && b[2] == a[2];
  }

  // ---------------------------------------------------------------------------
  // Stores
  // ---------------------------------------------------------------------------

  /** `s` with the bytes `b` written from index `t` on. */
  function Patch(s: seq<uchar>, t: nat, b: seq<uchar>): (r: seq<uchar>)
    requires t + |b| <= |s|
    ensures |r| == |s|
  {
    s[..t] + b + s[t + |b|..]
  }

  lemma {:induction false} DivBy256(x: nat, p: nat)
    requires p > 0
    ensures x / (256 * p) == x / 256 / p
  {
    var q, r := x / 256 / p, x / 256 % p;
    MulAssociates(256, p, q);
    QuotientIsUnique(x, 256 * p, q, 256 * r + x % 256);
  }

  /** Byte `i` of the image is the quotient by 256^i, cast down to a byte. */
  lemma {:induction false} ImageAt(x: nat, n: nat, i: nat)
    requires i < n
    ensures Image(x, n)[i] == x / Pow256(i) % 256
  {
    if i > 0 {
      ImageAt(x / 256, n - 1, i - 1);
      DivBy256(x, Pow256(i - 1));
    }
  }

  /** The bytes a store of up to six bytes writes, shift by shift. */
  lemma {:induction false} ImageBytes(x: nat, n: nat)
    requires n <= 6
    ensures forall i | 0 <= i < n ::
              Image(x, n)[i] ==
              [x % 256, x / 0x100 % 256, x / 0x1_0000 % 256, x / 0x100_0000 % 256,
               x / U32 % 256, x / 0x100_0000_0000 % 256][i]
  {
    Pow256Table();
    forall i | 0 <= i < n
      ensures Image(x, n)[i] ==
              [x % 256, x / 0x100 % 256, x / 0x1_0000 % 256, x / 0x100_0000 % 256,
               x / U32 % 256, x / 0x100_0000_0000 % 256][i]
    {
      ImageAt(x, n, i);
    }
  }

  method Int2Store(buf: array<uchar>, at: nat, a: uint16)
    requires at + 2 <= buf.Length
    modifies buf
    ensures buf[..] == Patch(old(buf[..]), at, Image(a, 2))
  {
    var defTemp := a;
    buf[at] := defTemp % 256;
    buf[at + 1] := defTemp / 0x100 % 256;
    ImageBytes(a, 2);
  }

  method Int3Store(buf: array<uchar>, at: nat, a: uint32)
    requires at + 3 <= buf.Length
    modifies buf
    ensures buf[..] == Patch(old(buf[..]), at, Image(a, 3))
  {
    buf[at] := a % 256;
    buf[at + 1] := a / 0x100 % 256;
    buf[at + 2] := a / 0x1_0000 % 256;
    ImageBytes(a, 3);
  }

  method Int4Store(buf: array<uchar>, at: nat, a: uint32)
    requires at + 4 <= buf.Length
    modifies buf
    ensures buf[..] == Patch(old(buf[..]), at, Image(a, 4))
  {
    buf[at] := a % 256;
    buf[at + 1] := a / 0x100 % 256;
    buf[at + 2] := a / 0x1_0000 % 256;
    buf[at + 3] := a / 0x100_0000 % 256;
    ImageBytes(a, 4);
  }

  method Int5Store(buf: array<uchar>, at: nat, a: uint64)
    requires at + 5 <= buf.Length
    modifies buf
    ensures buf[..] == Patch(old(buf[..]), at, Image(a, 5))
  {
    buf[at] := a % 256;
    buf[at + 1] := a / 0x100 % 256;
    buf[at + 2] := a / 0x1_0000 % 256;
    buf[at + 3] := a / 0x100_0000 % 256;
    buf[at + 4] := a / U32 % 256;
    ImageBytes(a, 5);
  }

  method Int6Store(buf: array<uchar>, at: nat, a: uint64)
    requires at + 6 <= buf.Length
    modifies buf
    ensures buf[..] == Patch(old(buf[..]), at, Image(a, 6))
  {
    buf[at] := a % 256;
    buf[at + 1] := a / 0x100 % 256;
    buf[at + 2] := a / 0x1_0000 % 256;
    buf[at + 3] := a / 0x100_0000 % 256;
    buf[at + 4] := a / U32 % 256;
    buf[at + 5] := a / 0x100_0000_0000 % 256;
    ImageBytes(a, 6);
  }

  lemma {:induction false} TwoWords(x: uint64)
    ensures Image(x, 8) == Image(x % U32, 4) + Image(x / U32 % U32, 4)
  {
    var r, q := x % U32, x / U32 % U32;
    var lo, hi := Image(r, 4), Image(q, 4);
    assert x == r + U32 * q;
    assert Value(lo) == r && Value(hi) == q && Value(Image(x, 8)) == x by {
      Pow256Table();
      ShortImage(r, 4);
      ShortImage(q, 4);
      ShortImage(x, 8);
    }
    assert Value(lo + hi) == x by {
      ValueJoin(lo, hi);
    }
    ValueIsInjective(Image(x, 8), lo + hi);
  }

  lemma {:induction false} ShortImage(x: nat, n: nat)
    requires x < Pow256(n)
    ensures Value(Image(x, n)) == x
  {
    ValueOfImage(x, n);
    QuotientIsUnique(x, Pow256(n), 0, x);
  }

  lemma {:induction false} ValueJoin(lo: seq<uchar>, hi: seq<uchar>)
    requires |lo| == 4
    ensures Value(lo + hi) == Value(lo) + U32 * Value(hi)
  {
    FirstWord(lo + hi);
    assert (lo + hi)[..4] == lo && (lo + hi)[4..] == hi;
    Load4IsValue(lo);
  }

  method Int8Store(buf: array<uchar>, at: nat, a: uint64)
    requires at + 8 <= buf.Length
    modifies buf
    ensures buf[..] == Patch(old(buf[..]), at, Image(a, 8))
  {
    var defTemp := a % U32;
    var defTemp2 := a / U32 % U32;
    Int4Store(buf, at, defTemp);
    Int4Store(buf, at + 4, defTemp2);
    TwoWords(a);
  }

  // ---------------------------------------------------------------------------
  // Stores and loads undo each other
  // ---------------------------------------------------------------------------

  /** A load after the store of the same width gives the value modulo that width. */
  lemma {:induction false} LoadAfterStore(x: nat)
    ensures Uint2korr(Image(x, 2)) == x % U16
    ensures Uint3korr(Image(x, 3)) == x % 0x100_0000
    ensures Uint4korr(Image(x, 4)) == x % U32
    ensures Uint5korr(Image(x, 5)) == x % 0x100_0000_0000
    ensures Uint6korr(Image(x, 6)) == x % 0x1_0000_0000_0000
    ensures Uint8korr(Image(x, 8)) == x % U64
  {
    Pow256Table();
    Load2IsValue(Image(x, 2));
    ValueOfImage(x, 2);
    Load3IsValue(Image(x, 3));
    ValueOfImage(x, 3);
    Load4IsValue(Image(x, 4));
    ValueOfImage(x, 4);
    Load5IsValue(Image(x, 5));
    ValueOfImage(x, 5);
    Load6IsValue(Image(x, 6));
    ValueOfImage(x, 6);
    Load8IsValue(Image(x, 8));
    ValueOfImage(x, 8);
  }

  /** Storing a loaded value writes back the very bytes it was loaded from. */
  lemma {:induction false} StoreAfterLoad(a: seq<uchar>)
    ensures |a| == 2 ==> Image(Uint2korr(a), 2) == a
    ensures |a| == 3 ==> Image(Uint3korr(a), 3) == a
    ensures |a| == 4 ==> Image(Uint4korr(a), 4) == a
    ensures |a| == 5 ==> Image(Uint5korr(a), 5) == a
    ensures |a| == 6 ==> Image(Uint6korr(a), 6) == a
    ensures |a| == 8 ==> Image(Uint8korr(a), 8) == a
  {
    ImageOfValue(a);
    if |a| == 2 { Load2IsValue(a); }
    if |a| == 3 { Load3IsValue(a); }
    if |a| == 4 { Load4IsValue(a); }
    if |a| == 5 { Load5IsValue(a); }
    if |a| == 6 { Load6IsValue(a); }
    if |a| == 8 { Load8IsValue(a); }
  }

  /** Every 64-bit integer comes back from its eight bytes. */
  lemma {:induction false} SignedRoundTrip8(v: int)
    requires -0x8000_0000_0000_0000 <= v < 0x8000_0000_0000_0000
    ensures Sint8korr(Image(if v < 0 then v + U64 else v, 8)) == v
  {
    var x := if v < 0 then v + U64 else v;
    assert Value(Image(x, 8)) == x by {
      Pow256Table();
      ShortImage(x, 8);
    }
    Load8IsValue(Image(x, 8));
  }

  /** The unsigned pattern an `int` argument is converted to. */
  function AsUnsigned(v: int): nat
    requires -U32 <= v
  {
    if v < 0 then v + U32 else v
  }

  /** The signed loads undo the stores exactly on the integers of their width. */
  lemma {:induction false} SignedRoundTrip(v: int)
    requires -U32 <= v < U32
    ensures Sint2korr(Image(AsUnsigned(v), 2)) == v <==> -0x8000 <= v < 0x8000
    ensures Sint3korr(Image(AsUnsigned(v), 3)) == v <==> -0x80_0000 <= v < 0x80_0000
    ensures Sint4korr(Image(AsUnsigned(v), 4)) == v <==> -0x8000_0000 <= v < 0x8000_0000
  {
    Signed2(AsUnsigned(v));
    Signed3(AsUnsigned(v));
    Signed4(AsUnsigned(v));
    Wrapped(v);
  }

  lemma {:induction false} Wrapped(v: int)
    requires -U32 <= v < U32
    ensures ToInt16(AsUnsigned(v) % U16) == v <==> -0x8000 <= v < 0x8000
    ensures var w := AsUnsigned(v) % 0x100_0000;
            (if w < 0x80_0000 then w else w - 0x100_0000) == v <==> -0x80_0000 <= v < 0x80_0000
    ensures ToInt32(AsUnsigned(v) % U32) == v <==> -0x8000_0000 <= v < 0x8000_0000
  {}

  lemma {:induction false} Signed2(x: nat)
    ensures Sint2korr(Image(x, 2)) == ToInt16(x % U16)
  {
    Pow256Table();
    ValueOfImage(x, 2);
    Load2IsValue(Image(x, 2));
  }

  lemma {:induction false} Signed3(x: nat)
    ensures var v := x % 0x100_0000;
            Sint3korr(Image(x, 3)) == if v < 0x80_0000 then v else v - 0x100_0000
  {
    Pow256Table();
    ValueOfImage(x, 3);
    var b := Image(x, 3);
    Sint3IsSignExtension(b, b + [if b[2] >= 128 then 255 else 0]);
  }

  lemma {:induction false} Signed4(x: nat)
    ensures Sint4korr(Image(x, 4)) == ToInt32(x % U32)
  {
    Pow256Table();
    ValueOfImage(x, 4);
    Load4IsValue(Image(x, 4));
  }

  // ---------------------------------------------------------------------------
  // Records of fields stored back to back
  // ---------------------------------------------------------------------------

  datatype Field = Two(a2: uint16) | Four(a4: uint32) | Eight(a8: uint64)
  {
    function Width(): nat {
      match this case Two(_) => 2 case Four(_) => 4 case Eight(_) => 8
    }

    function Stored(): (b: seq<uchar>)
      ensures |b| == Width()
    {
      match this case Two(a) => Image(a, 2) case Four(a) => Image(a, 4) case Eight(a) => Image(a, 8)
    }
  }

  function TotalWidth(fs: seq<Field>): nat {
    if fs == [] then 0 else fs[0].Width() + TotalWidth(fs[1..])
  }

  /** Memory after the store function of each field has run, each right after the last. */
  function StoreAll(mem: seq<uchar>, t: nat, fs: seq<Field>): (r: seq<uchar>)
    requires t + TotalWidth(fs) <= |mem|
    ensures |r| == |mem|
    decreases fs
  {
    if fs == [] then mem
    else StoreAll(Patch(mem, t, fs[0].Stored()), t + fs[0].Width(), fs[1..])
  }

  /** The load of the same width as `like`, from index `t` of memory. */
  function LoadLike(mem: seq<uchar>, t: nat, like: Field): Field
    requires t + like.Width() <= |mem|
  {
    match like
    case Two(_) => Two(Uint2korr(mem[t..]))
    case Four(_) => Four(Uint4korr(mem[t..]))
    case Eight(_) => Eight(Uint8korr(mem[t..]))
  }

  function LoadAll(mem: seq<uchar>, t: nat, likes: seq<Field>): (r: seq<Field>)
    requires t + TotalWidth(likes) <= |mem|
    decreases likes
  {
    if likes == [] then []
    else [LoadLike(mem, t, likes[0])] + LoadAll(mem, t + likes[0].Width(), likes[1..])
  }

  predicate SameShape(fs: seq<Field>, gs: seq<Field>) {
    |fs| == |gs| && forall i | 0 <= i < |fs| :: fs[i].Width() == gs[i].Width()
  }

  /** Stores touch exactly the bytes of their own fields. */
  lemma {:induction false} StoreAllFrame(mem: seq<uchar>, t: nat, fs: seq<Field>)
    requires t + TotalWidth(fs) <= |mem|
    ensures var r := StoreAll(mem, t, fs); var e := t + TotalWidth(fs);
            r[..t] == mem[..t] && r[e..] == mem[e..]
    decreases fs
  {
    if fs != [] {
      var w := fs[0].Width();
      var m := Patch(mem, t, fs[0].Stored());
      StoreAllFrame(m, t + w, fs[1..]);
      var r := StoreAll(mem, t, fs);
      assert r[..t] == r[..t + w][..t] == m[..t + w][..t];
      var e := t + TotalWidth(fs);
      assert mem[e..] == mem[t + w..][e - t - w..] == m[t + w..][e - t - w..];
    }
  }

  lemma {:induction false} FieldIsExact(f: Field)
    ensures f.Two? ==> Uint2korr(f.Stored()) == f.a2
    ensures f.Four? ==> Uint4korr(f.Stored()) == f.a4
    ensures f.Eight? ==> Uint8korr(f.Stored()) == f.a8
  {
    Pow256Table();
    match f {
      case Two(a) =>
        ShortImage(a, 2);
        Load2IsValue(Image(a, 2));
      case Four(a) =>
        ShortImage(a, 4);
        Load4IsValue(Image(a, 4));
      case Eight(a) =>
        ShortImage(a, 8);
        Load8IsValue(Image(a, 8));
    }
  }

  lemma {:induction false} LoadOfStored(mem: seq<uchar>, t: nat, f: Field, like: Field)
    requires t + f.Width() <= |mem| && like.Width() == f.Width()
    requires mem[t..t + f.Width()] == f.Stored()
    ensures LoadLike(mem, t, like) == f
  {
    var b, m := f.Stored(), mem[t..];
    assert m[..|b|] == b;
    match f {
      case Two(a) =>
        assert Uint2korr(b) == a by { FieldIsExact(f); }
        assert Uint2korr(m) == Uint2korr(b) by { LoadPrefix(m, b); }
      case Four(a) =>
        assert Uint4korr(b) == a by { FieldIsExact(f); }
        assert Uint4korr(m) == Uint4korr(b) by { LoadPrefix(m, b); }
      case Eight(a) =>
        assert Uint8korr(b) == a by { FieldIsExact(f); }
        assert Uint8korr(m) == Uint8korr(b) by { LoadPrefix(m, b); }
    }
  }

  lemma {:induction false} LoadPrefix(a: seq<uchar>, b: seq<uchar>)
    requires b <= a
    ensures |b| == 2 ==> Uint2korr(a) == Uint2korr(b)
    ensures |b| == 4 ==> Uint4korr(a) == Uint4korr(b)
    ensures |b| == 8 ==> Uint8korr(a) == Uint8korr(b)
  {
    if |b| == 8 {
      var x, y := a[4..], b[4..];
      assert x[0] == y[0] && x[1] == y[1] && x[2] == y[2] && x[3] == y[3];
    }
  }

  /** Fields stored back to back read back, in order, as the values stored. */
  lemma {:induction false} FieldsRoundTrip(mem: seq<uchar>, t: nat, fs: seq<Field>, likes: seq<Field>)
    requires t + TotalWidth(fs) <= |mem| && SameShape(fs, likes)
    ensures TotalWidth(likes) == TotalWidth(fs)
    ensures LoadAll(StoreAll(mem, t, fs), t, likes) == fs
    decreases fs
  {
    if fs != [] {
      var f, w := fs[0], fs[0].Width();
      var m := Patch(mem, t, f.Stored());
      var r := StoreAll(mem, t, fs);
      FieldsRoundTrip(m, t + w, fs[1..], likes[1..]);
      StoreAllFrame(m, t + w, fs[1..]);
      assert r[t..t + w] == r[..t + w][t..] == m[..t + w][t..] == f.Stored();
      LoadOfStored(r, t, f, likes[0]);
    }
  }
}
