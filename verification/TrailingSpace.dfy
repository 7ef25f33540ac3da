/** The two versions of `skip_trailing_space` in `m_string.h`, against the plain byte loop. */
module TrailingSpace {
  import opened LittleEndian
  import opened Remainders
  import opened Widths

  const SPACE: uchar := 0x20

  /** Where the plain byte-by-byte loop stops. */
  function TrimmedEnd(s: seq<uchar>): (e: nat)
    ensures e <= |s|
  {
    if s != [] && s[|s| - 1] == SPACE then TrimmedEnd(s[..|s| - 1]) else |s|
  }

  /** Everything from `e` on is a space, and the byte before it, if any, is not. */
  predicate IsTrimmedEnd(s: seq<uchar>, e: nat) {
    && e <= |s|
    && (forall i | e <= i < |s| :: s[i] == SPACE)
    && (e > 0 ==> s[e - 1] != SPACE)
  }

  lemma {:induction false} TrimmedEndIsUnique(s: seq<uchar>, e: nat)
    ensures IsTrimmedEnd(s, e) <==> e == TrimmedEnd(s)
  {
    if s != [] && s[|s| - 1] == SPACE {
      var t := s[..|s| - 1];
      TrimmedEndIsUnique(t, e);
      if IsTrimmedEnd(t, e) {
        assert forall i | e <= i < |s| :: s[i] == SPACE;
      }
    }
  }

  predicate AllSpaces(s: seq<uchar>) {
    forall i | 0 <= i < |s| :: s[i] == SPACE
  }

  /** A word equals the constant made of spaces exactly when each of its bytes is a space. */
  lemma {:induction false} SpaceWord(w: seq<uchar>)
    ensures |w| == 4 ==> (Value(w) == 0x2020_2020 <==> AllSpaces(w))
    ensures |w| == 8 ==> (Value(w) == 0x2020_2020_2020_2020 <==> AllSpaces(w))
  {
    var four := [SPACE, SPACE, SPACE, SPACE];
    var eight := four + four;
    ShortValues(four);
    ValueJoin(four, four);
    if |w| == 4 {
      ValueIsInjective(w, four);
    } else if |w| == 8 {
      ValueIsInjective(w, eight);
    }
  }

  /** `uint8korr` of eight bytes is 0x2020202020202020 exactly when all eight are spaces. */
  lemma {:induction false} Uint8korrOfSpaces(w: seq<uchar>)
    requires |w| == 8
    ensures Uint8korr(w) == 0x2020_2020_2020_2020 <==> AllSpaces(w)
  {
    Load8IsValue(w);
    SpaceWord(w);
  }

  // ---------------------------------------------------------------------------
  // Eight bytes at a time, ignoring alignment
  // ---------------------------------------------------------------------------

  method SkipTrailingSpace(ptr: array<uchar>) returns (end: nat)
    ensures end == TrimmedEnd(ptr[..])
  {
    end := ptr.Length;
    while end >= 8
      invariant end <= ptr.Length
      invariant forall i | end <= i < ptr.Length :: ptr[i] == SPACE
    {
      Uint8korrOfSpaces(ptr[end - 8..end]);
      if Uint8korr(ptr[end - 8..end]) != 0x2020_2020_2020_2020 {
        break;
      }
      forall i | end - 8 <= i < end
        ensures ptr[i] == SPACE
      {
        assert ptr[i] == ptr[end - 8..end][i - (end - 8)];
      }
      end := end - 8;
    }
    while end > 0 && ptr[end - 1] == SPACE
      invariant end <= ptr.Length
      invariant forall i | end <= i < ptr.Length :: ptr[i] == SPACE
    {
      end := end - 1;
    }
    TrimmedEndIsUnique(ptr[..], end);
  }

  // ---------------------------------------------------------------------------
  // Whole aligned words (the SPARC version)
  // ---------------------------------------------------------------------------

  function Reversed(s: seq<uchar>): (r: seq<uchar>)
    ensures |r| == |s|
    ensures forall i | 0 <= i < |s| :: r[i] == s[|s| - 1 - i]
  {
    seq(|s|, i requires 0 <= i < |s| => s[|s| - 1 - i])
  }

  /** Whether an address is a multiple of SIZEOF_INT, which is 4 or 8. */
  predicate Aligned(address: int, w: nat) {
    if w == 4 then address % 4 == 0 else address % 8 == 0
  }

  /** `x / w * w`: the last aligned address at or before `x`. */
  function AlignDown(x: nat, w: nat): nat
    requires w == 4 || w == 8
  {
    if w == 4 then x / 4 * 4 else x / 8 * 8
  }

  lemma {:induction false} AlignDownIsAligned(x: nat, w: nat)
    requires w == 4 || w == 8
    ensures x - w < AlignDown(x, w) <= x && Aligned(AlignDown(x, w), w)
  {
    QuotientIsUnique(4 * (x / 4), 4, x / 4, 0);
    QuotientIsUnique(8 * (x / 8), 8, x / 8, 0);
  }

  lemma {:induction false} WordsBetween(from: int, to: int, w: nat)
    requires w == 4 || w == 8
    requires Aligned(from, w) && Aligned(to, w) && from < to
    ensures from <= to - w && Aligned(to - w, w)
  {
    if w == 4 {
      OneWordLess(from / 4, to / 4, 4);
    } else {
      OneWordLess(from / 8, to / 8, 8);
    }
  }

  lemma {:induction false} OneWordLess(m: int, n: int, w: int)
    requires w > 0 && w * m < w * n
    ensures w * m <= w * n - w && (w * n - w) % w == 0
  {
    assert w * n - w == w * (n - 1) + 0;
    QuotientIsUnique(w * n - w, w, n - 1, 0);
    assert m <= n - 1;
    assert w * m <= w * (n - 1);
  }

  /** The word of `w` bytes at index `at` of a buffer that starts at address `address`.  The
      requirements are the ones the hardware and the buffer make: aligned, and inside. */
  function WordAt(ptr: array<uchar>, address: nat, at: nat, w: nat, bigEndian: bool): nat
    requires w == 4 || w == 8
    requires Aligned(address + at, w)
    requires at + w <= ptr.Length
    reads ptr
  {
    var bytes := ptr[at..at + w];
    Value(if bigEndian then Reversed(bytes) else bytes)
  }

  function SpaceInt(w: nat): nat {
    if w == 4 then 0x2020_2020 else 0x2020_2020_2020_2020
  }

  lemma {:induction false} SpaceWordAt(ptr: array<uchar>, address: nat, at: nat, w: nat, bigEndian: bool)
    requires w == 4 || w == 8
    requires Aligned(address + at, w) && at + w <= ptr.Length
    ensures WordAt(ptr, address, at, w, bigEndian) == SpaceInt(w)
       <==> forall i | at <= i < at + w :: ptr[i] == SPACE
  {
    var bytes := ptr[at..at + w];
    var r := Reversed(bytes);
    SpaceWord(bytes);
    SpaceWord(r);
    assert forall i | 0 <= i < w :: bytes[i] == ptr[at + i] && bytes[i] == r[w - 1 - i];
    assert AllSpaces(bytes) <==> AllSpaces(r);
    if AllSpaces(bytes) {
      assert forall i | at <= i < at + w :: ptr[i] == bytes[i - at];
    }
  }

  /** The word loop: back from the aligned `to` over whole words of spaces, not past `from`. */
  method SkipSpaceWords(ptr: array<uchar>, address: nat, from: nat, to: nat, w: nat, bigEndian: bool)
    returns (end: nat)
    requires w == 4 || w == 8
    requires from <= to <= ptr.Length && Aligned(address + from, w) && Aligned(address + to, w)
    ensures from <= end <= to && Aligned(address + end, w)
    ensures forall i | end <= i < to :: ptr[i] == SPACE
    ensures end > from ==> end - w >= from && exists i :: end - w <= i < end && ptr[i] != SPACE
  {
    end := to;
    while end > from
      invariant from <= end <= to && Aligned(address + end, w)
      invariant forall i | end <= i < to :: ptr[i] == SPACE
    {
      WordsBetween(address + from, address + end, w);
      SpaceWordAt(ptr, address, end - w, w, bigEndian);
      if WordAt(ptr, address, end - w, w, bigEndian) != SpaceInt(w) {
        break;
      }
      end := end - w;
    }
  }

  /** `sizeofInt` is SIZEOF_INT of the platform, `address` the numeric value of the pointer. */
  method SkipTrailingSpaceAligned(ptr: array<uchar>, address: nat, sizeofInt: nat, bigEndian: bool)
    returns (end: nat)
    requires sizeofInt == 4 || sizeofInt == 8
    ensures end == TrimmedEnd(ptr[..])
  {
    end := ptr.Length;
    if ptr.Length > 20 {
      AlignDownIsAligned(address + end, sizeofInt);
      AlignDownIsAligned(address + sizeofInt - 1, sizeofInt);
      var endWords := AlignDown(address + end, sizeofInt) - address;
      var startWords := AlignDown(address + sizeofInt - 1, sizeofInt) - address;
      while end > endWords && ptr[end - 1] == SPACE
        invariant 0 < endWords <= end <= ptr.Length
        invariant forall i | end <= i < ptr.Length :: ptr[i] == SPACE
      {
        end := end - 1;
      }
      if ptr[end - 1] == SPACE && startWords < endWords {
        end := SkipSpaceWords(ptr, address, startWords, end, sizeofInt, bigEndian);
      }
    }
    while end > 0 && ptr[end - 1] == SPACE
      invariant end <= ptr.Length
      invariant forall i | end <= i < ptr.Length :: ptr[i] == SPACE
    {
      end := end - 1;
    }
    TrimmedEndIsUnique(ptr[..], end);
  }
}
