/** The kanji numeral converter of ToKanjiLib/Converter.cs: `ToKanji(long,
    Span<char>)` writes a non-negative `long` of at most sixteen decimal digits
    as kanji numerals into a caller buffer and returns how many characters it
    wrote; `ToKanji(long)` renders into a 50-character buffer and returns the
    written part as a string.

    `Kanji` is the reference function: what the conversion produces for every
    input, position by position, exactly as the loop of the source emits it
    (including its leading-digit overshoot and its unconditional group words).
    The method `ToKanji` is the imperative loop over an `array<char>` and is
    proved to write what `Kanji` says. */
module Converter {
  import opened Numerics

  /** The two guards that throw `ArgumentOutOfRangeException`. */
  datatype Error = LessThanZero | GreaterThanMax

  datatype Result<T> = Ok(value: T) | Err(error: Error)

  /** Digit glyphs, indexed by the digit value. */
  const Chars1: string := "〇一二三四五六七八九"
  /** Multipliers within a four-digit group, indexed by `ju` (index 0 is never used). */
  const Chars2: string := "一十百千"
  /** Group words, indexed by `man` (index 0 is never used). */
  const Chars3: string := "一万億兆"

  /** 9999_9999_9999_9999, the largest value accepted. */
  const MaxValue: int := 9999_9999_9999_9999

  /** Capacity of the buffer that `ToKanji(long)` renders into. */
  const BufferSize: nat := 50

  /** `indexTable`, in the four rows of sixteen entries of the source and its
      last entry. For z from 11 to 63, entry z is the index of the most
      significant decimal digit of 2^(64 - z) - 1, the largest value with
      64 - z bits. Entries 0 to 10, for 64 down to 54 bits, are capped at 15,
      the index of the leading digit of MaxValue, which keeps `powersOf10[count]`
      in range; 2^54 - 1 itself has its leading digit at 16. Entry 64, for
      the value 0, is 0. */
  const IndexRow0: seq<int> := [15, 15, 15, 15, 15, 15, 15, 15, 15, 15, 15, 15, 15, 15, 15, 14]
  const IndexRow1: seq<int> := [14, 14, 13, 13, 13, 12, 12, 12, 12, 11, 11, 11, 10, 10, 10,  9]
  const IndexRow2: seq<int> := [ 9,  9,  9,  8,  8,  8,  7,  7,  7,  6,  6,  6,  6,  5,  5,  5]
  const IndexRow3: seq<int> := [ 4,  4,  4,  3,  3,  3,  3,  2,  2,  2,  1,  1,  1,  0,  0,  0]
  const IndexTable: seq<int> := IndexRow0 + IndexRow1 + IndexRow2 + IndexRow3 + [0]

  /** `powersOf10`: entry i is 10^i. */
  const PowersOf10: seq<int> := [
    1, 10, 100, 1000,
    1_0000, 10_0000, 100_0000, 1000_0000,
    1_0000_0000, 10_0000_0000, 100_0000_0000, 1000_0000_0000,
    1_0000_0000_0000, 10_0000_0000_0000, 100_0000_0000_0000, 1000_0000_0000_0000
  ]

  // ---------------------------------------------------------------------------
  // The constant tables

  /** Each entry of `powersOf10` after the first is ten times the one before it. */
  ghost predicate TenfoldFrom(i: nat)
    decreases 16 - i
  {
    i + 1 >= |PowersOf10| || (PowersOf10[i + 1] == 10 * PowersOf10[i] && TenfoldFrom(i + 1))
  }

  lemma {:induction false} TenfoldAt(i: nat, k: nat)
    requires TenfoldFrom(i) && i <= k < 15
    ensures PowersOf10[k + 1] == 10 * PowersOf10[k]
    decreases k - i
  {
    if i < k {
      TenfoldAt(i + 1, k);
    }
  }

  /** `powersOf10[i]` is 10^i at every index of the table. */
  lemma {:induction false} PowersOf10Exact(i: nat)
    requires i < |PowersOf10|
    ensures PowersOf10[i] == Pow10(i)
  {
    if i > 0 {
      assert TenfoldFrom(8);
      assert TenfoldFrom(0);
      TenfoldAt(0, i - 1);
      PowersOf10Exact(i - 1);
    }
  }

  /** What the estimate c must satisfy for the values in [p, 2p), the values
      with a given bit length, to stay within the converter's reach: c is a
      table index, every such value up to MaxValue is below 10^(c+1), and the
      smallest of them is at least 10^(c-1). */
  ghost predicate EstimateFits(c: int, p: nat)
  {
    0 <= c <= 15 &&
    (2 * p <= 10 * PowersOf10[c] || MaxValue < 10 * PowersOf10[c]) &&
    (c == 0 || PowersOf10[c - 1] <= p)
  }

  /** `row[j..]` fits the bit lengths b, b - 1, ... whose smallest values are
      p, p / 2, ...; only bit lengths 1 to 54 are checked, the others belong to
      no accepted value. */
  ghost predicate RowFits(row: seq<int>, j: nat, b: int, p: nat)
    decreases |row| - j
  {
    j >= |row| || ((b < 1 || b > 54 || EstimateFits(row[j], p)) && RowFits(row, j + 1, b - 1, p / 2))
  }

  /** Each row of `indexTable` fits the bit lengths it is looked up for: the
      first row from index 10 on (bit lengths 54 down to 49), the other rows
      whole (bit lengths 48 down to 1). The proof walks each row from its end,
      two entries per step. */
  lemma IndexRow0Fits()
    ensures RowFits(IndexRow0, 10, 54, 9007199254740992)
  {
    assert RowFits(IndexRow0, 14, 50, 562949953421312);
    assert RowFits(IndexRow0, 12, 52, 2251799813685248);
  }

  lemma IndexRow1Fits()
    ensures RowFits(IndexRow1, 0, 48, 140737488355328)
  {
    assert RowFits(IndexRow1, 14, 34, 8589934592);
    assert RowFits(IndexRow1, 12, 36, 34359738368);
    assert RowFits(IndexRow1, 10, 38, 137438953472);
    assert RowFits(IndexRow1, 8, 40, 549755813888);
    assert RowFits(IndexRow1, 6, 42, 2199023255552);
    assert RowFits(IndexRow1, 4, 44, 8796093022208);
    assert RowFits(IndexRow1, 2, 46, 35184372088832);
  }

  lemma IndexRow2Fits()
    ensures RowFits(IndexRow2, 0, 32, 2147483648)
  {
    assert RowFits(IndexRow2, 14, 18, 131072);
    assert RowFits(IndexRow2, 12, 20, 524288);
    assert RowFits(IndexRow2, 10, 22, 2097152);
    assert RowFits(IndexRow2, 8, 24, 8388608);
    assert RowFits(IndexRow2, 6, 26, 33554432);
    assert RowFits(IndexRow2, 4, 28, 134217728);
    assert RowFits(IndexRow2, 2, 30, 536870912);
  }

  lemma IndexRow3Fits()
    ensures RowFits(IndexRow3, 0, 16, 32768)
  {
    assert RowFits(IndexRow3, 14, 2, 2);
    assert RowFits(IndexRow3, 12, 4, 8);
    assert RowFits(IndexRow3, 10, 6, 32);
    assert RowFits(IndexRow3, 8, 8, 128);
    assert RowFits(IndexRow3, 6, 10, 512);
    assert RowFits(IndexRow3, 4, 12, 2048);
    assert RowFits(IndexRow3, 2, 14, 8192);
  }

  lemma {:induction false} RowFitsAt(row: seq<int>, j: nat, b: int, p: nat, k: nat)
    requires j <= k < |row| && RowFits(row, j, b, p)
    requires b - (k - j) >= 1 && p == Pow2(b - 1)
    ensures b - (k - j) <= 54 ==> EstimateFits(row[k], Pow2(b - (k - j) - 1))
    decreases k - j
  {
    if j < k {
      var half := Pow2(b - 2);
      assert p == 2 * half && p / 2 == half;
      assert RowFits(row, j + 1, b - 1, half);
      RowFitsAt(row, j + 1, b - 1, half, k);
    }
  }

  lemma IndexTableRows(z: nat)
    requires z < 64
    ensures |IndexTable| == 65
    ensures IndexTable[z] == [IndexRow0, IndexRow1, IndexRow2, IndexRow3][z / 16][z % 16]
  {
    assert |IndexRow0| == |IndexRow1| == |IndexRow2| == |IndexRow3| == 16;
  }

  /** The entry of each row that a value with b bits selects fits every value
      with b bits. */
  lemma IndexRow0EntryFits(b: nat)
    requires 49 <= b <= 54
    ensures EstimateFits(IndexRow0[64 - b], Pow2(b - 1))
  {
    assert RowFits(IndexRow0, 10, 54, Pow2(53)) by {
      IndexRow0Fits();
      Pow2Values();
    }
    RowFitsAt(IndexRow0, 10, 54, Pow2(53), 64 - b);
  }

  lemma IndexRow1EntryFits(b: nat)
    requires 33 <= b <= 48
    ensures EstimateFits(IndexRow1[48 - b], Pow2(b - 1))
  {
    assert RowFits(IndexRow1, 0, 48, Pow2(47)) by {
      IndexRow1Fits();
      Pow2Values();
    }
    RowFitsAt(IndexRow1, 0, 48, Pow2(47), 48 - b);
  }

  lemma IndexRow2EntryFits(b: nat)
    requires 17 <= b <= 32
    ensures EstimateFits(IndexRow2[32 - b], Pow2(b - 1))
  {
    assert RowFits(IndexRow2, 0, 32, Pow2(31)) by {
      IndexRow2Fits();
      Pow2Values();
    }
    RowFitsAt(IndexRow2, 0, 32, Pow2(31), 32 - b);
  }

  lemma IndexRow3EntryFits(b: nat)
    requires 1 <= b <= 16
    ensures EstimateFits(IndexRow3[16 - b], Pow2(b - 1))
  {
    assert RowFits(IndexRow3, 0, 16, Pow2(15)) by {
      IndexRow3Fits();
      Pow2Values();
    }
    RowFitsAt(IndexRow3, 0, 16, Pow2(15), 16 - b);
  }

  /** The `indexTable` entry that a value with b bits selects fits every value
      with b bits. */
  lemma EstimateFitsAt(b: nat)
    requires 1 <= b <= 54
    ensures 64 - b < |IndexTable| && EstimateFits(IndexTable[64 - b], Pow2(b - 1))
  {
    var z := 64 - b;
    IndexTableRows(z);
    if z < 16 {
      IndexRow0EntryFits(b);
    } else if z < 32 {
      IndexRow1EntryFits(b);
    } else if z < 48 {
      IndexRow2EntryFits(b);
    } else {
      IndexRow3EntryFits(b);
    }
  }

  // ---------------------------------------------------------------------------
  // The reference function

  /** `count`: the digit-index estimate `indexTable[LeadingZeroCount(n)]`.
      It is the index of the most significant decimal digit of n or one more
      (up to 53 bits the estimate is that of the largest value with the same
      bit length, above that it is capped at 15, and it is never corrected),
      so it indexes `powersOf10` and n has no digit above it. */
  function CountEstimate(n: int): (c: nat)
    requires 0 < n <= MaxValue
    ensures c < |PowersOf10| && n < Pow10(c + 1)
    ensures c == Log10(n) || c == Log10(n) + 1
  {
    EstimateBounds(n);
    IndexTable[LeadingZeroCount(n)]
  }

  /** The estimate indexes `powersOf10`, bounds n from above, and is the
      index of n's most significant digit or one more. */
  lemma EstimateBounds(n: int)
    requires 0 < n <= MaxValue
    ensures LeadingZeroCount(n) < |IndexTable|
    ensures IndexTable[LeadingZeroCount(n)] < |PowersOf10|
    ensures n < Pow10(IndexTable[LeadingZeroCount(n)] + 1)
    ensures Log10(n) <= IndexTable[LeadingZeroCount(n)] <= Log10(n) + 1
  {
    var b := BitLength(n);
    Pow2Values();
    BitLengthAtMost(n, 54);
    BitLengthBounds(n);
    EstimateFitsAt(b);
    var c := IndexTable[LeadingZeroCount(n)];
    PowersOf10Exact(c);
    PowersOf10Exact(if c > 0 then c - 1 else 0);
    Log10Within(n, c);
  }

  /** What one loop iteration writes for digit d at the position with group
      index `man` and index `ju` within the group: the digit glyph unless the
      digit is 0, or is 1 before a multiplier of the units group; the
      multiplier 十/百/千 after a nonzero digit off the group's units place;
      and the group word 万/億/兆 at the units place of every group above the
      lowest, whatever the digits. */
  function Glyphs(d: nat, man: nat, ju: nat): (g: string)
    requires d <= 9 && man <= 3 && ju <= 3
    ensures |g| <= 2
  {
    (if d != 0 then
       (if d > 1 || ju == 0 || man != 0 then [Chars1[d]] else [])
       + (if ju != 0 then [Chars2[ju]] else [])
     else [])
    + (if man != 0 && ju == 0 then [Chars3[man]] else [])
  }

  /** `man` at position k: the index of the four-digit group holding it
      (0 for the units group, 1 for 万, 2 for 億, 3 for 兆), counted by
      steps of four so that it also gives -1 one step past the units. */
  function Group(k: int): (r: int)
    ensures -1 <= r && (k >= 0 ==> 0 <= r && 4 * r <= k)
    decreases if k < 0 then 0 else k
  {
    if k < 0 then -1 else if k < 4 then 0 else Group(k - 4) + 1
  }

  /** `ju` at position k: its index within its group (0 for the group's
      units place, then 十, 百, 千); 3 one step past the units. */
  function Place(k: int): (r: int)
    ensures 0 <= r <= 3
    decreases if k < 0 then 0 else k
  {
    if k < 0 then 3 else if k < 4 then k else Place(k - 4)
  }

  /** (`Group(k)`, `Place(k)`) is `Math.DivRem(k, 4)`, the source's split of
      a position into `man` and `ju`. */
  lemma {:induction false} GroupPlace(k: nat)
    ensures Group(k) == k / 4 && Place(k) == k % 4
    ensures 4 * Group(k) + Place(k) == k
    ensures Group(k) <= 3 <==> k <= 15
  {
    if k >= 4 {
      GroupPlace(k - 4);
    }
  }

  /** Position k is the units place of group w exactly when k = 4w. */
  lemma {:induction false} GroupUnits(k: nat, w: int)
    ensures (Group(k) == w && Place(k) == 0) <==> k == 4 * w
    decreases k
  {
    if k >= 4 {
      GroupUnits(k - 4, w - 1);
    }
  }

  /** What the loop writes for the decimal positions top down to lo of n. */
  function Rendered(n: nat, top: int, lo: nat): string
    requires top <= 15 && lo <= top + 1
    decreases top + 1 - lo
  {
    if lo > top then [] else Rendered(n, top, lo + 1) + Glyphs(DigitAt(n, lo), Group(lo), Place(lo))
  }

  /** The result of `ToKanji`: an out-of-range error, "〇" for zero, and
      otherwise the glyphs of the positions `count` down to 0. At least one
      glyph and at most two per position are written, so never more than 32. */
  function Kanji(number: int): (r: Result<string>)
    ensures r.Ok? ==> 1 <= |r.value| <= 2 * |PowersOf10|
  {
    if number < 0 then Err(LessThanZero)
    else if MaxValue < number then Err(GreaterThanMax)
    else if number == 0 then Ok("〇")
    else
      var count := CountEstimate(number);
      RenderedLength(number, count, 0);
      RenderedNonEmpty(number, count);
      Ok(Rendered(number, count, 0))
  }

  /** Each position contributes at most two glyphs. */
  lemma {:induction false} RenderedLength(n: nat, top: int, lo: nat)
    requires top <= 15 && lo <= top + 1
    ensures |Rendered(n, top, lo)| <= 2 * (top + 1 - lo)
    decreases top + 1 - lo
  {
    if lo <= top {
      RenderedLength(n, top, lo + 1);
    }
  }

  /** The glyphs of positions top..lo are those of top..mid followed by those of mid-1..lo. */
  lemma {:induction false} RenderedSplit(n: nat, top: int, mid: nat, lo: nat)
    requires top <= 15 && lo <= mid <= top + 1
    ensures Rendered(n, top, lo) == Rendered(n, top, mid) + Rendered(n, mid - 1, lo)
    decreases mid - lo
  {
    if lo < mid {
      RenderedSplit(n, top, mid, lo + 1);
    }
  }

  /** A position holding a nonzero digit always contributes a glyph, and the
      most significant digit of a positive n is nonzero. */
  lemma RenderedNonEmpty(n: nat, count: nat)
    requires 0 < n < Pow10(count + 1) && count <= 15
    ensures |Rendered(n, count, 0)| >= 1
  {
    var l := Log10(n);
    Log10Bounds(n);
    if count < l {
      Pow10Monotone(count + 1, l);
    }
    LeadingDigitNonZero(n);
    assert |Glyphs(DigitAt(n, l), Group(l), Place(l))| >= 1;
    RenderedSplit(n, count, l, 0);
  }

  /** Characters `ToKanji` needs in the destination: none for a rejected input. */
  function Needed(number: int): (k: nat)
    ensures k <= 2 * |PowersOf10|
  {
    match Kanji(number)
    case Ok(s) => |s|
    case Err(_) => 0
  }

  // ---------------------------------------------------------------------------
  // The imperative converter

  /** `destination[length++] = c`. */
  method Put(destination: array<char>, length: nat, c: char) returns (next: nat)
    requires length < destination.Length
    modifies destination
    ensures next == length + 1
    ensures destination[..next] == old(destination[..length]) + [c]
    ensures forall k :: next <= k < destination.Length ==> destination[k] == old(destination[k])
  {
    destination[length] := c;
    next := length + 1;
  }

  /** One iteration's writes for digit `div` at the position (`man`, `ju`):
      exactly `Glyphs(div, man, ju)` is appended at `length`. */
  method PutGlyphs(destination: array<char>, length: nat, div: nat, man: nat, ju: nat) returns (next: nat)
    requires div <= 9 && man <= 3 && ju <= 3
    requires length + |Glyphs(div, man, ju)| <= destination.Length
    modifies destination
    ensures next == length + |Glyphs(div, man, ju)|
    ensures destination[..next] == old(destination[..length]) + Glyphs(div, man, ju)
    ensures forall k :: next <= k < destination.Length ==> destination[k] == old(destination[k])
  {
    next := length;
    ghost var written: string := [];
    if div != 0 {
      if div > 1 || ju == 0 || man != 0 {
        next := Put(destination, next, Chars1[div]);
        written := written + [Chars1[div]];
      }
      if ju != 0 {
        next := Put(destination, next, Chars2[ju]);
        written := written + [Chars2[ju]];
      }
    }
    if man != 0 && ju == 0 {
      next := Put(destination, next, Chars3[man]);
      written := written + [Chars3[man]];
    }
    assert written == Glyphs(div, man, ju);
  }

  /** `ToKanji(long number, Span<char> destination)`: validates the input,
      writes `Kanji(number)` to the front of `destination` and returns its
      length; nothing past the written characters changes, and nothing at all
      changes when the input is rejected. */
  method ToKanji(number: int, destination: array<char>) returns (r: Result<nat>)
    requires Needed(number) <= destination.Length
    modifies destination
    ensures Kanji(number).Err? ==> r == Err(Kanji(number).error)
    ensures Kanji(number).Ok? ==> r == Ok(|Kanji(number).value|) && destination[..r.value] == Kanji(number).value
    ensures forall k :: (if r.Ok? then r.value else 0) <= k < destination.Length ==> destination[k] == old(destination[k])
  {
    if number < 0 {
      assert Kanji(number) == Err(LessThanZero);
      return Err(LessThanZero);
    }
    if MaxValue < number {
      assert Kanji(number) == Err(GreaterThanMax);
      return Err(GreaterThanMax);
    }
    if number == 0 {
      assert Kanji(number) == Ok("〇");
      destination[0] := '〇';
      return Ok(1);
    }

    var count := CountEstimate(number);
    assert Kanji(number) == Ok(Rendered(number, count, 0));
    var length := RenderDigits(number, count, destination);
    return Ok(length);
  }

  /** The main loop of `ToKanji` (lines 59-94 of the source): walks the
      positions i = count down to 0, peels the digit at i off the remaining
      value with one division by `powersOf10[i]`, and writes that position's
      glyphs. `man` and `ju` start as `Math.DivRem(count, 4)` and are stepped
      down with the wrap of the source; they are `Group(i)` and `Place(i)`
      throughout. What remains of the input is its value below position
      i + 1, and the characters written so far are those of the positions
      above i. */
  method RenderDigits(number: nat, count: nat, destination: array<char>) returns (length: nat)
    requires 0 < number <= MaxValue && count == CountEstimate(number)
    requires Needed(number) <= destination.Length
    modifies destination
    ensures length == |Rendered(number, count, 0)|
    ensures destination[..length] == Rendered(number, count, 0)
    ensures forall k :: length <= k < destination.Length ==> destination[k] == old(destination[k])
  {
    var man: int, ju: int := count / 4, count % 4;
    GroupPlace(count);
    length := 0;
    var rest := number;
    DivModUnique(number, Pow10(count + 1), 0, number);

    var i := count;
    while i >= 0
      invariant -1 <= i <= count
      invariant man == Group(i) && ju == Place(i)
      invariant rest == number % Pow10(i + 1)
      invariant length <= destination.Length
      invariant destination[..length] == Rendered(number, count, i + 1)
      invariant forall k :: length <= k < destination.Length ==> destination[k] == old(destination[k])
      decreases i
    {
      length, rest := EmitPosition(destination, length, number, count, i, rest, man, ju);
      ju := ju - 1;
      if ju < 0 {
        ju := 3;
        man := man - 1;
      }
      NextPosition(i);
      i := i - 1;
    }
  }

  /** One iteration of the loop: `Math.DivRem(number, powersOf10[i])` on
      what is left of the input after the positions above i gives the digit
      at position i as quotient and what is left below it as remainder; then
      the glyphs of that digit at (`man`, `ju`) are written. */
  method EmitPosition(destination: array<char>, length: nat, number: nat, count: nat, i: nat, rest: nat, man: nat, ju: nat)
    returns (next: nat, remainder: nat)
    requires i <= count <= 15 && man == Group(i) && ju == Place(i)
    requires rest == number % Pow10(i + 1)
    requires |Rendered(number, count, 0)| <= destination.Length
    requires length <= destination.Length && destination[..length] == Rendered(number, count, i + 1)
    modifies destination
    ensures remainder == number % Pow10(i)
    ensures next <= destination.Length && destination[..next] == Rendered(number, count, i)
    ensures forall k :: next <= k < destination.Length ==> destination[k] == old(destination[k])
  {
    PowersOf10Exact(i);
    var p := PowersOf10[i];
    PeelDigit(number, i);
    var div := rest / p;
    remainder := rest % p;
    assert Rendered(number, count, i) == Rendered(number, count, i + 1) + Glyphs(div, man, ju);
    RenderedSplit(number, count, i, 0);
    next := PutGlyphs(destination, length, div, man, ju);
  }

  /** Stepping from position i to i - 1 as the loop does: `ju` counts down
      within a group and wraps to 3 while `man` moves to the next lower group. */
  lemma {:induction false} NextPosition(i: nat)
    ensures Place(i) == 0 ==> Group(i - 1) == Group(i) - 1 && Place(i - 1) == 3
    ensures Place(i) != 0 ==> Group(i - 1) == Group(i) && Place(i - 1) == Place(i) - 1
  {
    if i >= 4 {
      NextPosition(i - 4);
    }
  }

  /** `ToKanji(long)`: renders into a fresh 50-character buffer, which always
      has room, and returns the written characters. */
  method ToKanjiString(number: int) returns (r: Result<string>)
    ensures r == Kanji(number)
  {
    var buffer := new char[BufferSize];
    var filled := ToKanji(number, buffer);
    match filled
    case Ok(length) =>
      r := Ok(buffer[..length]);
    case Err(e) =>
      r := Err(e);
  }
}
