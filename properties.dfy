/** What the output of `ToKanji` looks like: which glyphs a position
    contributes (the elision of 一 and the unconditional group words), which
    characters can appear at all, how many group words an output holds, and
    the outputs for a few inputs, including those where the digit-index
    estimate overshoots or a group of zeros still gets its group word. */
module ConverterProperties {
  import opened Numerics
  import opened Converter

  /** The characters `ToKanji` may write: the digit glyphs, the multipliers
      十/百/千 and the group words 万/億/兆. */
  ghost predicate IsKanjiGlyph(c: char)
  {
    c in Chars1 || c in Chars2[1..] || c in Chars3[1..]
  }

  // ---------------------------------------------------------------------------
  // One position

  /** The digit glyph of d is written exactly when d is nonzero and is not a
      1 before a multiplier in the units group (十 and not 一十, but 一万 and
      一千万); a multiplier is written exactly after a nonzero digit. */
  lemma DigitGlyphRule(d: nat, man: nat, ju: nat)
    requires d <= 9 && man <= 3 && ju <= 3
    ensures Chars1[d] in Glyphs(d, man, ju) <==> d != 0 && !(d == 1 && ju != 0 && man == 0)
    ensures ju != 0 ==> (Chars2[ju] in Glyphs(d, man, ju) <==> d != 0)
  {
    var g := Glyphs(d, man, ju);
    if d == 0 {
      assert g == if man != 0 && ju == 0 then [Chars3[man]] else [];
    }
  }

  /** Each group word occurs once in what a position contributes when the
      position is the units place of that word's group, and not at all
      otherwise, whatever the digit; when it occurs it is the last glyph. */
  lemma GroupWordRule(d: nat, man: nat, ju: nat, w: nat)
    requires d <= 9 && man <= 3 && ju <= 3 && 1 <= w <= 3
    ensures multiset(Glyphs(d, man, ju))[Chars3[w]] == if man == w && ju == 0 then 1 else 0
    ensures man != 0 && ju == 0 ==> Glyphs(d, man, ju)[|Glyphs(d, man, ju)| - 1] == Chars3[man]
  {
    assert Chars3[w] !in Chars1;
    assert Chars3[w] !in Chars2;
  }

  // ---------------------------------------------------------------------------
  // Whole outputs

  /** Every character written is a digit glyph, a multiplier 十/百/千 or a
      group word 万/億/兆. */
  lemma {:induction false} RenderedAlphabet(n: nat, top: int, lo: nat)
    requires top <= 15 && lo <= top + 1
    ensures forall c :: c in Rendered(n, top, lo) ==> IsKanjiGlyph(c)
    decreases top + 1 - lo
  {
    if lo <= top {
      RenderedAlphabet(n, top, lo + 1);
      var d, man, ju := DigitAt(n, lo), Group(lo), Place(lo);
      assert Chars1[d] in Chars1;
      assert ju != 0 ==> Chars2[ju] in Chars2[1..];
      assert man != 0 ==> Chars3[man] in Chars3[1..];
    }
  }

  lemma KanjiAlphabet(number: int)
    requires 0 <= number <= MaxValue
    ensures forall c :: c in Kanji(number).value ==> IsKanjiGlyph(c)
  {
    if number != 0 {
      RenderedAlphabet(number, CountEstimate(number), 0);
    }
  }

  /** Group word w occurs in the output for positions top..lo exactly when
      its group's units place 4w is one of them, whatever the digits: a group
      of zeros still gets its word. */
  lemma {:induction false} RenderedGroupWords(n: nat, top: int, lo: nat, w: nat)
    requires top <= 15 && lo <= top + 1 && 1 <= w <= 3
    ensures multiset(Rendered(n, top, lo))[Chars3[w]] == if lo <= 4 * w <= top then 1 else 0
    decreases top + 1 - lo
  {
    if lo <= top {
      RenderedGroupWords(n, top, lo + 1, w);
      var rest, g := Rendered(n, top, lo + 1), Glyphs(DigitAt(n, lo), Group(lo), Place(lo));
      assert Rendered(n, top, lo) == rest + g;
      CountIn(rest, g, Chars3[w]);
      GroupWordAt(DigitAt(n, lo), lo, w);
    }
  }

  lemma GroupWordAt(d: nat, k: nat, w: nat)
    requires d <= 9 && k <= 15 && 1 <= w <= 3
    ensures multiset(Glyphs(d, Group(k), Place(k)))[Chars3[w]] == if k == 4 * w then 1 else 0
  {
    GroupUnits(k, w);
    GroupWordRule(d, Group(k), Place(k), w);
  }

  lemma CountIn(a: string, b: string, c: char)
    ensures multiset(a + b)[c] == multiset(a)[c] + multiset(b)[c]
  {
  }

  /** The output for a positive number holds one group word for each group
      up to the estimate `count`, and none above it. */
  lemma KanjiGroupWords(number: int, w: nat)
    requires 0 < number <= MaxValue && 1 <= w <= 3
    ensures multiset(Kanji(number).value)[Chars3[w]] == if 4 * w <= CountEstimate(number) then 1 else 0
  {
    RenderedGroupWords(number, CountEstimate(number), 0, w);
  }

  /** Inputs out of range are rejected, and only those. */
  lemma RangeRule(number: int)
    ensures Kanji(number).Err? <==> number < 0 || MaxValue < number
    ensures number < 0 ==> Kanji(number) == Err(LessThanZero)
    ensures MaxValue < number ==> Kanji(number) == Err(GreaterThanMax)
  {
  }

  /** The 50-character buffer of `ToKanji(long)` is never too small: each of
      the at most sixteen positions contributes at most two glyphs. */
  lemma BufferSuffices(number: int)
    ensures Needed(number) <= 2 * 16 < BufferSize
  {
  }

  /** At every point of the loop, counting the digits already extracted at
      positions count down to i + 1 with their powers of ten, plus what
      remains of the input, gives back the whole input. At the start
      (i = count) nothing has been extracted and the remainder is the input;
      at the end (i = -1) the extracted digits alone make it up. */
  lemma DigitsAccountForInput(n: int, i: int)
    requires 0 < n <= MaxValue && -1 <= i <= CountEstimate(n)
    ensures Recompose(n, CountEstimate(n)) == n
    ensures (Recompose(n, CountEstimate(n)) - Recompose(n, i)) + n % Pow10(i + 1) == n
  {
    RecomposeValue(n, CountEstimate(n));
    RecomposeDigits(n, i);
  }

  // ---------------------------------------------------------------------------
  // Particular inputs

  /** For an input with b bits the output is that of the positions
      `indexTable[64 - b]` down to 0. */
  lemma KanjiByBitLength(n: int, b: nat)
    requires 0 < n <= MaxValue && 1 <= b && Pow2(b - 1) <= n < Pow2(b)
    ensures b <= 54 && CountEstimate(n) == IndexTable[64 - b]
    ensures Kanji(n) == Ok(Rendered(n, IndexTable[64 - b], 0))
  {
    BitLengthExact(n, b);
    Pow2Values();
    BitLengthAtMost(n, 54);
  }

  lemma ZeroExample()
    ensures Kanji(0) == Ok("〇")
  {
  }

  /** 10 is 十: no 一 before 十, and the zero units digit writes nothing. */
  lemma TenExample()
    ensures Kanji(10) == Ok("十")
  {
    TensRule(10);
    assert "十" + Glyphs(0, 0, 0) == "十";
  }

  /** 11 is 十一: the units digit 1 is written. */
  lemma ElevenExample()
    ensures Kanji(11) == Ok("十一")
  {
    TensRule(11);
    assert "十" + Glyphs(1, 0, 0) == "十一";
  }

  /** From 10 to 15 the output is 十 followed by the units digit, if any. */
  lemma TensRule(n: int)
    requires 10 <= n <= 15
    ensures Kanji(n) == Ok("十" + Glyphs(n - 10, 0, 0))
  {
    FourBits(n);
    FiveDigits(n, 0, 0, 0, 1, n - 10);
    TensRendered(n, n - 10, "十" + Glyphs(n - 10, 0, 0));
  }

  lemma TensRendered(n: nat, u: nat, s: string)
    requires u <= 9 && DigitAt(n, 1) == 1 && DigitAt(n, 0) == u
    requires s == "十" + Glyphs(u, 0, 0)
    ensures Rendered(n, 1, 0) == s
  {
    Step(n, 1, 1, 1, "", "十");
    Step(n, 1, 0, u, "十", s);
  }

  /** 100 is 百: no 一 before 百, and zero digits write nothing. */
  lemma HundredExample()
    ensures Kanji(100) == Ok("百")
  {
    HundredsRule(100);
    assert "百" + Glyphs(0, 0, 1) + Glyphs(0, 0, 0) == "百";
  }

  /** 101 is 百一: the zero tens digit writes neither a glyph nor 十. */
  lemma HundredOneExample()
    ensures Kanji(101) == Ok("百一")
  {
    HundredsRule(101);
    assert "百" + Glyphs(0, 0, 1) + Glyphs(1, 0, 0) == "百一";
  }

  /** 110 is 百十: no 一 before 十. */
  lemma HundredTenExample()
    ensures Kanji(110) == Ok("百十")
  {
    HundredsRule(110);
    assert "百" + Glyphs(1, 0, 1) + Glyphs(0, 0, 0) == "百十";
  }

  /** From 100 to 127 the output is 百 followed by the glyphs of the tens and
      the units digit. */
  lemma HundredsRule(n: int)
    requires 100 <= n <= 127
    ensures Kanji(n) == Ok("百" + Glyphs((n - 100) / 10, 0, 1) + Glyphs(n % 10, 0, 0))
  {
    var t, u := (n - 100) / 10, n % 10;
    SevenBits(n);
    FiveDigits(n, 0, 0, 1, t, u);
    HundredsRendered(n, t, u, "百" + Glyphs(t, 0, 1) + Glyphs(u, 0, 0));
  }

  lemma HundredsRendered(n: nat, t: nat, u: nat, s: string)
    requires t <= 9 && u <= 9
    requires DigitAt(n, 2) == 1 && DigitAt(n, 1) == t && DigitAt(n, 0) == u
    requires s == "百" + Glyphs(t, 0, 1) + Glyphs(u, 0, 0)
    ensures Rendered(n, 2, 0) == s
  {
    Step(n, 2, 2, 1, "", "百");
    Step(n, 2, 1, t, "百", "百" + Glyphs(t, 0, 1));
    Step(n, 2, 0, u, "百" + Glyphs(t, 0, 1), s);
  }

  /** 10000 is 一万: the 1 before the group word is written. */
  lemma TenThousandExample()
    ensures Kanji(10000) == Ok("一万")
  {
    FourteenBits(10000);
    FiveDigits(10000, 1, 0, 0, 0, 0);
    FivePositions(10000, 1, 0, 0, 0, 0, "一万");
  }

  /** 9999 has 14 bits, like 16383, so its estimate is 4 where its most
      significant digit is at 3: the leading position is a zero digit, which
      still gets the group word 万. */
  lemma OvershootExample()
    ensures CountEstimate(9999) == 4 && Log10(9999) == 3
    ensures Kanji(9999) == Ok("万九千九百九十九")
  {
    FourteenBits(9999);
    FiveDigits(9999, 0, 9, 9, 9, 9);
    Log10Unique(9999, 3);
    FivePositions(9999, 0, 9, 9, 9, 9, "万九千九百九十九");
  }

  /** The output for positions 4 down to 0 from the digits at them. */
  lemma FivePositions(n: nat, d4: nat, d3: nat, d2: nat, d1: nat, d0: nat, s: string)
    requires d4 <= 9 && d3 <= 9 && d2 <= 9 && d1 <= 9 && d0 <= 9
    requires DigitAt(n, 4) == d4 && DigitAt(n, 3) == d3 && DigitAt(n, 2) == d2
    requires DigitAt(n, 1) == d1 && DigitAt(n, 0) == d0
    requires s == Glyphs(d4, 1, 0) + Glyphs(d3, 0, 3) + Glyphs(d2, 0, 2) + Glyphs(d1, 0, 1) + Glyphs(d0, 0, 0)
    ensures Rendered(n, 4, 0) == s
  {
    var s4 := Glyphs(d4, 1, 0);
    var s3 := s4 + Glyphs(d3, 0, 3);
    var s2 := s3 + Glyphs(d2, 0, 2);
    var s1 := s2 + Glyphs(d1, 0, 1);
    Step(n, 4, 4, d4, "", s4);
    Step(n, 4, 3, d3, s4, s3);
    Step(n, 4, 2, d2, s3, s2);
    Step(n, 4, 1, d1, s2, s1);
    Step(n, 4, 0, d0, s1, s);
  }

  /** The digits of a five-digit (or shorter) value. */
  lemma FiveDigits(n: nat, d4: nat, d3: nat, d2: nat, d1: nat, d0: nat)
    requires d4 <= 9 && d3 <= 9 && d2 <= 9 && d1 <= 9 && d0 <= 9
    requires n == d4 * 10000 + d3 * 1000 + d2 * 100 + d1 * 10 + d0
    ensures Pow10(3) == 1000 && Pow10(4) == 10000
    ensures DigitAt(n, 4) == d4 && DigitAt(n, 3) == d3 && DigitAt(n, 2) == d2
    ensures DigitAt(n, 1) == d1 && DigitAt(n, 0) == d0
  {
    assert Pow10(4) == 10000;
    DivModUnique(n, 10000, d4, n - d4 * 10000);
    DivModUnique(n, 1000, d4 * 10 + d3, n - d4 * 10000 - d3 * 1000);
    DivModUnique(n, 100, d4 * 100 + d3 * 10 + d2, d1 * 10 + d0);
    DivModUnique(n, 10, d4 * 1000 + d3 * 100 + d2 * 10 + d1, d0);
    DivModUnique(d4 * 10 + d3, 10, d4, d3);
    DivModUnique(d4 * 100 + d3 * 10 + d2, 10, d4 * 10 + d3, d2);
    DivModUnique(d4 * 1000 + d3 * 100 + d2 * 10 + d1, 10, d4 * 100 + d3 * 10 + d2, d1);
  }

  /** 1_0000_0000 is 一億万: the group of zeros between 億 and the units
      still gets its group word 万. */
  lemma HundredMillionExample()
    ensures Kanji(1_0000_0000) == Ok("一億万")
  {
    EmptyGroupRule(1_0000_0000);
    assert "一億万" + Glyphs(0, 0, 0) == "一億万";
  }

  /** 1_0000_0001 is 一億万一. */
  lemma HundredMillionOneExample()
    ensures Kanji(1_0000_0001) == Ok("一億万一")
  {
    EmptyGroupRule(1_0000_0001);
    assert "一億万" + Glyphs(1, 0, 0) == "一億万一";
  }

  /** From 1_0000_0000 to 1_0000_0009 the output is 一億万 followed by the
      units digit, if any. */
  lemma EmptyGroupRule(n: int)
    requires 1_0000_0000 <= n <= 1_0000_0009
    ensures Kanji(n) == Ok("一億万" + Glyphs(n - 1_0000_0000, 0, 0))
  {
    TwentySevenBits(n);
    HundredMillion(n, n - 1_0000_0000, "一億万" + Glyphs(n - 1_0000_0000, 0, 0));
  }

  lemma HundredMillion(n: nat, u: nat, s: string)
    requires u <= 9 && n == 1_0000_0000 + u && s == "一億万" + Glyphs(u, 0, 0)
    ensures Rendered(n, 8, 0) == s
  {
    HundredMillionDigits(n, u);
    HundredMillionUpper(n);
    HundredMillionLower(n, u);
    RenderedSplit(n, 8, 4, 0);
  }

  lemma HundredMillionUpper(n: nat)
    requires DigitAt(n, 8) == 1
    requires DigitAt(n, 7) == 0 && DigitAt(n, 6) == 0 && DigitAt(n, 5) == 0 && DigitAt(n, 4) == 0
    ensures Rendered(n, 8, 4) == "一億万"
  {
    Step(n, 8, 8, 1, "", "一億");
    Step(n, 8, 7, 0, "一億", "一億");
    Step(n, 8, 6, 0, "一億", "一億");
    Step(n, 8, 5, 0, "一億", "一億");
    Step(n, 8, 4, 0, "一億", "一億万");
  }

  lemma HundredMillionLower(n: nat, u: nat)
    requires u <= 9 && DigitAt(n, 0) == u
    requires DigitAt(n, 3) == 0 && DigitAt(n, 2) == 0 && DigitAt(n, 1) == 0
    ensures Rendered(n, 3, 0) == Glyphs(u, 0, 0)
  {
    Step(n, 3, 3, 0, "", "");
    Step(n, 3, 2, 0, "", "");
    Step(n, 3, 1, 0, "", "");
    Step(n, 3, 0, u, "", Glyphs(u, 0, 0));
  }

  /** The digits of 1_0000_0000 + u for a units digit u. */
  lemma HundredMillionDigits(n: nat, u: nat)
    requires u <= 9 && n == 1_0000_0000 + u
    ensures DigitAt(n, 8) == 1 && DigitAt(n, 0) == u
    ensures forall k :: 1 <= k <= 7 ==> DigitAt(n, k) == 0
  {
    assert Pow10(8) == 1_0000_0000;
    DivModUnique(n, 1_0000_0000, 1, u);
    forall k | 1 <= k <= 7
      ensures DigitAt(n, k) == 0
    {
      var p := Pow10(k);
      Pow10Monotone(1, k);
      Pow10Monotone(k + 1, 8);
      DivModUnique(n, p, 1_0000_0000 / p, u);
    }
  }

  /** One position added in front of what the positions above it contributed. */
  lemma Step(n: nat, top: int, lo: nat, d: nat, before: string, after: string)
    requires lo <= top <= 15 && DigitAt(n, lo) == d
    requires Rendered(n, top, lo + 1) == before
    requires after == before + Glyphs(d, Group(lo), Place(lo))
    ensures Rendered(n, top, lo) == after
  {
  }

  /** Values with 4 bits are estimated to reach position 1. */
  lemma FourBits(n: int)
    requires 8 <= n < 16
    ensures CountEstimate(n) == 1 && Kanji(n) == Ok(Rendered(n, 1, 0))
  {
    assert Pow2(3) == 8 && Pow2(4) == 16;
    IndexTableRows(60);
    KanjiByBitLength(n, 4);
  }

  /** Values with 7 bits are estimated to reach position 2. */
  lemma SevenBits(n: int)
    requires 64 <= n < 128
    ensures CountEstimate(n) == 2 && Kanji(n) == Ok(Rendered(n, 2, 0))
  {
    assert Pow2(6) == 64 && Pow2(7) == 128;
    IndexTableRows(57);
    KanjiByBitLength(n, 7);
  }

  /** Values with 14 bits are estimated to reach position 4. */
  lemma FourteenBits(n: int)
    requires 8192 <= n < 16384
    ensures CountEstimate(n) == 4 && Kanji(n) == Ok(Rendered(n, 4, 0))
  {
    assert Pow2(8) == 256;
    assert Pow2(13) == 8192 && Pow2(14) == 16384;
    IndexTableRows(50);
    KanjiByBitLength(n, 14);
  }

  /** Values with 27 bits are estimated to reach position 8. */
  lemma TwentySevenBits(n: int)
    requires 67108864 <= n < 134217728
    ensures CountEstimate(n) == 8 && Kanji(n) == Ok(Rendered(n, 8, 0))
  {
    assert Pow2(8) == 256;
    assert Pow2(16) == 65536;
    assert Pow2(24) == 16777216;
    assert Pow2(26) == 67108864 && Pow2(27) == 134217728;
    IndexTableRows(37);
    KanjiByBitLength(n, 27);
  }
}
