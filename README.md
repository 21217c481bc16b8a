# Kanji numeral converter

A Dafny model of `ToKanjiLib/Converter.cs`. The converter writes a
non-negative 64-bit integer of at most sixteen decimal digits as Japanese
kanji numerals. The output uses:

- the digit glyphs 〇一二三四五六七八九;
- the multipliers 十/百/千 within a four-digit group;
- the group words 万/億/兆 at the units place of each group above the lowest.

`ToKanji(long, Span<char>)` writes into a caller buffer and returns the
number of characters written. `ToKanji(long)` renders into a 50-character
buffer and returns the written part as a string.

The project has three modules:

- `Numerics` (`numerics.dfy`) holds powers of two and ten, the bit length of
  a value and `long.LeadingZeroCount` defined from it, the decimal logarithm,
  and digit extraction by division with remainder.
- `Converter` (`converter.dfy`) holds the glyph and lookup tables and the
  reference function `Kanji`. `Kanji` gives the output for every input,
  position by position, exactly as the loop emits it. The module also holds
  the imperative converter: `ToKanji` is a method over an `array<char>`,
  with the loop in `RenderDigits` and one iteration in `EmitPosition`. Each
  is proved to write what `Kanji` says and to leave every later cell alone.
- `ConverterProperties` (`properties.dfy`) holds the laws of the output:
  - the elision of 一 before a multiplier;
  - group words that depend only on the position;
  - the output alphabet;
  - the number of group words;
  - the range rule and buffer size;
  - worked outputs.

The model follows the code as written. In two respects the code differs
from conventional kanji numerals:

- **The leading position can be a zero digit.** The digit count is the
  estimate in `indexTable`, used as it is, and not corrected afterwards. For
  bit lengths up to 53 the estimate is the digit index of the largest value
  with that bit length, so for some inputs it is one position too high.
  9999 has 14 bits, like 16383, so its estimate is position 4. Conventional
  numerals write 九千九百九十九; the code writes 万九千九百九十九.
- **Every group above the lowest gets its group word.** The code writes
  万/億/兆 at the units place of each such group, whatever its digits.
  Conventional numerals write 一億 for 1_0000_0000 and 一億一 for
  1_0000_0001; the code writes 一億万 and 一億万一.

Notation used below:

- `Rendered(n, top, lo)` is what the loop writes for positions `top` down to
  `lo`.
- `Glyphs(d, man, ju)` is what one iteration writes for digit `d`.
- `Group(k)` and `Place(k)` are the source's `man` and `ju` at position `k`.

## Model

| member | source | states |
|---|---|---|
| Numerics.LeadingZeroCount | ToKanjiLib/Converter.cs:57 | For 0 <= n < 2^63 the count is at most 64. It is 64 exactly for 0. For positive n, 2^(63-r) <= n < 2^(64-r), so the highest set bit is bit 63 - r. |
| Numerics.DigitAt | ToKanjiLib/Converter.cs:65 | The quotient of the division at a position is a single decimal digit, 0 to 9, so it indexes `Chars1`. |
| Numerics.PeelDigit | ToKanjiLib/Converter.cs:65 | Dividing the input's value below position k+1 by 10^k gives the digit at k as quotient. The remainder is the value below position k. |
| Numerics.RecomposeDigits | ToKanjiLib/Converter.cs:63-65 | The digits at positions 0..top, times their powers of ten, add up to n mod 10^(top+1). This is what remains after the positions above have been peeled off. |
| Numerics.RecomposeValue | ToKanjiLib/Converter.cs:63-65 | A value below 10^(top+1) equals the sum of its digits at positions 0..top, each times its power of ten. |
| Numerics.LeadingDigitNonZero | ToKanjiLib/Converter.cs:65-71 | The digit of a positive value at its most significant position is nonzero. |
| Converter.PowersOf10Exact | ToKanjiLib/Converter.cs:35-53 | Every entry i of `powersOf10` is 10^i. |
| Converter.EstimateFitsAt | ToKanjiLib/Converter.cs:26-33 | For every bit length b from 1 to 54, the entry `indexTable[64 - b]` has three properties. It indexes `powersOf10`. Every value with b bits, up to the maximum, is below 10 times its power of ten. The smallest such value is at least the power of ten one index lower. |
| Converter.CountEstimate | ToKanjiLib/Converter.cs:26-57 | For 0 < n <= 9999_9999_9999_9999, `indexTable[LeadingZeroCount(n)]` indexes `powersOf10` and n < 10^(count+1). It equals floor(log10 n) or one more. |
| Converter.Group | ToKanjiLib/Converter.cs:59 | `man` at a position is never negative there and at most a quarter of it. |
| Converter.Place | ToKanjiLib/Converter.cs:59 | `ju` at a position always lies in 0..3, so it indexes `Chars2`. |
| Converter.GroupPlace | ToKanjiLib/Converter.cs:59 | (`Group(k)`, `Place(k)`) is `Math.DivRem(k, 4)`. 4·man + ju = k, and man <= 3 exactly for the positions up to 15. |
| Converter.NextPosition | ToKanjiLib/Converter.cs:85-91 | The step `--ju`, wrapping to 3 with `--man`, takes (`man`, `ju`) of position i to that of position i - 1. |
| Converter.GroupUnits | ToKanjiLib/Converter.cs:80 | Position k has man = w and ju = 0 exactly when k = 4w. |
| Converter.Glyphs | ToKanjiLib/Converter.cs:67-83 | One iteration writes at most two characters. |
| Converter.Kanji | ToKanjiLib/Converter.cs:15-94 | Every accepted input has an output of 1 to 32 characters. |
| Converter.RenderedLength | ToKanjiLib/Converter.cs:63-92 | Positions top..lo produce at most two characters each. |
| Converter.RenderedSplit | ToKanjiLib/Converter.cs:63 | The output of positions top..lo is that of top..mid followed by that of mid-1..lo. The loop appends in reading order. |
| Converter.RenderedNonEmpty | ToKanjiLib/Converter.cs:63-77 | A positive input below 10^(count+1) produces at least one character, whatever the overshoot of count. |
| Converter.Needed | ToKanjiLib/Converter.cs:61-94 | The number of characters written is at most 32. |
| Converter.Put | ToKanjiLib/Converter.cs:71 | `destination[length++] = c` writes c at the cursor, advances the cursor by one and changes no other cell. |
| Converter.PutGlyphs | ToKanjiLib/Converter.cs:67-83 | The writes of one iteration append exactly `Glyphs(div, man, ju)` at the cursor and leave every later cell unchanged. |
| Converter.EmitPosition | ToKanjiLib/Converter.cs:65-83 | One iteration at position i starts from the value below position i+1. It leaves the value below position i, and extends the written prefix from the glyphs of positions above i to those of positions down to i. Later cells are unchanged. |
| Converter.RenderDigits | ToKanjiLib/Converter.cs:59-94 | The loop from i = count down to 0 returns the length of `Rendered(number, count, 0)`. It writes exactly that prefix and nothing after it. |
| Converter.ToKanji | ToKanjiLib/Converter.cs:11-95 | A negative input returns `LessThanZero` and one above the maximum returns `GreaterThanMax`, with the buffer untouched. Otherwise the result is the length of `Kanji(number)`, which is written at the front of the buffer, and no later cell changes. |
| Converter.ToKanjiString | ToKanjiLib/Converter.cs:97-104 | Rendering into a fresh 50-character buffer returns exactly `Kanji(number)` for every input, errors included. |
| ConverterProperties.DigitGlyphRule | ToKanjiLib/Converter.cs:67-77 | A digit's glyph is written exactly when the digit is nonzero and is not a 1 before 十/百/千 in the units group. A multiplier is written exactly after a nonzero digit. |
| ConverterProperties.GroupWordRule | ToKanjiLib/Converter.cs:80-83 | A group word occurs once at the units place of its group and nowhere else, whatever the digit. It is the last character of that position. |
| ConverterProperties.RenderedAlphabet | ToKanjiLib/Converter.cs:63-83 | Every character written for any range of positions is a digit glyph, 十/百/千 or 万/億/兆. |
| ConverterProperties.KanjiAlphabet | ToKanjiLib/Converter.cs:15-94 | Every character of every output is a digit glyph, 十/百/千 or 万/億/兆. |
| ConverterProperties.RenderedGroupWords | ToKanjiLib/Converter.cs:80-83 | Positions top..lo hold group word w exactly once if 4w is among them, and otherwise not at all. |
| ConverterProperties.KanjiGroupWords | ToKanjiLib/Converter.cs:57-83 | The output of a positive input holds each group word w once if 4w <= count, and otherwise not at all. |
| ConverterProperties.RangeRule | ToKanjiLib/Converter.cs:15-16 | An input is rejected exactly when it is negative or above 9999_9999_9999_9999, with the matching error. |
| ConverterProperties.DigitsAccountForInput | ToKanjiLib/Converter.cs:63-65 | The positions count..0 that the loop visits hold every digit of an accepted input. At every position i, the digits already extracted above i, with their powers of ten, plus the remainder below i + 1 give back the input. |
| ConverterProperties.BufferSuffices | ToKanjiLib/Converter.cs:99 | No input needs more than 32 characters, fewer than the 50 of the buffer. |
| ConverterProperties.KanjiByBitLength | ToKanjiLib/Converter.cs:26-57 | An input with b bits uses the estimate `indexTable[64 - b]`, with b <= 54. Its output is that of the positions from there down to 0. |
| ConverterProperties.ZeroExample | ToKanjiLib/Converter.cs:18-22 | 0 gives 〇. |
| ConverterProperties.TensRule | ToKanjiLib/Converter.cs:67-77 | From 10 to 15 the output is 十 followed by the glyph of the units digit, if any. |
| ConverterProperties.TenExample | ToKanjiLib/Converter.cs:67-77 | 10 gives 十. |
| ConverterProperties.ElevenExample | ToKanjiLib/Converter.cs:67-77 | 11 gives 十一. |
| ConverterProperties.HundredsRule | ToKanjiLib/Converter.cs:67-77 | From 100 to 127 the output is 百 followed by the glyphs of the tens and the units digit. |
| ConverterProperties.HundredExample | ToKanjiLib/Converter.cs:67-77 | 100 gives 百. |
| ConverterProperties.HundredOneExample | ToKanjiLib/Converter.cs:67-77 | 101 gives 百一. |
| ConverterProperties.HundredTenExample | ToKanjiLib/Converter.cs:67-77 | 110 gives 百十. |
| ConverterProperties.TenThousandExample | ToKanjiLib/Converter.cs:67-83 | 10000 gives 一万. |
| ConverterProperties.OvershootExample | ToKanjiLib/Converter.cs:57-83 | The estimate for 9999 is 4 while its leading digit is at 3, and 9999 gives 万九千九百九十九. |
| ConverterProperties.EmptyGroupRule | ToKanjiLib/Converter.cs:80-83 | From 1_0000_0000 to 1_0000_0009 the output is 一億万 followed by the glyph of the units digit, if any. |
| ConverterProperties.HundredMillionExample | ToKanjiLib/Converter.cs:80-83 | 1_0000_0000 gives 一億万. |
| ConverterProperties.HundredMillionOneExample | ToKanjiLib/Converter.cs:80-83 | 1_0000_0001 gives 一億万一. |

## Left out

- `ToKanjiLib/SpanExtensions.cs` is not part of this model. It holds unsafe `ref` arithmetic helpers that the converter does not use.
- `long.LeadingZeroCount` is a hardware intrinsic. `Numerics.LeadingZeroCount` defines it as 64 minus the bit length of the value; it is not derived from a bit-level model of the instruction.
- `ArgumentOutOfRangeException` is modelled as an `Err` result with the error it names, not as an exception.
- A destination shorter than the output makes the source throw on an out-of-range `Span` write. `Converter.ToKanji` instead requires a destination with room for `Kanji(number)`, as `Needed` counts it. Such a buffer always fits in 50 characters.
- `stackalloc` and `ToString` in `ToKanji(long)` are reduced to a fresh array and the sequence of its written prefix.
- Fixed-width arithmetic is not modelled. Every intermediate value lies below 10^16 < 2^63, so no `long` operation in the loop can overflow. The `(int)` casts of table entries and of the leading-zero count are exact.
