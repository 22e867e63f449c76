/**
 * Locale-formatted printing of unsigned integers (DiskTools/StringUtils.cpp): the
 * `Number_format` wrapper around the Windows NUMBERFMT record, its digit-grouping fold,
 * the unformatted fallback, and the decimal buffers of `pretty_print32`/`pretty_print64`.
 */
module StringUtils {
  import opened Wrappers
  import opened Packed
  import opened Numerals

  /** The NUMBERFMT record; the separators are absent until the locale fills them. */
  datatype NumberFmt = NumberFmt(
    numDigits: uint32,
    leadingZero: uint32,
    grouping: uint32,
    decimalSep: Option<string>,
    thousandSep: Option<string>,
    negativeOrder: uint32)

  /**
   * What `GetLocaleInfo` reports for a locale: the three numbers, the grouping text as
   * it lies in the 16-character buffer, the decimal separator and the monetary
   * thousands separator (the one the source asks for).
   */
  datatype LocaleInfo = LocaleInfo(
    digits: uint32,
    leadingZero: uint32,
    negativeOrder: uint32,
    groupingBuffer: string,
    decimalSep: string,
    monetaryThousandSep: string)

  // ---------------------------------------------------------------------------
  // The grouping fold.

  /** The text the pointer walk visits: the buffer up to its first NUL. */
  function TextBeforeNul(buffer: string): (s: string)
    ensures s <= buffer
    ensures forall i :: 0 <= i < |s| ==> s[i] != '\0'
    ensures |s| < |buffer| ==> buffer[|s|] == '\0'
  {
    if buffer == [] || buffer[0] == '\0' then [] else [buffer[0]] + TextBeforeNul(buffer[1..])
  }

  /** One step of the walk: a digit 1..9 is appended to the 32-bit UINT, anything else skipped. */
  function GroupingStep(grouping: uint32, c: char): uint32
  {
    if '1' <= c <= '9' then (grouping * 10 + (c as int - '0' as int)) % TwoTo32 else grouping
  }

  /** The walk over `s` from an initial `grouping`. */
  function GroupingFold(grouping: uint32, s: string): uint32
  {
    if s == [] then grouping else GroupingStep(GroupingFold(grouping, s[..|s| - 1]), s[|s| - 1])
  }

  /** The characters 1..9 of `s`, in order. */
  function NonzeroDigits(s: string): (d: string)
    ensures forall i :: 0 <= i < |d| ==> '1' <= d[i] <= '9'
  {
    if s == [] then []
    else NonzeroDigits(s[..|s| - 1]) + (if '1' <= s[|s| - 1] <= '9' then [s[|s| - 1]] else [])
  }

  /** Reducing before or after appending a digit gives the same 32-bit value. */
  lemma ModuloStep(a: nat, d: nat)
    ensures (a % TwoTo32 * 10 + d) % TwoTo32 == (10 * a + d) % TwoTo32
  {
    var q, r := a / TwoTo32, a % TwoTo32;
    assert a == q * TwoTo32 + r;
    assert 10 * a + d == (r * 10 + d) + (q * 10) * TwoTo32;
    AddMultipleModulo(r * 10 + d, q * 10);
  }

  lemma AddMultipleModulo(x: nat, k: nat)
    ensures (x + k * TwoTo32) % TwoTo32 == x % TwoTo32
  {
    var y := x + k * TwoTo32;
    assert y == (x / TwoTo32 + k) * TwoTo32 + x % TwoTo32;
  }

  /** Appending a digit 1..9 to the text appends it to the digits the fold reads. */
  lemma NonzeroDigitAppended(s: string)
    requires s != [] && '1' <= s[|s| - 1] <= '9'
    ensures DecimalValue(NonzeroDigits(s)) == 10 * DecimalValue(NonzeroDigits(s[..|s| - 1])) + (s[|s| - 1] as int - '0' as int)
  {
    var d := NonzeroDigits(s[..|s| - 1]);
    var e := NonzeroDigits(s);
    assert e == d + [s[|s| - 1]];
    assert e[..|e| - 1] == d;
  }

  /**
   * Starting from zero, the fold is the number the digits 1..9 of the text spell, with
   * '0', ';' and everything else dropped, reduced to 32 bits.
   */
  lemma {:induction false} GroupingIsNonzeroDigitValue(s: string)
    ensures GroupingFold(0, s) == DecimalValue(NonzeroDigits(s)) % TwoTo32
  {
    if s != [] {
      var init := s[..|s| - 1];
      var c := s[|s| - 1];
      GroupingIsNonzeroDigitValue(init);
      if '1' <= c <= '9' {
        NonzeroDigitAppended(s);
        ModuloStep(DecimalValue(NonzeroDigits(init)), c as int - '0' as int);
      } else {
        var d := NonzeroDigits(init);
        assert d + [] == d;
        assert NonzeroDigits(s) == d;
        assert GroupingFold(0, s) == GroupingFold(0, init);
      }
    }
  }

  /** "3;0" gives 3 and "3;2;0" gives 32: the separators and the trailing 0 are dropped. */
  lemma GroupingExamples()
    ensures GroupingFold(0, TextBeforeNul("3;0\0garbage")) == 3
    ensures GroupingFold(0, "3;2;0") == 32
    ensures GroupingFold(0, "") == 0
  {
    assert TextBeforeNul("3;0\0garbage") == "3;0" by {
      assert "3;0\0garbage"[1..] == ";0\0garbage";
      assert ";0\0garbage"[1..] == "0\0garbage";
      assert "0\0garbage"[1..] == "\0garbage";
    }
    assert "3;0"[..2] == "3;" && "3;"[..1] == "3" && "3"[..0] == "";
    assert "3;2;0"[..4] == "3;2;" && "3;2;"[..3] == "3;2" && "3;2"[..2] == "3;";
  }

  // ---------------------------------------------------------------------------
  // Number_format.

  /** `Number_format`: the NUMBERFMT record and the separator buffers it points into. */
  class NumberFormat {
    var numberFormat: NumberFmt

    /** The constructor zeroes the whole record, so the grouping starts at 0. */
    constructor ()
      ensures numberFormat == NumberFmt(0, 0, 0, None, None, 0)
    {
      numberFormat := NumberFmt(0, 0, 0, None, None, 0);
    }

    /**
     * `init_by_LCID`: the three numbers and both separators come from the locale; the
     * grouping text is folded into the grouping already held, not into zero.
     */
    method InitByLcid(locale: LocaleInfo)
      modifies this
      ensures numberFormat == NumberFmt(locale.digits, locale.leadingZero,
                                        GroupingFold(old(numberFormat.grouping), TextBeforeNul(locale.groupingBuffer)),
                                        Some(locale.decimalSep), Some(locale.monetaryThousandSep),
                                        locale.negativeOrder)
    {
      numberFormat := numberFormat.(numDigits := locale.digits, leadingZero := locale.leadingZero,
                                    negativeOrder := locale.negativeOrder);
      var buffer := locale.groupingBuffer;
      var position := 0;
      while position < |buffer| && buffer[position] != '\0'
        invariant position <= |TextBeforeNul(buffer)|
        invariant TextBeforeNul(buffer)[..position] == buffer[..position]
        invariant numberFormat.grouping == GroupingFold(old(numberFormat.grouping), buffer[..position])
        invariant numberFormat.numDigits == locale.digits && numberFormat.leadingZero == locale.leadingZero
        invariant numberFormat.negativeOrder == locale.negativeOrder
      {
        assert buffer[..position + 1][..position] == buffer[..position];
        if '1' <= buffer[position] <= '9' {
          var grouping: nat := numberFormat.grouping * 10 + (buffer[position] as int - '0' as int);
          numberFormat := numberFormat.(grouping := grouping % TwoTo32);
        }
        position := position + 1;
      }
      assert buffer[..position] == TextBeforeNul(buffer);
      numberFormat := numberFormat.(decimalSep := Some(locale.decimalSep),
                                    thousandSep := Some(locale.monetaryThousandSep));
    }

    /** `strip_decimal`: no fractional digits; nothing else changes. */
    method StripDecimal()
      modifies this
      ensures numberFormat == old(numberFormat).(numDigits := 0)
    {
      numberFormat := numberFormat.(numDigits := 0);
    }

    /** `get_number_format`: a copy of the record. */
    function GetNumberFormat(): (f: NumberFmt)
      reads this
      ensures f == numberFormat
    {
      numberFormat
    }
  }

  // ---------------------------------------------------------------------------
  // Output.

  /** The largest `size_in_chars` the callers may pass. */
  const IntMax: nat := 0x7FFF_FFFF

  /**
   * `StringCchCopy` into a buffer of `size` characters: nothing is written to a buffer
   * of size 0; otherwise the copy is cut to fit with its terminator.
   */
  function StringCchCopy(size: nat, source: string): (written: Option<string>)
    ensures written.None? <==> size == 0
    ensures written.Some? ==> |written.value| < size && written.value <= source
    ensures written == Some(source) <==> |source| < size
  {
    if size == 0 then None
    else if |source| < size then Some(source)
    else Some(source[..size - 1])
  }

  /** The record `output_formatted_number` hands to GetNumberFormat. */
  function NoDecimalFormat(locale: LocaleInfo): (f: NumberFmt)
    ensures f.numDigits == 0
  {
    NumberFmt(0, locale.leadingZero, GroupingFold(0, TextBeforeNul(locale.groupingBuffer)),
              Some(locale.decimalSep), Some(locale.monetaryThousandSep), locale.negativeOrder)
  }

  /** The Windows formatter: the text it writes, or None when it fails. */
  type Formatter = (NumberFmt, string, nat) -> Option<string>

  /** The output buffer after `output_formatted_number` (None: left unwritten). */
  function FormattedOutput(locale: LocaleInfo, format: Formatter, numberString: string, size: nat): Option<string>
  {
    var formatted := format(NoDecimalFormat(locale), numberString, size);
    if formatted.Some? then formatted else StringCchCopy(size, numberString)
  }

  /**
   * `output_formatted_number`: format with the user locale without decimals; when the
   * formatter fails, copy the digits as they are.
   */
  method OutputFormattedNumber(locale: LocaleInfo, format: Formatter, numberString: string, size: nat)
    returns (output: Option<string>)
    requires size <= IntMax
    ensures output == FormattedOutput(locale, format, numberString, size)
  {
    var numberFormat := new NumberFormat();
    numberFormat.InitByLcid(locale);
    numberFormat.StripDecimal();
    var numberFormatNoDecimal := numberFormat.GetNumberFormat();
    assert numberFormatNoDecimal == NoDecimalFormat(locale);
    output := format(numberFormatNoDecimal, numberString, size);
    if output.None? {
      output := StringCchCopy(size, numberString);
    }
  }

  /** A failed format leaves the digit string verbatim whenever it fits, and a prefix of it otherwise. */
  lemma FallbackCopiesDigits(locale: LocaleInfo, format: Formatter, numberString: string, size: nat)
    requires format(NoDecimalFormat(locale), numberString, size).None?
    ensures |numberString| < size ==> FormattedOutput(locale, format, numberString, size) == Some(numberString)
    ensures 0 < size ==> FormattedOutput(locale, format, numberString, size).value <= numberString
  {
  }

  /** The temporary buffers of `pretty_print32` and `pretty_print64`, terminator included. */
  const PrettyPrint32Buffer: nat := 11
  const PrettyPrint64Buffer: nat := 21

  /** n has at least k digits when 10^(k-1) <= n. */
  lemma {:induction false} DecimalLengthAtLeast(n: nat, k: nat)
    requires 1 <= k && Pow10(k - 1) <= n
    ensures k <= |DecimalDigits(n)|
  {
    if k > 1 {
      assert Pow10(k - 2) <= n / 10;
      DecimalLengthAtLeast(n / 10, k - 1);
    }
  }

  /**
   * Every uint32 has at most 10 digits and every uint64 at most 20, so with the
   * terminator each fits its buffer; the largest values fill them exactly.
   */
  lemma DigitBuffersFit()
    ensures forall v: uint32 :: |DecimalDigits(v)| + 1 <= PrettyPrint32Buffer
    ensures forall v: uint64 :: |DecimalDigits(v)| + 1 <= PrettyPrint64Buffer
    ensures |DecimalDigits(TwoTo32 - 1)| + 1 == PrettyPrint32Buffer
    ensures |DecimalDigits(TwoTo64 - 1)| + 1 == PrettyPrint64Buffer
  {
    assert Pow10(10) == 10_000_000_000 by {
      assert Pow10(5) == 100_000;
    }
    assert Pow10(20) == 100_000_000_000_000_000_000 by {
      assert Pow10(15) == 1_000_000_000_000_000;
    }
    forall v: uint32 ensures |DecimalDigits(v)| + 1 <= PrettyPrint32Buffer {
      DecimalLength(v, 10);
    }
    forall v: uint64 ensures |DecimalDigits(v)| + 1 <= PrettyPrint64Buffer {
      DecimalLength(v, 20);
    }
    DecimalLength(TwoTo32 - 1, 10);
    DecimalLength(TwoTo64 - 1, 20);
    DecimalLengthAtLeast(TwoTo32 - 1, 10);
    DecimalLengthAtLeast(TwoTo64 - 1, 20);
  }

  /** `pretty_print32`: the decimal digits of the value, formatted. */
  method PrettyPrint32(value: uint32, locale: LocaleInfo, format: Formatter, size: nat) returns (output: Option<string>)
    requires size <= IntMax
    ensures output == FormattedOutput(locale, format, DecimalDigits(value), size)
  {
    var tempBuffer := DecimalDigits(value);
    output := OutputFormattedNumber(locale, format, tempBuffer, size);
  }

  /** `pretty_print64`: the decimal digits of the value, formatted. */
  method PrettyPrint64(value: uint64, locale: LocaleInfo, format: Formatter, size: nat) returns (output: Option<string>)
    requires size <= IntMax
    ensures output == FormattedOutput(locale, format, DecimalDigits(value), size)
  {
    var tempBuffer := DecimalDigits(value);
    output := OutputFormattedNumber(locale, format, tempBuffer, size);
  }
}
