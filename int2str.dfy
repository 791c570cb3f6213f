/** A model of int2str (tasks/task_basic_c/task_int2str/int2str.c): a 32-bit
    signed integer written in decimal into a 13-character buffer, filled
    from the right, and the index of its first character. */
module Int2Str {

  /** malloc(13): ten digits, a sign and a terminator fit with room to spare. */
  const BufferSize: nat := 13
  /** The index the terminator is written at, and where the fill starts. */
  const Last: nat := 12

  const IntMin: int := -0x8000_0000
  const IntMax: int := 0x7fff_ffff

  function Abs(n: int): nat
  {
    if n < 0 then -n else n
  }

  function Pow10(k: nat): nat
  {
    if k == 0 then 1 else 10 * Pow10(k - 1)
  }

  /** absolute % 10 + '0'. */
  function DigitChar(d: nat): (c: char)
    requires d < 10
    ensures '0' <= c <= '9'
    ensures c == '0' <==> d == 0
  {
    ('0' as int + d) as char
  }

  /** The decimal digits of `n`, most significant first; none for 0, so a
      positive number's digits never start with '0'. */
  function Digits(n: nat): seq<char>
    decreases n
  {
    if n == 0 then [] else Digits(n / 10) + [DigitChar(n % 10)]
  }

  /** The text int2str produces for `number`: a '-' for a negative number,
      then the digits of its magnitude, or "0". */
  function DecimalText(number: int): seq<char>
  {
    (if number < 0 then "-" else "") + (if number == 0 then "0" else Digits(Abs(number)))
  }

  /** Reading decimal text back: the reference the encoder is checked
      against. */
  function DigitsValue(s: seq<char>): int
  {
    if s == [] then 0 else 10 * DigitsValue(s[..|s| - 1]) + (s[|s| - 1] as int - '0' as int)
  }

  function ParseDecimal(s: seq<char>): int
  {
    if |s| > 0 && s[0] == '-' then -DigitsValue(s[1..]) else DigitsValue(s)
  }

  lemma {:induction false} DigitsRoundTrip(n: nat)
    ensures DigitsValue(Digits(n)) == n
  {
    if n > 0 {
      DigitsRoundTrip(n / 10);
      var s := Digits(n);
      assert s[..|s| - 1] == Digits(n / 10);
    }
  }

  lemma {:induction false} DigitsAreDecimal(n: nat)
    ensures forall i :: 0 <= i < |Digits(n)| ==> '0' <= Digits(n)[i] <= '9'
  {
    if n > 0 {
      DigitsAreDecimal(n / 10);
    }
  }

  /** Digits of a positive number are non-empty and start with a non-zero
      digit: the loop stops as soon as the magnitude reaches 0. */
  lemma {:induction false} DigitsNoLeadingZero(n: nat)
    ensures |Digits(n)| > 0 <==> n > 0
    ensures n > 0 ==> Digits(n)[0] != '0'
  {
    if n >= 10 {
      DigitsNoLeadingZero(n / 10);
    }
  }

  lemma {:induction false} DigitsLength(n: nat, k: nat)
    requires n < Pow10(k)
    ensures |Digits(n)| <= k
  {
    if n > 0 {
      assert k > 0;
      DigitsLength(n / 10, k - 1);
    }
  }

  /** Reading back what int2str writes gives the number it was given. */
  lemma DecimalTextRoundTrip(number: int)
    ensures ParseDecimal(DecimalText(number)) == number
  {
    var digits := if number == 0 then "0" else Digits(Abs(number));
    if number == 0 {
      assert "0"[..0] == [];
    } else {
      DigitsRoundTrip(Abs(number));
      DigitsNoLeadingZero(Abs(number));
    }
    assert digits[0] != '-' by {
      DigitsAreDecimal(Abs(number));
    }
    if number < 0 {
      assert DecimalText(number)[1..] == digits;
    } else {
      assert DecimalText(number) == digits;
    }
  }

  /** The shape of the text: a sign exactly when negative, then at least one
      and at most ten decimal digits with no leading zero. */
  lemma DecimalTextShape(number: int)
    requires IntMin <= number <= IntMax
    ensures var sign := if number < 0 then 1 else 0;
      && sign < |DecimalText(number)| <= sign + 10
      && (DecimalText(number)[0] == '-' <==> number < 0)
      && (forall i :: sign <= i < |DecimalText(number)| ==> '0' <= DecimalText(number)[i] <= '9')
      && (DecimalText(number)[sign] == '0' ==> number == 0)
  {
    var digits := if number == 0 then "0" else Digits(Abs(number));
    DigitsAreDecimal(Abs(number));
    DigitsNoLeadingZero(Abs(number));
    DigitsLength(Abs(number), 10);
    assert DecimalText(number) == (if number < 0 then "-" else "") + digits;
  }

  /** int2str: the buffer (null when malloc fails, with nothing written)
      and the index of the first character of the text.  The terminator
      sits in the last slot and the text ends just before it. */
  method Int2Str(number: int, mallocSucceeds: bool) returns (str: array?<char>, start: nat)
    requires IntMin <= number <= IntMax
    ensures str == null <==> !mallocSucceeds
    ensures str != null ==>
      && fresh(str) && str.Length == BufferSize
      && 1 <= start < Last && str[Last] == '\0'
      && str[start..Last] == DecimalText(number)
  {
    if !mallocSucceeds {
      return null, 0;
    }
    str := new char[BufferSize];
    var i := Last;
    var absolute: nat := Abs(number);
    str[i] := '\0';
    if number == 0 {
      i := i - 1;
      str[i] := '0';
    } else {
      i := WriteDigits(str, absolute);
    }
    if number < 0 {
      ghost var written := str[i..Last];
      i := i - 1;
      str[i] := '-';
      assert str[i..Last] == "-" + written;
    }
    start := i;
  }

  /** The digit loop of int2str: the digits of `absolute` are written right
      to left into the slots just before the terminator, one per step. */
  method WriteDigits(str: array<char>, absolute: nat) returns (i: nat)
    requires str.Length == BufferSize && str[Last] == '\0'
    requires 0 < absolute <= -IntMin
    modifies str
    ensures 1 < i < Last && str[Last] == '\0'
    ensures str[i..Last] == Digits(absolute)
  {
    DigitsLength(absolute, 10);
    i := Last;
    var rest := absolute;
    while rest > 0
      invariant 0 < i <= Last && str[Last] == '\0'
      invariant Digits(rest) + str[i..Last] == Digits(absolute)
      invariant |Digits(rest)| + (Last - i) <= 10
      decreases rest
    {
      ghost var written := str[i..Last];
      assert Digits(rest) == Digits(rest / 10) + [DigitChar(rest % 10)];
      i := i - 1;
      str[i] := DigitChar(rest % 10);
      assert str[i..Last] == [DigitChar(rest % 10)] + written;
      rest := rest / 10;
    }
    assert str[i..Last] == Digits(absolute);
    DigitsNoLeadingZero(absolute);
  }
}
