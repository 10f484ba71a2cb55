/**
 * The display helpers of src/utils.go: reading a counter out of the
 * statistics CSV (stringToInt), rendering a byte count with a binary unit
 * (formatBytes) and shortening a string (truncate). main.go carries
 * identical copies of all three.
 */
module Format {
  import opened Text
  import opened Decimal

  const Int64Min: int := -0x8000_0000_0000_0000
  const Int64Max: int := 0x7FFF_FFFF_FFFF_FFFF

  predicate InInt64(n: int)
  {
    Int64Min <= n <= Int64Max
  }

  // ---------------------------------------------------------------------
  // stringToInt

  /** The white space fmt's scanner skips before a number: every space but a newline, which ends the scan. */
  function SkipBlanks(s: string): (r: string)
    ensures |r| <= |s| && r == s[|s| - |r|..]
    ensures r == [] || r[0] == '\n' || !IsSpace(r[0])
  {
    if s != [] && s[0] != '\n' && IsSpace(s[0]) then SkipBlanks(s[1..]) else s
  }

  /** The longest prefix of s made of digits. */
  function DigitPrefix(s: string): (d: string)
    ensures |d| <= |s| && d == s[..|d|] && AllDigits(d)
    ensures |d| == |s| || !IsDigit(s[|d|])
  {
    if s != [] && IsDigit(s[0]) then [s[0]] + DigitPrefix(s[1..]) else []
  }

  /**
   * stringToInt: fmt.Sscanf(s, "%d", &i) into an int64 that starts at 0. The
   * scan skips blanks, takes an optional sign and then every digit, and
   * ignores what follows; when it fails (no digit, a newline first, a value
   * outside int64) nothing is stored and the result stays 0.
   */
  function StringToInt(s: string): (i: int)
    ensures InInt64(i)
  {
    var t := SkipBlanks(s);
    var negative := t != [] && t[0] == '-';
    var body := if t != [] && (t[0] == '-' || t[0] == '+') then t[1..] else t;
    var digits := DigitPrefix(body);
    if digits == [] then 0
    else
      var v: int := if negative then -(Value(digits) as int) else Value(digits);
      if InInt64(v) then v else 0
  }

  lemma {:induction false} DigitPrefixOf(d: string, rest: string)
    requires AllDigits(d)
    requires rest == [] || !IsDigit(rest[0])
    ensures DigitPrefix(d + rest) == d
  {
    if d != [] {
      assert (d + rest)[1..] == d[1..] + rest;
      DigitPrefixOf(d[1..], rest);
      assert d == [d[0]] + d[1..];
    } else {
      assert d + rest == rest;
    }
  }

  /** Digits, then something that is not a digit: stringToInt reads the number if it fits in int64. */
  lemma StringToIntDigits(d: string, rest: string)
    requires |d| >= 1 && AllDigits(d)
    requires rest == [] || !IsDigit(rest[0])
    ensures StringToInt(d + rest) == if Value(d) <= Int64Max then Value(d) else 0
  {
    DigitFirst(d, rest);
    DigitPrefixOf(d, rest);
  }

  /** A minus sign, digits, then something that is not a digit: stringToInt reads the negative number if it fits in int64. */
  lemma StringToIntNegative(d: string, rest: string)
    requires |d| >= 1 && AllDigits(d)
    requires rest == [] || !IsDigit(rest[0])
    ensures var v := -(Value(d) as int); StringToInt("-" + d + rest) == if v >= Int64Min then v else 0
  {
    SignDropped(d + rest);
    assert "-" + d + rest == "-" + (d + rest);
    DigitPrefixOf(d, rest);
  }

  lemma DigitFirst(d: string, rest: string)
    requires |d| >= 1 && IsDigit(d[0])
    ensures var s := d + rest; s[0] == d[0] && SkipBlanks(s) == s
  {
  }

  lemma SignDropped(t: string)
    ensures var s := "-" + t; s[0] == '-' && s[1..] == t && SkipBlanks(s) == s
  {
  }

  /** stringToInt reads back the leading numeral `%d` writes, whatever non-digit text follows it. */
  lemma StringToIntReadsDecimal(n: int, rest: string)
    requires InInt64(n)
    requires rest == [] || !IsDigit(rest[0])
    ensures StringToInt(IntToDecimal(n) + rest) == n
  {
    if n < 0 {
      StringToIntNegative(NatToDecimal(-n), rest);
    } else {
      StringToIntDigits(NatToDecimal(n), rest);
    }
  }

  /** stringToInt reads back every int64 that `%d` writes. */
  lemma StringToIntRoundTrip(n: int)
    requires InInt64(n)
    ensures StringToInt(IntToDecimal(n)) == n
  {
    StringToIntReadsDecimal(n, "");
    assert IntToDecimal(n) + "" == IntToDecimal(n);
  }

  /** Text without a single digit, the empty string included, reads as 0. */
  lemma StringToIntWithoutDigits(s: string)
    requires forall i :: 0 <= i < |s| ==> !IsDigit(s[i])
    ensures StringToInt(s) == 0
  {
    var t := SkipBlanks(s);
    var body := if t != [] && (t[0] == '-' || t[0] == '+') then t[1..] else t;
    assert body != [] ==> body[0] == s[|s| - |body|];
  }

  // ---------------------------------------------------------------------
  // formatBytes

  const Unit := 1024

  /** The unit letters, one per further power of 1024 ("%cB" appends the B). */
  const Units := "KMGTPE"

  function Pow1024(k: nat): (p: nat)
    ensures p >= 1
  {
    if k == 0 then 1 else Unit * Pow1024(k - 1)
  }

  /** How many more divisions by 1024 bring n below 1024. */
  function Steps(n: int): nat
    decreases n
  {
    if n < Unit then 0 else 1 + Steps(n / Unit)
  }

  /** Unit letter e (0 for K) is the right one for b: 1024^(e+1) <= b < 1024^(e+2). */
  predicate ScaledBy(b: int, e: nat)
  {
    Pow1024(e + 1) <= b < Pow1024(e + 2)
  }

  lemma {:induction false} StepsScale(b: int)
    requires b >= Unit
    ensures ScaledBy(b, Steps(b / Unit))
    decreases b
  {
    var n := b / Unit;
    if n >= Unit {
      StepsScale(n);
      var e := Steps(n / Unit);
      assert Pow1024(e + 3) == Unit * Pow1024(e + 2);
    }
  }

  lemma {:induction false} Pow1024Monotone(i: nat, j: nat)
    requires i <= j
    ensures Pow1024(i) <= Pow1024(j)
    decreases j
  {
    if i < j {
      Pow1024Monotone(i, j - 1);
    }
  }

  /** For every int64 the unit letter index is at most 5, so "KMGTPE"[exp] is in range. */
  lemma ExponentBound(b: int)
    requires Unit <= b <= Int64Max
    ensures Steps(b / Unit) < |Units|
  {
    StepsScale(b);
    Pow1024Grows(Steps(b / Unit) + 1);
  }

  lemma {:induction false} Pow1024Grows(k: nat)
    ensures k >= 7 ==> Pow1024(k) >= 0x40_0000_0000_0000_0000
  {
    if k > 7 {
      Pow1024Grows(k - 1);
    } else if k == 7 {
      assert Pow1024(7) == 0x40_0000_0000_0000_0000;
    }
  }

  function Pow2(k: nat): (p: nat)
    ensures p >= 1
  {
    if k == 0 then 1 else 2 * Pow2(k - 1)
  }

  function BitLength(n: nat): nat
  {
    if n == 0 then 0 else 1 + BitLength(n / 2)
  }

  /** x / m rounded to the nearest integer, ties to the even one (IEEE 754 and strconv both round so). */
  function RoundHalfEven(x: nat, m: nat): nat
    requires m > 0
  {
    var q := x / m;
    var r := x % m;
    if 2 * r > m || (2 * r == m && q % 2 == 1) then q + 1 else q
  }

  /** float64(b): b rounded to 53 significant bits. */
  function Float64Of(b: nat): nat
  {
    if BitLength(b) <= 53 then b
    else
      var m := Pow2(BitLength(b) - 53);
      RoundHalfEven(b, m) * m
  }

  lemma {:induction false} BitLengthBelow(n: nat, k: nat)
    requires n < Pow2(k)
    ensures BitLength(n) <= k
  {
    if n > 0 {
      BitLengthBelow(n / 2, k - 1);
    }
  }

  lemma {:induction false} Pow2Add(a: nat, b: nat)
    ensures Pow2(a + b) == Pow2(a) * Pow2(b)
  {
    if b > 0 {
      Pow2Add(a, b - 1);
    }
  }

  lemma Pow2Values()
    ensures Pow2(20) == 1048576 && Pow2(21) == 2097152
  {
    assert Pow2(10) == 1024;
    Pow2Add(10, 10);
  }

  /** float64 holds every integer below 2^53 exactly. */
  lemma Float64Exact(b: nat, k: nat)
    requires k <= 53 && b < Pow2(k)
    ensures Float64Of(b) == b
  {
    BitLengthBelow(b, k);
  }

  /**
   * `%.1f` of x / div for x / div >= 1, where div is a power of two, so the
   * float division is exact: the quotient rounded to tenths, ties to even.
   */
  function OneDecimal(x: nat, div: nat): string
    requires div > 0
  {
    var tenths := RoundHalfEven(10 * x, div);
    NatToDecimal(tenths / 10) + "." + [DigitChar(tenths % 10)]
  }

  /** "%.1f %cB" of b scaled by unit letter e. */
  function Scaled(b: nat, e: nat): string
    requires e < |Units|
  {
    OneDecimal(Float64Of(b), Pow1024(e + 1)) + " " + [Units[e]] + "B"
  }

  /** formatBytes(bytes) as a value, for the specifications that need it. */
  function FormatBytesText(bytes: string): string
  {
    var b := StringToInt(bytes);
    if b < Unit then IntToDecimal(b) + " B"
    else
      ExponentBound(b);
      Scaled(b, Steps(b / Unit))
  }

  /**
   * formatBytes: below 1024 (negative values included) the number itself
   * with " B"; otherwise the largest binary unit that leaves a quotient of
   * at least 1, found by dividing by 1024 until the quotient drops below 1024.
   */
  method FormatBytes(bytes: string) returns (text: string)
    ensures text == FormatBytesText(bytes)
    ensures StringToInt(bytes) < Unit ==> text == IntToDecimal(StringToInt(bytes)) + " B"
    ensures StringToInt(bytes) >= Unit ==>
      exists e :: 0 <= e < |Units| && ScaledBy(StringToInt(bytes), e) && text == Scaled(StringToInt(bytes), e)
  {
    var b := StringToInt(bytes);
    if b < Unit {
      return IntToDecimal(b) + " B";
    }
    ExponentBound(b);
    var div, exp := Unit, 0;
    var n := b / Unit;
    while n >= Unit
      invariant div == Pow1024(exp + 1) && div <= Pow1024(6)
      invariant n >= 0 && exp + Steps(n) == Steps(b / Unit)
      decreases n
    {
      div := div * Unit;
      exp := exp + 1;
      n := n / Unit;
      Pow1024Monotone(exp + 1, 6);
    }
    StepsScale(b);
    text := OneDecimal(Float64Of(b), div) + " " + [Units[exp]] + "B";
  }

  /** Below 1024, negative numbers included, formatBytes shows the number itself. */
  lemma FormatBytesBelowUnit(n: int)
    requires Int64Min <= n < Unit
    ensures FormatBytesText(IntToDecimal(n)) == IntToDecimal(n) + " B"
  {
    StringToIntRoundTrip(n);
  }

  /** From 1024 on, formatBytes shows the quotient by the power of 1024 that ScaledBy picks, with its letter. */
  lemma FormatBytesAboveUnit(n: int)
    requires Unit <= n <= Int64Max
    ensures Steps(n / Unit) < |Units| && ScaledBy(n, Steps(n / Unit))
    ensures FormatBytesText(IntToDecimal(n)) == Scaled(n, Steps(n / Unit))
  {
    StringToIntRoundTrip(n);
    ExponentBound(n);
    StepsScale(n);
  }

  /** The number itself below 1024. */
  lemma FormatBytesBelowUnitExample()
    ensures FormatBytesText("1023") == "1023 B"
  {
    assert IntToDecimal(1023) == "1023";
    FormatBytesBelowUnit(1023);
  }

  /** Text without digits shows as 0. */
  lemma FormatBytesNonNumericExample()
    ensures FormatBytesText("abc") == "0 B"
  {
    assert !IsDigit('a') && !IsDigit('b') && !IsDigit('c');
    StringToIntWithoutDigits("abc");
    assert IntToDecimal(0) == "0";
  }

  lemma ScaledKiB()
    ensures Scaled(1024, 0) == "1.0 KB"
  {
    assert Pow2(11) == 2048;
    Float64Exact(1024, 11);
  }

  /** 1024 is the first value with a unit letter. */
  lemma FormatBytesKiB()
    ensures FormatBytesText("1024") == "1.0 KB"
  {
    assert IntToDecimal(1024) == "1024";
    FormatBytesAboveUnit(1024);
    assert Steps(1024 / Unit) == 0;
    ScaledKiB();
  }

  lemma ScaledAlmostMiB()
    ensures Scaled(1048575, 0) == "1024.0 KB"
  {
    Pow2Values();
    Float64Exact(1048575, 20);
    assert Pow1024(1) == 1024;
    OneDecimalAlmostMiB();
  }

  lemma TenthsAlmostMiB()
    ensures RoundHalfEven(10 * 1048575, 1024) == 10240
  {
    assert 10485750 / 1024 == 10239;
    assert 10485750 % 1024 == 1014;
  }

  /** 1048575 / 1024 is 1023.999..., which rounds up to 1024.0. */
  lemma OneDecimalAlmostMiB()
    ensures OneDecimal(1048575, 1024) == "1024.0"
  {
    TenthsAlmostMiB();
    NumeralOneKi();
  }

  lemma NumeralAlmostMiB()
    ensures IntToDecimal(1048575) == "1048575"
  {
    assert NatToDecimal(104) == "104";
    assert NatToDecimal(10485) == "10485";
    assert NatToDecimal(1048575) == "1048575";
  }

  lemma NumeralOneKi()
    ensures NatToDecimal(1024) == "1024"
  {
    assert NatToDecimal(102) == "102";
  }

  /** One byte short of 1 MiB keeps the K letter and rounds to 1024.0. */
  lemma FormatBytesAlmostMiB()
    ensures FormatBytesText("1048575") == "1024.0 KB"
  {
    NumeralAlmostMiB();
    FormatBytesAboveUnit(1048575);
    assert Steps(1048575 / Unit) == 0;
    ScaledAlmostMiB();
  }

  lemma ScaledOneAndAHalfMiB()
    ensures Scaled(1572864, 1) == "1.5 MB"
  {
    Pow2Values();
    Float64Exact(1572864, 21);
    assert Pow1024(2) == 1048576;
    TenthsOneAndAHalfMiB();
  }

  lemma TenthsOneAndAHalfMiB()
    ensures RoundHalfEven(10 * 1572864, 1048576) == 15
  {
    assert 15728640 / 1048576 == 15;
    assert 15728640 % 1048576 == 0;
  }

  lemma NumeralOneAndAHalfMiB()
    ensures IntToDecimal(1572864) == "1572864"
  {
    assert NatToDecimal(157) == "157";
    assert NatToDecimal(15728) == "15728";
    assert NatToDecimal(1572864) == "1572864";
  }

  /** 1.5 MiB selects M. */
  lemma FormatBytesOneAndAHalfMiB()
    ensures FormatBytesText("1572864") == "1.5 MB"
  {
    NumeralOneAndAHalfMiB();
    FormatBytesAboveUnit(1572864);
    assert Steps(1572864 / Unit) == 1 by {
      assert 1572864 / Unit == 1536;
      assert Steps(1536) == 1 + Steps(1);
    }
    ScaledOneAndAHalfMiB();
  }

  // ---------------------------------------------------------------------
  // truncate

  /**
   * truncate: s when it fits in length, otherwise its first length - 3
   * characters and "...". Slicing with a negative bound panics in Go, so a
   * string longer than length needs length >= 3.
   */
  function Truncate(s: string, length: int): (r: string)
    requires |s| <= length || length >= 3
    ensures |s| <= length ==> r == s
    ensures |s| > length ==> |r| == length && r == s[..length - 3] + "..."
  {
    if |s| <= length then s else s[..length - 3] + "..."
  }
}
