/** Bytes, and the numbers they encode. */
module ByteFields {

  type byte = x: int | 0 <= x < 256

  /** A field, the least significant byte first. */
  function Le(s: seq<byte>): nat {
    if s == [] then 0 else s[0] as nat + 0x100 * Le(s[1..])
  }

  /** A number as a field of k bytes. */
  function LeBytes(n: nat, k: nat): (s: seq<byte>)
    ensures |s| == k
  {
    if k == 0 then [] else [n % 0x100] + LeBytes(n / 0x100, k - 1)
  }

  function Power256(k: nat): nat {
    if k == 0 then 1 else 0x100 * Power256(k - 1)
  }

  /** Reading inverts writing, for a number that fits. */
  lemma {:induction false} LeRoundTrip(n: nat, k: nat)
    requires n < Power256(k)
    ensures Le(LeBytes(n, k)) == n
  {
    if k == 0 {
    } else {
      LeRoundTrip(n / 0x100, k - 1);
      assert LeBytes(n, k)[1..] == LeBytes(n / 0x100, k - 1);
    }
  }

  /** The sizes of the fields that occur. */
  lemma FieldSizes()
    ensures Power256(1) == 0x100 && Power256(2) == 0x1_0000 && Power256(4) == 0x1_0000_0000
    ensures Power256(8) == 0x1_0000_0000_0000_0000
  {
    assert Power256(4) == 0x100 * (0x100 * (0x100 * (0x100 * Power256(0))));
    assert Power256(8) == 0x100 * (0x100 * (0x100 * (0x100 * Power256(4))));
  }

  lemma LeOfTwo(s: seq<byte>)
    requires |s| == 2
    ensures Le(s) == s[0] as nat + 0x100 * s[1] as nat
  {
    assert Le(s[1..]) == s[1] as nat + 0x100 * Le(s[1..][1..]);
  }

  lemma LeOfFour(s: seq<byte>)
    requires |s| == 4
    ensures Le(s) == s[0] as nat + 0x100 * s[1] as nat + 0x1_0000 * s[2] as nat + 0x100_0000 * s[3] as nat
  {
    LeOfTwo(s[2..]);
    assert s[1..][1..] == s[2..];
    assert Le(s[1..]) == s[1] as nat + 0x100 * Le(s[2..]);
  }
}

/** C strings in memory, and the comparison of kernel/src/common/string.c. */
module CStrings {
  import opened Common
  import opened ByteFields

  /** A zero byte ends the string that starts at p. */
  ghost predicate Terminated(s: seq<byte>, p: nat) {
    exists z :: p <= z < |s| && s[z] == 0
  }

  /** The string that starts at p. */
  ghost function CStr(s: seq<byte>, p: nat): seq<byte>
    decreases |s| - p
  {
    if p < |s| && s[p] != 0 then [s[p]] + CStr(s, p + 1) else []
  }

  lemma {:induction false} CStrAt(s: seq<byte>, p: nat)
    requires Terminated(s, p)
    ensures var n := |CStr(s, p)|;
      && p + n < |s| && s[p + n] == 0 && CStr(s, p) == s[p..p + n]
      && forall i :: p <= i < p + n ==> s[i] != 0
    decreases |s| - p
  {
    if s[p] != 0 {
      var z :| p <= z < |s| && s[z] == 0;
      assert p + 1 <= z;
      CStrAt(s, p + 1);
      var n := |CStr(s, p + 1)|;
      assert CStr(s, p) == [s[p]] + CStr(s, p + 1);
      assert s[p..p + 1 + n] == [s[p]] + s[p + 1..p + 1 + n];
    }
  }

  /** The string before the first zero byte. */
  lemma {:induction false} CStrIs(s: seq<byte>, p: nat, n: nat)
    requires p + n < |s| && s[p + n] == 0
    requires forall i :: p <= i < p + n ==> s[i] != 0
    ensures Terminated(s, p) && CStr(s, p) == s[p..p + n]
    decreases n
  {
    if n == 0 {
    } else {
      CStrIs(s, p + 1, n - 1);
      assert s[p..p + n] == [s[p]] + s[p + 1..p + n];
    }
  }

  /** strlen. */
  method Strlen(s: seq<byte>, p: nat) returns (n: nat)
    requires Terminated(s, p)
    ensures n == |CStr(s, p)|
  {
    CStrAt(s, p);
    var i := 0;
    while s[p + i] != 0
      invariant i <= |CStr(s, p)|
      decreases |CStr(s, p)| - i
    {
      i := i + 1;
    }
    n := i;
  }

  /** What strcmp takes for equal: it keeps lengths in 32 bits. */
  ghost predicate LooksEqual(a: seq<byte>, b: seq<byte>) {
    var n := |a| % TWO_TO_THE_32;
    |b| % TWO_TO_THE_32 == n && n <= |a| && n <= |b| && a[..n] == b[..n]
  }

  /** For strings below 4 GiB that is equality. */
  lemma ShortEqual(a: seq<byte>, b: seq<byte>)
    requires |a| < TWO_TO_THE_32 && |b| < TWO_TO_THE_32
    ensures LooksEqual(a, b) <==> a == b
  {
    assert a[..|a|] == a;
    if |a| == |b| { assert b[..|a|] == b; }
  }

  /** strcmp. */
  method Strcmp(s: seq<byte>, p: nat, t: seq<byte>, q: nat) returns (r: nat)
    requires Terminated(s, p) && Terminated(t, q)
    ensures r == 0 <==> LooksEqual(CStr(s, p), CStr(t, q))
  {
    CStrAt(s, p);
    CStrAt(t, q);
    ghost var a, b := CStr(s, p), CStr(t, q);
    var sLen := Strlen(s, p);
    var tLen := Strlen(t, q);
    sLen, tLen := sLen % TWO_TO_THE_32, tLen % TWO_TO_THE_32;
    if sLen != tLen {
      return 1;
    }
    for i := 0 to sLen
      invariant a[..i] == b[..i]
    {
      assert s[p + i] == a[i] && t[q + i] == b[i];
      if s[p + i] != t[q + i] {
        assert a[..sLen][i] != b[..sLen][i];
        return 1;
      }
      assert a[..i + 1] == a[..i] + [a[i]] && b[..i + 1] == b[..i] + [b[i]];
    }
    return 0;
  }
}

/** dec2str and hex2str: digits are written backwards into a static buffer, which is then
  reversed in place. */
module NumberPrinting {
  import opened Common

  const BUFFER_SIZE: nat := 80
  const INT_MIN: int := -0x8000_0000
  const INT_MAX: int := 0x7FFF_FFFF
  // ----- reading numbers, the reference ---------------------------------------------------------

  predicate IsBase(base: nat) { base == 10 || base == 16 }

  /** The last digit of a number and the rest. */
  lemma LastDigit(n: nat, base: nat)
    requires IsBase(base)
    ensures n / base * base + n % base == n && (n > 0 ==> n / base < n)
    ensures forall k: nat :: n < k * base ==> n / base < k
  {
    if base == 10 { LastDecimal(n); } else { LastHex(n); }
  }

  lemma LastDecimal(n: nat)
    ensures n / 10 * 10 + n % 10 == n && (n > 0 ==> n / 10 < n)
    ensures forall k: nat :: n < k * 10 ==> n / 10 < k
  {
  }

  lemma LastHex(n: nat)
    ensures n / 16 * 16 + n % 16 == n && (n > 0 ==> n / 16 < n)
    ensures forall k: nat :: n < k * 16 ==> n / 16 < k
  {
  }

  function DigitValue(c: char): int {
    if '0' <= c <= '9' then c as int - '0' as int
    else if 'A' <= c <= 'F' then c as int - 'A' as int + 10
    else -1
  }

  /** The number that digits denote in a base; -1 if some character is no digit of the base. */
  function Value(s: string, base: nat): int {
    if s == "" then 0
    else
      var high, d := Value(s[..|s| - 1], base), DigitValue(s[|s| - 1]);
      if high < 0 || !(0 <= d < base) then -1 else high * base + d
  }

  function ParseDec(s: string): int {
    if s != "" && s[0] == '-' then -Value(s[1..], 10) else Value(s, 10)
  }

  /** At least two digits behind the prefix. */
  function ParseHex(s: string): int {
    if |s| >= 4 && s[..2] == "0x" then Value(s[2..], 16) else -1
  }

  // ----- writing numbers ------------------------------------------------------------------------

  function Digit(d: nat): (c: char)
    requires d < 16
    ensures DigitValue(c) == d
  {
    "0123456789ABCDEF"[d]
  }

  /** The digits of n without leading zeros; none for 0. */
  function Digits(n: nat, base: nat): string
    requires IsBase(base)
  {
    if n == 0 then "" else (LastDigit(n, base); Digits(n / base, base) + [Digit(n % base)])
  }

  lemma {:induction false} DigitsValue(n: nat, base: nat)
    requires IsBase(base)
    ensures Value(Digits(n, base), base) == n
  {
    if n == 0 {
    } else {
      LastDigit(n, base);
      DigitsValue(n / base, base);
      var s := Digits(n, base);
      assert s[..|s| - 1] == Digits(n / base, base);
    }
  }

  function Power(base: nat, k: nat): nat {
    if k == 0 then 1 else Power(base, k - 1) * base
  }

  lemma {:induction false} DigitsLength(n: nat, base: nat, k: nat)
    requires IsBase(base) && n < Power(base, k)
    ensures |Digits(n, base)| <= k
    decreases k
  {
    if n == 0 {
    } else {
      LastDigit(n, base);
      DigitsLength(n / base, base, k - 1);
    }
  }

  lemma NoSign(n: nat)
    ensures var s := Digits(n, 10); s == "" || s[0] != '-'
  {
    if n >= 10 { NoSign(n / 10); }
  }

  function DecText(n: int): string {
    if n == 0 then "0" else if n > 0 then Digits(n, 10) else "-" + Digits(-n, 10)
  }

  function HexText(n: nat): string {
    "0x" + (if n < 0x10 then "0" else "") + (if n == 0 then "0" else Digits(n, 16))
  }

  lemma DecTextParses(n: int)
    ensures ParseDec(DecText(n)) == n
  {
    if n > 0 {
      PositiveParses(n);
    } else if n < 0 {
      NegativeParses(n);
    } else {
      assert "0"[..0] == "";
    }
  }

  lemma PositiveParses(n: nat)
    requires n > 0
    ensures ParseDec(Digits(n, 10)) == n
  {
    DigitsValue(n, 10);
    NoSign(n);
  }

  lemma NegativeParses(n: int)
    requires n < 0
    ensures ParseDec("-" + Digits(-n, 10)) == n
  {
    DigitsValue(-n, 10);
    assert ("-" + Digits(-n, 10))[1..] == Digits(-n, 10);
  }

  lemma HexTextParses(n: nat)
    ensures ParseHex(HexText(n)) == n
  {
    var s := HexText(n)[2..];
    DigitsValue(n, 16);
    if n == 0 {
      assert s == "00" && s[..1] == "0" && s[..1][..0] == "";
      assert Value("0", 16) == 0;
    } else if n < 0x10 {
      assert Digits(n / 16, 16) == "";
      assert s == ['0', Digit(n)] && s[..1] == "0" && s[..1][..0] == "";
      assert Value("0", 16) == 0;
    } else {
      assert s == Digits(n, 16) && |Digits(n / 16, 16)| >= 1;
    }
  }

  lemma {:induction false} NoLeadingZero(n: nat, base: nat)
    requires IsBase(base) && n > 0
    ensures Digits(n, base) != "" && DigitValue(Digits(n, base)[0]) > 0
    decreases n
  {
    var q, r := n / base, n % base;
    LastDigit(n, base);
    if q > 0 {
      NoLeadingZero(q, base);
      assert Digits(n, base)[0] == Digits(q, base)[0];
    } else {
      assert q * base == 0 && r == n;
      assert Digits(n, base) == [Digit(r)];
    }
  }

  /** No shorter text denotes the number: the first digit is 0 only where there must be one. */
  lemma NoWaste(n: int)
    ensures n > 0 ==> DecText(n)[0] != '0'
    ensures n < 0 ==> |DecText(n)| > 1 && DecText(n)[1] != '0'
    ensures DecText(0) == "0"
  {
    if n > 0 { NoLeadingZero(n, 10); }
    if n < 0 { NoLeadingZero(-n, 10); }
  }

  lemma NoHexWaste(n: nat)
    ensures |HexText(n)| >= 4 && (|HexText(n)| > 4 ==> HexText(n)[2] != '0')
  {
    if n >= 0x10 {
      NoLeadingZero(n, 16);
      NoLeadingZero(n / 16, 16);
    } else {
      assert n > 0 ==> Digits(n / 16, 16) == "";
    }
  }

  // ----- the code -------------------------------------------------------------------------------

  function Reversed(s: string): (r: string)
    ensures |r| == |s|
  {
    if s == "" then "" else Reversed(s[1..]) + [s[0]]
  }

  lemma {:induction false} ReversedAt(s: string, k: nat)
    requires k < |s|
    ensures Reversed(s)[k] == s[|s| - 1 - k]
  {
    if k < |s| - 1 { ReversedAt(s[1..], k); }
  }

  lemma {:induction false} ReversedPush(s: string, c: char)
    ensures Reversed(s + [c]) == [c] + Reversed(s)
  {
    if s == "" {
    } else {
      ReversedPush(s[1..], c);
      assert (s + [c])[1..] == s[1..] + [c];
    }
  }

  /** The loop that ends both functions; `last` is the index of the last character. */
  method ReverseInPlace(buffer: array<char>, last: nat)
    requires last < buffer.Length
    modifies buffer
    ensures buffer[..last + 1] == Reversed(old(buffer[..last + 1]))
    ensures forall k :: last < k < buffer.Length ==> buffer[k] == old(buffer[k])
  {
    var i, j := last, 0;
    while j < i
      invariant j <= i + 1 && i + j == last
      invariant forall k :: 0 <= k < j ==> buffer[k] == old(buffer[last - k]) && buffer[last - k] == old(buffer[k])
      invariant forall k :: j <= k <= i ==> buffer[k] == old(buffer[k])
      invariant forall k :: last < k < buffer.Length ==> buffer[k] == old(buffer[k])
    {
      var temp := buffer[j];
      buffer[j] := buffer[i];
      buffer[i] := temp;
      j, i := j + 1, i - 1;
    }
    ghost var was := old(buffer[..last + 1]);
    forall k | 0 <= k <= last ensures buffer[..last + 1][k] == Reversed(was)[k] {
      ReversedAt(was, k);
    }
  }

  /** The loop of both functions that writes the digits of a number backwards. */
  method WriteDigits(buffer: array<char>, number: nat, base: nat, ghost room: nat) returns (i: nat)
    requires IsBase(base) && |Digits(number, base)| <= room <= buffer.Length
    modifies buffer
    ensures i == |Digits(number, base)| && Reversed(buffer[..i]) == Digits(number, base)
  {
    var rest: nat := number;
    i := 0;
    assert Digits(rest, base) + "" == Digits(number, base);
    while rest > 0
      invariant i <= room && i + |Digits(rest, base)| == |Digits(number, base)|
      invariant Digits(rest, base) + Reversed(buffer[..i]) == Digits(number, base)
      decreases rest
    {
      ghost var done := buffer[..i];
      LastDigit(rest, base);
      buffer[i] := Digit(rest % base);
      assert buffer[..i + 1] == done + [Digit(rest % base)];
      ReversedPush(done, Digit(rest % base));
      assert Digits(rest, base) + Reversed(done) == Digits(rest / base, base) + ([Digit(rest % base)] + Reversed(done));
      rest := rest / base;
      i := i + 1;
    }
  }

  /** The buffer holds a text and the zero that ends it. */
  ghost predicate Holds(buffer: array<char>, text: string)
    reads buffer
  {
    |text| < buffer.Length && buffer[..|text|] == text && buffer[|text|] == '\0'
  }

  lemma DecLength(n: nat)
    requires n <= 0x8000_0000
    ensures |Digits(n, 10)| <= 10
  {
    assert Power(10, 10) == 10_000_000_000;
    DigitsLength(n, 10, 10);
  }

  lemma HexLength(n: nat)
    requires n < TWO_TO_THE_32
    ensures |Digits(n, 16)| <= 8
  {
    assert Power(16, 8) == TWO_TO_THE_32;
    DigitsLength(n, 16, 8);
  }

  /** `buffer[i++] = c`. */
  method Put(buffer: array<char>, i: nat, c: char) returns (next: nat)
    requires i < buffer.Length
    modifies buffer
    ensures next == i + 1 && Reversed(buffer[..next]) == [c] + Reversed(old(buffer[..i]))
  {
    ghost var before := buffer[..i];
    buffer[i] := c;
    assert buffer[..i + 1] == before + [c];
    ReversedPush(before, c);
    next := i + 1;
  }

  /** What dec2str prints.  The least int has no positive counterpart: negating it leaves it as it
    is, so that it is printed as a lone sign. */
  function Printed(n: int): string {
    if n == INT_MIN then "-" else DecText(n)
  }

  /** The part of dec2str that writes the digits and the sign. */
  method DecDigits(buffer: array<char>, n: int) returns (i: nat)
    requires buffer.Length == BUFFER_SIZE && INT_MIN <= n <= INT_MAX
    modifies buffer
    ensures 1 <= i <= 11 && Reversed(buffer[..i]) == Printed(n)
  {
    var negative, number := false, n;
    i := 0;
    if number == 0 {
      buffer[0] := '0';
      i := 1;
      assert buffer[..1] == "0";
    } else {
      if number < 0 {
        negative := true;
        number := if number == INT_MIN then INT_MIN else -number;
      }
      if number > 0 {
        DecLength(number);
        i := WriteDigits(buffer, number, 10, 10);
      }
    }
    if negative {
      i := Put(buffer, i, '-');
    }
  }

  /** dec2str. */
  method Dec2Str(buffer: array<char>, n: int) returns (ghost text: string)
    requires buffer.Length == BUFFER_SIZE && INT_MIN <= n <= INT_MAX
    modifies buffer
    ensures Holds(buffer, text)
    ensures text == if n == INT_MIN then "-" else DecText(n)
    ensures ParseDec(text) == n <==> n != INT_MIN
  {
    var i := DecDigits(buffer, n);
    buffer[i] := '\0';
    text := Reversed(buffer[..i]);
    ReverseInPlace(buffer, i - 1);
    DecTextParses(n);
    if n == INT_MIN { assert text == "-" && text[1..] == "" && Value("", 10) == 0; }
  }

  /** The part of hex2str that writes the digits, at least two of them. */
  method HexDigits(buffer: array<char>, n: nat) returns (i: nat)
    requires buffer.Length == BUFFER_SIZE && n < TWO_TO_THE_32
    modifies buffer
    ensures i <= 8 && Reversed(buffer[..i]) == HexText(n)[2..]
  {
    i := 0;
    if n == 0 {
      buffer[0] := '0';
      i := 1;
      assert buffer[..1] == "0";
    } else {
      HexLength(n);
      i := WriteDigits(buffer, n, 16, 8);
    }
    if n < 0x10 {
      SmallHex(n);
      i := Put(buffer, i, '0');
    }
  }

  lemma SmallHex(n: nat)
    requires n < 0x10
    ensures |Digits(n, 16)| <= 1
  {
    if n == 0 {
    } else {
      assert Digits(n / 16, 16) == "";
    }
  }

  /** hex2str. */
  method Hex2Str(buffer: array<char>, n: nat) returns (ghost text: string)
    requires buffer.Length == BUFFER_SIZE && n < TWO_TO_THE_32
    modifies buffer
    ensures Holds(buffer, text) && text == HexText(n)
    ensures ParseHex(text) == n
  {
    var i := HexDigits(buffer, n);
    i := Put(buffer, i, 'x');
    i := Put(buffer, i, '0');
    buffer[i] := '\0';
    text := Reversed(buffer[..i]);
    ReverseInPlace(buffer, i - 1);
    HexTextParses(n);
  }
}
