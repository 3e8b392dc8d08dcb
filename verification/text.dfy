// Text the drivers produce and consume: decimal and hexadecimal numerals
// as the formatting library prints them, ASCII upper-casing, joining and
// splitting on a separator, and `std::stoi`.

module Text {
  import opened Arith

  // -------------------------------------------------------------------
  // Decimal
  // -------------------------------------------------------------------

  predicate IsDigit(c: char) { '0' <= c <= '9' }

  predicate AllDigits(s: string) { forall i :: 0 <= i < |s| ==> IsDigit(s[i]) }

  function DigitChar(d: nat): (c: char)
    requires d < 10
    ensures IsDigit(c)
  {
    (48 + d) as char
  }

  function DigitValue(c: char): (d: nat)
    requires IsDigit(c)
    ensures d < 10
  {
    c as int - 48
  }

  /** A non-negative integer printed in decimal (`std::to_string`, `{}`):
      digits only, no leading zero. */
  function Decimal(n: nat): (s: string)
    ensures |s| >= 1 && AllDigits(s)
    ensures |s| > 1 ==> s[0] != '0'
    decreases n
  {
    if n < 10 then [DigitChar(n)] else Decimal(n / 10) + [DigitChar(n % 10)]
  }

  /** The value of a string of decimal digits. */
  function DecimalValue(s: string): nat
    requires AllDigits(s)
    decreases |s|
  {
    if s == [] then 0 else DecimalValue(s[..|s| - 1]) * 10 + DigitValue(s[|s| - 1])
  }

  /** Reading a printed number gives the number back. */
  lemma {:induction false} DecimalRoundTrip(n: nat)
    ensures DecimalValue(Decimal(n)) == n
    decreases n
  {
    if n >= 10 {
      DecimalRoundTrip(n / 10);
      var s := Decimal(n);
      assert s[..|s| - 1] == Decimal(n / 10);
    }
  }

  /** Numbers below 256 print in at most three digits. */
  lemma DecimalOctetLength(n: nat)
    requires n < 256
    ensures 1 <= |Decimal(n)| <= 3
  {
    if n >= 10 {
      if n >= 100 {
        assert |Decimal(n / 10 / 10)| == 1;
      }
    }
  }

  // -------------------------------------------------------------------
  // Hexadecimal
  // -------------------------------------------------------------------

  predicate IsHexDigit(c: char) {
    '0' <= c <= '9' || 'a' <= c <= 'f' || 'A' <= c <= 'F'
  }

  predicate AllHex(s: string) { forall i :: 0 <= i < |s| ==> IsHexDigit(s[i]) }

  /** A hexadecimal digit in lower case (`{:x}`). */
  function HexDigit(d: nat): (c: char)
    requires d < 16
    ensures IsHexDigit(c) && !('A' <= c <= 'F')
  {
    if d < 10 then (48 + d) as char else (87 + d) as char
  }

  function HexDigitValue(c: char): (d: nat)
    requires IsHexDigit(c)
    ensures d < 16
  {
    if '0' <= c <= '9' then c as int - 48
    else if 'a' <= c <= 'f' then c as int - 87
    else c as int - 55
  }

  lemma HexDigitRoundTrip(d: nat)
    requires d < 16
    ensures HexDigitValue(HexDigit(d)) == d
    ensures HexDigitValue(UpperChar(HexDigit(d))) == d
  {
  }

  /** The lowest `width` hexadecimal digits of `n`, most significant first,
      zero-padded: what `{:0Nx}` prints when `n` has at most N digits. */
  function HexFixed(n: nat, width: nat): (s: string)
    ensures |s| == width && AllHex(s)
    decreases width
  {
    if width == 0 then [] else HexFixed(n / 16, width - 1) + [HexDigit(n % 16)]
  }

  /** `n` in hexadecimal without padding (`{:x}`). */
  function HexMin(n: nat): (s: string)
    ensures |s| >= 1 && AllHex(s)
    decreases n
  {
    if n < 16 then [HexDigit(n)] else HexMin(n / 16) + [HexDigit(n % 16)]
  }

  /** `{:0Nx}`: at least `width` digits, zero-padded on the left. */
  function HexPadded(n: nat, width: nat): (s: string)
    ensures AllHex(s)
    ensures n < Pow(16, width) ==> |s| == width
    ensures n >= Pow(16, width) ==> |s| > width
  {
    if n < Pow(16, width) then HexFixed(n, width)
    else
      HexMinLength(n, width);
      HexMin(n)
  }

  /** A number of more than `width` hexadecimal digits prints longer. */
  lemma {:induction false} HexMinLength(n: nat, width: nat)
    requires n >= Pow(16, width)
    ensures |HexMin(n)| > width
    decreases width
  {
    if width > 0 {
      assert n >= 16;
      assert n / 16 >= Pow(16, width - 1);
      HexMinLength(n / 16, width - 1);
    }
  }

  /** The value of a string of hexadecimal digits, either case. */
  function HexValue(s: string): nat
    requires AllHex(s)
    decreases |s|
  {
    if s == [] then 0 else HexValue(s[..|s| - 1]) * 16 + HexDigitValue(s[|s| - 1])
  }

  /** A numeral of `|s|` digits is below 16 to that count. */
  lemma {:induction false} HexValueBound(s: string)
    requires AllHex(s)
    ensures HexValue(s) < Pow(16, |s|)
    decreases |s|
  {
    if s != [] {
      var init := s[..|s| - 1];
      HexValueBound(init);
      assert HexValue(s) <= (Pow(16, |init|) - 1) * 16 + 15 by {
        MulMonotone(16, HexValue(init), Pow(16, |init|) - 1);
      }
    }
  }

  /** A fixed-width numeral holds `n` modulo 16 to the width. */
  lemma {:induction false} HexFixedValue(n: nat, width: nat)
    ensures HexValue(HexFixed(n, width)) == n % Pow(16, width)
    decreases width
  {
    if width > 0 {
      HexFixedValue(n / 16, width - 1);
      var s := HexFixed(n, width);
      assert s[..|s| - 1] == HexFixed(n / 16, width - 1);
      HexDigitRoundTrip(n % 16);
      ModOfProduct(n, 16, Pow(16, width - 1));
    }
  }

  /** Reading an unpadded numeral gives the number back. */
  lemma {:induction false} HexMinValue(n: nat)
    ensures HexValue(HexMin(n)) == n
    decreases n
  {
    HexDigitRoundTrip(n % 16);
    if n >= 16 {
      HexMinValue(n / 16);
      var s := HexMin(n);
      assert s[..|s| - 1] == HexMin(n / 16);
    }
  }

  /** A two-digit numeral splits off the low octet of a wider one. */
  lemma HexFixedOctet(n: nat, width: nat)
    ensures HexFixed(n, width + 2) == HexFixed(n / 256, width) + HexFixed(n % 256, 2)
  {
    ModOfProduct(n, 16, 16);
    ModMod(n, 16, 16);
    DivOfMod(n, 16, 16);
    assert n % 256 / 16 < 16;
    assert HexFixed(n % 256, 2) == [HexDigit(n / 16 % 16), HexDigit(n % 16)];
    assert HexFixed(n, width + 2) == HexFixed(n / 16 / 16, width) + [HexDigit(n / 16 % 16)] + [HexDigit(n % 16)];
  }

  // -------------------------------------------------------------------
  // Characters and strings
  // -------------------------------------------------------------------

  /** `::toupper` in the C locale. */
  function UpperChar(c: char): char {
    if 'a' <= c <= 'z' then (c as int - 32) as char else c
  }

  /** Every character upper-cased. */
  function Upper(s: string): (u: string)
    ensures |u| == |s| && forall i :: 0 <= i < |s| ==> u[i] == UpperChar(s[i])
  {
    seq(|s|, i requires 0 <= i < |s| => UpperChar(s[i]))
  }

  /** `::tolower` in the C locale. */
  function LowerChar(c: char): char {
    if 'A' <= c <= 'Z' then (c as int + 32) as char else c
  }

  /** Every character lower-cased (`boost::algorithm::to_lower`). */
  function Lower(s: string): (l: string)
    ensures |l| == |s| && forall i :: 0 <= i < |s| ==> l[i] == LowerChar(s[i])
  {
    seq(|s|, i requires 0 <= i < |s| => LowerChar(s[i]))
  }

  /** Lower-casing twice is lower-casing once, and a string of lower-case
      letters is its own lower case. */
  lemma LowerIdempotent(s: string)
    ensures Lower(Lower(s)) == Lower(s)
    ensures (forall i :: 0 <= i < |s| ==> !('A' <= s[i] <= 'Z')) ==> Lower(s) == s
  {
  }

  lemma UpperAppend(a: string, b: string)
    ensures Upper(a + b) == Upper(a) + Upper(b)
  {
  }

  /** Upper-casing keeps hexadecimal digits and their values. */
  lemma {:induction false} HexValueUpper(s: string)
    requires AllHex(s)
    ensures AllHex(Upper(s)) && HexValue(Upper(s)) == HexValue(s)
    decreases |s|
  {
    if s != [] {
      HexValueUpper(s[..|s| - 1]);
      assert Upper(s)[..|s| - 1] == Upper(s[..|s| - 1]);
    }
  }

  /** The parts joined with `sep` between consecutive ones (the fold
      `a + sep + b` over the parts). */
  function Join(parts: seq<string>, sep: char): string
    decreases |parts|
  {
    if parts == [] then []
    else if |parts| == 1 then parts[0]
    else parts[0] + [sep] + Join(parts[1..], sep)
  }

  /** Index of the first `sep` in `s`, or `|s|` when there is none. */
  function FirstIndex(s: string, sep: char): (i: nat)
    ensures i <= |s|
    ensures forall j :: 0 <= j < i ==> s[j] != sep
    ensures i < |s| ==> s[i] == sep
    decreases |s|
  {
    if s == [] then 0 else if s[0] == sep then 0 else 1 + FirstIndex(s[1..], sep)
  }

  /** `s` without its leading run of `sep`. */
  function DropSeparators(s: string, sep: char): (t: string)
    ensures |t| <= |s|
    ensures |t| > 0 ==> t[0] != sep
    ensures t == s[|s| - |t|..]
    decreases |s|
  {
    if s != [] && s[0] == sep then DropSeparators(s[1..], sep) else s
  }

  /** `boost::split` on one separator with token compression: every maximal
      run of separators ends a token; a leading or trailing run yields an
      empty token at that end, and the empty string yields one empty
      token. */
  function SplitCompress(s: string, sep: char): (parts: seq<string>)
    ensures |parts| >= 1
    ensures forall k :: 0 <= k < |parts| ==> sep !in parts[k]
    decreases |s|
  {
    var i := FirstIndex(s, sep);
    if i == |s| then [s]
    else [s[..i]] + SplitCompress(DropSeparators(s[i..], sep), sep)
  }

  /** Splitting undoes joining when no part is empty or holds the
      separator. */
  lemma {:induction false} SplitJoin(parts: seq<string>, sep: char)
    requires |parts| >= 1
    requires forall k :: 0 <= k < |parts| ==> |parts[k]| > 0 && sep !in parts[k]
    ensures SplitCompress(Join(parts, sep), sep) == parts
    decreases |parts|
  {
    var p := parts[0];
    if |parts| == 1 {
      assert FirstIndex(p, sep) == |p|;
    } else {
      var rest := Join(parts[1..], sep);
      assert Join(parts, sep) == p + [sep] + rest;
      JoinHead(parts[1..], sep);
      SplitStep(p, rest, sep);
      SplitJoin(parts[1..], sep);
    }
  }

  /** A part, a separator, then text that does not start with the
      separator: the part is the first token. */
  lemma SplitStep(p: string, rest: string, sep: char)
    requires sep !in p
    requires |rest| > 0 && rest[0] != sep
    ensures SplitCompress(p + [sep] + rest, sep) == [p] + SplitCompress(rest, sep)
  {
    var tail := [sep] + rest;
    var s := p + tail;
    assert p + [sep] + rest == s;
    FirstIndexPrefix(p, sep, tail);
    SplitUnfold(s, sep);
    assert s[..|p|] == p;
    assert s[|p|..] == tail;
    assert tail[1..] == rest;
    assert DropSeparators(rest, sep) == rest;
    assert DropSeparators(tail, sep) == rest;
  }

  /** The first token ends at the first separator. */
  lemma SplitUnfold(s: string, sep: char)
    requires FirstIndex(s, sep) < |s|
    ensures SplitCompress(s, sep) ==
      [s[..FirstIndex(s, sep)]] + SplitCompress(DropSeparators(s[FirstIndex(s, sep)..], sep), sep)
  {
  }

  lemma FirstIndexPrefix(p: string, sep: char, rest: string)
    requires sep !in p && |rest| > 0 && rest[0] == sep
    ensures FirstIndex(p + rest, sep) == |p|
  {
    var s := p + rest;
    assert forall j :: 0 <= j < |p| ==> s[j] == p[j] && s[j] != sep;
    assert s[|p|] == sep;
  }

  /** Four parts joined, spelled out. */
  lemma Join4(p: seq<string>, sep: char)
    requires |p| == 4
    ensures Join(p, sep) == p[0] + [sep] + p[1] + [sep] + p[2] + [sep] + p[3]
  {
    var t1 := p[1..];
    var t2 := t1[1..];
    var t3 := t2[1..];
    assert t3 == [p[3]];
    assert Join(t2, sep) == p[2] + [sep] + p[3];
    assert Join(t1, sep) == p[1] + [sep] + (p[2] + [sep] + p[3]);
  }

  /** Six parts joined, spelled out. */
  lemma Join6(p: seq<string>, sep: char)
    requires |p| == 6
    ensures Join(p, sep) == p[0] + [sep] + p[1] + [sep] + p[2] + [sep] + p[3] + [sep] + p[4] + [sep] + p[5]
  {
    var t2 := p[2..];
    Join4(t2, sep);
    assert p[1..][1..] == t2;
    assert Join(p[1..], sep) == p[1] + [sep] + Join(t2, sep);
  }

  lemma JoinHead(parts: seq<string>, sep: char)
    requires |parts| >= 1 && |parts[0]| > 0 && sep !in parts[0]
    ensures |Join(parts, sep)| > 0 && Join(parts, sep)[0] == parts[0][0] != sep
    ensures DropSeparators(Join(parts, sep), sep) == Join(parts, sep)
  {
  }

  // -------------------------------------------------------------------
  // std::stoi
  // -------------------------------------------------------------------

  /** Outcome of `std::stoi`: a value, or the exception it throws. */
  datatype IntParse = Parsed(value: int) | InvalidArgument | OutOfRange

  /** `isspace` in the C locale: space, tab, line feed, vertical tab,
      form feed, carriage return. */
  predicate IsSpace(c: char) {
    c == ' ' || 9 <= c as int <= 13
  }

  function DropSpaces(s: string): (t: string)
    ensures |t| <= |s| && t == s[|s| - |t|..]
    ensures |t| > 0 ==> !IsSpace(t[0])
    decreases |s|
  {
    if s != [] && IsSpace(s[0]) then DropSpaces(s[1..]) else s
  }

  /** The longest prefix of `s` made of decimal digits. */
  function LeadingDigits(s: string): (d: string)
    ensures AllDigits(d) && |d| <= |s| && d == s[..|d|]
    ensures |d| < |s| ==> !IsDigit(s[|d|])
    decreases |s|
  {
    if s != [] && IsDigit(s[0]) then [s[0]] + LeadingDigits(s[1..]) else []
  }

  const IntMin: int := -0x8000_0000
  const IntMax: int := 0x7FFF_FFFF

  /** `std::stoi` (base 10): leading white space, an optional sign, then
      the longest run of digits; the rest is ignored. No digit throws
      `invalid_argument`; a value outside a 32-bit `int` throws
      `out_of_range`. */
  function Stoi(s: string): (r: IntParse)
    ensures r.Parsed? ==> IntMin <= r.value <= IntMax
  {
    ReadSigned(DropSpaces(s))
  }

  /** An optional sign, then the digits. */
  function ReadSigned(t: string): (r: IntParse)
    ensures r.Parsed? ==> IntMin <= r.value <= IntMax
  {
    if |t| > 0 && t[0] == '-' then ReadMagnitude(LeadingDigits(t[1..]), true)
    else if |t| > 0 && t[0] == '+' then ReadMagnitude(LeadingDigits(t[1..]), false)
    else ReadMagnitude(LeadingDigits(t), false)
  }

  /** The value of a run of digits, negated after a minus sign: none when
      there is no digit, out of range beyond a 32-bit `int`. */
  function ReadMagnitude(digits: string, negative: bool): (r: IntParse)
    requires AllDigits(digits)
    ensures r.Parsed? ==> IntMin <= r.value <= IntMax
  {
    if digits == [] then InvalidArgument
    else
      var magnitude: int := DecimalValue(digits);
      var v := if negative then 0 - magnitude else magnitude;
      if v < IntMin || v > IntMax then OutOfRange else Parsed(v)
  }

  /** `std::stoi` reads back what `std::to_string` printed. */
  lemma StoiDecimal(n: nat)
    requires n <= IntMax
    ensures Stoi(Decimal(n)) == Parsed(n)
  {
    var s := Decimal(n);
    LeadingDigitsAll(s);
    DecimalRoundTrip(n);
    assert !IsSpace(s[0]) && s[0] != '-' && s[0] != '+';
    assert DropSpaces(s) == s;
    assert ReadSigned(s) == ReadMagnitude(s, false);
  }

  lemma {:induction false} LeadingDigitsAll(s: string)
    requires AllDigits(s)
    ensures LeadingDigits(s) == s
    decreases |s|
  {
    if s != [] {
      LeadingDigitsAll(s[1..]);
    }
  }

  /** A signed integer in decimal, as `fmt` and `std::to_string` print
      it: a minus sign before the magnitude of a negative value. */
  function SignedDecimal(v: int): (s: string)
    ensures |s| >= 1 && (s[0] == '-' <==> v < 0)
  {
    if v < 0 then "-" + Decimal(0 - v) else Decimal(v)
  }

  /** `std::stoi` reads back every `int` printed in signed decimal. */
  lemma StoiSignedDecimal(v: int)
    requires IntMin <= v <= IntMax
    ensures Stoi(SignedDecimal(v)) == Parsed(v)
  {
    if v >= 0 {
      StoiDecimal(v);
    } else {
      StoiNegative(0 - v);
    }
  }

  lemma StoiNegative(m: nat)
    requires 0 < m <= 0x8000_0000
    ensures Stoi("-" + Decimal(m)) == Parsed(0 - m)
  {
    var digits := Decimal(m);
    var s := "-" + digits;
    assert !IsSpace(s[0]);
    assert DropSpaces(s) == s;
    assert s[1..] == digits;
    LeadingDigitsAll(digits);
    assert LeadingDigits(s[1..]) == digits;
    DecimalRoundTrip(m);
  }

  /** The longest prefix of `s` made of hexadecimal digits. */
  function LeadingHex(s: string): (d: string)
    ensures AllHex(d) && |d| <= |s| && d == s[..|d|]
    decreases |s|
  {
    if s != [] && IsHexDigit(s[0]) then [s[0]] + LeadingHex(s[1..]) else []
  }

  lemma {:induction false} LeadingHexAll(s: string)
    requires AllHex(s)
    ensures LeadingHex(s) == s
    decreases |s|
  {
    if s != [] {
      LeadingHexAll(s[1..]);
    }
  }

  const ULongLimit: nat := 0x1_0000_0000_0000_0000

  /** `std::stoul(s, nullptr, 16)`: leading white space, an optional sign,
      an optional `0x` or `0X` before the first digit, then the longest run
      of hexadecimal digits. No digit throws `invalid_argument`; a value
      beyond 64 bits throws `out_of_range`; a minus sign negates modulo
      2^64. */
  function Stoul16(s: string): (r: IntParse)
    ensures r.Parsed? ==> 0 <= r.value < ULongLimit
  {
    var t := DropSpaces(s);
    var signed := |t| > 0 && (t[0] == '-' || t[0] == '+');
    var negative := |t| > 0 && t[0] == '-';
    var body := if signed then t[1..] else t;
    var prefixed := |body| > 2 && body[0] == '0' && (body[1] == 'x' || body[1] == 'X') && IsHexDigit(body[2]);
    var digits := LeadingHex(if prefixed then body[2..] else body);
    if digits == [] then InvalidArgument
    else
      var magnitude := HexValue(digits);
      if magnitude >= ULongLimit then OutOfRange
      else if negative then Parsed((ULongLimit - magnitude) % ULongLimit)
      else Parsed(magnitude)
  }

  /** `std::stoul` in base 16 reads a `0x`-prefixed run of hexadecimal
      digits as its value. */
  lemma Stoul16Prefixed(digits: string)
    requires |digits| >= 1 && AllHex(digits) && HexValue(digits) < ULongLimit
    ensures Stoul16("0x" + digits) == Parsed(HexValue(digits))
  {
    var s := "0x" + digits;
    assert s[0] == '0' && s[1] == 'x' && s[2] == digits[0];
    assert s[2..] == digits;
    LeadingHexAll(digits);
    Stoul16Unsigned(s);
  }

  /** An unsigned `0x`-prefixed text with nothing to skip reads as its
      leading hexadecimal digits. */
  lemma Stoul16Unsigned(s: string)
    requires |s| > 2 && s[0] == '0' && s[1] == 'x' && IsHexDigit(s[2])
    requires HexValue(LeadingHex(s[2..])) < ULongLimit
    ensures Stoul16(s) == Parsed(HexValue(LeadingHex(s[2..])))
  {
    assert !IsSpace(s[0]) && s[0] != '-' && s[0] != '+';
    assert DropSpaces(s) == s;
    var digits := LeadingDigits(s);
    assert digits != [] by { assert digits == [s[0]] + LeadingDigits(s[1..]); }
  }

  /** `std::stoul` in base 16 reads back what `{:#x}` printed. */
  lemma Stoul16Hex(n: nat)
    requires n < ULongLimit
    ensures Stoul16("0x" + HexMin(n)) == Parsed(n)
  {
    HexMinValue(n);
    Stoul16Prefixed(HexMin(n));
  }

  /** Reading a numeral in two pieces: the high digits shifted past the low
      ones. */
  lemma {:induction false} HexValueAppend(a: string, b: string)
    requires AllHex(a) && AllHex(b)
    ensures AllHex(a + b)
    ensures HexValue(a + b) == HexValue(a) * Pow(16, |b|) + HexValue(b)
    decreases |b|
  {
    var ab := a + b;
    if b == [] {
      assert ab == a;
    } else {
      var init := b[..|b| - 1];
      var d := HexDigitValue(b[|b| - 1]);
      assert ab[..|ab| - 1] == a + init;
      assert ab[|ab| - 1] == b[|b| - 1];
      HexValueAppend(a, init);
      var x := HexValue(a);
      var p := Pow(16, |init|);
      var y := HexValue(init);
      var q := HexValue(a + init);
      assert q == x * p + y;
      assert HexValue(ab) == q * 16 + d;
      assert HexValue(b) == y * 16 + d;
      assert Pow(16, |b|) == 16 * p;
      ShiftDigit(x, p, y, d);
    }
  }

  lemma ShiftDigit(x: int, p: int, y: int, d: int)
    ensures (x * p + y) * 16 + d == x * (16 * p) + (y * 16 + d)
  {
  }

}
