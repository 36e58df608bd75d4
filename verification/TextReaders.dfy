/** Texts as the program's runtime trims and cases them and reads numbers from
    them (sections 7.1.4.1 and 19.2.4 of ECMA-262). */
module TextReaders {
  import opened DecimalText

  // ── trimming and letter case ─────────────────────────────────────────────

  /** White space and line terminators of ECMAScript. */
  predicate IsSpace(c: char) {
    var n := c as int;
    (9 <= n <= 13) || n == 0x20 || n == 0xA0 || n == 0x1680 || (0x2000 <= n <= 0x200A)
    || n == 0x2028 || n == 0x2029 || n == 0x202F || n == 0x205F || n == 0x3000 || n == 0xFEFF
  }

  function TrimStart(s: string): (t: string)
    ensures |t| <= |s| && (s != [] && IsSpace(s[0]) ==> |t| < |s|)
  {
    if s != [] && IsSpace(s[0]) then TrimStart(s[1..]) else s
  }

  function TrimEnd(s: string): string {
    if s != [] && IsSpace(s[|s| - 1]) then TrimEnd(s[..|s| - 1]) else s
  }

  function Trim(s: string): string { TrimEnd(TrimStart(s)) }

  function UpperChar(c: char): char { if 'a' <= c <= 'z' then (c as int - 32) as char else c }

  function LowerChar(c: char): char { if 'A' <= c <= 'Z' then (c as int + 32) as char else c }

  function ToUpper(s: string): string { seq(|s|, i requires 0 <= i < |s| => UpperChar(s[i])) }

  function ToLower(s: string): string { seq(|s|, i requires 0 <= i < |s| => LowerChar(s[i])) }

  /** Every run of white space replaced by one underscore. */
  function JoinWords(s: string): string
    decreases |s|
  {
    if s == [] then []
    else if IsSpace(s[0]) then "_" + JoinWords(TrimStart(s))
    else [s[0]] + JoinWords(s[1..])
  }

  /** The 16-bit units a character takes: two from U+10000 on. */
  function UnitsOf(c: char): seq<nat> {
    var n := c as int;
    if n < 0x10000 then [n] else [0xD800 + (n - 0x10000) / 0x400, 0xDC00 + (n - 0x10000) % 0x400]
  }

  /** A text as charCodeAt and the default order of texts see it. */
  function CodeUnits(s: string): seq<nat> { if s == [] then [] else UnitsOf(s[0]) + CodeUnits(s[1..]) }

  predicate UnitsLeq(a: seq<nat>, b: seq<nat>) {
    a == [] || (b != [] && (a[0] < b[0] || (a[0] == b[0] && UnitsLeq(a[1..], b[1..]))))
  }

  function DigitPrefix(s: string): (d: string)
    ensures AllDigits(d) && |d| <= |s| && s[..|d|] == d
    ensures |d| < |s| ==> !IsDigit(s[|d|])
  {
    if s != [] && IsDigit(s[0]) then [s[0]] + DigitPrefix(s[1..]) else []
  }

  // ── numbers ──────────────────────────────────────────────────────────────

  /** A number of the program, binary rounding left aside. */
  datatype Number = NaN | Infinite(negative: bool) | Finite(value: real)

  /** What a text starts with when a number is read from it. */
  datatype Scan = NoNumber | Scanned(number: Number, length: nat)

  function Pow2(k: nat): (n: nat)
    ensures n > 0
  {
    if k == 0 then 1 else 2 * Pow2(k - 1)
  }

  /** The least magnitude that rounds to infinity. */
  function Overflow(): real { (Pow2(1024) - Pow2(970)) as real }

  /** A magnitude too large for a double is infinite. */
  function Settled(n: Number): Number {
    if n.Finite? && n.value >= Overflow() then Infinite(false)
    else if n.Finite? && n.value <= -Overflow() then Infinite(true)
    else n
  }

  function Times(v: real, exponent: int): real {
    PowerPositive(if exponent < 0 then -exponent else exponent);
    if exponent >= 0 then v * Pow10(exponent) as real else v / Pow10(-exponent) as real
  }

  lemma {:induction false} PowerPositive(k: nat)
    ensures Pow10(k) > 0
  {
    if k > 0 { PowerPositive(k - 1); }
  }

  /** Digits with an optional fraction: the given whole digits and the text behind them. */
  function ScanFraction(whole: string, rest: string): Scan
    requires AllDigits(whole)
  {
    if rest != [] && rest[0] == '.' then
      var fraction := DigitPrefix(rest[1..]);
      if whole == [] && fraction == [] then NoNumber
      else Scanned(Finite(ParseNat(whole) as real + Times(ParseNat(fraction) as real, -|fraction|)),
        |whole| + 1 + |fraction|)
    else if whole == [] then NoNumber
    else Scanned(Finite(ParseNat(whole) as real), |whole|)
  }

  predicate IsSign(c: char) { c == '-' || c == '+' }

  /** An exponent part: the power of ten and the length; no digits, no exponent. */
  function ScanExponent(rest: string): (e: (int, nat))
    ensures e.1 <= |rest|
  {
    if rest == [] || !(rest[0] == 'e' || rest[0] == 'E') then (0, 0)
    else
      var k := if |rest| > 1 && IsSign(rest[1]) then 2 else 1;
      var digits := DigitPrefix(rest[k..]);
      if digits == [] then (0, 0)
      else (if rest[1] == '-' then -(ParseNat(digits) as int) else ParseNat(digits), k + |digits|)
  }

  function ScanMantissa(s: string): (m: Scan)
    ensures m.Scanned? ==> m.number.Finite? && m.length <= |s|
  {
    var whole := DigitPrefix(s);
    ScanFraction(whole, s[|whole|..])
  }

  const INFINITY := "Infinity"

  /** The longest decimal literal without sign a text starts with. */
  function ScanUnsigned(s: string): Scan {
    if INFINITY <= s then Scanned(Infinite(false), |INFINITY|)
    else
      match ScanMantissa(s)
      case NoNumber => NoNumber
      case Scanned(n, length) =>
        var e := ScanExponent(s[length..]);
        Scanned(Finite(Times(n.value, e.0)), length + e.1)
  }

  function Negated(n: Number): Number {
    match n
    case NaN => NaN
    case Infinite(negative) => Infinite(!negative)
    case Finite(v) => Finite(-v)
  }

  function ScanDecimal(s: string): Scan {
    if s != [] && IsSign(s[0]) then
      match ScanUnsigned(s[1..])
      case NoNumber => NoNumber
      case Scanned(n, length) => Scanned(if s[0] == '-' then Negated(n) else n, length + 1)
    else ScanUnsigned(s)
  }

  /** parseFloat: reads the longest decimal literal the text starts with. */
  function ParseFloat(raw: string): Number {
    match ScanDecimal(TrimStart(raw))
    case NoNumber => NaN
    case Scanned(n, _) => Settled(n)
  }

  /** The base of a literal with a prefix, which has no sign and no exponent. */
  function Base(c: char): nat {
    if c == 'x' || c == 'X' then 16 else if c == 'o' || c == 'O' then 8 else if c == 'b' || c == 'B' then 2 else 0
  }

  /** A text in hexadecimal, octal or binary, or one that only starts like it. */
  predicate Prefixed(t: string) { |t| >= 2 && t[0] == '0' && Base(t[1]) != 0 }

  /** The value of a digit in any base up to 16; 16 for what is no digit. */
  function HexValue(c: char): nat {
    if IsDigit(c) then DigitValue(c)
    else if 'a' <= c <= 'f' then c as int - 87
    else if 'A' <= c <= 'F' then c as int - 55
    else 16
  }

  predicate DigitsIn(s: string, base: nat) { forall i | 0 <= i < |s| :: HexValue(s[i]) < base }

  function ParseIn(s: string, base: nat): nat {
    if s == [] then 0 else ParseIn(s[..|s| - 1], base) * base + HexValue(s[|s| - 1])
  }

  /** Number: reads the whole text or gives NaN; blank text is zero. */
  function NumberOf(raw: string): Number {
    var t := Trim(raw);
    if t == [] then Finite(0.0)
    else if Prefixed(t) then
      if |t| > 2 && DigitsIn(t[2..], Base(t[1])) then Settled(Finite(ParseIn(t[2..], Base(t[1])) as real)) else NaN
    else
      match ScanDecimal(t)
      case NoNumber => NaN
      case Scanned(n, length) => if length == |t| then Settled(n) else NaN
  }

  // ── the two readers ──────────────────────────────────────────────────────

  lemma {:induction false} DigitsStop(s: string, w: string)
    requires w == [] || !IsDigit(w[0])
    ensures DigitPrefix(s + w) == DigitPrefix(s)
  {
    if s == [] {
      assert s + w == w;
    } else {
      assert (s + w)[1..] == s[1..] + w;
      DigitsStop(s[1..], w);
    }
  }

  lemma {:induction false} DigitsOnly(s: string)
    requires AllDigits(s)
    ensures DigitPrefix(s) == s
  {
    if s != [] { DigitsOnly(s[1..]); }
  }

  /** White space, or nothing, cannot continue a number. */
  predicate Ends(w: string) { w == [] || IsSpace(w[0]) }

  lemma FractionStops(whole: string, rest: string, w: string)
    requires AllDigits(whole) && Ends(w)
    ensures ScanFraction(whole, rest + w) == ScanFraction(whole, rest)
  {
    hide ParseNat, DigitPrefix, Times;
    if rest == [] {
      assert rest + w == w;
    } else if rest[0] == '.' {
      assert (rest + w)[1..] == rest[1..] + w;
      DigitsStop(rest[1..], w);
    }
  }

  lemma MantissaStops(s: string, w: string)
    requires Ends(w)
    ensures ScanMantissa(s + w) == ScanMantissa(s)
  {
    hide ScanFraction, DigitPrefix;
    var whole := DigitPrefix(s);
    DigitsStop(s, w);
    assert (s + w)[|whole|..] == s[|whole|..] + w;
    FractionStops(whole, s[|whole|..], w);
  }

  lemma ExponentStops(rest: string, w: string)
    requires Ends(w)
    ensures ScanExponent(rest + w) == ScanExponent(rest)
  {
    hide ParseNat, DigitPrefix;
    if rest == [] {
      assert rest + w == w;
    } else {
      var k := if |rest| > 1 && IsSign(rest[1]) then 2 else 1;
      assert (rest + w)[k..] == rest[k..] + w;
      DigitsStop(rest[k..], w);
      assert |rest| == 1 && w != [] ==> (rest + w)[1] == w[0];
    }
  }

  lemma InfinityStops(s: string, w: string)
    requires Ends(w)
    ensures INFINITY <= s + w <==> INFINITY <= s
  {
    assert forall i | 0 <= i < |INFINITY| :: !IsSpace(INFINITY[i]);
    assert w != [] ==> (s + w)[|s|] == w[0];
  }

  lemma UnsignedStops(s: string, w: string)
    requires Ends(w)
    ensures ScanUnsigned(s + w) == ScanUnsigned(s)
  {
    hide ScanMantissa, ScanExponent, Times;
    InfinityStops(s, w);
    MantissaStops(s, w);
    var m := ScanMantissa(s);
    if m.Scanned? {
      assert (s + w)[m.length..] == s[m.length..] + w;
      ExponentStops(s[m.length..], w);
    }
  }

  /** White space behind a number does not change what is read. */
  lemma ScanStops(s: string, w: string)
    requires Ends(w)
    ensures ScanDecimal(s + w) == ScanDecimal(s)
  {
    hide ScanUnsigned;
    if s == [] {
      assert s + w == w;
    } else {
      assert (s + w)[1..] == s[1..] + w;
      UnsignedStops(s[1..], w);
    }
    UnsignedStops(s, w);
  }

  lemma {:induction false} TrimEndLeaves(s: string)
    ensures |TrimEnd(s)| <= |s| && TrimEnd(s) == s[..|TrimEnd(s)|]
    ensures |TrimEnd(s)| < |s| ==> IsSpace(s[|TrimEnd(s)|])
  {
    if s != [] && IsSpace(s[|s| - 1]) { TrimEndLeaves(s[..|s| - 1]); }
  }

  /** parseFloat reads what the trimmed text starts with. */
  lemma ParseTrimmed(raw: string)
    ensures ScanDecimal(TrimStart(raw)) == ScanDecimal(Trim(raw))
  {
    hide ScanDecimal, TrimStart, TrimEnd;
    var s, t := TrimStart(raw), Trim(raw);
    TrimEndLeaves(s);
    assert s == t + s[|t|..];
    ScanStops(t, s[|t|..]);
  }

  lemma PrefixedScan(t: string)
    requires Prefixed(t)
    ensures ScanDecimal(t) == Scanned(Finite(0.0), 1)
  {
    assert t == "0" + t[1..];
    DigitsStop("0", t[1..]);
    assert DigitPrefix("0") == "0";
    assert ParseNat("0") == 0 by { assert "0"[..0] == []; }
    assert t[|"0"|..][0] == t[1];
    assert Times(0.0, 0) == 0.0;
  }

  lemma {:induction false} PowersGrow(k: nat)
    ensures Pow2(k) > k
  {
    if k > 0 { PowersGrow(k - 1); }
  }

  lemma {:induction false} PowersOrdered(j: nat, k: nat)
    requires j <= k
    ensures Pow2(j) <= Pow2(k)
  {
    if j < k { PowersOrdered(j, k - 1); }
  }

  /** Anything up to 2^1023 is finite. */
  lemma BelowOverflow(k: nat)
    requires k <= 1023
    ensures Pow2(k) as real <= Overflow() && Overflow() > 1000.0
  {
    hide Pow2;
    PowersOrdered(k, 1023);
    PowersOrdered(970, 1023);
    PowersGrow(1023);
    assert Pow2(1024) == 2 * Pow2(1023) by { DoublePower(1023); }
  }

  lemma DoublePower(k: nat)
    ensures Pow2(k + 1) == 2 * Pow2(k)
  {
  }

  /** parseFloat reads the zero a prefixed literal starts with. */
  lemma PrefixedReadsZero(raw: string)
    requires Prefixed(Trim(raw))
    ensures ParseFloat(raw) == Finite(0.0)
  {
    hide ScanDecimal, Trim, Overflow;
    ParseTrimmed(raw);
    PrefixedScan(Trim(raw));
    BelowOverflow(0);
  }

  /** The two readers agree on a non-blank text that is wholly a number exactly
      when it has no prefix or its value is zero. */
  lemma ReadersAgree(raw: string)
    requires !NumberOf(raw).NaN? && Trim(raw) != []
    ensures ParseFloat(raw) == NumberOf(raw) <==> !Prefixed(Trim(raw)) || NumberOf(raw) == Finite(0.0)
  {
    hide ScanDecimal, Trim, Settled;
    ParseTrimmed(raw);
    if Prefixed(Trim(raw)) { PrefixedReadsZero(raw); }
  }

  lemma BlankIsNaN(raw: string)
    requires Trim(raw) == []
    ensures ParseFloat(raw) == NaN
  {
    hide Trim;
    ParseTrimmed(raw);
    assert DigitPrefix("") == "";
  }
}
