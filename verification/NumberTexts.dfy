/** What the text readers mean: trimming leaves the core of a text, and a numeral
    is read back as the number it spells. */
module NumberTexts {
  import opened Collections
  import opened DecimalText
  import opened TextReaders

  // ── trimming, words and letter case ──────────────────────────────────────

  predicate Blank(s: string) { forall i | 0 <= i < |s| :: IsSpace(s[i]) }

  predicate NoBlank(s: string) { forall i | 0 <= i < |s| :: !IsSpace(s[i]) }

  /** A text that neither starts nor ends with white space. */
  predicate Core(s: string) { s == [] || (!IsSpace(s[0]) && !IsSpace(s[|s| - 1])) }

  lemma {:induction false} TrimStartDrops(pre: string, t: string)
    requires Blank(pre) && (t == [] || !IsSpace(t[0]))
    ensures TrimStart(pre + t) == t
  {
    if pre == [] {
      assert pre + t == t;
    } else {
      assert (pre + t)[1..] == pre[1..] + t;
      TrimStartDrops(pre[1..], t);
    }
  }

  lemma {:induction false} TrimEndDrops(t: string, post: string)
    requires Blank(post) && (t == [] || !IsSpace(t[|t| - 1]))
    ensures TrimEnd(t + post) == t
  {
    if post == [] {
      assert t + post == t;
    } else {
      assert (t + post)[..|t + post| - 1] == t + post[..|post| - 1];
      TrimEndDrops(t, post[..|post| - 1]);
    }
  }

  lemma {:induction false} BlankVanishes(s: string)
    requires Blank(s)
    ensures TrimStart(s) == []
  {
    if s != [] { BlankVanishes(s[1..]); }
  }

  /** Trimming takes exactly the white space around a text. */
  lemma TrimLeavesCore(pre: string, t: string, post: string)
    requires Blank(pre) && Core(t) && Blank(post)
    ensures Trim(pre + t + post) == t
  {
    hide IsSpace;
    if t == [] {
      assert pre + t + post == pre + post;
      BlankVanishes(pre + post);
    } else {
      assert pre + t + post == pre + (t + post);
      TrimStartDrops(pre, t + post);
      TrimEndDrops(t, post);
    }
  }

  lemma {:induction false} WordStays(word: string)
    requires NoBlank(word)
    ensures JoinWords(word) == word
  {
    if word != [] { WordStays(word[1..]); }
  }

  lemma GapJoins(gap: string, rest: string)
    requires Blank(gap) && gap != [] && (rest == [] || !IsSpace(rest[0]))
    ensures JoinWords(gap + rest) == "_" + JoinWords(rest)
  {
    TrimStartDrops(gap, rest);
    assert (gap + rest)[0] == gap[0];
  }

  /** Every run of white space becomes one underscore, the words stay. */
  lemma {:induction false} WordsJoin(word: string, gap: string, rest: string)
    requires NoBlank(word) && Blank(gap) && gap != [] && (rest == [] || !IsSpace(rest[0]))
    ensures JoinWords(word) == word
    ensures JoinWords(word + gap + rest) == word + "_" + JoinWords(rest)
  {
    hide TrimStart;
    WordStays(word);
    var s := word + gap + rest;
    if word == [] {
      assert s == gap + rest;
      GapJoins(gap, rest);
    } else {
      assert s[1..] == word[1..] + gap + rest && s[0] == word[0];
      WordsJoin(word[1..], gap, rest);
      assert [word[0]] + (word[1..] + "_" + JoinWords(rest)) == word + "_" + JoinWords(rest);
    }
  }

  const SMALL := "abcdefghijklmnopqrstuvwxyz"

  const CAPITAL := "ABCDEFGHIJKLMNOPQRSTUVWXYZ"

  /** The case of the letters changes, letter by letter, and nothing else does. */
  lemma CasesSwap(c: char, i: nat)
    requires i < 26
    ensures UpperChar(SMALL[i]) == CAPITAL[i] && LowerChar(CAPITAL[i]) == SMALL[i]
    ensures (forall j | 0 <= j < 26 :: c != SMALL[j]) ==> UpperChar(c) == c
    ensures (forall j | 0 <= j < 26 :: c != CAPITAL[j]) ==> LowerChar(c) == c
  {
    AlphabetInOrder();
    if 'a' <= c <= 'z' { assert c == SMALL[c as int - 97]; }
    if 'A' <= c <= 'Z' { assert c == CAPITAL[c as int - 65]; }
  }

  lemma AlphabetInOrder()
    ensures |SMALL| == 26 && |CAPITAL| == 26
    ensures forall j | 0 <= j < 26 :: SMALL[j] as int == 97 + j && CAPITAL[j] as int == 65 + j
  {
  }

  // ── decimal literals ─────────────────────────────────────────────────────

  datatype Sign = Bare | Plus | Minus

  /** A decimal literal: sign, digits before and after the point, and an exponent. */
  datatype Literal = Literal(sign: Sign, whole: string, fraction: Option<string>, exponent: Option<Exponent>)

  datatype Exponent = Exponent(mark: char, sign: Sign, digits: string)

  predicate Legal(l: Literal) {
    && AllDigits(l.whole) && (l.whole != "" || (l.fraction.Some? && l.fraction.value != ""))
    && (l.fraction.Some? ==> AllDigits(l.fraction.value))
    && (l.exponent.Some? ==> && AllDigits(l.exponent.value.digits) && l.exponent.value.digits != ""
                             && (l.exponent.value.mark == 'e' || l.exponent.value.mark == 'E'))
  }

  function SpelledSign(s: Sign): string { match s case Bare => "" case Plus => "+" case Minus => "-" }

  function SpelledMantissa(l: Literal): string { l.whole + if l.fraction.Some? then "." + l.fraction.value else "" }

  function SpelledExponent(e: Option<Exponent>): string {
    if e.None? then "" else [e.value.mark] + SpelledSign(e.value.sign) + e.value.digits
  }

  function Spelled(l: Literal): string { SpelledSign(l.sign) + SpelledMantissa(l) + SpelledExponent(l.exponent) }

  function TenTo(k: nat): (p: real)
    ensures p > 0.0
  {
    if k == 0 then 1.0 else 10.0 * TenTo(k - 1)
  }

  function Magnitude(l: Literal): real
    requires Legal(l)
  {
    ParseNat(l.whole) as real
    + if l.fraction.Some? then ParseNat(l.fraction.value) as real / TenTo(|l.fraction.value|) else 0.0
  }

  function Scaling(e: Option<Exponent>): real
    requires e.Some? ==> AllDigits(e.value.digits)
  {
    if e.None? then 1.0
    else if e.value.sign == Minus then 1.0 / TenTo(ParseNat(e.value.digits))
    else TenTo(ParseNat(e.value.digits))
  }

  function Meaning(l: Literal): real
    requires Legal(l)
  {
    (if l.sign == Minus then -1.0 else 1.0) * Magnitude(l) * Scaling(l.exponent)
  }

  /** The text behind a literal does not continue it. */
  predicate Follows(l: Literal, w: string) {
    w != [] ==>
      && !IsDigit(w[0])
      && (l.fraction.None? && l.exponent.None? ==> w[0] != '.')
      && (l.exponent.None? ==> w[0] != 'e' && w[0] != 'E')
  }

  lemma {:induction false} PowersOfTen(k: nat)
    ensures Pow10(k) as real == TenTo(k)
  {
    if k > 0 { PowersOfTen(k - 1); }
  }

  lemma TimesPower(v: real, k: int)
    ensures k >= 0 ==> Times(v, k) == v * TenTo(k)
    ensures k <= 0 ==> Times(v, k) == v / TenTo(-k)
    ensures k <= 0 ==> Times(v, k) == v * (1.0 / TenTo(-k))
  {
    PowersOfTen(if k >= 0 then k else -k);
    if k == 0 {
      assert TenTo(0) == 1.0;
    }
    if k <= 0 { Inverse(v, TenTo(-k)); }
  }

  lemma Inverse(v: real, p: real)
    requires p > 0.0
    ensures v / p == v * (1.0 / p)
  {
    var q := 1.0 / p;
    assert q * p == 1.0;
    assert v * q * p == v;
    assert v * q * p / p == v * q;
  }

  lemma DigitsThen(d: string, w: string)
    requires AllDigits(d) && (w == [] || !IsDigit(w[0]))
    ensures DigitPrefix(d + w) == d && (d + w)[|d|..] == w
  {
    DigitsStop(d, w);
    DigitsOnly(d);
  }

  lemma WholeRead(whole: string, w: string)
    requires AllDigits(whole) && whole != ""
    requires w != [] ==> !IsDigit(w[0]) && w[0] != '.'
    ensures ScanMantissa(whole + w) == Scanned(Finite(ParseNat(whole) as real), |whole|)
  {
    hide ParseNat, DigitPrefix;
    DigitsThen(whole, w);
  }

  lemma TimesDown(v: real, k: nat)
    ensures Times(v, -(k as int)) == v / TenTo(k)
  {
    PowersOfTen(k);
    if k > 0 { hide TenTo, Pow10; }
  }

  lemma FractionBy(whole: string, rest: string, f: string)
    requires AllDigits(whole) && AllDigits(f) && (whole != "" || f != "")
    requires rest != [] && rest[0] == '.' && DigitPrefix(rest[1..]) == f
    ensures ScanFraction(whole, rest)
         == Scanned(Finite(ParseNat(whole) as real + ParseNat(f) as real / TenTo(|f|)), |whole| + 1 + |f|)
  {
    TimesDown(ParseNat(f) as real, |f|);
    hide ParseNat, Times, DigitPrefix, AllDigits, TenTo;
  }

  lemma PointThen(f: string, w: string)
    requires AllDigits(f) && (w != [] ==> !IsDigit(w[0]))
    ensures var rest := ['.'] + (f + w); rest[0] == '.' && DigitPrefix(rest[1..]) == f
  {
    DigitsThen(f, w);
    hide DigitPrefix, AllDigits, IsDigit;
    assert (['.'] + (f + w))[1..] == f + w;
  }

  lemma FractionScanned(whole: string, f: string, w: string)
    requires AllDigits(whole) && AllDigits(f) && (whole != "" || f != "")
    requires w != [] ==> !IsDigit(w[0])
    ensures ScanFraction(whole, ['.'] + (f + w))
         == Scanned(Finite(ParseNat(whole) as real + ParseNat(f) as real / TenTo(|f|)), |whole| + 1 + |f|)
  {
    PointThen(f, w);
    FractionBy(whole, ['.'] + (f + w), f);
    hide ParseNat, TenTo, DigitPrefix, AllDigits, ScanFraction, IsDigit;
  }

  lemma FractionRead(whole: string, f: string, w: string)
    requires AllDigits(whole) && AllDigits(f) && (whole != "" || f != "")
    requires w != [] ==> !IsDigit(w[0])
    ensures ScanMantissa(whole + (['.'] + (f + w)))
         == Scanned(Finite(ParseNat(whole) as real + ParseNat(f) as real / TenTo(|f|)), |whole| + 1 + |f|)
  {
    FractionScanned(whole, f, w);
    DigitsThen(whole, ['.'] + (f + w));
    hide ParseNat, TenTo, DigitPrefix, AllDigits, ScanFraction;
  }

  lemma MantissaRead(l: Literal, w: string)
    requires Legal(l)
    requires w != [] ==> !IsDigit(w[0]) && (l.fraction.None? ==> w[0] != '.')
    ensures ScanMantissa(SpelledMantissa(l) + w) == Scanned(Finite(Magnitude(l)), |SpelledMantissa(l)|)
  {
    hide ParseNat, TenTo, AllDigits, ScanMantissa;
    if l.fraction.None? {
      WholeRead(l.whole, w);
      assert SpelledMantissa(l) + w == l.whole + w;
    } else {
      FractionRead(l.whole, l.fraction.value, w);
      assert SpelledMantissa(l) + w == l.whole + (['.'] + (l.fraction.value + w));
    }
  }

  /** The number an exponent part stands for. */
  function ExponentOf(e: Exponent): int
    requires AllDigits(e.digits)
  {
    if e.sign == Minus then -(ParseNat(e.digits) as int) else ParseNat(e.digits)
  }

  lemma ScannedExponent(s: string, k: nat, digits: string)
    requires |s| >= 2 && (s[0] == 'e' || s[0] == 'E') && k == (if IsSign(s[1]) then 2 else 1)
    requires digits != "" && DigitPrefix(s[k..]) == digits
    ensures ScanExponent(s) == (if s[1] == '-' then -(ParseNat(digits) as int) else ParseNat(digits), k + |digits|)
  {
    hide ParseNat, DigitPrefix;
  }

  lemma UnsignedExponentRead(mark: char, digits: string, w: string)
    requires AllDigits(digits) && digits != "" && (mark == 'e' || mark == 'E') && (w != [] ==> !IsDigit(w[0]))
    ensures ScanExponent([mark] + (digits + w)) == (ParseNat(digits), 1 + |digits|)
  {
    assert IsDigit(digits[0]);
    DigitsThen(digits, w);
    hide ParseNat, DigitPrefix, ScanExponent, AllDigits;
    var rest := digits + w;
    var s := [mark] + rest;
    assert rest[0] == digits[0];
    assert s[1] == rest[0] && s[1..] == rest;
    ScannedExponent(s, 1, digits);
  }

  lemma SignedExponentRead(mark: char, sign: char, digits: string, w: string)
    requires AllDigits(digits) && digits != "" && (mark == 'e' || mark == 'E') && (w != [] ==> !IsDigit(w[0]))
    requires IsSign(sign)
    ensures ScanExponent([mark, sign] + (digits + w))
         == (if sign == '-' then -(ParseNat(digits) as int) else ParseNat(digits), 2 + |digits|)
  {
    hide ParseNat, DigitPrefix, ScanExponent;
    var s := [mark, sign] + (digits + w);
    assert s[2..] == digits + w && s[1] == sign && s[0] == mark;
    DigitsThen(digits, w);
    ScannedExponent(s, 2, digits);
  }

  lemma ExponentRead(e: Exponent, w: string)
    requires AllDigits(e.digits) && e.digits != "" && (e.mark == 'e' || e.mark == 'E')
    requires w != [] ==> !IsDigit(w[0])
    ensures var x := SpelledExponent(Some(e)); ScanExponent(x + w) == (ExponentOf(e), |x|)
  {
    hide ParseNat, ScanExponent, AllDigits;
    var x := SpelledExponent(Some(e));
    match e.sign
    case Bare =>
      UnsignedExponentRead(e.mark, e.digits, w);
      assert x + w == [e.mark] + (e.digits + w);
    case Plus =>
      SignedExponentRead(e.mark, '+', e.digits, w);
      assert x + w == [e.mark, '+'] + (e.digits + w);
    case Minus =>
      SignedExponentRead(e.mark, '-', e.digits, w);
      assert x + w == [e.mark, '-'] + (e.digits + w);
  }

  lemma TailRead(l: Literal, w: string)
    requires Legal(l) && Follows(l, w)
    ensures var x := SpelledExponent(l.exponent);
      var e := ScanExponent(x + w);
      e.1 == |x| && Times(Magnitude(l), e.0) == Magnitude(l) * Scaling(l.exponent)
  {
    hide ScanExponent, TenTo, Times, ParseNat, AllDigits, Magnitude;
    if l.exponent.Some? {
      var x := l.exponent.value;
      ExponentRead(x, w);
      TimesPower(Magnitude(l), ExponentOf(x));
    } else {
      NoExponentRead(w);
      assert SpelledExponent(l.exponent) + w == w;
      TimesPower(Magnitude(l), 0);
      PowerZero();
    }
  }

  lemma ScannedBy(m: string, x: string, w: string, v: real, e: int)
    requires !(INFINITY <= m + (x + w)) && ScanMantissa(m + (x + w)) == Scanned(Finite(v), |m|)
    requires ScanExponent(x + w) == (e, |x|)
    ensures ScanUnsigned(m + x + w) == Scanned(Finite(Times(v, e)), |m + x|)
  {
    hide ScanMantissa, ScanExponent, Times, INFINITY;
    var s := m + (x + w);
    assert m + x + w == s && s[|m|..] == x + w;
  }

  lemma UnsignedRead(l: Literal, w: string)
    requires Legal(l) && Follows(l, w)
    ensures var t := SpelledMantissa(l) + SpelledExponent(l.exponent);
      ScanUnsigned(t + w) == Scanned(Finite(Magnitude(l) * Scaling(l.exponent)), |t|)
  {
    var m, x := SpelledMantissa(l), SpelledExponent(l.exponent);
    assert l.exponent.Some? ==> (x + w)[0] == l.exponent.value.mark;
    hide ScanMantissa, ScanExponent, ScanUnsigned, TenTo, Times, ParseNat, AllDigits, SpelledMantissa, SpelledExponent;
    hide Magnitude, Scaling, INFINITY;
    StartsUnsigned(l, x + w);
    MantissaRead(l, x + w);
    TailRead(l, w);
    ScannedBy(m, x, w, Magnitude(l), ScanExponent(x + w).0);
  }

  lemma PowerZero()
    ensures TenTo(0) == 1.0
  {
  }

  lemma NoExponentRead(w: string)
    requires w == [] || (w[0] != 'e' && w[0] != 'E')
    ensures ScanExponent(w) == (0, 0)
  {
  }

  lemma StartsUnsigned(l: Literal, w: string)
    requires Legal(l)
    ensures var s := SpelledMantissa(l) + w; s != [] && !IsSign(s[0]) && !(INFINITY <= s)
    ensures var s := SpelledMantissa(l) + w; !IsSpace(s[0]) && (IsDigit(s[0]) || s[0] == '.')
  {
    var s := SpelledMantissa(l) + w;
    if l.whole != "" { assert s[0] == l.whole[0] && IsDigit(l.whole[0]); } else { assert s[0] == '.'; }
    assert INFINITY[0] == 'I';
  }

  lemma SignedBy(sign: Sign, t: string, w: string, v: real)
    requires t + w != [] && !IsSign((t + w)[0]) && ScanUnsigned(t + w) == Scanned(Finite(v), |t|)
    ensures var s := SpelledSign(sign) + t;
      ScanDecimal(s + w) == Scanned(Finite(if sign == Minus then -v else v), |s|)
  {
    hide ScanUnsigned;
    var s := SpelledSign(sign) + t + w;
    if sign == Bare {
      assert s == t + w;
    } else {
      assert s[1..] == t + w && s[0] == SpelledSign(sign)[0];
    }
  }

  lemma SignedMeaning(l: Literal)
    requires Legal(l)
    ensures var v := Magnitude(l) * Scaling(l.exponent); Meaning(l) == if l.sign == Minus then -v else v
  {
    hide Magnitude, Scaling;
    MinusOne(Magnitude(l), Scaling(l.exponent));
  }

  lemma MinusOne(m: real, k: real)
    ensures -1.0 * m * k == -(m * k) && 1.0 * m * k == m * k
  {
  }

  lemma NoSignFirst(l: Literal, w: string)
    requires Legal(l)
    ensures var t := SpelledMantissa(l) + SpelledExponent(l.exponent); t + w != [] && !IsSign((t + w)[0])
  {
    hide SpelledMantissa, SpelledExponent, IsSign, IsSpace;
    var m, x := SpelledMantissa(l), SpelledExponent(l.exponent);
    StartsUnsigned(l, x + w);
    assert m + x + w == m + (x + w);
  }

  /** Every decimal literal is read as the number it spells, to its last character. */
  lemma LiteralScanned(l: Literal, w: string)
    requires Legal(l) && Follows(l, w)
    ensures ScanDecimal(Spelled(l) + w) == Scanned(Finite(Meaning(l)), |Spelled(l)|)
  {
    hide ScanUnsigned, ScanDecimal, Magnitude, Scaling, SpelledMantissa, SpelledExponent, SpelledSign, IsSpace, Meaning;
    hide Follows, IsSign;
    var t := SpelledMantissa(l) + SpelledExponent(l.exponent);
    UnsignedRead(l, w);
    NoSignFirst(l, w);
    SignedMeaning(l);
    SignedBy(l.sign, t, w, Magnitude(l) * Scaling(l.exponent));
    assert Spelled(l) == SpelledSign(l.sign) + t;
  }

  lemma EndsWithDigit(l: Literal)
    requires Legal(l)
    ensures Core(Spelled(l)) && Spelled(l) != [] && !Prefixed(Spelled(l))
  {
    StartsUnsigned(l, SpelledExponent(l.exponent));
    var s := Spelled(l);
    assert s == SpelledSign(l.sign) + (SpelledMantissa(l) + SpelledExponent(l.exponent));
    if l.exponent.Some? {
      var d := l.exponent.value.digits;
      assert s[|s| - 1] == d[|d| - 1] && IsDigit(d[|d| - 1]);
    } else if l.fraction.Some? && l.fraction.value != "" {
      var f := l.fraction.value;
      assert s[|s| - 1] == f[|f| - 1] && IsDigit(f[|f| - 1]);
    } else if l.fraction.Some? {
      assert s[|s| - 1] == '.';
    } else {
      assert s[|s| - 1] == l.whole[|l.whole| - 1] && IsDigit(l.whole[|l.whole| - 1]);
    }
    if |s| >= 2 { SecondCharacter(l); }
  }

  lemma SecondCharacter(l: Literal)
    requires Legal(l) && |Spelled(l)| >= 2
    ensures Base(Spelled(l)[1]) == 0 || Spelled(l)[0] != '0'
  {
    var s := Spelled(l);
    if l.sign != Bare {
      assert s[0] == SpelledSign(l.sign)[0];
    } else if |l.whole| >= 2 {
      assert s[1] == l.whole[1] && IsDigit(l.whole[1]);
    } else if |l.whole| == 1 && l.fraction.Some? {
      assert s[1] == '.';
    } else if |l.whole| == 1 {
      assert s[1] == l.exponent.value.mark;
    } else {
      assert s[0] == '.';
    }
  }

  lemma Fits(l: Literal, post: string)
    requires Legal(l) && Blank(post)
    ensures Follows(l, post)
  {
    if post != [] { assert IsSpace(post[0]); }
  }

  /** A decimal literal, with white space around it, is read as its number by both
      readers; the prefix reader also takes it from the front of a longer text. */
  lemma LiteralRead(pre: string, l: Literal, post: string, w: string)
    requires Blank(pre) && Legal(l) && Blank(post) && Follows(l, w)
    ensures NumberOf(pre + Spelled(l) + post) == Settled(Finite(Meaning(l)))
    ensures ParseFloat(pre + Spelled(l) + w) == Settled(Finite(Meaning(l)))
  {
    hide ScanDecimal, Spelled, Meaning, Settled, IsSpace, Prefixed;
    EndsWithDigit(l);
    LiteralScanned(l, []);
    assert Spelled(l) + [] == Spelled(l);
    TrimLeavesCore(pre, Spelled(l), post);
    LiteralScanned(l, w);
    assert pre + Spelled(l) + w == pre + (Spelled(l) + w);
    TrimStartDrops(pre, Spelled(l) + w);
  }

  // ── literals in other bases ──────────────────────────────────────────────

  function HexDigit(d: nat): char
    requires d < 16
  {
    if d < 10 then (48 + d) as char else (87 + d) as char
  }

  lemma QuotientSmaller(n: nat, base: nat)
    requires 2 <= base <= n
    ensures n / base < n && n % base < base && n == n / base * base + n % base
  {
  }

  function PrintIn(n: nat, base: nat): (s: string)
    requires 2 <= base <= 16
    ensures s != []
  {
    if n < base then [HexDigit(n)]
    else
      QuotientSmaller(n, base);
      PrintIn(n / base, base) + [HexDigit(n % base)]
  }

  lemma HexDigitValues(d: nat)
    requires d < 16
    ensures HexValue(HexDigit(d)) == d && !IsSpace(HexDigit(d))
    ensures d >= 10 ==> HexValue(UpperChar(HexDigit(d))) == d
  {
  }

  lemma PrintStep(front: string, d: nat, base: nat)
    requires d < base <= 16 && DigitsIn(front, base)
    ensures var s := front + [HexDigit(d)];
      ParseIn(s, base) == ParseIn(front, base) * base + d && DigitsIn(s, base) && !IsSpace(s[|s| - 1])
  {
    hide HexDigit, HexValue, IsSpace;
    HexDigitValues(d);
    assert (front + [HexDigit(d)])[..|front|] == front;
  }

  lemma {:induction false} PrintedIn(n: nat, base: nat)
    requires 2 <= base <= 16
    ensures var s := PrintIn(n, base); ParseIn(s, base) == n && DigitsIn(s, base) && !IsSpace(s[|s| - 1])
  {
    hide HexDigit, HexValue, IsSpace, DigitsIn;
    if n < base {
      NoDigits(base);
      PrintStep([], n, base);
      assert [] + [HexDigit(n)] == PrintIn(n, base);
    } else {
      var q, d := n / base, n % base;
      QuotientSmaller(n, base);
      PrintedIn(q, base);
      PrintStep(PrintIn(q, base), d, base);
      PrintUnfolds(n, base);
      hide PrintIn, ParseIn;
    }
  }

  lemma PrintUnfolds(n: nat, base: nat)
    requires 2 <= base <= 16 && n >= base
    ensures PrintIn(n, base) == PrintIn(n / base, base) + [HexDigit(n % base)]
  {
  }

  lemma NoDigits(base: nat)
    ensures ParseIn([], base) == 0 && DigitsIn([], base)
  {
  }

  /** A number printed in base 16, 8 or 2 behind its prefix, in either case, is read
      as that number when the whole text is read, and as zero from the front. */
  lemma PrefixedRead(pre: string, mark: char, n: nat, post: string)
    requires Blank(pre) && Blank(post)
    requires mark == 'x' || mark == 'X' || mark == 'o' || mark == 'O' || mark == 'b' || mark == 'B'
    ensures var base := if mark == 'x' || mark == 'X' then 16 else if mark == 'o' || mark == 'O' then 8 else 2;
      var text := pre + ['0', mark] + PrintIn(n, base) + post;
      NumberOf(text) == Settled(Finite(n as real)) && ParseFloat(text) == Finite(0.0)
  {
    hide Settled, IsSpace, PrintIn;
    var base := Base(mark);
    var digits := PrintIn(n, base);
    var t := ['0', mark] + digits;
    PrintedIn(n, base);
    ZeroIsNoSpace();
    assert t[2..] == digits && t[|t| - 1] == digits[|digits| - 1];
    TrimLeavesCore(pre, t, post);
    assert pre + ['0', mark] + digits + post == pre + t + post;
    PrefixedReadsZero(pre + t + post);
  }

  lemma ZeroIsNoSpace()
    ensures !IsSpace('0')
  {
  }

  /** A prefix without digits, or with one too large for its base, is no number. */
  lemma BadPrefixIsNaN(pre: string, mark: char, digits: string, post: string)
    requires Blank(pre) && Blank(post) && Base(mark) != 0
    requires Core("0" + [mark] + digits) && (digits == [] || !DigitsIn(digits, Base(mark)))
    ensures NumberOf(pre + ("0" + [mark] + digits) + post) == NaN
  {
    hide IsSpace;
    TrimLeavesCore(pre, "0" + [mark] + digits, post);
    assert ("0" + [mark] + digits)[2..] == digits;
  }

  /** White space alone is zero to the one reader and no number to the other. */
  lemma BlankRead(s: string)
    requires Blank(s)
    ensures NumberOf(s) == Finite(0.0) && ParseFloat(s) == NaN
  {
    hide IsSpace;
    TrimLeavesCore(s, [], []);
    assert s + [] + [] == s;
    BlankIsNaN(s);
  }
}
