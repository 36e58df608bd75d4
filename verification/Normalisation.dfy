/** Grade values: the checks a raw value must pass and the 0-100 score it gets. */
module Normalisation {
  import opened Collections
  import opened Entities
  import opened DecimalText
  import opened TextReaders

  // ── validation ───────────────────────────────────────────────────────────

  datatype RawValueError = InvalidRawValue | NumericOutOfRange | FrequencyOutOfRange

  const RUBRIC_LABELS: seq<string> :=
    ["MASTERED", "PRACTICING", "INTRODUCED", "NOT_INTRODUCED", "A", "B", "C", "D", "E", "F"]

  const YES_LABELS: seq<string> := ["true", "yes", "1"]

  const NO_LABELS: seq<string> := ["false", "no", "0"]

  /** parseInt, printed back and compared with the trimmed text; from 10^21 on
      numbers print with an exponent. */
  function FrequencyCount(raw: string): Option<nat> {
    var t := Trim(raw);
    var digits := DigitPrefix(t);
    if digits != [] && ParseNat(digits) < Pow10(21) && NatToString(ParseNat(digits)) == t then Some(ParseNat(digits))
    else None
  }

  function ValidateRawValue(raw: string, a: Activity): Result<(), RawValueError> {
    match a.gradingType
    case Rubric =>
      if Trim(ToUpper(raw)) in RUBRIC_LABELS then Ok(()) else Err(InvalidRawValue)
    case Numeric =>
      var num := ParseFloat(raw);
      if !num.Finite? then Err(InvalidRawValue)
      else if a.gradingConfig.NumericConfig?
              && (num.value < a.gradingConfig.min || num.value > a.gradingConfig.max) then Err(NumericOutOfRange)
      else Ok(())
    case YesNo =>
      if Trim(ToLower(raw)) in YES_LABELS + NO_LABELS then Ok(()) else Err(InvalidRawValue)
    case Frequency =>
      var count := FrequencyCount(raw);
      if count.None? then Err(InvalidRawValue)
      else if a.gradingConfig.FrequencyConfig? && count.value as real > a.gradingConfig.maxFrequency
      then Err(FrequencyOutOfRange)
      else Ok(())
  }

  // ── normalisation ────────────────────────────────────────────────────────

  const RUBRIC_SCORES: map<string, real> := map[
    "MASTERED" := 100.0, "PRACTICING" := 75.0, "INTRODUCED" := 50.0, "NOT_INTRODUCED" := 25.0,
    "A" := 100.0, "B" := 80.0, "C" := 60.0, "D" := 40.0, "E" := 20.0, "F" := 0.0]

  function NormaliseRubric(raw: string): real {
    var mark := JoinWords(Trim(ToUpper(raw)));
    if mark in RUBRIC_SCORES then RUBRIC_SCORES[mark] else 0.0
  }

  function Scaled(value: real, min: real, max: real): real
    requires min != max
  {
    (value - min) / (max - min) * 100.0
  }

  function NormaliseNumeric(raw: string, config: GradingConfig): real {
    if !config.NumericConfig? then 0.0
    else
      var value := NumberOf(raw);
      if !value.Finite? || config.max == config.min then 0.0
      else Scaled(value.value, config.min, config.max)
  }

  function NormaliseYesNo(raw: string): real {
    if Trim(ToLower(raw)) in YES_LABELS then 100.0 else 0.0
  }

  function NormaliseFrequency(raw: string, config: GradingConfig): real {
    if !config.FrequencyConfig? then 0.0
    else
      var count := NumberOf(raw);
      if !count.Finite? || config.maxFrequency <= 0.0 then 0.0
      else count.value / config.maxFrequency * 100.0
  }

  /** The score before it is clamped and rounded. */
  function RawScore(raw: string, a: Activity): real {
    match a.gradingType
    case Rubric => NormaliseRubric(raw)
    case Numeric => NormaliseNumeric(raw, a.gradingConfig)
    case YesNo => NormaliseYesNo(raw)
    case Frequency => NormaliseFrequency(raw, a.gradingConfig)
  }

  function Hundredths(k: int): real { k as real / 100.0 }

  /** Math.round(x * 100) / 100. */
  function Round2(x: real): real { Hundredths((x * 100.0 + 0.5).Floor) }

  function Clamp(value: real): real {
    Round2(if value < 0.0 then 0.0 else if value > 100.0 then 100.0 else value)
  }

  function Normalise(raw: string, a: Activity): real { Clamp(RawScore(raw, a)) }

  // ── properties ───────────────────────────────────────────────────────────

  predicate TwoDecimalScore(x: real) {
    exists k: int :: 0 <= k <= 10000 && x == Hundredths(k)
  }

  /** Every score is a multiple of 0.01 between 0 and 100. */
  lemma NormaliseOnScale(raw: string, a: Activity)
    ensures TwoDecimalScore(Normalise(raw, a)) && OnScale(Normalise(raw, a))
  {
    hide RawScore;
    var v := RawScore(raw, a);
    var x := if v < 0.0 then 0.0 else if v > 100.0 then 100.0 else v;
    var k := (x * 100.0 + 0.5).Floor;
    assert Normalise(raw, a) == Hundredths(k);
  }

  predicate OnScale(x: real) { 0.0 <= x <= 100.0 }

  lemma Round2Monotone(x: real, y: real)
    requires x <= y
    ensures Round2(x) <= Round2(y)
  {
    FloorMonotone(x * 100.0 + 0.5, y * 100.0 + 0.5);
  }

  lemma FloorMonotone(x: real, y: real)
    requires x <= y
    ensures x.Floor <= y.Floor
  {
  }

  lemma ScaledMonotone(x: real, y: real, min: real, max: real)
    requires min < max && x <= y
    ensures Scaled(x, min, max) <= Scaled(y, min, max)
  {
    var w := max - min;
    var a, b := (x - min) / w, (y - min) / w;
    assert a * w == x - min && b * w == y - min;
    assert (b - a) * w == y - x;
    NonNegativeFactor(b - a, w);
  }

  lemma NonNegativeFactor(d: real, w: real)
    requires w > 0.0 && d * w >= 0.0
    ensures d >= 0.0
  {
  }

  /** NUMERIC scoring: a larger value never scores less, through scaling,
      clamping and rounding. */
  lemma NumericScoring(raw: string, other: string, a: Activity)
    requires a.gradingType == Numeric && a.gradingConfig.NumericConfig? && a.gradingConfig.min < a.gradingConfig.max
    requires NumberOf(raw).Finite? && NumberOf(other).Finite? && NumberOf(raw).value <= NumberOf(other).value
    ensures Normalise(raw, a) <= Normalise(other, a)
  {
    hide NumberOf, Clamp, Scaled;
    var min, max := a.gradingConfig.min, a.gradingConfig.max;
    ScaledMonotone(NumberOf(raw).value, NumberOf(other).value, min, max);
    ClampMonotone(Scaled(NumberOf(raw).value, min, max), Scaled(NumberOf(other).value, min, max));
  }

  lemma ClampMonotone(x: real, y: real)
    requires x <= y
    ensures Clamp(x) <= Clamp(y)
  {
    var a := if x < 0.0 then 0.0 else if x > 100.0 then 100.0 else x;
    var b := if y < 0.0 then 0.0 else if y > 100.0 then 100.0 else y;
    Round2Monotone(a, b);
  }

  /** FREQUENCY scoring: a larger count never scores less. */
  lemma FrequencyScoring(raw: string, other: string, a: Activity)
    requires a.gradingType == Frequency
    requires NumberOf(raw).Finite? && NumberOf(other).Finite? && NumberOf(raw).value <= NumberOf(other).value
    ensures Normalise(raw, a) <= Normalise(other, a)
  {
    hide NumberOf, Clamp;
    var cfg := a.gradingConfig;
    if cfg.FrequencyConfig? && cfg.maxFrequency > 0.0 {
      var x, y, max := NumberOf(raw).value, NumberOf(other).value, cfg.maxFrequency;
      QuotientMonotone(x, y, max);
      ClampMonotone(x / max * 100.0, y / max * 100.0);
    }
  }

  lemma QuotientMonotone(x: real, y: real, max: real)
    requires max > 0.0 && x <= y
    ensures x / max * 100.0 <= y / max * 100.0
  {
    var p, q := x / max, y / max;
    assert p * max == x && q * max == y && (q - p) * max == y - x;
    NonNegativeFactor(q - p, max);
  }

  const MILESTONES: seq<string> := ["NOT_INTRODUCED", "INTRODUCED", "PRACTICING", "MASTERED"]

  const LETTERS: seq<string> := ["F", "E", "D", "C", "B", "A"]

  /** Both rubric scales climb in equal steps to 100, and together they are the accepted labels. */
  lemma RubricScales()
    ensures forall i | 0 <= i < 4 ::
      MILESTONES[i] in RUBRIC_SCORES && RUBRIC_SCORES[MILESTONES[i]] == 25.0 * (i + 1) as real
    ensures forall i | 0 <= i < 6 :: LETTERS[i] in RUBRIC_SCORES && RUBRIC_SCORES[LETTERS[i]] == 20.0 * i as real
    ensures forall m :: m in RUBRIC_SCORES <==> m in RUBRIC_LABELS
  {
    assert MILESTONES[0] == "NOT_INTRODUCED" && MILESTONES[1] == "INTRODUCED" && MILESTONES[2] == "PRACTICING"
      && MILESTONES[3] == "MASTERED";
    assert LETTERS[0] == "F" && LETTERS[1] == "E" && LETTERS[2] == "D" && LETTERS[3] == "C" && LETTERS[4] == "B"
      && LETTERS[5] == "A";
  }

  lemma {:induction false} ThousandsFit(k: nat)
    ensures Pow10(3 * k) <= Pow2(10 * k)
  {
    if k > 0 {
      var j := k - 1;
      ThousandsFit(j);
      ThreeZeros(3 * j);
      TenDoublings(10 * j);
      assert 3 * k == 3 * j + 3 && 10 * k == 10 * j + 10;
    }
  }

  lemma ThreeZeros(k: nat)
    ensures Pow10(k + 3) == 1000 * Pow10(k)
  {
    assert Pow10(k + 1) == 10 * Pow10(k) && Pow10(k + 2) == 10 * Pow10(k + 1) && Pow10(k + 3) == 10 * Pow10(k + 2);
  }

  lemma TenDoublings(k: nat)
    ensures Pow2(k + 10) == 1024 * Pow2(k)
  {
    FiveDoublings(k);
    FiveDoublings(k + 5);
  }

  lemma FiveDoublings(k: nat)
    ensures Pow2(k + 5) == 32 * Pow2(k)
  {
    DoublePower(k);
    DoublePower(k + 1);
    DoublePower(k + 2);
    DoublePower(k + 3);
    DoublePower(k + 4);
  }

  lemma NumeralScan(t: string)
    requires AllDigits(t) && t != []
    ensures !Prefixed(t) && ScanDecimal(t) == Scanned(Finite(ParseNat(t) as real), |t|)
  {
    hide ParseNat, Times, ScanMantissa, ScanExponent, INFINITY, AllDigits;
    NumeralStart(t);
    NumeralMantissa(t);
    NoExponent();
    assert t[|t|..] == [];
    TimesOne(ParseNat(t) as real);
  }

  lemma NoExponent()
    ensures ScanExponent("") == (0, 0)
  {
  }

  lemma NumeralStart(t: string)
    requires AllDigits(t) && t != []
    ensures !Prefixed(t) && !IsSign(t[0]) && !(INFINITY <= t)
  {
    assert |t| > 1 ==> IsDigit(t[1]);
    assert IsDigit(t[0]) && INFINITY[0] == 'I';
  }

  lemma NumeralMantissa(t: string)
    requires AllDigits(t) && t != []
    ensures ScanMantissa(t) == Scanned(Finite(ParseNat(t) as real), |t|)
  {
    hide ParseNat, DigitPrefix;
    DigitsOnly(t);
    assert t[|t|..] == [];
  }

  lemma TimesOne(v: real)
    ensures Times(v, 0) == v
  {
    assert Pow10(0) == 1;
  }

  lemma FrequencyReads(raw: string)
    requires FrequencyCount(raw).Some?
    ensures NumberOf(raw) == Finite(FrequencyCount(raw).value as real)
  {
    hide Trim, ParseNat, ScanDecimal, Overflow, Pow10, Pow2;
    var n := FrequencyCount(raw).value;
    assert Trim(raw) == NatToString(n);
    NumeralScan(NatToString(n));
    PrintThenParse(n);
    ThousandsFit(7);
    BelowOverflow(70);
  }

  lemma FractionOnScale(part: real, whole: real)
    requires whole > 0.0 && 0.0 <= part <= whole
    ensures 0.0 <= part / whole * 100.0 <= 100.0
  {
    var q := part / whole;
    assert q * whole == part && (1.0 - q) * whole == whole - part;
    NonNegativeFactor(q, whole);
    NonNegativeFactor(1.0 - q, whole);
  }

  lemma AboveScale(part: real, whole: real)
    requires whole > 0.0 && part > whole
    ensures part / whole * 100.0 > 100.0
  {
    var q := part / whole;
    assert (q - 1.0) * whole == part - whole;
    SameSign(q - 1.0, whole);
  }

  /** A NUMERIC text in hexadecimal, octal or binary whose value exceeds the range. */
  predicate Escapes(raw: string, a: Activity) {
    && a.gradingType == Numeric && a.gradingConfig.NumericConfig? && a.gradingConfig.min < a.gradingConfig.max
    && Prefixed(Trim(raw)) && NumberOf(raw).Finite? && NumberOf(raw).value > a.gradingConfig.max
  }

  lemma PrefixedNotNegative(raw: string)
    requires Prefixed(Trim(raw)) && NumberOf(raw).Finite?
    ensures NumberOf(raw).value >= 0.0
  {
    hide Overflow, Trim;
  }

  /** What scoring reads of a validated NUMERIC text: the number validation read,
      or the value of a prefixed literal, of which validation read the zero. */
  lemma ValidNumberRead(raw: string, a: Activity)
    requires a.gradingType == Numeric && ValidateRawValue(raw, a).Ok?
    ensures ParseFloat(raw).Finite?
    ensures !Prefixed(Trim(raw)) && !NumberOf(raw).NaN? ==> NumberOf(raw) == ParseFloat(raw)
    ensures Prefixed(Trim(raw)) ==> ParseFloat(raw) == Finite(0.0)
    ensures Prefixed(Trim(raw)) && NumberOf(raw).Finite? ==> NumberOf(raw).value >= 0.0
  {
    hide NumberOf, ParseFloat, Trim, Prefixed;
    if Trim(raw) == [] { BlankIsNaN(raw); }
    if !NumberOf(raw).NaN? && Trim(raw) != [] { ReadersAgree(raw); }
    if Prefixed(Trim(raw)) {
      PrefixedReadsZero(raw);
      if NumberOf(raw).Finite? { PrefixedNotNegative(raw); }
    }
  }

  lemma ValidNumericOnScale(raw: string, a: Activity)
    requires a.gradingType == Numeric && ValidateRawValue(raw, a).Ok?
    ensures OnScale(NormaliseNumeric(raw, a.gradingConfig)) <==> !Escapes(raw, a)
    ensures Escapes(raw, a) ==> NormaliseNumeric(raw, a.gradingConfig) > 100.0
  {
    ValidNumberRead(raw, a);
    hide NumberOf, ParseFloat, Trim, Prefixed, Scaled;
    var cfg := a.gradingConfig;
    if cfg.NumericConfig? && NumberOf(raw).Finite? && cfg.max != cfg.min {
      ScaledPlaces(NumberOf(raw).value, cfg.min, cfg.max);
    }
  }

  lemma ScaledPlaces(v: real, min: real, max: real)
    requires min < max && min <= v
    ensures if v <= max then OnScale(Scaled(v, min, max)) else Scaled(v, min, max) > 100.0
  {
    if v <= max { FractionOnScale(v - min, max - min); } else { AboveScale(v - min, max - min); }
  }

  lemma ValidFrequencyOnScale(raw: string, a: Activity)
    requires a.gradingType == Frequency && ValidateRawValue(raw, a).Ok?
    ensures OnScale(NormaliseFrequency(raw, a.gradingConfig))
  {
    hide NumberOf, FrequencyCount;
    var cfg := a.gradingConfig;
    FrequencyReads(raw);
    if cfg.FrequencyConfig? && cfg.maxFrequency > 0.0 {
      FractionOnScale(FrequencyCount(raw).value as real, cfg.maxFrequency);
    }
  }

  /** For a value that passes validation the clamp changes nothing but rounding
      exactly when it is no prefixed NUMERIC literal above the range; such a
      literal escapes the range check and scores 100. */
  lemma ValidatedScoreOnlyRounds(raw: string, a: Activity)
    requires ValidateRawValue(raw, a).Ok?
    ensures OnScale(RawScore(raw, a)) <==> !Escapes(raw, a)
    ensures !Escapes(raw, a) ==> Normalise(raw, a) == Round2(RawScore(raw, a))
    ensures Escapes(raw, a) ==> Normalise(raw, a) == 100.0
  {
    hide ValidateRawValue, NormaliseNumeric, NormaliseFrequency, Trim, JoinWords, NumberOf;
    assert (100.0 * 100.0 + 0.5).Floor == 10000;
    match a.gradingType
    case Rubric =>
    case YesNo =>
    case Numeric => ValidNumericOnScale(raw, a);
    case Frequency => ValidFrequencyOnScale(raw, a);
  }

  lemma SameSign(x: real, w: real)
    requires w > 0.0
    ensures x * w > 0.0 <==> x > 0.0
  {
  }

  lemma SmallFraction(part: real, whole: real)
    requires whole > 0.0
    ensures part / whole * 100.0 < 0.005 <==> 20000.0 * part < whole
  {
    var q := part / whole;
    assert q * whole == part;
    assert (1.0 - 20000.0 * q) * whole == whole - 20000.0 * part;
    SameSign(1.0 - 20000.0 * q, whole);
  }

  /** A number in range rounds to the score zero exactly when it lies above the
      minimum by less than a twenty-thousandth of the range. */
  lemma RoundsToZero(v: real, min: real, max: real)
    requires min < max && min <= v <= max
    ensures Clamp(Scaled(v, min, max)) == 0.0 <==> 20000.0 * (v - min) < max - min
  {
    FractionOnScale(v - min, max - min);
    SmallFraction(v - min, max - min);
    ClampsToZero(Scaled(v, min, max));
  }

  lemma ClampsToZero(x: real)
    requires OnScale(x)
    ensures Clamp(x) == 0.0 <==> x < 0.005
  {
    assert Clamp(x) == Hundredths((x * 100.0 + 0.5).Floor);
  }

  /** The hundredth of the scale a number in range rounds to. */
  function Hundredth(v: real, min: real, max: real): int
    requires min < max
  {
    (10000.0 * (v - min) / (max - min) + 0.5).Floor
  }

  lemma ScoreIsHundredth(v: real, min: real, max: real)
    requires min < max && min <= v
    ensures Clamp(Scaled(v, min, max)) == Hundredths(Hundredth(if v > max then max else v, min, max))
  {
    var part, whole := v - min, max - min;
    assert part / whole * 100.0 * 100.0 == 10000.0 * part / whole;
    if v > max {
      AboveScale(part, whole);
      assert 10000.0 * whole / whole == 10000.0;
    } else {
      FractionOnScale(part, whole);
    }
  }

  /** When a validated NUMERIC value gets the score of the number validation read,
      which reads a prefix where scoring reads the whole text. If the whole text is
      a number without prefix, always. If it is a prefixed literal, exactly when its
      value, capped at the maximum, rounds to the same hundredth as zero. If it is no
      number, exactly when the number read lies so close to the minimum that its
      score is zero anyway. */
  lemma ValidatedNumericScore(raw: string, a: Activity)
    requires a.gradingType == Numeric && a.gradingConfig.NumericConfig? && a.gradingConfig.min < a.gradingConfig.max
    requires ValidateRawValue(raw, a).Ok?
    ensures ParseFloat(raw).Finite?
    ensures var min, max, read := a.gradingConfig.min, a.gradingConfig.max, ParseFloat(raw).value;
      var agree := Normalise(raw, a) == Clamp(Scaled(read, min, max));
      match NumberOf(raw)
      case Finite(v) =>
        if Prefixed(Trim(raw)) then
          agree <==> Hundredth(if v > max then max else v, min, max) == Hundredth(0.0, min, max)
        else agree
      case _ => agree <==> 20000.0 * (read - min) < max - min
  {
    ValidNumberRead(raw, a);
    hide NumberOf, ParseFloat, Trim, Prefixed, Scaled, Clamp, Hundredth;
    var min, max := a.gradingConfig.min, a.gradingConfig.max;
    if NumberOf(raw).Finite? {
      if Prefixed(Trim(raw)) {
        ScoreIsHundredth(NumberOf(raw).value, min, max);
        ScoreIsHundredth(0.0, min, max);
      }
    } else {
      RoundsToZero(ParseFloat(raw).value, min, max);
      ClampsToZero(0.0);
    }
  }

  function Counting(): Activity { Activity(1, "a", 1, "Counting", Numeric, NumericConfig(0.0, 10.0)) }

  lemma TrimsToItself(s: string)
    requires s == [] || (!IsSpace(s[0]) && !IsSpace(s[|s| - 1]))
    ensures Trim(s) == s
  {
  }

  lemma SmallIsFinite(v: real)
    requires -1000.0 <= v <= 1000.0
    ensures Settled(Finite(v)) == Finite(v)
  {
    hide Overflow;
    BelowOverflow(0);
  }

  /** A text with a numeric prefix passes validation and scores 0. */
  lemma PrefixNumberScoresZero()
    ensures ValidateRawValue("8/10", Counting()).Ok? && Normalise("8/10", Counting()) == 0.0
    ensures Normalise("8", Counting()) == 80.0
  {
    hide Settled, ScanDecimal, Trim;
    TrimsToItself("8/10");
    TrimsToItself("8");
    ParseTrimmed("8/10");
    SmallIsFinite(8.0);
    DigitScan("8", "/10");
    DigitScan("8", "");
    assert "8" + "/10" == "8/10" && "8" + "" == "8";
    assert (0.0 * 100.0 + 0.5).Floor == 0 && (80.0 * 100.0 + 0.5).Floor == 8000;
  }

  lemma DigitScan(d: string, w: string)
    requires |d| == 1 && IsDigit(d[0]) && (w == [] || (!IsDigit(w[0]) && w[0] != '.' && w[0] != 'e' && w[0] != 'E'))
    ensures ScanDecimal(d + w) == Scanned(Finite(DigitValue(d[0]) as real), 1)
  {
    DigitsStop(d, w);
    DigitsOnly(d);
    assert (d + w)[0] == d[0] && (d + w)[|d|..] == w;
    assert ParseNat(d) == DigitValue(d[0]) by { assert d[..0] == []; }
    assert !(INFINITY <= d + w);
  }

  /** Texts in hexadecimal pass validation as zero: 0xFF escapes the range up to
      10 and scores 100, and 0x5 scores 50; 1e1 is ten to both readers. */
  lemma HexEscapesRange()
    ensures ValidateRawValue("0xFF", Counting()).Ok? && Escapes("0xFF", Counting())
    ensures Normalise("0xFF", Counting()) == 100.0
    ensures ValidateRawValue("0x5", Counting()).Ok? && Normalise("0x5", Counting()) == 50.0
    ensures ValidateRawValue("1e1", Counting()).Ok? && Normalise("1e1", Counting()) == 100.0
  {
    hide Settled, Trim, ScanDecimal;
    TrimsToItself("0xFF");
    TrimsToItself("0x5");
    TrimsToItself("1e1");
    PrefixedReadsZero("0xFF");
    PrefixedReadsZero("0x5");
    ParseTrimmed("1e1");
    HexValues();
    TenByExponent();
    SmallIsFinite(255.0);
    SmallIsFinite(5.0);
    SmallIsFinite(10.0);
    assert "0xFF"[2..] == "FF" && "0x5"[2..] == "5";
    assert (50.0 * 100.0 + 0.5).Floor == 5000 && (100.0 * 100.0 + 0.5).Floor == 10000;
  }

  lemma HexValues()
    ensures ParseIn("FF", 16) == 255 && ParseIn("5", 16) == 5
    ensures DigitsIn("FF", 16) && DigitsIn("5", 16)
  {
    assert "FF"[..1] == "F" && "F"[..0] == [] && "5"[..0] == [];
    assert ParseIn("F", 16) == 15;
  }

  lemma TenByExponent()
    ensures ScanDecimal("1e1") == Scanned(Finite(10.0), 3)
  {
    DigitsStop("1", "e1");
    DigitsOnly("1");
    assert "1" + "e1" == "1e1" && "1e1"[1..] == "e1" && "e1"[1..] == "1";
    assert ParseNat("1") == 1 by { assert "1"[..0] == []; }
    assert Pow10(1) == 10 by { assert Pow10(0) == 1; }
  }
}
