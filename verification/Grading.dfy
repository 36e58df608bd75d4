/** Which raw values a grading type accepts and what each accepted value scores. */
module Grading {
  import opened Collections
  import opened Entities
  import opened DecimalText
  import opened TextReaders
  import opened Normalisation

  // ── acceptance ───────────────────────────────────────────────────────────

  predicate SaysYes(answer: string) { answer == "true" || answer == "yes" || answer == "1" }

  predicate SaysNo(answer: string) { answer == "false" || answer == "no" || answer == "0" }

  /** The whole trimmed text is a numeral as the program prints it. */
  predicate Prints(raw: string, n: nat) { Trim(raw) == NatToString(n) && n < Pow10(21) }

  predicate InRange(v: real, c: GradingConfig) { c.NumericConfig? ==> c.min <= v <= c.max }

  predicate WithinMaximum(n: nat, c: GradingConfig) { c.FrequencyConfig? ==> n as real <= c.maxFrequency }

  ghost predicate Acceptable(raw: string, a: Activity) {
    match a.gradingType
    case Rubric => Trim(ToUpper(raw)) in MILESTONES || Trim(ToUpper(raw)) in LETTERS
    case Numeric => ParseFloat(raw).Finite? && InRange(ParseFloat(raw).value, a.gradingConfig)
    case YesNo => SaysYes(Trim(ToLower(raw))) || SaysNo(Trim(ToLower(raw)))
    case Frequency => exists n: nat :: Prints(raw, n) && WithinMaximum(n, a.gradingConfig)
  }

  lemma AnswerLabels(answer: string)
    ensures answer in YES_LABELS <==> SaysYes(answer)
    ensures answer in YES_LABELS + NO_LABELS <==> SaysYes(answer) || SaysNo(answer)
  {
    var all := YES_LABELS + NO_LABELS;
    assert all[0] == "true" && all[1] == "yes" && all[2] == "1" && all[3] == "false" && all[4] == "no" && all[5] == "0";
    assert YES_LABELS[0] == "true" && YES_LABELS[1] == "yes" && YES_LABELS[2] == "1";
  }

  lemma RubricLabels(mark: string)
    ensures mark in RUBRIC_LABELS <==> mark in MILESTONES || mark in LETTERS
  {
    var marks := RUBRIC_LABELS;
    assert MILESTONES == [marks[3], marks[2], marks[1], marks[0]];
    assert LETTERS == [marks[9], marks[8], marks[7], marks[6], marks[5], marks[4]];
    if mark in marks {
      var i :| 0 <= i < |marks| && marks[i] == mark;
      assert i < 4 ==> mark == MILESTONES[3 - i];
      assert i >= 4 ==> mark == LETTERS[9 - i];
    }
  }

  /** Reading a count back from its text finds exactly the number printed. */
  lemma CountPrinted(raw: string)
    ensures FrequencyCount(raw).Some? <==> exists n: nat :: Prints(raw, n)
    ensures forall n: nat | Prints(raw, n) :: FrequencyCount(raw) == Some(n)
  {
    hide Trim, DigitPrefix, ParseNat, Pow10, NatToString;
    if FrequencyCount(raw).Some? { assert Prints(raw, FrequencyCount(raw).value); }
    forall n: nat | Prints(raw, n) ensures FrequencyCount(raw) == Some(n) {
      DigitsOnly(NatToString(n));
      PrintThenParse(n);
    }
  }

  /** A value is accepted exactly when it is acceptable for the grading type; a
      number that can be read but lies outside the configured range has its own error. */
  lemma AcceptedExactly(raw: string, a: Activity)
    ensures ValidateRawValue(raw, a).Ok? <==> Acceptable(raw, a)
    ensures ValidateRawValue(raw, a) == Err(NumericOutOfRange)
       <==> a.gradingType == Numeric && ParseFloat(raw).Finite? && !Acceptable(raw, a)
    ensures ValidateRawValue(raw, a) == Err(FrequencyOutOfRange)
       <==> a.gradingType == Frequency && (exists n: nat :: Prints(raw, n)) && !Acceptable(raw, a)
  {
    hide Trim, ToUpper, ToLower, ParseFloat, FrequencyCount, Prints;
    match a.gradingType
    case Rubric => RubricLabels(Trim(ToUpper(raw)));
    case Numeric =>
    case YesNo => AnswerLabels(Trim(ToLower(raw)));
    case Frequency => CountPrinted(raw);
  }

  // ── scores ───────────────────────────────────────────────────────────────

  /** The score of a part of a whole: nothing up to zero, 100 from the whole on,
      and in between the share in per cent, within half a hundredth. */
  predicate Places(score: real, part: real, whole: real) {
    && whole > 0.0
    && (part <= 0.0 ==> score == 0.0)
    && (part >= whole ==> score == 100.0)
    && (0.0 <= part <= whole ==> -0.005 * whole <= score * whole - 100.0 * part <= 0.005 * whole)
  }

  lemma NonNegativeTimes(d: real, w: real)
    requires d >= 0.0 && w > 0.0
    ensures d * w >= 0.0
  {
  }

  lemma RoundNear(x: real)
    ensures x - 0.005 <= Round2(x) <= x + 0.005
  {
  }

  lemma ShareOutside(part: real, whole: real)
    requires whole > 0.0
    ensures part <= 0.0 ==> part / whole * 100.0 <= 0.0
    ensures part >= whole ==> part / whole * 100.0 >= 100.0
  {
    var q := part / whole;
    assert q * whole == part && (q - 1.0) * whole == part - whole && -q * whole == -part;
    if part <= 0.0 { NonNegativeFactor(-q, whole); }
    if part >= whole { NonNegativeFactor(q - 1.0, whole); }
  }

  lemma ShareTimes(part: real, whole: real)
    requires whole > 0.0
    ensures part / whole * 100.0 * whole == 100.0 * part
  {
    var q := part / whole;
    assert q * whole == part;
    assert q * 100.0 * whole == 100.0 * (q * whole);
  }

  lemma SharePlaced(part: real, whole: real)
    requires whole > 0.0
    ensures Places(Clamp(part / whole * 100.0), part, whole)
  {
    hide Clamp, Places;
    ShareOutside(part, whole);
    ShareTimes(part, whole);
    if 0.0 <= part <= whole { FractionOnScale(part, whole); }
    PlacedBy(part / whole * 100.0, part, whole);
  }

  lemma PlacedBy(v: real, part: real, whole: real)
    requires whole > 0.0 && v * whole == 100.0 * part
    requires part <= 0.0 ==> v <= 0.0
    requires part >= whole ==> v >= 100.0
    requires 0.0 <= part <= whole ==> OnScale(v)
    ensures Places(Clamp(v), part, whole)
  {
    hide Clamp;
    WholeScores();
    if 0.0 <= part <= whole { ShareNear(v, part, whole); }
  }

  lemma ShareNear(v: real, part: real, whole: real)
    requires whole > 0.0 && OnScale(v) && v * whole == 100.0 * part
    ensures -0.005 * whole <= Clamp(v) * whole - 100.0 * part <= 0.005 * whole
  {
    RoundNear(v);
    NearTimes(Clamp(v) - v, Clamp(v), v, whole);
  }

  lemma NearTimes(d: real, s: real, v: real, whole: real)
    requires whole > 0.0 && -0.005 <= d <= 0.005 && d == s - v
    ensures -0.005 * whole <= s * whole - v * whole <= 0.005 * whole
  {
    assert d * whole == s * whole - v * whole;
    NonNegativeTimes(0.005 - d, whole);
    NonNegativeTimes(0.005 + d, whole);
    assert (0.005 - d) * whole == 0.005 * whole - d * whole && (0.005 + d) * whole == 0.005 * whole + d * whole;
  }

  lemma WholeScores()
    ensures forall v: real | v <= 0.0 :: Clamp(v) == 0.0
    ensures forall v: real | v >= 100.0 :: Clamp(v) == 100.0
  {
    assert (100.0 * 100.0 + 0.5).Floor == 10000 && (0.0 * 100.0 + 0.5).Floor == 0;
  }

  lemma WholeStays(k: int)
    requires 0 <= k <= 100
    ensures Clamp(k as real) == k as real
  {
    assert (k as real * 100.0 + 0.5).Floor == 100 * k;
  }

  /** A YES_NO value scores 100 exactly when its trimmed lower-case text is true,
      yes or 1, and 0 otherwise. */
  lemma YesNoScoring(raw: string, a: Activity)
    requires a.gradingType == YesNo
    ensures Normalise(raw, a) == if SaysYes(Trim(ToLower(raw))) then 100.0 else 0.0
  {
    hide Trim, ToLower, Clamp;
    WholeScores();
    AnswerLabels(Trim(ToLower(raw)));
  }

  /** The score of a rubric label by its place on its scale: a milestone 25 points
      a step from 25, a letter 20 a step from 0. */
  predicate RubricPlace(mark: string, score: real) {
    || (exists i :: 0 <= i < |MILESTONES| && mark == MILESTONES[i] && score == (25 * (i + 1)) as real)
    || (exists i :: 0 <= i < |LETTERS| && mark == LETTERS[i] && score == (20 * i) as real)
  }

  /** A RUBRIC value scores by the place of its label, white space inside counting
      as an underscore; what is no label scores nothing. */
  lemma RubricScoring(raw: string, a: Activity)
    requires a.gradingType == Rubric
    ensures var mark := JoinWords(Trim(ToUpper(raw)));
      if mark in MILESTONES || mark in LETTERS then RubricPlace(mark, Normalise(raw, a))
      else Normalise(raw, a) == 0.0
  {
    var mark := JoinWords(Trim(ToUpper(raw)));
    hide Trim, ToUpper, JoinWords, Clamp;
    RubricScales();
    RubricLabels(mark);
    WholeScores();
    if mark in MILESTONES {
      var i :| 0 <= i < |MILESTONES| && MILESTONES[i] == mark;
      WholeStays(25 * (i + 1));
      assert Normalise(raw, a) == (25 * (i + 1)) as real;
    } else if mark in LETTERS {
      var i :| 0 <= i < |LETTERS| && LETTERS[i] == mark;
      WholeStays(20 * i);
      assert Normalise(raw, a) == (20 * i) as real;
    }
  }

  /** A NUMERIC value scores its share of the way from the minimum to the maximum,
      in whichever direction that is; what is no finite number scores nothing. */
  lemma NumericPlaced(raw: string, a: Activity)
    requires a.gradingType == Numeric
    ensures var c, v := a.gradingConfig, NumberOf(raw);
      if v.Finite? && c.NumericConfig? && c.min < c.max then Places(Normalise(raw, a), v.value - c.min, c.max - c.min)
      else if v.Finite? && c.NumericConfig? && c.max < c.min
      then Places(Normalise(raw, a), c.min - v.value, c.min - c.max)
      else Normalise(raw, a) == 0.0
  {
    hide NumberOf, Clamp, Places;
    WholeScores();
    var c, v := a.gradingConfig, NumberOf(raw);
    if v.Finite? && c.NumericConfig? && c.min < c.max { SharePlaced(v.value - c.min, c.max - c.min); }
    if v.Finite? && c.NumericConfig? && c.max < c.min {
      SharePlaced(c.min - v.value, c.min - c.max);
      SameShare(v.value - c.min, c.max - c.min);
    }
  }

  lemma SameShare(part: real, whole: real)
    requires whole < 0.0
    ensures part / whole == (-part) / (-whole)
  {
    var q := part / whole;
    assert q * whole == part;
    assert q * -whole == -part;
    assert (q * -whole) / -whole == q;
  }

  /** A FREQUENCY value scores its share of the maximum; without a positive maximum nothing. */
  lemma FrequencyPlaced(raw: string, a: Activity)
    requires a.gradingType == Frequency
    ensures var c, n := a.gradingConfig, NumberOf(raw);
      if n.Finite? && c.FrequencyConfig? && c.maxFrequency > 0.0
      then Places(Normalise(raw, a), n.value, c.maxFrequency)
      else Normalise(raw, a) == 0.0
  {
    hide NumberOf, Clamp, Places;
    WholeScores();
    var c, n := a.gradingConfig, NumberOf(raw);
    if n.Finite? && c.FrequencyConfig? && c.maxFrequency > 0.0 { SharePlaced(n.value, c.maxFrequency); }
  }

  // ── both together ────────────────────────────────────────────────────────

  /** An accepted value and its score. */
  ghost predicate Graded(raw: string, a: Activity, score: real) {
    var c := a.gradingConfig;
    match a.gradingType
    case YesNo => if SaysYes(Trim(ToLower(raw))) then score == 100.0 else SaysNo(Trim(ToLower(raw))) && score == 0.0
    case Rubric => RubricPlace(Trim(ToUpper(raw)), score)
    case Numeric =>
      if NumberOf(raw).Finite? && c.NumericConfig? && c.min < c.max
      then Places(score, NumberOf(raw).value - c.min, c.max - c.min)
      else score == 0.0
    case Frequency =>
      exists n: nat ::
        && Prints(raw, n)
        && if c.FrequencyConfig? && c.maxFrequency > 0.0
           then n as real <= c.maxFrequency && Places(score, n as real, c.maxFrequency)
           else score == 0.0
  }

  lemma {:induction false} OneWord(s: string)
    requires forall i | 0 <= i < |s| :: !IsSpace(s[i])
    ensures JoinWords(s) == s
  {
    if s != [] { OneWord(s[1..]); }
  }

  lemma LabelsAreWords(mark: string)
    requires mark in MILESTONES || mark in LETTERS
    ensures JoinWords(mark) == mark
  {
    hide JoinWords;
    OneWord(mark);
  }

  lemma PlacedOnce(mark: string, score: real)
    requires RubricPlace(mark, score)
    ensures mark in MILESTONES || mark in LETTERS
  {
  }

  /** Every accepted value gets the grade its text stands for. */
  lemma AcceptedIsGraded(raw: string, a: Activity)
    requires ValidateRawValue(raw, a).Ok?
    ensures Graded(raw, a, Normalise(raw, a))
  {
    AcceptedExactly(raw, a);
    hide Normalise, ValidateRawValue, Trim, ToUpper, ToLower, NumberOf, ParseFloat, JoinWords, Places, RubricPlace;
    match a.gradingType
    case Rubric =>
      RubricScoring(raw, a);
      LabelsAreWords(Trim(ToUpper(raw)));
    case Numeric =>
      NumericPlaced(raw, a);
    case YesNo => YesNoScoring(raw, a);
    case Frequency =>
      FrequencyPlaced(raw, a);
      CountPrinted(raw);
      FrequencyReads(raw);
  }
}
