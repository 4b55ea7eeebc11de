/**
 * Points and XP for one submission, and the password heuristics
 * (src/utils/scoring.js).
 *
 * The source computes `accuracy = correctCount / totalQuestions * 100` in
 * doubles. The model restates the two tests on it in integers:
 * `accuracy === 100` is `IsPerfect` and `accuracy >= 80` is `IsHighAccuracy`.
 * With no question at all the division is 0/0 = NaN, so neither test holds;
 * `AccuracyTests` proves the restatement exact for `totalQuestions > 0`.
 */
module Scoring {
  import opened Text
  import opened Constants

  /** `accuracy === 100`. */
  predicate IsPerfect(correct: nat, total: nat) {
    total > 0 && correct == total
  }

  /** `accuracy >= 80`; with `total == 0` the accuracy is NaN, or +Infinity when `correct > 0`. */
  predicate IsHighAccuracy(correct: nat, total: nat) {
    if total == 0 then correct > 0 else 5 * correct >= 4 * total
  }

  /** The accuracy as an exact percentage, for a submission with at least one question. */
  function Accuracy(correct: nat, total: nat): real
    requires total > 0
  {
    (correct as real) / (total as real) * 100.0
  }

  /** The integer tests agree with the percentage tests of the source. */
  lemma AccuracyTests(correct: nat, total: nat)
    requires total > 0
    ensures IsPerfect(correct, total) <==> Accuracy(correct, total) == 100.0
    ensures IsHighAccuracy(correct, total) <==> Accuracy(correct, total) >= 80.0
  {
    var c, t := correct as real, total as real;
    var q := c / t;
    assert Accuracy(correct, total) == q * 100.0;
    CompareQuotient(c, t, 1.0);
    CompareQuotient(c, t, 0.8);
    assert (5 * correct) as real == 5.0 * c && (4 * total) as real == 4.0 * t;
  }

  lemma PositiveProduct(x: real, t: real)
    requires x > 0.0 && t > 0.0
    ensures x * t > 0.0
  {
  }

  /** For a positive divisor, comparing a quotient with `k` is comparing the dividend with `k` times the divisor. */
  lemma CompareQuotient(x: real, t: real, k: real)
    requires t > 0.0
    ensures x / t == k <==> x == k * t
    ensures x / t >= k <==> x >= k * t
  {
    var q := x / t;
    assert q * t == x;
    var d := q - k;
    assert x - k * t == d * t;
    if d > 0.0 {
      PositiveProduct(d, t);
    } else if d < 0.0 {
      PositiveProduct(-d, t);
      assert (-d) * t == -(d * t);
    } else {
      assert d * t == 0.0;
    }
  }

  /** The bonus of `calculatePoints`: 100 for a perfect score, 50 from 80%, else 0. */
  function PointsBonus(correct: nat, total: nat): nat {
    if IsPerfect(correct, total) then POINTS_STREAK_BONUS
    else if IsHighAccuracy(correct, total) then 50
    else 0
  }

  /** `calculatePoints(correctCount, totalQuestions)`. */
  function CalculatePoints(correct: nat, total: nat): (r: nat)
    ensures correct * POINTS_CORRECT_ANSWER <= r <= correct * POINTS_CORRECT_ANSWER + POINTS_STREAK_BONUS
    ensures r == correct * POINTS_CORRECT_ANSWER + POINTS_STREAK_BONUS <==> IsPerfect(correct, total)
    ensures r == correct * POINTS_CORRECT_ANSWER <==> !IsHighAccuracy(correct, total) && !IsPerfect(correct, total)
  {
    correct * POINTS_CORRECT_ANSWER + PointsBonus(correct, total)
  }

  /** The bonus of `calculateXP`: 50 for a perfect score, 25 from 80%, else 0. */
  function XpBonus(correct: nat, total: nat): nat {
    if IsPerfect(correct, total) then XP_STREAK_BONUS
    else if IsHighAccuracy(correct, total) then 25
    else 0
  }

  /** `calculateXP(correctCount, totalQuestions)`. */
  function CalculateXP(correct: nat, total: nat): (r: nat)
    ensures correct * XP_CORRECT_ANSWER <= r <= correct * XP_CORRECT_ANSWER + XP_STREAK_BONUS
    ensures r == correct * XP_CORRECT_ANSWER + XP_STREAK_BONUS <==> IsPerfect(correct, total)
    ensures r == correct * XP_CORRECT_ANSWER <==> !IsHighAccuracy(correct, total) && !IsPerfect(correct, total)
  {
    correct * XP_CORRECT_ANSWER + XpBonus(correct, total)
  }

  /**
   * Points and XP against the exact percentage: the full bonus at 100%,
   * the smaller one from 80% up to (not including) 100%, none below 80%.
   */
  lemma RewardsByAccuracy(correct: nat, total: nat)
    requires total > 0
    ensures var a := Accuracy(correct, total);
      && (a == 100.0 ==> CalculatePoints(correct, total) == correct * 50 + 100 && CalculateXP(correct, total) == correct * 20 + 50)
      && (80.0 <= a < 100.0 ==> CalculatePoints(correct, total) == correct * 50 + 50 && CalculateXP(correct, total) == correct * 20 + 25)
      && (a < 80.0 ==> CalculatePoints(correct, total) == correct * 50 && CalculateXP(correct, total) == correct * 20)
  {
    AccuracyTests(correct, total);
  }

  lemma ScoringExamples()
    ensures CalculatePoints(5, 5) == 350 && CalculateXP(5, 5) == 150
    ensures CalculatePoints(4, 5) == 250 && CalculateXP(4, 5) == 105
    ensures CalculatePoints(2, 5) == 100 && CalculateXP(2, 5) == 40
    ensures CalculatePoints(0, 0) == 0 && CalculateXP(0, 0) == 0
  {
  }

  // ---------------------------------------------------------------------
  // Password heuristics

  /** `/[a-z]/.test(p)` */
  predicate HasLower(p: string) { exists i :: 0 <= i < |p| && IsLower(p[i]) }
  /** `/[A-Z]/.test(p)` */
  predicate HasUpper(p: string) { exists i :: 0 <= i < |p| && IsUpper(p[i]) }
  /** `/[0-9]/.test(p)` */
  predicate HasDigit(p: string) { exists i :: 0 <= i < |p| && IsDigit(p[i]) }
  /** `/[^a-zA-Z0-9]/.test(p)` */
  predicate HasSpecial(p: string) { exists i :: 0 <= i < |p| && !IsAlphanumeric(p[i]) }
  /** `/^[a-zA-Z]+$/.test(p)` */
  predicate LettersOnly(p: string) { |p| > 0 && forall i :: 0 <= i < |p| ==> IsLetter(p[i]) }
  /** `/123|abc|qwe/i.test(p)`: only a string of at least three characters can hold a pattern. */
  predicate HasCommonPattern(p: string)
    ensures HasCommonPattern(p) ==> |p| >= 3
  {
    ContainsIgnoreCase(p, "123") || ContainsIgnoreCase(p, "abc") || ContainsIgnoreCase(p, "qwe")
  }

  /**
   * The unclamped sum of the strength terms. It ranges over [-20, 105], so the
   * clamp is reached at both ends: the letters-only penalty needs a letter,
   * which earns back 10.
   */
  function RawStrength(p: string): (r: int)
    ensures -20 <= r <= 105
  {
    assert LettersOnly(p) ==> IsLower(p[0]) || IsUpper(p[0]);
    (if |p| >= 8 then 20 else 0) + (if |p| >= 12 then 20 else 0) + (if |p| >= 16 then 20 else 0)
    + (if HasLower(p) then 10 else 0) + (if HasUpper(p) then 10 else 0)
    + (if HasDigit(p) then 10 else 0) + (if HasSpecial(p) then 15 else 0)
    - (if HasCommonPattern(p) then 20 else 0) - (if LettersOnly(p) then 10 else 0)
  }

  /** `calculatePasswordStrength(p)`: the sum of the terms, clamped to [0, 100]. */
  function CalculatePasswordStrength(p: string): (r: nat)
    ensures r <= 100
    ensures 0 <= RawStrength(p) <= 100 ==> r == RawStrength(p)
    ensures RawStrength(p) > 100 ==> r == 100
    ensures RawStrength(p) < 0 ==> r == 0
  {
    var raw := RawStrength(p);
    if raw < 0 then 0 else if raw > 100 then 100 else raw
  }

  /** A long password with all four character classes and no common pattern scores 100. */
  lemma StrongPasswordScoresFull(p: string)
    requires |p| >= 16 && HasLower(p) && HasUpper(p) && HasDigit(p) && HasSpecial(p)
    requires !HasCommonPattern(p)
    ensures CalculatePasswordStrength(p) == 100
  {
  }

  /** A short lower-case password containing "abc" is clamped up to 0. */
  lemma WeakPasswordScoresZero()
    ensures RawStrength("abc") == -20
    ensures CalculatePasswordStrength("abc") == 0
  {
    var p := "abc";
    assert IsLower(p[0]);
    assert MatchesAt(p, "abc", 0);
    assert !HasUpper(p) && !HasDigit(p) && !HasSpecial(p);
  }

  /** `getCharsetSize(p)`: 26, 26, 10 and 33 over the character classes present. */
  function GetCharsetSize(p: string): (r: nat)
    ensures r <= 95
    ensures r == 0 <==> p == []
  {
    if p != [] then
      assert IsLower(p[0]) || IsUpper(p[0]) || IsDigit(p[0]) || !IsAlphanumeric(p[0]);
      CharsetSum(p)
    else
      CharsetSum(p)
  }

  function CharsetSum(p: string): nat {
    (if HasLower(p) then 26 else 0) + (if HasUpper(p) then 26 else 0)
    + (if HasDigit(p) then 10 else 0) + (if HasSpecial(p) then 33 else 0)
  }
}
