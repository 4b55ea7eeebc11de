/**
 * The request-level logic of the game controller
 * (src/controllers/gameController.js): the query defaults for challenge
 * counts, history limits and difficulty, and the password analysis — score,
 * strength label, feedback list and the masked echo of the password.
 */
module GameController {
  import opened Wrappers
  import opened Text
  import opened Domain
  import opened Scoring

  // ---------------------------------------------------------------------
  // Query defaults

  const DEFAULT_COUNT: int := 5
  const DEFAULT_LIMIT: int := 10
  const DEFAULT_DIFFICULTY: string := "easy"

  /**
   * `parseInt(param) || fallback`, with `parseInt` given no radix (so leading
   * white space is skipped and a `0x` prefix reads hexadecimal): a missing
   * parameter, one that parses to NaN and one that parses to 0 all give the
   * fallback.
   */
  function ParseOr(param: Option<string>, fallback: int): (r: int)
    ensures fallback != 0 ==> r != 0
    ensures param.None? ==> r == fallback
    ensures param.Some? && ParseInt(param.value).Some? && ParseInt(param.value).value != 0 ==> r == ParseInt(param.value).value
    ensures param.Some? && (ParseInt(param.value).None? || ParseInt(param.value) == Some(0)) ==> r == fallback
  {
    match param
    case None => fallback
    case Some(s) =>
      match ParseInt(s)
      case None => fallback
      case Some(n) => if n == 0 then fallback else n
  }

  /** The `count` of `getChallenges`. */
  function ChallengeCount(count: Option<string>): (r: int)
    ensures r != 0
    ensures count.None? ==> r == DEFAULT_COUNT
    ensures count.Some? && ParseInt(count.value).Some? && ParseInt(count.value).value != 0 ==> r == ParseInt(count.value).value
  {
    ParseOr(count, DEFAULT_COUNT)
  }

  /** The `limit` of `getGameHistory`. */
  function HistoryLimit(limit: Option<string>): (r: int)
    ensures r != 0
    ensures limit.None? ==> r == DEFAULT_LIMIT
    ensures limit.Some? && ParseInt(limit.value).Some? && ParseInt(limit.value).value != 0 ==> r == ParseInt(limit.value).value
  {
    ParseOr(limit, DEFAULT_LIMIT)
  }

  /** A positive count written in decimal is taken as is; "0" and no count at all both mean 5. */
  lemma ChallengeCountDefaults(n: nat)
    ensures n > 0 ==> ChallengeCount(Some(NatToString(n))) == n
    ensures ChallengeCount(Some(NatToString(0))) == DEFAULT_COUNT
    ensures ChallengeCount(None) == DEFAULT_COUNT && HistoryLimit(None) == DEFAULT_LIMIT
  {
    ParseIntNatToString(n);
    ParseIntNatToString(0);
  }

  /** Like `parseInt`, the count skips leading white space and reads a `0x` prefix as hexadecimal. */
  lemma ChallengeCountLenient()
    ensures ChallengeCount(Some(" 7")) == 7
    ensures ChallengeCount(Some("0x10")) == 16
    ensures HistoryLimit(Some("-0X1f")) == -31
  {
    ParseIntSpaceExample();
    ParseIntHexExample();
    ParseIntSignedHexExample();
  }

  /** `difficulty || 'easy'`: a missing or empty difficulty means easy. */
  function DifficultyOr(difficulty: Option<string>): (r: string)
    ensures r == DEFAULT_DIFFICULTY <==> difficulty.None? || difficulty.value == [] || difficulty.value == DEFAULT_DIFFICULTY
    ensures r != []
  {
    if difficulty.None? || difficulty.value == [] then DEFAULT_DIFFICULTY else difficulty.value
  }

  // ---------------------------------------------------------------------
  // analyzePasswordStrength

  const STRONG: string := "strong"
  const MEDIUM: string := "medium"
  const WEAK: string := "weak"

  function StrengthLabel(score: int): (s: string)
    ensures s in {STRONG, MEDIUM, WEAK}
    ensures s == STRONG <==> score >= 80
    ensures s == WEAK <==> score < 60
  {
    if score >= 80 then STRONG else if score >= 60 then MEDIUM else WEAK
  }

  const ADD_LENGTH: string := "Increase length to 12+ characters"
  const ADD_LOWER: string := "Add lowercase letters"
  const ADD_UPPER: string := "Add uppercase letters"
  const ADD_NUMBERS: string := "Add numbers"
  const ADD_SPECIAL: string := "Add special characters"
  const AVOID_PATTERNS: string := "Avoid common patterns"

  /** The six feedback messages in the order they are checked. */
  const MESSAGES: seq<string> := [ADD_LENGTH, ADD_LOWER, ADD_UPPER, ADD_NUMBERS, ADD_SPECIAL, AVOID_PATTERNS]

  /** `/123|abc|password/i.test(p)`: the controller's own list, which differs from the scorer's. */
  predicate HasWeakPattern(p: string) {
    ContainsIgnoreCase(p, "123") || ContainsIgnoreCase(p, "abc") || ContainsIgnoreCase(p, "password")
  }

  /** Whether each message applies to `p`, position by position with `MESSAGES`. */
  function Applies(p: string): (r: seq<bool>)
    ensures |r| == |MESSAGES|
  {
    [|p| < 12, !HasLower(p), !HasUpper(p), !HasDigit(p), !HasSpecial(p), HasWeakPattern(p)]
  }

  /** What one `if (…) feedback.push(m)` adds. */
  function PushIf(flag: bool, m: string): seq<string> {
    if flag then [m] else []
  }

  /** The messages whose flag is set, in order. */
  function Select(ms: seq<string>, flags: seq<bool>): (r: seq<string>)
    requires |ms| == |flags|
    ensures |r| <= |ms|
  {
    if ms == [] then []
    else Select(ms[..|ms| - 1], flags[..|ms| - 1]) + PushIf(flags[|ms| - 1], ms[|ms| - 1])
  }

  /** Selecting over one more message appends it exactly when its flag is set. */
  lemma SelectPrefix(ms: seq<string>, flags: seq<bool>, k: nat)
    requires |ms| == |flags| && k < |ms|
    ensures Select(ms[..k + 1], flags[..k + 1]) == Select(ms[..k], flags[..k]) + PushIf(flags[k], ms[k])
  {
    assert ms[..k + 1][..k] == ms[..k];
    assert flags[..k + 1][..k] == flags[..k];
  }

  /** The six messages are pairwise different. */
  lemma MessagesDistinct()
    ensures NoDup(MESSAGES)
  {
  }

  /** `x` occurs in `ms` at some position before one where `y` occurs. */
  predicate Before(ms: seq<string>, x: string, y: string) {
    exists a, b :: 0 <= a < b < |ms| && ms[a] == x && ms[b] == y
  }

  /** Exactly the flagged messages are selected, each once, and they keep their relative order. */
  lemma {:induction false} SelectSound(ms: seq<string>, flags: seq<bool>)
    requires |ms| == |flags| && NoDup(ms)
    ensures forall k :: 0 <= k < |ms| ==> (ms[k] in Select(ms, flags) <==> flags[k])
    ensures forall i :: 0 <= i < |Select(ms, flags)| ==> Select(ms, flags)[i] in ms
    ensures forall i, j :: 0 <= i < j < |Select(ms, flags)| ==> Before(ms, Select(ms, flags)[i], Select(ms, flags)[j])
  {
    if ms != [] {
      var n := |ms| - 1;
      var init, initFlags := ms[..n], flags[..n];
      assert NoDup(init);
      SelectSound(init, initFlags);
      var prev := Select(init, initFlags);
      var r := Select(ms, flags);
      assert r == prev + (if flags[n] then [ms[n]] else []);
      assert ms[n] !in init;
      forall k | 0 <= k < |ms|
        ensures ms[k] in r <==> flags[k]
      {
        if k < n {
          assert init[k] == ms[k] && initFlags[k] == flags[k];
          assert ms[k] != ms[n];
        } else {
          assert ms[n] !in prev;
        }
      }
      forall i | 0 <= i < |r|
        ensures r[i] in ms
      {
        if i < |prev| {
          assert r[i] == prev[i];
          var a :| 0 <= a < |init| && init[a] == prev[i];
          assert ms[a] == r[i];
        }
      }
      forall i, j | 0 <= i < j < |r|
        ensures Before(ms, r[i], r[j])
      {
        if j < |prev| {
          assert r[i] == prev[i] && r[j] == prev[j];
          assert Before(init, prev[i], prev[j]);
          var a, b :| 0 <= a < b < |init| && init[a] == prev[i] && init[b] == prev[j];
          assert ms[a] == r[i] && ms[b] == r[j];
        } else {
          assert j == |prev| && r[i] == prev[i] && r[j] == ms[n];
          var a :| 0 <= a < |init| && init[a] == prev[i];
          assert 0 <= a < n < |ms| && ms[a] == r[i] && ms[n] == r[j];
        }
      }
    }
  }

  /** The feedback the controller gives for `p`. */
  function FeedbackFor(p: string): seq<string> {
    Select(MESSAGES, Applies(p))
  }

  /**
   * Each message appears exactly when its check fails, at most once, and the
   * messages come in the order the checks run.
   */
  lemma FeedbackMeaning(p: string)
    ensures ADD_LENGTH in FeedbackFor(p) <==> |p| < 12
    ensures ADD_LOWER in FeedbackFor(p) <==> !HasLower(p)
    ensures ADD_UPPER in FeedbackFor(p) <==> !HasUpper(p)
    ensures ADD_NUMBERS in FeedbackFor(p) <==> !HasDigit(p)
    ensures ADD_SPECIAL in FeedbackFor(p) <==> !HasSpecial(p)
    ensures AVOID_PATTERNS in FeedbackFor(p) <==> HasWeakPattern(p)
    ensures forall m :: m in FeedbackFor(p) ==> m in MESSAGES
    ensures forall i, j :: 0 <= i < j < |FeedbackFor(p)| ==> Before(MESSAGES, FeedbackFor(p)[i], FeedbackFor(p)[j])
  {
    MessagesDistinct();
    SelectSound(MESSAGES, Applies(p));
    var flags := Applies(p);
    assert MESSAGES[0] == ADD_LENGTH && flags[0] == (|p| < 12);
    assert MESSAGES[1] == ADD_LOWER && flags[1] == !HasLower(p);
    assert MESSAGES[2] == ADD_UPPER && flags[2] == !HasUpper(p);
    assert MESSAGES[3] == ADD_NUMBERS && flags[3] == !HasDigit(p);
    assert MESSAGES[4] == ADD_SPECIAL && flags[4] == !HasSpecial(p);
    assert MESSAGES[5] == AVOID_PATTERNS && flags[5] == HasWeakPattern(p);
  }

  /** Over six messages, selecting is six pushes one after the other. */
  lemma SelectSix(ms: seq<string>, flags: seq<bool>)
    requires |ms| == |flags| == 6
    ensures Select(ms, flags)
      == PushIf(flags[0], ms[0]) + PushIf(flags[1], ms[1]) + PushIf(flags[2], ms[2])
       + PushIf(flags[3], ms[3]) + PushIf(flags[4], ms[4]) + PushIf(flags[5], ms[5])
  {
    var a, b, c := PushIf(flags[0], ms[0]), PushIf(flags[1], ms[1]), PushIf(flags[2], ms[2]);
    var d, e, f := PushIf(flags[3], ms[3]), PushIf(flags[4], ms[4]), PushIf(flags[5], ms[5]);
    assert Select(ms[..1], flags[..1]) == a by {
      assert ms[..0] == [] && flags[..0] == [];
      SelectPrefix(ms, flags, 0);
    }
    assert Select(ms[..2], flags[..2]) == a + b by { SelectPrefix(ms, flags, 1); }
    assert Select(ms[..3], flags[..3]) == a + b + c by { SelectPrefix(ms, flags, 2); }
    assert Select(ms[..4], flags[..4]) == a + b + c + d by { SelectPrefix(ms, flags, 3); }
    assert Select(ms[..5], flags[..5]) == a + b + c + d + e by { SelectPrefix(ms, flags, 4); }
    assert Select(ms[..6], flags[..6]) == a + b + c + d + e + f by { SelectPrefix(ms, flags, 5); }
    assert ms[..6] == ms && flags[..6] == flags;
  }

  /** The feedback is the six checks' pushes, one after the other. */
  lemma FeedbackForPushes(p: string)
    ensures FeedbackFor(p)
      == PushIf(|p| < 12, ADD_LENGTH) + PushIf(!HasLower(p), ADD_LOWER) + PushIf(!HasUpper(p), ADD_UPPER)
       + PushIf(!HasDigit(p), ADD_NUMBERS) + PushIf(!HasSpecial(p), ADD_SPECIAL) + PushIf(HasWeakPattern(p), AVOID_PATTERNS)
  {
    SelectSix(MESSAGES, Applies(p));
  }

  /** The feedback list built by the six `push` checks. */
  method CollectFeedback(p: string) returns (feedback: seq<string>)
    ensures feedback == FeedbackFor(p)
  {
    feedback := [];
    if |p| < 12 { feedback := feedback + [ADD_LENGTH]; }
    assert feedback == PushIf(|p| < 12, ADD_LENGTH);
    ghost var pushed := feedback;
    if !HasLower(p) { feedback := feedback + [ADD_LOWER]; }
    assert feedback == pushed + PushIf(!HasLower(p), ADD_LOWER);
    pushed := feedback;
    if !HasUpper(p) { feedback := feedback + [ADD_UPPER]; }
    assert feedback == pushed + PushIf(!HasUpper(p), ADD_UPPER);
    pushed := feedback;
    if !HasDigit(p) { feedback := feedback + [ADD_NUMBERS]; }
    assert feedback == pushed + PushIf(!HasDigit(p), ADD_NUMBERS);
    pushed := feedback;
    if !HasSpecial(p) { feedback := feedback + [ADD_SPECIAL]; }
    assert feedback == pushed + PushIf(!HasSpecial(p), ADD_SPECIAL);
    pushed := feedback;
    if HasWeakPattern(p) { feedback := feedback + [AVOID_PATTERNS]; }
    assert feedback == pushed + PushIf(HasWeakPattern(p), AVOID_PATTERNS);
    FeedbackForPushes(p);
  }

  /** The characters `.` does not match: the ECMAScript line terminators. */
  predicate IsLineTerminator(c: char) {
    c == '\n' || c == '\r' || c == '\U{2028}' || c == '\U{2029}'
  }

  /** `p.replace(/./g, '*')`: every character but a line terminator becomes `*`. */
  function Mask(p: string): (r: string)
    ensures |r| == |p|
    ensures forall i :: 0 <= i < |p| ==> r[i] == if IsLineTerminator(p[i]) then p[i] else '*'
  {
    seq(|p|, i requires 0 <= i < |p| => if IsLineTerminator(p[i]) then p[i] else '*')
  }

  /** The mask reveals only the length and where the line breaks are. */
  lemma MaskHidesContent(p: string, q: string)
    requires |p| == |q|
    requires forall i :: 0 <= i < |p| ==> (IsLineTerminator(p[i]) || IsLineTerminator(q[i]) ==> p[i] == q[i])
    ensures Mask(p) == Mask(q)
  {
  }

  /** A password without line breaks masks to stars only. */
  lemma MaskAllStars(p: string)
    requires forall i :: 0 <= i < |p| ==> !IsLineTerminator(p[i])
    ensures Mask(p) == seq(|p|, _ => '*')
  {
  }

  datatype PasswordAnalysis = PasswordAnalysis(password: string, score: nat, strength: string, feedback: seq<string>)

  /**
   * `analyzePasswordStrength`: a missing or empty password is a 400 error;
   * otherwise the masked password, its score, label and feedback.
   */
  method AnalyzePasswordStrength(password: Option<string>) returns (r: Result<PasswordAnalysis>)
    ensures r.Err? <==> password.None? || password.value == []
    ensures r.Err? ==> r.error == PasswordRequired
    ensures r.Ok? ==>
      var p := password.value;
      && r.value.password == Mask(p)
      && r.value.score == CalculatePasswordStrength(p)
      && r.value.strength == StrengthLabel(r.value.score)
      && r.value.feedback == FeedbackFor(p)
  {
    if password.None? || password.value == [] {
      return Err(PasswordRequired);
    }
    var p := password.value;
    var score := CalculatePasswordStrength(p);
    var strength := WEAK;
    if score >= 80 {
      strength := STRONG;
    } else if score >= 60 {
      strength := MEDIUM;
    }
    var feedback := CollectFeedback(p);
    return Ok(PasswordAnalysis(Mask(p), score, strength, feedback));
  }

  /** A password that scores 100 is labelled strong; "abc" is labelled weak and told to avoid common patterns. */
  lemma LabelExamples(p: string)
    requires |p| >= 16 && HasLower(p) && HasUpper(p) && HasDigit(p) && HasSpecial(p)
    requires !HasCommonPattern(p)
    ensures StrengthLabel(CalculatePasswordStrength(p)) == STRONG
    ensures StrengthLabel(CalculatePasswordStrength("abc")) == WEAK
    ensures AVOID_PATTERNS in FeedbackFor("abc")
  {
    StrongPasswordScoresFull(p);
    WeakPasswordScoresZero();
    FeedbackMeaning("abc");
    assert MatchesAt("abc", "abc", 0);
  }
}
