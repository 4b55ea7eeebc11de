/**
 * The integer side of the analytics service (src/services/analyticsService.js):
 * the percentile bucket, the skill scores' defaults and awareness, the
 * community average, the strengths/weaknesses split and the month calendar.
 */
module Analytics {
  import opened Wrappers
  import opened Text
  import opened Arith
  import opened Constants
  import opened Domain
  import opened Store

  // ---------------------------------------------------------------------
  // calculatePercentile

  /** The coarse percentile bucket of a score against the community average. */
  function CalculatePercentile(userScore: int, average: int): (r: nat)
    ensures r in {25, 40, 60, 75, 90}
    ensures r >= 60 <==> userScore >= average
    ensures r == 90 <==> userScore >= average + 20
    ensures r == 75 <==> average + 10 <= userScore < average + 20
    ensures r == 60 <==> average <= userScore < average + 10
    ensures r == 40 <==> average - 10 <= userScore < average
    ensures r == 25 <==> userScore < average - 10
  {
    if userScore >= average + 20 then 90
    else if userScore >= average + 10 then 75
    else if userScore >= average then 60
    else if userScore >= average - 10 then 40
    else 25
  }

  lemma PercentileMonotone(a: int, b: int, average: int)
    requires a <= b
    ensures CalculatePercentile(a, average) <= CalculatePercentile(b, average)
  {
  }

  // ---------------------------------------------------------------------
  // calculateSkillScores

  function Min(a: int, b: int): int { if a <= b then a else b }

  /**
   * `Math.round((min(streak * 10, 50) + min(badges * 5, 50)) / 2)`: both terms
   * are whole, so the halves round up.
   */
  function Awareness(streakDays: nat, badgeCount: nat): (r: nat)
    ensures r <= 50
    ensures r == 50 <==> streakDays >= 5 && badgeCount >= 10
    ensures r == 0 <==> streakDays == 0 && badgeCount == 0
  {
    var streakScore := Min(streakDays * 10, 50);
    var badgeScore := Min(badgeCount * 5, 50);
    (streakScore + badgeScore + 1) / 2
  }

  lemma AwarenessMonotone(s1: nat, b1: nat, s2: nat, b2: nat)
    requires s1 <= s2 && b1 <= b2
    ensures Awareness(s1, b1) <= Awareness(s2, b2)
  {
  }

  /** The three skills that game sessions feed. */
  datatype Category = Phishing | Passwords | Urls

  /** The `switch` on the session's game type; other types feed no skill. */
  function CategoryOf(gameType: string): (c: Option<Category>)
    ensures c == Some(Phishing) <==> gameType == PHISHING_DETECTIVE
    ensures c == Some(Passwords) <==> gameType == PASSWORD_STRENGTH
    ensures c == Some(Urls) <==> gameType == URL_INSPECTOR
  {
    if gameType == PHISHING_DETECTIVE then Some(Phishing)
    else if gameType == PASSWORD_STRENGTH then Some(Passwords)
    else if gameType == URL_INSPECTOR then Some(Urls)
    else None
  }

  /** How many of the sessions feed skill `c`. */
  function CountIn(sessions: seq<GameSession>, c: Category): nat {
    if sessions == [] then 0
    else CountIn(sessions[..|sessions| - 1], c) + (if CategoryOf(sessions[|sessions| - 1].gameType) == Some(c) then 1 else 0)
  }

  lemma {:induction false} CountInZero(sessions: seq<GameSession>, c: Category)
    ensures CountIn(sessions, c) == 0 <==> forall i :: 0 <= i < |sessions| ==> CategoryOf(sessions[i].gameType) != Some(c)
  {
    if sessions != [] {
      var init := sessions[..|sessions| - 1];
      CountInZero(init, c);
      assert forall i :: 0 <= i < |init| ==> init[i] == sessions[i];
    }
  }

  datatype SkillScores = SkillScores(phishing: int, passwords: int, urls: int, awareness: int)

  /**
   * `calculateSkillScores(sessions, userData)`. The loop counts the sessions
   * of each skill; a skill with none scores 50, otherwise it scores
   * `mean(c)`, the rounded mean of those sessions' floating-point accuracies.
   */
  method CalculateSkillScores(sessions: seq<GameSession>, u: User, mean: Category -> int) returns (scores: SkillScores)
    ensures scores.phishing == if CountIn(sessions, Phishing) > 0 then mean(Phishing) else 50
    ensures scores.passwords == if CountIn(sessions, Passwords) > 0 then mean(Passwords) else 50
    ensures scores.urls == if CountIn(sessions, Urls) > 0 then mean(Urls) else 50
    ensures scores.awareness == Awareness(u.streakDays, |u.badges|)
  {
    var phishing, passwords, urls := 0, 0, 0;
    for i := 0 to |sessions|
      invariant phishing == CountIn(sessions[..i], Phishing)
      invariant passwords == CountIn(sessions[..i], Passwords)
      invariant urls == CountIn(sessions[..i], Urls)
    {
      assert sessions[..i + 1][..i] == sessions[..i];
      var gameType := sessions[i].gameType;
      if gameType == PHISHING_DETECTIVE {
        phishing := phishing + 1;
      } else if gameType == PASSWORD_STRENGTH {
        passwords := passwords + 1;
      } else if gameType == URL_INSPECTOR {
        urls := urls + 1;
      }
    }
    assert sessions[..|sessions|] == sessions;
    var streakScore := Min(u.streakDays * 10, 50);
    var badgeScore := Min(|u.badges| * 5, 50);
    scores := SkillScores(
      if phishing > 0 then mean(Phishing) else 50,
      if passwords > 0 then mean(Passwords) else 50,
      if urls > 0 then mean(Urls) else 50,
      (streakScore + badgeScore + 1) / 2);
  }

  /** A user who never played a game scores 50 on the three game skills. */
  lemma NoSessionsDefaultScores(sessions: seq<GameSession>, c: Category)
    requires forall i :: 0 <= i < |sessions| ==> CategoryOf(sessions[i].gameType) != Some(c)
    ensures CountIn(sessions, c) == 0
  {
    CountInZero(sessions, c);
  }

  // ---------------------------------------------------------------------
  // getCommunityAverage

  const DEFAULT_COMMUNITY_AVERAGE: nat := 70

  /** One user's estimate `min(40 + level * 3 + totalPoints / 100, 100)`, in hundredths. */
  function EstimateHundredths(u: User): (r: nat)
    ensures 4000 <= r <= 10000
    ensures r == 10000 <==> 4000 + 300 * u.level + u.totalPoints >= 10000
  {
    Min(4000 + 300 * u.level + u.totalPoints, 10000)
  }

  function SumEstimates(users: seq<User>): nat {
    if users == [] then 0
    else SumEstimates(users[..|users| - 1]) + EstimateHundredths(users[|users| - 1])
  }

  lemma {:induction false} SumEstimatesBounds(users: seq<User>)
    ensures 4000 * |users| <= SumEstimates(users) <= 10000 * |users|
  {
    if users != [] {
      SumEstimatesBounds(users[..|users| - 1]);
    }
  }

  /** `Math.round(sum / count)` for a sum in hundredths: halves round up. */
  function RoundedMean(sumHundredths: nat, count: nat): (r: nat)
    requires count > 0
    ensures 200 * count * r <= 2 * sumHundredths + 100 * count < 200 * count * (r + 1)
  {
    (2 * sumHundredths + 100 * count) / (200 * count)
  }

  /**
   * `getCommunityAverage()`. The scan is `None` when reading the users
   * failed; a failed or empty scan gives the default 70.
   */
  method GetCommunityAverage(scan: Option<seq<User>>) returns (average: nat)
    ensures scan.None? || scan.value == [] ==> average == DEFAULT_COMMUNITY_AVERAGE
    ensures scan.Some? && scan.value != [] ==>
      average == RoundedMean(SumEstimates(scan.value), |scan.value|) && 40 <= average <= 100
  {
    if scan.None? || scan.value == [] {
      return DEFAULT_COMMUNITY_AVERAGE;
    }
    var users := scan.value;
    var total := 0;
    for i := 0 to |users|
      invariant total == SumEstimates(users[..i])
    {
      assert users[..i + 1][..i] == users[..i];
      total := total + EstimateHundredths(users[i]);
    }
    assert users[..|users|] == users;
    SumEstimatesBounds(users);
    var n := |users|;
    DivRange(2 * total + 100 * n, 200 * n, 40, 100);
    average := (2 * total + 100 * n) / (200 * n);
  }

  // ---------------------------------------------------------------------
  // analyzeSkills

  datatype Skill = Skill(name: string, score: int)

  const PHISHING_DETECTION: string := "Phishing Detection"
  const PASSWORD_SECURITY: string := "Password Security"
  const URL_INSPECTION: string := "URL Inspection"
  const SECURITY_AWARENESS: string := "Security Awareness"

  /** The skills array in its literal order. */
  function SkillList(s: SkillScores): (r: seq<Skill>)
    ensures |r| == 4
  {
    [Skill(PHISHING_DETECTION, s.phishing), Skill(PASSWORD_SECURITY, s.passwords),
     Skill(URL_INSPECTION, s.urls), Skill(SECURITY_AWARENESS, s.awareness)]
  }

  ghost predicate Descending(s: seq<Skill>) {
    forall i, j :: 0 <= i < j < |s| ==> s[i].score >= s[j].score
  }

  /** The skills of score `v`, in order. */
  function WithScore(s: seq<Skill>, v: int): seq<Skill> {
    if s == [] then []
    else WithScore(s[..|s| - 1], v) + (if s[|s| - 1].score == v then [s[|s| - 1]] else [])
  }

  /** One step of insertion sort: `x` moves left past the elements that score strictly less. */
  function InsertBack(s: seq<Skill>, x: Skill): (r: seq<Skill>)
    ensures |r| == |s| + 1
  {
    if s == [] || s[|s| - 1].score >= x.score then s + [x]
    else InsertBack(s[..|s| - 1], x) + [s[|s| - 1]]
  }

  /** `sort((a, b) => b.score - a.score)`: a stable sort on descending score. */
  function SortByScore(s: seq<Skill>): (r: seq<Skill>)
    ensures |r| == |s|
  {
    if s == [] then [] else InsertBack(SortByScore(s[..|s| - 1]), s[|s| - 1])
  }

  lemma {:induction false} InsertBackPerm(s: seq<Skill>, x: Skill)
    ensures multiset(InsertBack(s, x)) == multiset(s) + multiset{x}
  {
    if s != [] && s[|s| - 1].score < x.score {
      InsertBackPerm(s[..|s| - 1], x);
      assert s == s[..|s| - 1] + [s[|s| - 1]];
    }
  }

  lemma {:induction false} InsertBackDescending(s: seq<Skill>, x: Skill)
    requires Descending(s)
    ensures Descending(InsertBack(s, x))
  {
    if s != [] && s[|s| - 1].score < x.score {
      var init, last := s[..|s| - 1], s[|s| - 1];
      InsertBackDescending(init, x);
      InsertBackPerm(init, x);
      var r := InsertBack(init, x);
      forall k | 0 <= k < |r|
        ensures r[k].score >= last.score
      {
        assert r[k] in multiset(r);
        assert r[k] in multiset(init) || r[k] == x;
      }
    }
  }

  lemma {:induction false} InsertBackStable(s: seq<Skill>, x: Skill, v: int)
    ensures WithScore(InsertBack(s, x), v) == WithScore(s, v) + (if x.score == v then [x] else [])
  {
    if s == [] || s[|s| - 1].score >= x.score {
      assert (s + [x])[..|s|] == s;
    } else {
      var init, last := s[..|s| - 1], s[|s| - 1];
      InsertBackStable(init, x, v);
      assert (InsertBack(init, x) + [last])[..|InsertBack(init, x) + [last]| - 1] == InsertBack(init, x);
    }
  }

  /** The sort returns the same skills, highest score first. */
  lemma {:induction false} SortByScoreSorts(s: seq<Skill>)
    ensures multiset(SortByScore(s)) == multiset(s)
    ensures Descending(SortByScore(s))
  {
    if s != [] {
      SortByScoreSorts(s[..|s| - 1]);
      InsertBackPerm(SortByScore(s[..|s| - 1]), s[|s| - 1]);
      InsertBackDescending(SortByScore(s[..|s| - 1]), s[|s| - 1]);
      assert s == s[..|s| - 1] + [s[|s| - 1]];
    }
  }

  /** Skills with equal scores keep their relative order. */
  lemma {:induction false} SortByScoreStable(s: seq<Skill>, v: int)
    ensures WithScore(SortByScore(s), v) == WithScore(s, v)
  {
    if s != [] {
      SortByScoreStable(s[..|s| - 1], v);
      InsertBackStable(SortByScore(s[..|s| - 1]), s[|s| - 1], v);
    }
  }

  /** Where `InsertBack` puts `x`: after the last element that scores at least as much. */
  function InsertPos(s: seq<Skill>, x: Skill): (p: nat)
    ensures p <= |s|
  {
    if s == [] || s[|s| - 1].score >= x.score then |s| else InsertPos(s[..|s| - 1], x)
  }

  lemma {:induction false} InsertBackSplit(s: seq<Skill>, x: Skill)
    ensures InsertBack(s, x) == s[..InsertPos(s, x)] + [x] + s[InsertPos(s, x)..]
  {
    if s != [] && s[|s| - 1].score < x.score {
      var init := s[..|s| - 1];
      InsertBackSplit(init, x);
      var p := InsertPos(init, x);
      assert init[..p] == s[..p];
      assert init[p..] + [s[|s| - 1]] == s[p..];
    }
  }

  /** `x` lands at `j` when everything from `j` on scores less and the element before `j`, if any, does not. */
  lemma {:induction false} InsertPosAt(s: seq<Skill>, x: Skill, j: nat)
    requires j <= |s| && (j == 0 || s[j - 1].score >= x.score)
    requires forall k :: j <= k < |s| ==> s[k].score < x.score
    ensures InsertPos(s, x) == j
    decreases |s|
  {
    if j < |s| {
      var init := s[..|s| - 1];
      assert forall k :: j <= k < |init| ==> init[k] == s[k];
      InsertPosAt(init, x, j);
    }
  }

  /** The inner loop of insertion sort: `a[i]` moves left into the sorted prefix `a[..i]`. */
  method InsertAt(a: array<Skill>, i: nat)
    requires i < a.Length
    modifies a
    ensures a[..i + 1] == InsertBack(old(a[..i]), old(a[i]))
    ensures forall k :: i < k < a.Length ==> a[k] == old(a[k])
  {
    ghost var prefix := a[..i];
    var x := a[i];
    var j := i;
    while j > 0 && a[j - 1].score < x.score
      invariant 0 <= j <= i
      invariant forall k :: 0 <= k < j ==> a[k] == prefix[k]
      invariant forall k :: j < k <= i ==> a[k] == prefix[k - 1]
      invariant forall k :: i < k < a.Length ==> a[k] == old(a[k])
      invariant forall k :: j <= k < i ==> prefix[k].score < x.score
    {
      a[j] := a[j - 1];
      j := j - 1;
    }
    a[j] := x;
    InsertPosAt(prefix, x, j);
    InsertBackSplit(prefix, x);
    ghost var inserted := prefix[..j] + [x] + prefix[j..];
    assert |inserted| == i + 1;
    forall k | 0 <= k <= i
      ensures a[k] == inserted[k]
    {
      if k < j {
        assert inserted[k] == prefix[k];
      } else if j < k {
        assert inserted[k] == prefix[j..][k - j - 1];
      }
    }
    assert a[..i + 1] == inserted;
  }

  /** The in-place `skills.sort(...)`: a stable insertion sort on descending score. */
  method SortSkills(a: array<Skill>)
    modifies a
    ensures a[..] == SortByScore(old(a[..]))
  {
    ghost var input := a[..];
    for i := 0 to a.Length
      invariant a[..i] == SortByScore(input[..i])
      invariant forall k :: i <= k < a.Length ==> a[k] == input[k]
    {
      assert input[..i + 1][..i] == input[..i];
      InsertAt(a, i);
    }
    assert input[..a.Length] == input;
  }

  function Names(s: seq<Skill>): (r: seq<string>)
    ensures |r| == |s| && forall k :: 0 <= k < |s| ==> r[k] == s[k].name
  {
    seq(|s|, k requires 0 <= k < |s| => s[k].name)
  }

  /** `analyzeSkills(skillScores)`: the two best skills, then the two worst, after the stable sort. */
  method AnalyzeSkills(scores: SkillScores) returns (strengths: seq<string>, weaknesses: seq<string>)
    ensures var sorted := SortByScore(SkillList(scores));
      |sorted| == 4 && strengths == Names(sorted[..2]) && weaknesses == Names(sorted[2..])
  {
    var a := new Skill[4];
    a[0], a[1], a[2], a[3] := Skill(PHISHING_DETECTION, scores.phishing), Skill(PASSWORD_SECURITY, scores.passwords),
                              Skill(URL_INSPECTION, scores.urls), Skill(SECURITY_AWARENESS, scores.awareness);
    assert a[..] == SkillList(scores);
    SortSkills(a);
    ghost var sorted := a[..];
    strengths := [a[0].name, a[1].name];
    weaknesses := [a[2].name, a[3].name];
    assert strengths == Names(sorted[..2]);
    assert weaknesses == Names(sorted[2..]);
  }

  function ScoreOf(scores: SkillScores, name: string): int {
    if name == PHISHING_DETECTION then scores.phishing
    else if name == PASSWORD_SECURITY then scores.passwords
    else if name == URL_INSPECTION then scores.urls
    else scores.awareness
  }

  lemma {:induction false} NoDupCount<T>(s: seq<T>, x: T)
    requires NoDup(s)
    ensures multiset(s)[x] <= 1
  {
    if s != [] {
      var init := s[..|s| - 1];
      NoDupCount(init, x);
      assert s == init + [s[|s| - 1]];
      if s[|s| - 1] == x {
        assert x !in init;
      }
    }
  }

  /** A permutation of a sequence without duplicates has none either. */
  lemma PermutationNoDup<T>(a: seq<T>, b: seq<T>)
    requires multiset(a) == multiset(b) && NoDup(b)
    ensures NoDup(a)
  {
    forall i, j | 0 <= i < j < |a|
      ensures a[i] != a[j]
    {
      if a[i] == a[j] {
        assert a == a[..i] + [a[i]] + a[i + 1..j] + [a[j]] + a[j + 1..];
        assert multiset(a)[a[i]] >= 2;
        NoDupCount(b, a[i]);
        assert false;
      }
    }
  }

  /** A permutation of four differently named skills: again four differently named skills, the same ones. */
  lemma PermutedSkills(list: seq<Skill>, sorted: seq<Skill>)
    requires |list| == 4 && multiset(sorted) == multiset(list)
    requires forall i, j :: 0 <= i < j < 4 ==> list[i].name != list[j].name
    ensures |sorted| == 4
    ensures forall k :: 0 <= k < 4 ==> sorted[k] in list
    ensures forall i, j :: 0 <= i < j < 4 ==> sorted[i].name != sorted[j].name
    ensures forall k :: 0 <= k < 4 ==> list[k].name in Names(sorted)
  {
    assert |multiset(sorted)| == 4;
    PermutationNoDup(sorted, list);
    forall k | 0 <= k < 4
      ensures sorted[k] in list
    {
      assert sorted[k] in multiset(list);
    }
    forall i, j | 0 <= i < j < 4
      ensures sorted[i].name != sorted[j].name
    {
      var p :| 0 <= p < 4 && list[p] == sorted[i];
      var q :| 0 <= q < 4 && list[q] == sorted[j];
      assert p != q;
    }
    forall k | 0 <= k < 4
      ensures list[k].name in Names(sorted)
    {
      assert list[k] in multiset(sorted);
      var j :| 0 <= j < 4 && sorted[j] == list[k];
      assert Names(sorted)[j] == list[k].name;
    }
  }

  /** The first two of a descending permutation of four differently named skills against the last two. */
  lemma SplitOfPermutation(scores: SkillScores, list: seq<Skill>, sorted: seq<Skill>)
    requires |list| == 4 && multiset(sorted) == multiset(list) && Descending(sorted)
    requires forall i, j :: 0 <= i < j < 4 ==> list[i].name != list[j].name
    requires forall p :: p in list ==> ScoreOf(scores, p.name) == p.score
    ensures |sorted| == 4
    ensures var strengths, weaknesses := Names(sorted[..2]), Names(sorted[2..]);
      && |strengths| == 2 && |weaknesses| == 2
      && (forall n :: n in strengths ==> n !in weaknesses)
      && (forall k :: 0 <= k < 4 ==> list[k].name in strengths + weaknesses)
      && (forall n, m :: n in strengths && m in weaknesses ==> ScoreOf(scores, n) >= ScoreOf(scores, m))
  {
    PermutedSkills(list, sorted);
    var strengths, weaknesses := Names(sorted[..2]), Names(sorted[2..]);
    assert strengths == [sorted[0].name, sorted[1].name];
    assert weaknesses == [sorted[2].name, sorted[3].name];
    assert Names(sorted) == strengths + weaknesses;
  }

  /** The skills array names four different skills, and each carries the score `ScoreOf` reads. */
  lemma SkillListFacts(scores: SkillScores)
    ensures forall i, j :: 0 <= i < j < 4 ==> SkillList(scores)[i].name != SkillList(scores)[j].name
    ensures forall p :: p in SkillList(scores) ==> ScoreOf(scores, p.name) == p.score
  {
    assert PHISHING_DETECTION[0] == 'P' && PHISHING_DETECTION[1] == 'h';
    assert PASSWORD_SECURITY[0] == 'P' && PASSWORD_SECURITY[1] == 'a';
    assert URL_INSPECTION[0] == 'U' && SECURITY_AWARENESS[0] == 'S';
  }

  /**
   * The split is a partition of the four skill names, and no strength scores
   * below a weakness.
   */
  lemma AnalyzeSkillsPartition(scores: SkillScores)
    ensures var sorted := SortByScore(SkillList(scores));
      var strengths, weaknesses := Names(sorted[..2]), Names(sorted[2..]);
      && |sorted| == 4
      && |strengths| == 2 && |weaknesses| == 2
      && (forall n :: n in strengths ==> n !in weaknesses)
      && (forall k :: 0 <= k < 4 ==> SkillList(scores)[k].name in strengths + weaknesses)
      && (forall n, m :: n in strengths && m in weaknesses ==> ScoreOf(scores, n) >= ScoreOf(scores, m))
  {
    var list := SkillList(scores);
    SortByScoreSorts(list);
    SkillListFacts(scores);
    SplitOfPermutation(scores, list, SortByScore(list));
  }

  /** When skills tie, the one listed first in the skills array comes first. */
  lemma AnalyzeSkillsTieOrder(scores: SkillScores, v: int)
    ensures WithScore(SortByScore(SkillList(scores)), v) == WithScore(SkillList(scores), v)
  {
    SortByScoreStable(SkillList(scores), v);
  }

  // ---------------------------------------------------------------------
  // getStreakCalendar

  datatype CalendarDay = CalendarDay(date: string, completed: bool)

  datatype StreakCalendar = StreakCalendar(year: nat, month: nat, days: seq<CalendarDay>, totalCompleted: nat)

  /** A completion the month's query returns: the user's, dated within `[startDate, endDate]` as strings. */
  predicate InRange(c: DailyCompletion, userId: string, startDate: string, endDate: string) {
    c.userId == userId && LexLeq(startDate, c.date) && LexLeq(c.date, endDate)
  }

  /** The `completedDates` set: the dates of the completions the query returns. */
  function CompletedDates(completions: seq<DailyCompletion>, userId: string, startDate: string, endDate: string): set<string> {
    if completions == [] then {}
    else
      var last := completions[|completions| - 1];
      CompletedDates(completions[..|completions| - 1], userId, startDate, endDate)
        + (if InRange(last, userId, startDate, endDate) then {last.date} else {})
  }

  /** A date is in the set exactly when some completion the query returns carries it. */
  lemma {:induction false} CompletedDatesMembership(completions: seq<DailyCompletion>, userId: string,
                                                    startDate: string, endDate: string, date: string)
    ensures date in CompletedDates(completions, userId, startDate, endDate) <==>
      exists i :: 0 <= i < |completions| && InRange(completions[i], userId, startDate, endDate) && completions[i].date == date
  {
    if completions != [] {
      var n := |completions| - 1;
      var init := completions[..n];
      CompletedDatesMembership(init, userId, startDate, endDate, date);
      if date in CompletedDates(init, userId, startDate, endDate) {
        var i :| 0 <= i < |init| && InRange(init[i], userId, startDate, endDate) && init[i].date == date;
        assert completions[i] == init[i];
      } else if exists i :: 0 <= i < |completions| && InRange(completions[i], userId, startDate, endDate) && completions[i].date == date {
        var i :| 0 <= i < |completions| && InRange(completions[i], userId, startDate, endDate) && completions[i].date == date;
        if i < n {
          assert init[i] == completions[i];
        }
      }
    }
  }

  /** The first and last day of the month, formatted as the query bounds (in UTC). */
  function MonthStart(year: nat, month: nat): string { FormatDate(year, month, 1) }
  function MonthEnd(year: nat, month: nat, daysInMonth: nat): string { FormatDate(year, month, daysInMonth) }

  /** The `forEach` over the query's documents that fills `completedDates`. */
  method CollectCompletedDates(completions: seq<DailyCompletion>, userId: string, startDate: string, endDate: string)
    returns (completedDates: set<string>)
    ensures forall date :: date in completedDates <==>
      exists i :: 0 <= i < |completions| && InRange(completions[i], userId, startDate, endDate) && completions[i].date == date
    ensures completedDates == CompletedDates(completions, userId, startDate, endDate)
  {
    completedDates := {};
    for i := 0 to |completions|
      invariant completedDates == CompletedDates(completions[..i], userId, startDate, endDate)
    {
      assert completions[..i + 1][..i] == completions[..i];
      if InRange(completions[i], userId, startDate, endDate) {
        completedDates := completedDates + {completions[i].date};
      }
    }
    assert completions[..|completions|] == completions;
    forall date ensures date in completedDates <==>
      exists i :: 0 <= i < |completions| && InRange(completions[i], userId, startDate, endDate) && completions[i].date == date
    {
      CompletedDatesMembership(completions, userId, startDate, endDate, date);
    }
  }

  /**
   * `getStreakCalendar(userId, year, month)`: one entry per day of the month,
   * completed exactly when that date was completed, and the number of
   * distinct completed dates.
   */
  method GetStreakCalendar(db: Db, userId: string, year: nat, month: nat, daysInMonth: nat) returns (cal: StreakCalendar)
    ensures cal.year == year && cal.month == month
    ensures |cal.days| == daysInMonth
    ensures forall i :: 0 <= i < |cal.days| ==> cal.days[i].date == FormatDate(year, month, i + 1)
    ensures forall i :: 0 <= i < |cal.days| ==>
      (cal.days[i].completed <==>
         FormatDate(year, month, i + 1) in CompletedDates(db.completions, userId, MonthStart(year, month), MonthEnd(year, month, daysInMonth)))
    ensures cal.totalCompleted == |CompletedDates(db.completions, userId, MonthStart(year, month), MonthEnd(year, month, daysInMonth))|
  {
    var completedDates := CollectCompletedDates(db.completions, userId,
                                                MonthStart(year, month), MonthEnd(year, month, daysInMonth));
    var days: seq<CalendarDay> := [];
    for day := 1 to daysInMonth + 1
      invariant |days| == day - 1
      invariant forall i :: 0 <= i < |days| ==>
        days[i] == CalendarDay(FormatDate(year, month, i + 1), FormatDate(year, month, i + 1) in completedDates)
    {
      var date := FormatDate(year, month, day);
      assert date == FormatDate(year, month, (day - 1) + 1);
      days := days + [CalendarDay(date, date in completedDates)];
    }
    cal := StreakCalendar(year, month, days, |completedDates|);
  }

  /** The calendar's dates are distinct, so no day is listed twice. */
  lemma CalendarDatesDistinct(year: nat, month: nat, daysInMonth: nat, i: nat, j: nat)
    requires month < 100 && daysInMonth < 100
    requires i < j < daysInMonth
    ensures FormatDate(year, month, i + 1) != FormatDate(year, month, j + 1)
  {
    if FormatDate(year, month, i + 1) == FormatDate(year, month, j + 1) {
      FormatDateInjective(year, month, i + 1, j + 1);
    }
  }
}
