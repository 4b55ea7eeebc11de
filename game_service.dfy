/**
 * The game service (src/services/gameService.js): level lookup, the
 * achievement key of a game type, the per-submission update of the user
 * record, grading, the challenge selection, and the per-type statistics.
 */
module GameService {
  import opened Wrappers
  import opened Constants
  import opened Domain
  import opened Scoring
  import opened Store

  // ---------------------------------------------------------------------
  // calculateLevel

  /** The scan of `calculateLevel` from entry `i - 1` down to entry 0, falling back to 1. */
  function LevelScan(xp: nat, i: nat): (r: nat)
    requires i <= |LEVELS|
    ensures 1 <= r && (i > 0 ==> r <= i)
    ensures i > 0 ==> LEVELS[r - 1].xpRequired <= xp
    ensures 0 < i && r < i ==> xp < LEVELS[r].xpRequired
  {
    LevelTable();
    if i == 0 then 1
    else if xp >= LEVELS[i - 1].xpRequired then LEVELS[i - 1].level
    else LevelScan(xp, i - 1)
  }

  /** `calculateLevel(xp)`: the level of the last table entry whose threshold `xp` reaches. */
  function CalculateLevel(xp: nat): (r: nat)
    ensures 1 <= r <= MAX_LEVEL
    ensures LEVELS[r - 1].xpRequired <= xp
    ensures r < MAX_LEVEL ==> xp < LEVELS[r].xpRequired
  {
    LevelTable();
    LevelScan(xp, |LEVELS|)
  }

  /** Every entry up to the result is reached and every later one is not; the result is that entry's level. */
  lemma CalculateLevelIsLastReached(xp: nat)
    ensures var r := CalculateLevel(xp);
      && LEVELS[r - 1].level == r
      && (forall j :: 0 <= j < r ==> LEVELS[j].xpRequired <= xp)
      && (forall j :: r <= j < |LEVELS| ==> xp < LEVELS[j].xpRequired)
  {
    LevelTable();
    var r := CalculateLevel(xp);
    forall j | 0 <= j < r
      ensures LEVELS[j].xpRequired <= xp
    {
      if j < r - 1 {
        assert LEVELS[j].xpRequired < LEVELS[r - 1].xpRequired;
      }
    }
    forall j | r <= j < |LEVELS|
      ensures xp < LEVELS[j].xpRequired
    {
      if r < j {
        assert LEVELS[r].xpRequired < LEVELS[j].xpRequired;
      }
    }
  }

  lemma CalculateLevelExamples()
    ensures CalculateLevel(0) == 1
    ensures CalculateLevel(99) == 1
    ensures CalculateLevel(100) == 2
    ensures CalculateLevel(3999) == 10
    ensures CalculateLevel(4000) == 11
    ensures CalculateLevel(4001) == 11
  {
    assert LEVELS[1].xpRequired == 100 && LEVELS[2].xpRequired == 250;
    assert LEVELS[9].xpRequired == 3200 && LEVELS[10].xpRequired == 4000;
    CalculateLevelIsLastReached(0);
    CalculateLevelIsLastReached(99);
    CalculateLevelIsLastReached(3999);
    CalculateLevelIsLastReached(4000);
    CalculateLevelIsLastReached(4001);
  }

  lemma CalculateLevelMonotone(x1: nat, x2: nat)
    requires x1 <= x2
    ensures CalculateLevel(x1) <= CalculateLevel(x2)
  {
  }

  /** The stored level is the one the stored XP earns. */
  predicate LevelConsistent(u: User) {
    u.level == CalculateLevel(u.xp)
  }

  /** Between two consistent records, more XP never means a lower level. */
  lemma ConsistentLevelNeverDrops(before: User, after: User)
    requires LevelConsistent(before) && LevelConsistent(after) && before.xp <= after.xp
    ensures before.level <= after.level
  {
    CalculateLevelMonotone(before.xp, after.xp);
  }

  // ---------------------------------------------------------------------
  // getAchievementKey

  /** `getAchievementKey(gameType)`: the counter a game type feeds, `games_played` by default. */
  function AchievementKey(gameType: string): (k: string)
    ensures gameType == PHISHING_DETECTIVE <==> k == PHISHING_DETECTED
    ensures gameType == PASSWORD_STRENGTH <==> k == PASSWORDS_CREATED
    ensures gameType == URL_INSPECTOR <==> k == URLS_INSPECTED
    ensures k != PHISHING_DETECTED && k != PASSWORDS_CREATED && k != URLS_INSPECTED ==> k == GAMES_PLAYED
  {
    if gameType == PHISHING_DETECTIVE then PHISHING_DETECTED
    else if gameType == PASSWORD_STRENGTH then PASSWORDS_CREATED
    else if gameType == URL_INSPECTOR then URLS_INSPECTED
    else GAMES_PLAYED
  }

  // ---------------------------------------------------------------------
  // updateUserStats

  /**
   * The record `updateUserStats` writes. In the source's object literal the
   * `games_played` key comes after the mapped key, so when the two coincide
   * the later one wins and `games_played` rises by exactly 1.
   */
  function ApplyGameStats(u: User, points: nat, xp: nat, gameType: string, correct: nat, now: int): (r: User)
    ensures r.totalPoints == u.totalPoints + points && r.weeklyPoints == u.weeklyPoints + points
    ensures r.xp == u.xp + xp && LevelConsistent(r) && r.lastActive == now
    ensures Counter(r, GAMES_PLAYED) == Counter(u, GAMES_PLAYED) + 1
    ensures AchievementKey(gameType) != GAMES_PLAYED ==>
      Counter(r, AchievementKey(gameType)) == Counter(u, AchievementKey(gameType)) + correct
    ensures forall k :: k != GAMES_PLAYED && k != AchievementKey(gameType) ==> Counter(r, k) == Counter(u, k)
    ensures r.achievements.Keys == u.achievements.Keys + {AchievementKey(gameType), GAMES_PLAYED}
    ensures r == u.(totalPoints := r.totalPoints, weeklyPoints := r.weeklyPoints, xp := r.xp,
                    level := r.level, achievements := r.achievements, lastActive := now)
  {
    var key := AchievementKey(gameType);
    var newXp := u.xp + xp;
    u.(totalPoints := u.totalPoints + points,
       weeklyPoints := u.weeklyPoints + points,
       xp := newXp,
       level := CalculateLevel(newXp),
       achievements := u.achievements[key := Counter(u, key) + correct][GAMES_PLAYED := Counter(u, GAMES_PLAYED) + 1],
       lastActive := now)
  }

  /** A submission never lowers a consistent level. */
  lemma ApplyGameStatsNeverLowersLevel(u: User, points: nat, xp: nat, gameType: string, correct: nat, now: int)
    requires LevelConsistent(u)
    ensures ApplyGameStats(u, points, xp, gameType, correct, now).level >= u.level
  {
    ConsistentLevelNeverDrops(u, ApplyGameStats(u, points, xp, gameType, correct, now));
  }

  /** `updateUserStats`: one read-modify-write of the user record; "User not found" writes nothing. */
  method UpdateUserStats(db: Db, userId: string, points: nat, xp: nat, gameType: string, correct: nat, now: int)
    returns (r: Result<User>)
    modifies db
    ensures db.sessions == old(db.sessions) && db.completions == old(db.completions)
    ensures r.Err? <==> userId !in old(db.users)
    ensures r.Err? ==> r.error == UserNotFound && db.users == old(db.users)
    ensures r.Ok? ==> r.value == ApplyGameStats(old(db.users)[userId], points, xp, gameType, correct, now)
    ensures r.Ok? ==> db.users == old(db.users)[userId := r.value]
  {
    if userId !in db.users {
      return Err(UserNotFound);
    }
    var userData := db.users[userId];
    var newTotalPoints := userData.totalPoints + points;
    var newXp := userData.xp + xp;
    var newLevel := CalculateLevel(newXp);
    var key := AchievementKey(gameType);
    var newAchievements := userData.achievements[key := Counter(userData, key) + correct];
    newAchievements := newAchievements[GAMES_PLAYED := Counter(userData, GAMES_PLAYED) + 1];
    var updated := userData.(totalPoints := newTotalPoints, weeklyPoints := userData.weeklyPoints + points,
                             xp := newXp, level := newLevel, achievements := newAchievements, lastActive := now);
    db.users := db.users[userId := updated];
    return Ok(updated);
  }

  // ---------------------------------------------------------------------
  // checkGameAchievements

  /** The intended `checkGameAchievements`: one more perfect score when the accuracy is exactly 100. */
  function RecordPerfectScore(u: User, correct: nat, total: nat): (r: User)
    ensures Counter(r, PERFECT_SCORES) == Counter(u, PERFECT_SCORES) + (if IsPerfect(correct, total) then 1 else 0)
    ensures forall k :: k != PERFECT_SCORES ==> Counter(r, k) == Counter(u, k)
    ensures r == u.(achievements := r.achievements)
  {
    if IsPerfect(correct, total) then
      u.(achievements := u.achievements[PERFECT_SCORES := Counter(u, PERFECT_SCORES) + 1])
    else u
  }

  /**
   * `checkGameAchievements` as written: `admin` is not declared in the file,
   * so a perfect score ends in a ReferenceError before the increment, and the
   * caller reports the whole submission as failed.
   */
  function CheckGameAchievementsAsWritten(u: User, correct: nat, total: nat): (r: Result<User>)
    ensures r.Err? <==> IsPerfect(correct, total)
    ensures r.Err? ==> r.error == UndefinedReference
    ensures r.Ok? ==> r.value == u
  {
    if IsPerfect(correct, total) then Err(UndefinedReference) else Ok(u)
  }

  /**
   * As written, no submission ever moves `perfect_scores`: the stats update
   * feeds only the game's own counter and `games_played`, and the perfect-score
   * step either fails or leaves the record alone.
   */
  lemma PerfectScoresFrozenAsWritten(u: User, gameType: string, correct: nat, total: nat, now: int)
    ensures var v := ApplyGameStats(u, CalculatePoints(correct, total), CalculateXP(correct, total), gameType, correct, now);
      var w := match CheckGameAchievementsAsWritten(v, correct, total) case Ok(x) => x case Err(_) => v;
      Counter(w, PERFECT_SCORES) == Counter(u, PERFECT_SCORES)
  {
  }

  /** The input that shows it: a 5/5 submission fails as written, and counts once when corrected. */
  lemma PerfectSubmissionExample(u: User)
    ensures CheckGameAchievementsAsWritten(u, 5, 5) == Err(UndefinedReference)
    ensures Counter(RecordPerfectScore(u, 5, 5), PERFECT_SCORES) == Counter(u, PERFECT_SCORES) + 1
  {
  }

  /** The corrected `checkGameAchievements` on the store; the record exists whenever it is called. */
  method CheckGameAchievements(db: Db, userId: string, correct: nat, total: nat) returns (r: Result<()>)
    modifies db
    ensures db.sessions == old(db.sessions) && db.completions == old(db.completions)
    ensures r.Err? <==> IsPerfect(correct, total) && userId !in old(db.users)
    ensures r.Err? ==> r.error == NoDocumentToUpdate
    ensures r.Ok? && IsPerfect(correct, total) ==>
      db.users == old(db.users)[userId := RecordPerfectScore(old(db.users)[userId], correct, total)]
    ensures !IsPerfect(correct, total) || r.Err? ==> db.users == old(db.users)
    ensures userId in old(db.users) ==>
      r.Ok? && db.users == old(db.users)[userId := RecordPerfectScore(old(db.users)[userId], correct, total)]
  {
    if IsPerfect(correct, total) {
      if userId !in db.users {
        return Err(NoDocumentToUpdate);
      }
      db.users := db.users[userId := RecordPerfectScore(db.users[userId], correct, total)];
    }
    return Ok(());
  }

  // ---------------------------------------------------------------------
  // Grading (the loop of submitGame)

  /** `challenges.find(c => c.id === id)`, as the index of the first match. */
  function FirstIndexOf(cs: seq<Challenge>, id: string): (r: Option<nat>)
    ensures r.None? <==> forall i :: 0 <= i < |cs| ==> cs[i].id != id
    ensures r.Some? ==> r.value < |cs| && cs[r.value].id == id
    ensures r.Some? ==> forall j :: 0 <= j < r.value ==> cs[j].id != id
  {
    if cs == [] then None
    else if cs[0].id == id then Some(0)
    else match FirstIndexOf(cs[1..], id)
      case None => None
      case Some(k) => Some(k + 1)
  }

  /**
   * `===` on answers: strings, booleans and numbers compare by value, but two
   * arrays are never the same object, so a list answer is never equal.
   */
  predicate StrictEquals(a: Value, b: Value)
    ensures StrictEquals(a, b) ==> a == b
    ensures a.Strs? || b.Strs? ==> !StrictEquals(a, b)
    ensures !a.Strs? ==> (StrictEquals(a, b) <==> a == b)
  {
    a == b && !a.Strs?
  }

  /** The graded entry for one answer. */
  function GradeAnswer(cs: seq<Challenge>, a: Answer): (r: QuestionResult)
    ensures r.questionId == a.questionId
    ensures r.correctAnswer.None? <==> FirstIndexOf(cs, a.questionId).None?
    ensures r.correctAnswer.None? ==> !r.correct && r.userAnswer.None? && r.timeTaken.None?
    ensures r.correctAnswer.Some? ==> r.userAnswer == Some(a.userAnswer) && r.timeTaken == Some(a.timeTaken)
    ensures r.correct <==> r.correctAnswer.Some? && StrictEquals(r.correctAnswer.value, a.userAnswer)
  {
    match FirstIndexOf(cs, a.questionId)
    case None => QuestionResult(a.questionId, None, false, None, "Question not found", None)
    case Some(i) =>
      var c := cs[i];
      QuestionResult(a.questionId, Some(a.userAnswer), StrictEquals(c.correctAnswer, a.userAnswer),
                     Some(c.correctAnswer), c.explanation, Some(a.timeTaken))
  }

  /** The number of correct entries. */
  function CountCorrect(rs: seq<QuestionResult>): (n: nat)
    ensures n <= |rs|
    ensures n == |rs| <==> forall i :: 0 <= i < |rs| ==> rs[i].correct
  {
    if rs == [] then 0
    else
      var init := rs[..|rs| - 1];
      assert forall i :: 0 <= i < |init| ==> init[i] == rs[i];
      CountCorrect(init) + (if rs[|rs| - 1].correct then 1 else 0)
  }

  /** Appending one entry adds one to the count exactly when that entry is correct. */
  lemma CountCorrectSnoc(rs: seq<QuestionResult>, e: QuestionResult)
    ensures CountCorrect(rs + [e]) == CountCorrect(rs) + if e.correct then 1 else 0
  {
    assert (rs + [e])[..|rs|] == rs;
  }

  /** The body of the grading loop for one answer. */
  method GradeOne(cs: seq<Challenge>, answer: Answer) returns (entry: QuestionResult)
    ensures entry == GradeAnswer(cs, answer)
  {
    var found := FirstIndexOf(cs, answer.questionId);
    if found.None? {
      entry := QuestionResult(answer.questionId, None, false, None, "Question not found", None);
    } else {
      var challenge := cs[found.value];
      var isCorrect := StrictEquals(challenge.correctAnswer, answer.userAnswer);
      entry := QuestionResult(answer.questionId, Some(answer.userAnswer), isCorrect,
                              Some(challenge.correctAnswer), challenge.explanation, Some(answer.timeTaken));
    }
  }

  datatype Grading = Grading(results: seq<QuestionResult>, correctCount: nat)

  /**
   * The grading loop. With an unknown game type the catalogue lookup is
   * undefined, which fails on the first answer, and succeeds with nothing
   * graded when there is no answer.
   */
  method GradeAnswers(gameChallenges: Option<seq<Challenge>>, answers: seq<Answer>) returns (r: Result<Grading>)
    ensures r.Err? <==> gameChallenges.None? && |answers| > 0
    ensures r.Err? ==> r.error == InvalidGameType
    ensures r.Ok? ==> |r.value.results| == |answers|
    ensures r.Ok? ==> forall i :: 0 <= i < |answers| ==>
      r.value.results[i] == GradeAnswer(gameChallenges.GetOr([]), answers[i])
    ensures r.Ok? ==> r.value.correctCount == CountCorrect(r.value.results) <= |answers|
  {
    if gameChallenges.None? && |answers| > 0 {
      return Err(InvalidGameType);
    }
    var cs := gameChallenges.GetOr([]);
    var results: seq<QuestionResult> := [];
    var correctCount := 0;
    for i := 0 to |answers|
      invariant |results| == i
      invariant forall j :: 0 <= j < i ==> results[j] == GradeAnswer(cs, answers[j])
      invariant correctCount == CountCorrect(results)
    {
      var entry := GradeOne(cs, answers[i]);
      if entry.correct {
        correctCount := correctCount + 1;
      }
      CountCorrectSnoc(results, entry);
      results := results + [entry];
    }
    return Ok(Grading(results, correctCount));
  }

  // ---------------------------------------------------------------------
  // submitGame

  datatype Submission = Submission(
    sessionId: nat,
    results: seq<QuestionResult>,
    correctCount: nat,
    totalQuestions: nat,
    pointsEarned: nat,
    xpEarned: nat)

  /** The catalogue entry of a game type, undefined for an unknown one. */
  function CatalogueOf(catalog: map<string, seq<Challenge>>, gameType: string): Option<seq<Challenge>> {
    if gameType in catalog then Some(catalog[gameType]) else None
  }

  /**
   * `submitGame`, with `checkGameAchievements` corrected: grade, update the
   * user's stats, append the session, then count a perfect score. The session
   * id is the position of the new session in the log.
   */
  method SubmitGame(db: Db, userId: string, gameType: string, answers: seq<Answer>, now: int)
    returns (r: Result<Submission>)
    modifies db
    ensures db.completions == old(db.completions)
    ensures r.Err? ==> db.users == old(db.users) && db.sessions == old(db.sessions)
    ensures gameType !in db.challenges && |answers| > 0 ==> r == Err(InvalidGameType)
    ensures gameType in db.challenges || |answers| == 0 ==>
      (r.Err? <==> userId !in old(db.users)) && (r.Err? ==> r.error == UserNotFound)
    ensures r.Ok? ==> userId in old(db.users)
    ensures r.Ok? ==>
      var s := r.value;
      var cs := CatalogueOf(db.challenges, gameType).GetOr([]);
      && s.totalQuestions == |answers| == |s.results|
      && (forall i :: 0 <= i < |answers| ==> s.results[i] == GradeAnswer(cs, answers[i]))
      && s.correctCount == CountCorrect(s.results) <= s.totalQuestions
      && s.pointsEarned == CalculatePoints(s.correctCount, s.totalQuestions)
      && s.xpEarned == CalculateXP(s.correctCount, s.totalQuestions)
      && s.sessionId == |old(db.sessions)|
      && db.sessions == old(db.sessions) + [GameSession(userId, gameType, s.results, s.correctCount,
                                                        s.totalQuestions, s.pointsEarned, s.xpEarned, now)]
      && db.users == old(db.users)[userId := RecordPerfectScore(
           ApplyGameStats(old(db.users)[userId], s.pointsEarned, s.xpEarned, gameType, s.correctCount, now),
           s.correctCount, s.totalQuestions)]
  {
    var graded := GradeAnswers(CatalogueOf(db.challenges, gameType), answers);
    if graded.Err? {
      return Err(graded.error);
    }
    var results := graded.value.results;
    var correctCount := graded.value.correctCount;
    var totalQuestions := |answers|;
    var pointsEarned := CalculatePoints(correctCount, totalQuestions);
    var xpEarned := CalculateXP(correctCount, totalQuestions);
    var updated := UpdateUserStats(db, userId, pointsEarned, xpEarned, gameType, correctCount, now);
    if updated.Err? {
      return Err(updated.error);
    }
    ghost var users0, users1 := old(db.users), db.users;
    ghost var final := RecordPerfectScore(updated.value, correctCount, totalQuestions);
    assert users1 == users0[userId := updated.value];
    var sessionId := |db.sessions|;
    db.sessions := db.sessions + [GameSession(userId, gameType, results, correctCount, totalQuestions,
                                              pointsEarned, xpEarned, now)];
    var counted := CheckGameAchievements(db, userId, correctCount, totalQuestions);
    assert users1[userId] == updated.value;
    WriteTwice(users0, userId, updated.value, final);
    return Ok(Submission(sessionId, results, correctCount, totalQuestions, pointsEarned, xpEarned));
  }

  // ---------------------------------------------------------------------
  // getChallenges

  /** `challenges.filter(c => c.difficulty === difficulty)`. */
  function OfDifficulty(cs: seq<Challenge>, difficulty: string): (r: seq<Challenge>)
    ensures |r| <= |cs|
    ensures forall i :: 0 <= i < |r| ==> r[i].difficulty == difficulty && r[i] in cs
    ensures forall i :: 0 <= i < |cs| && cs[i].difficulty == difficulty ==> cs[i] in r
  {
    if cs == [] then []
    else if cs[0].difficulty == difficulty then [cs[0]] + OfDifficulty(cs[1..], difficulty)
    else OfDifficulty(cs[1..], difficulty)
  }

  /** The filter keeps the catalogue order: filtering a concatenation concatenates the filtered parts. */
  lemma {:induction false} OfDifficultyAppend(a: seq<Challenge>, b: seq<Challenge>, difficulty: string)
    ensures OfDifficulty(a + b, difficulty) == OfDifficulty(a, difficulty) + OfDifficulty(b, difficulty)
  {
    if a == [] {
      assert a + b == b;
    } else {
      assert (a + b)[0] == a[0] && (a + b)[1..] == a[1..] + b;
      OfDifficultyAppend(a[1..], b, difficulty);
    }
  }

  /** The filter keeps every copy of a challenge of that difficulty and no copy of any other. */
  lemma {:induction false} OfDifficultyCount(cs: seq<Challenge>, difficulty: string, c: Challenge)
    ensures multiset(OfDifficulty(cs, difficulty))[c] == if c.difficulty == difficulty then multiset(cs)[c] else 0
  {
    if cs != [] {
      var head, tail := cs[0], cs[1..];
      assert cs == [head] + tail;
      OfDifficultyCount(tail, difficulty, c);
      if head.difficulty == difficulty {
        assert OfDifficulty(cs, difficulty) == [head] + OfDifficulty(tail, difficulty);
      } else {
        assert OfDifficulty(cs, difficulty) == OfDifficulty(tail, difficulty);
      }
    }
  }

  /** The end index `slice(0, end)` uses: a negative `end` counts back from the length. */
  function SliceEnd(n: nat, end: int): (k: nat)
    ensures k <= n
    ensures end >= 0 ==> k == if end < n then end else n
    ensures end < 0 ==> k == if n + end > 0 then n + end else 0
  {
    if end >= 0 then (if end < n then end else n)
    else if n + end > 0 then n + end else 0
  }

  /**
   * `getChallenges(gameType, difficulty, count)`. The random shuffle is the
   * parameter `shuffled`, any ordering of the challenges of that difficulty.
   */
  function GetChallenges(catalog: map<string, seq<Challenge>>, gameType: string, difficulty: string,
                         count: int, shuffled: seq<Challenge>): (r: Result<seq<PublicChallenge>>)
    requires gameType in catalog ==> multiset(shuffled) == multiset(OfDifficulty(catalog[gameType], difficulty))
    ensures r.Err? <==> gameType !in catalog
    ensures r.Err? ==> r.error == InvalidGameType
    ensures r.Ok? ==> |r.value| == SliceEnd(|OfDifficulty(catalog[gameType], difficulty)|, count)
    ensures r.Ok? && count >= 0 ==> |r.value| <= count
    ensures r.Ok? ==> |r.value| <= |shuffled|
    ensures r.Ok? ==> forall i :: 0 <= i < |r.value| ==>
      && shuffled[i] in catalog[gameType]
      && shuffled[i].difficulty == difficulty
      && r.value[i] == Strip(shuffled[i])
  {
    if gameType !in catalog then Err(InvalidGameType)
    else
      var filtered := OfDifficulty(catalog[gameType], difficulty);
      assert |shuffled| == |filtered| by {
        assert |multiset(shuffled)| == |multiset(filtered)|;
      }
      assert forall c :: c in shuffled ==> c in filtered by {
        forall c | c in shuffled
          ensures c in filtered
        {
          assert c in multiset(shuffled);
        }
      }
      var selected := shuffled[..SliceEnd(|shuffled|, count)];
      assert forall i :: 0 <= i < |selected| ==> selected[i] == shuffled[i] && shuffled[i] in filtered;
      Ok(seq(|selected|, i requires 0 <= i < |selected| => Strip(selected[i])))
  }

  // ---------------------------------------------------------------------
  // getUserStats

  datatype TypeStats = TypeStats(played: nat, totalCorrect: nat, totalQuestions: nat)

  datatype UserStats = UserStats(
    level: nat,
    xp: nat,
    totalPoints: nat,
    weeklyPoints: nat,
    streakDays: nat,
    achievements: map<string, nat>,
    totalGames: nat,
    byType: map<string, TypeStats>)

  /** The query `where('userId', '==', userId)`, in log order. */
  function SessionsOf(sessions: seq<GameSession>, userId: string): (r: seq<GameSession>)
    ensures |r| <= |sessions|
    ensures forall i :: 0 <= i < |r| ==> r[i].userId == userId && r[i] in sessions
    ensures forall i :: 0 <= i < |sessions| && sessions[i].userId == userId ==> sessions[i] in r
  {
    if sessions == [] then []
    else if sessions[0].userId == userId then [sessions[0]] + SessionsOf(sessions[1..], userId)
    else SessionsOf(sessions[1..], userId)
  }

  /** The query distributes over concatenation: it keeps the log order. */
  lemma {:induction false} SessionsOfAppend(a: seq<GameSession>, b: seq<GameSession>, userId: string)
    ensures SessionsOf(a + b, userId) == SessionsOf(a, userId) + SessionsOf(b, userId)
  {
    if a == [] {
      assert a + b == b;
    } else {
      assert (a + b)[0] == a[0] && (a + b)[1..] == a[1..] + b;
      SessionsOfAppend(a[1..], b, userId);
    }
  }

  /** The totals over the sessions of one game type. */
  function StatsFor(ss: seq<GameSession>, gameType: string): TypeStats {
    if ss == [] then TypeStats(0, 0, 0)
    else
      var p := StatsFor(ss[..|ss| - 1], gameType);
      var s := ss[|ss| - 1];
      if s.gameType == gameType then TypeStats(p.played + 1, p.totalCorrect + s.correctCount, p.totalQuestions + s.totalQuestions)
      else p
  }

  lemma {:induction false} StatsForAbsent(ss: seq<GameSession>, gameType: string)
    requires forall i :: 0 <= i < |ss| ==> ss[i].gameType != gameType
    ensures StatsFor(ss, gameType) == TypeStats(0, 0, 0)
  {
    if ss != [] {
      StatsForAbsent(ss[..|ss| - 1], gameType);
    }
  }

  /** Adding one session to the prefix adds it to the totals of its own type only. */
  lemma StatsForSnoc(ss: seq<GameSession>, i: nat, gameType: string)
    requires i < |ss|
    ensures var p := StatsFor(ss[..i], gameType);
      StatsFor(ss[..i + 1], gameType) ==
        if ss[i].gameType == gameType then TypeStats(p.played + 1, p.totalCorrect + ss[i].correctCount, p.totalQuestions + ss[i].totalQuestions)
        else p
  {
    assert ss[..i + 1][..i] == ss[..i];
  }

  /** A session's correct count never exceeds its question count, as `SubmitGame` records it. */
  predicate WellFormedSession(s: GameSession) {
    s.correctCount <= s.totalQuestions
  }

  /** Per type, the games played are at most the sessions, and the correct answers at most the questions. */
  lemma {:induction false} StatsForBounded(ss: seq<GameSession>, gameType: string)
    requires forall i :: 0 <= i < |ss| ==> WellFormedSession(ss[i])
    ensures StatsFor(ss, gameType).played <= |ss|
    ensures StatsFor(ss, gameType).totalCorrect <= StatsFor(ss, gameType).totalQuestions
  {
    if ss != [] {
      StatsForBounded(ss[..|ss| - 1], gameType);
      assert WellFormedSession(ss[|ss| - 1]);
    }
  }

  /** `getUserStats(userId)`: the user's counters and, per game type met, its totals. */
  method GetUserStats(db: Db, userId: string) returns (r: Result<UserStats>)
    ensures r.Err? <==> userId !in db.users
    ensures r.Err? ==> r.error == UserNotFound
    ensures r.Ok? ==>
      var u := db.users[userId];
      var mine := SessionsOf(db.sessions, userId);
      && r.value.level == u.level && r.value.xp == u.xp && r.value.totalPoints == u.totalPoints
      && r.value.weeklyPoints == u.weeklyPoints && r.value.streakDays == u.streakDays
      && r.value.achievements == u.achievements
      && r.value.totalGames == |mine|
      && (forall t :: t in r.value.byType <==> exists j :: 0 <= j < |mine| && mine[j].gameType == t)
      && (forall t :: t in r.value.byType ==> r.value.byType[t] == StatsFor(mine, t))
  {
    if userId !in db.users {
      return Err(UserNotFound);
    }
    var userData := db.users[userId];
    var mine := SessionsOf(db.sessions, userId);
    var byType: map<string, TypeStats> := map[];
    for i := 0 to |mine|
      invariant forall t :: t in byType <==> exists j :: 0 <= j < i && mine[j].gameType == t
      invariant forall t :: t in byType ==> byType[t] == StatsFor(mine[..i], t)
    {
      var session := mine[i];
      if session.gameType !in byType {
        StatsForAbsent(mine[..i], session.gameType);
        byType := byType[session.gameType := TypeStats(0, 0, 0)];
      }
      var cur := byType[session.gameType];
      byType := byType[session.gameType := TypeStats(cur.played + 1, cur.totalCorrect + session.correctCount,
                                                     cur.totalQuestions + session.totalQuestions)];
      forall t | t in byType
        ensures byType[t] == StatsFor(mine[..i + 1], t)
      {
        StatsForSnoc(mine, i, t);
      }
      forall t
        ensures t in byType <==> exists j :: 0 <= j < i + 1 && mine[j].gameType == t
      {
        if t == session.gameType {
          assert mine[i].gameType == t;
        }
      }
    }
    assert mine[..|mine|] == mine;
    return Ok(UserStats(userData.level, userData.xp, userData.totalPoints, userData.weeklyPoints,
                        userData.streakDays, userData.achievements, |mine|, byType));
  }
}
