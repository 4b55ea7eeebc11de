/**
 * The daily challenge (src/services/dailyChallengeService.js): the day's
 * challenge picked from the phishing pool by a date seed, the once-a-day
 * completion with all-or-nothing rewards, and the two read-only views.
 * `today` is the caller's `YYYY-MM-DD` date string and `now` the current day.
 */
module DailyChallenge {
  import opened Wrappers
  import opened Text
  import opened Arith
  import opened Constants
  import opened Domain
  import opened Store
  import GameService

  const TIME_LIMIT: nat := 60

  /** `parseInt(date.split('-').join(''))`; `None` is NaN. No dash survives, so no seed is negative. */
  function DailySeed(date: string): (r: Option<int>)
    ensures r.Some? ==> r.value >= 0
  {
    ParseIntNoMinus(RemoveAll(date, '-'));
    ParseInt(RemoveAll(date, '-'))
  }

  /** A date whose dash-free form is a digit string has that string's value as its seed. */
  lemma SeedOfDigits(date: string, n: nat)
    requires RemoveAll(date, '-') != [] && AllDigits(RemoveAll(date, '-')) && DigitsValue(RemoveAll(date, '-')) == n
    ensures DailySeed(date) == Some(n)
  {
    ParseIntOfDigits(RemoveAll(date, '-'));
  }

  /** The seed of a `YYYY-MM-DD` date is the number YYYYMMDD. */
  lemma DailySeedOfDate(year: nat, month: nat, day: nat)
    requires month < 100 && day < 100
    ensures DailySeed(FormatDate(year, month, day)) == Some(year * 10000 + month * 100 + day)
  {
    var date, n := FormatDate(year, month, day), year * 10000 + month * 100 + day;
    FormatDateDigits(year, month, day);
    SeedOfDigits(date, n);
    assert DailySeed(date) == Some(n);
  }

  /** `parseInt(seed) % pool.length`, when it is a number: a valid index into the pool. */
  function TodayIndex(date: string, poolSize: nat): (r: Option<nat>)
    ensures r.Some? <==> poolSize > 0 && DailySeed(date).Some?
    ensures r.Some? ==> r.value < poolSize
  {
    if poolSize == 0 then None
    else match DailySeed(date)
      case None => None
      case Some(seed) => Some(seed % poolSize)
  }

  /** A date whose seed is a number picks that number modulo the pool size. */
  lemma IndexOfSeed(date: string, poolSize: nat, seed: int)
    requires poolSize > 0 && DailySeed(date) == Some(seed)
    ensures TodayIndex(date, poolSize) == Some(seed % poolSize)
  {
  }

  /** The day `year-month-day` picks position YYYYMMDD modulo the pool size. */
  lemma DateIndex(year: nat, month: nat, day: nat, poolSize: nat)
    requires month < 100 && day < 100 && poolSize > 0
    ensures TodayIndex(FormatDate(year, month, day), poolSize) == Some((year * 10000 + month * 100 + day) % poolSize)
  {
    var date, seed := FormatDate(year, month, day), year * 10000 + month * 100 + day;
    assert DailySeed(date) == Some(seed) by { DailySeedOfDate(year, month, day); }
    IndexOfSeed(date, poolSize, seed);
  }

  /** Consecutive calendar days of one month pick consecutive pool positions, modulo the pool size. */
  lemma NextDayNextIndex(year: nat, month: nat, day: nat, poolSize: nat)
    requires month < 100 && day + 1 < 100 && poolSize > 0
    ensures var today, tomorrow := TodayIndex(FormatDate(year, month, day), poolSize),
                                   TodayIndex(FormatDate(year, month, day + 1), poolSize);
      today.Some? && tomorrow.Some? && tomorrow.value == (today.value + 1) % poolSize
  {
    var seed := year * 10000 + month * 100 + day;
    DateIndex(year, month, day, poolSize);
    DateIndex(year, month, day + 1, poolSize);
    assert year * 10000 + month * 100 + (day + 1) == seed + 1;
    ModSucc(seed, poolSize);
    assert TodayIndex(FormatDate(year, month, day + 1), poolSize).value == (seed + 1) % poolSize;
  }

  /** The pool the day's challenge comes from: the phishing challenges of the catalogue. */
  function Pool(catalog: map<string, seq<Challenge>>): Option<seq<Challenge>> {
    GameService.CatalogueOf(catalog, PHISHING_DETECTIVE)
  }

  /**
   * The challenge at the day's index. A missing pool, an empty pool or a NaN
   * seed leave nothing at the index, and reading it fails.
   */
  function TodayChallenge(pool: Option<seq<Challenge>>, date: string): (r: Result<Challenge>)
    ensures r.Err? <==> pool.None? || TodayIndex(date, |pool.value|).None?
    ensures r.Err? ==> r.error == ChallengeUnavailable
    ensures r.Ok? ==> r.value in pool.value
    ensures r.Ok? ==> (TodayIndex(date, |pool.value|).Some?
                       && r.value == pool.value[TodayIndex(date, |pool.value|).value])
  {
    if pool.None? then Err(ChallengeUnavailable)
    else match TodayIndex(date, |pool.value|)
      case None => Err(ChallengeUnavailable)
      case Some(i) => Ok(pool.value[i])
  }

  datatype DailyView = DailyView(challenge: PublicChallenge, date: string, timeLimit: nat)

  /** `getTodayChallenge(date)`: the day's challenge without its answer, with the date and a 60-second limit. */
  function GetTodayChallenge(pool: Option<seq<Challenge>>, date: string): (r: Result<DailyView>)
    ensures r.Err? <==> TodayChallenge(pool, date).Err?
    ensures r.Ok? ==> r.value.date == date && r.value.timeLimit == TIME_LIMIT
    ensures r.Ok? ==> exists c :: c in pool.value && r.value.challenge == Strip(c)
    ensures r.Ok? ==> r.value.challenge == Strip(TodayChallenge(pool, date).value)
  {
    match TodayChallenge(pool, date)
    case Err(e) => Err(e)
    case Ok(c) => Ok(DailyView(Strip(c), date, TIME_LIMIT))
  }

  // ---------------------------------------------------------------------
  // completeDailyChallenge

  /** All or nothing: 200 points for a correct answer, else none. */
  function DailyPoints(isCorrect: bool): nat {
    if isCorrect then POINTS_DAILY_CHALLENGE else 0
  }

  /** All or nothing: 100 XP for a correct answer, else none. */
  function DailyXp(isCorrect: bool): nat {
    if isCorrect then XP_DAILY_CHALLENGE else 0
  }

  /** The rewards are both full or both zero: 200 points and 100 XP, or nothing. */
  lemma DailyRewardsAllOrNothing(isCorrect: bool)
    ensures DailyPoints(true) == 200 && DailyXp(true) == 100
    ensures DailyPoints(false) == 0 && DailyXp(false) == 0
    ensures DailyPoints(isCorrect) == 200 <==> DailyXp(isCorrect) == 100
    ensures DailyPoints(isCorrect) == 0 <==> DailyXp(isCorrect) == 0
    ensures DailyPoints(isCorrect) > 0 <==> isCorrect
  {
  }

  /**
   * The record `completeDailyChallenge` writes, as written: XP grows but
   * `level` is not recomputed.
   */
  function DailyUpdateAsWritten(u: User, today: string, points: nat, xp: nat, now: int): (r: User)
    ensures r.level == u.level && r.xp == u.xp + xp
    ensures r.lastDailyChallengeDate == Some(today)
  {
    u.(lastDailyChallengeDate := Some(today),
       totalPoints := u.totalPoints + points,
       dailyPoints := Some(u.dailyPoints.GetOr(0) + points),
       weeklyPoints := u.weeklyPoints + points,
       xp := u.xp + xp,
       lastActive := now)
  }

  /** The input that shows it: a fresh user (0 XP, level 1) who answers correctly holds 100 XP at level 1. */
  lemma DailyUpdateAsWrittenBreaksLevel(u: User, today: string, now: int)
    requires u.xp == 0 && GameService.LevelConsistent(u)
    ensures var v := DailyUpdateAsWritten(u, today, DailyPoints(true), DailyXp(true), now);
      v.xp == 100 && v.level == 1 && !GameService.LevelConsistent(v)
  {
    GameService.CalculateLevelExamples();
  }

  /** The intended record: the same write, with `level` recomputed from the new XP. */
  function DailyUpdate(u: User, today: string, points: nat, xp: nat, now: int): (r: User)
    ensures GameService.LevelConsistent(r)
    ensures r.lastDailyChallengeDate == Some(today)
    ensures r.totalPoints == u.totalPoints + points && r.weeklyPoints == u.weeklyPoints + points
    ensures r.dailyPoints == Some(u.dailyPoints.GetOr(0) + points)
    ensures r.xp == u.xp + xp && r.lastActive == now
    ensures r.streakDays == u.streakDays && r.badges == u.badges && r.achievements == u.achievements
    ensures r.(level := u.level) == DailyUpdateAsWritten(u, today, points, xp, now)
  {
    var written := DailyUpdateAsWritten(u, today, points, xp, now);
    var level := GameService.CalculateLevel(u.xp + xp);
    assert written.(level := level).(level := u.level) == written;
    written.(level := level)
  }

  /** A daily completion never lowers a consistent level. */
  lemma DailyUpdateNeverLowersLevel(u: User, today: string, points: nat, xp: nat, now: int)
    requires GameService.LevelConsistent(u)
    ensures DailyUpdate(u, today, points, xp, now).level >= u.level
  {
    GameService.ConsistentLevelNeverDrops(u, DailyUpdate(u, today, points, xp, now));
  }

  datatype DailyOutcome = DailyOutcome(
    isCorrect: bool,
    correctAnswer: Value,
    explanation: string,
    pointsEarned: nat,
    xpEarned: nat,
    newStreak: nat,
    redFlags: Option<Value>)

  /**
   * `completeDailyChallenge(userId, answers)` with the level recomputed:
   * refuse a second completion on the same date, grade only `answers[0]`
   * against the day's challenge, write the record, append the completion.
   */
  method CompleteDailyChallenge(db: Db, userId: string, today: string, answers: seq<Answer>, now: int)
    returns (r: Result<DailyOutcome>)
    modifies db
    ensures db.sessions == old(db.sessions)
    ensures r.Err? ==> db.users == old(db.users) && db.completions == old(db.completions)
    ensures userId !in old(db.users) ==> r == Err(MissingRecord)
    ensures userId in old(db.users) && old(db.users)[userId].lastDailyChallengeDate == Some(today) ==>
      r == Err(AlreadyCompleted)
    ensures userId in old(db.users) && old(db.users)[userId].lastDailyChallengeDate != Some(today) ==>
      && (TodayChallenge(Pool(db.challenges), today).Err? ==> r == Err(ChallengeUnavailable))
      && (TodayChallenge(Pool(db.challenges), today).Ok? && answers == [] ==> r == Err(MissingAnswer))
    ensures r.Ok? ==>
      && userId in old(db.users) && answers != [] && TodayChallenge(Pool(db.challenges), today).Ok?
      && var u := old(db.users)[userId];
         var c := TodayChallenge(Pool(db.challenges), today).value;
         var a := answers[0];
         var isCorrect := GameService.StrictEquals(c.correctAnswer, a.userAnswer);
         && r.value == DailyOutcome(isCorrect, c.correctAnswer, c.explanation, DailyPoints(isCorrect),
                                    DailyXp(isCorrect), u.streakDays, GetField(c, "redFlags"))
         && db.users == old(db.users)[userId := DailyUpdate(u, today, DailyPoints(isCorrect), DailyXp(isCorrect), now)]
         && db.completions == old(db.completions) + [DailyCompletion(userId, today, c.id, a.userAnswer, isCorrect,
                                                                     DailyPoints(isCorrect), DailyXp(isCorrect), a.timeTaken, now)]
  {
    if userId !in db.users {
      return Err(MissingRecord);
    }
    var userData := db.users[userId];
    if userData.lastDailyChallengeDate == Some(today) {
      return Err(AlreadyCompleted);
    }
    var picked := TodayChallenge(Pool(db.challenges), today);
    if picked.Err? {
      return Err(picked.error);
    }
    var challenge := picked.value;
    if answers == [] {
      return Err(MissingAnswer);
    }
    var answer := answers[0];
    var isCorrect := GameService.StrictEquals(challenge.correctAnswer, answer.userAnswer);
    var pointsEarned := DailyPoints(isCorrect);
    var xpEarned := DailyXp(isCorrect);
    db.users := db.users[userId := DailyUpdate(userData, today, pointsEarned, xpEarned, now)];
    db.completions := db.completions + [DailyCompletion(userId, today, challenge.id, answer.userAnswer, isCorrect,
                                                        pointsEarned, xpEarned, answer.timeTaken, now)];
    return Ok(DailyOutcome(isCorrect, challenge.correctAnswer, challenge.explanation, pointsEarned, xpEarned,
                           userData.streakDays, GetField(challenge, "redFlags")));
  }

  /** A catalogue field of a challenge other than its answer and explanation (`challenge.redFlags`). */
  function GetField(c: Challenge, name: string): Option<Value> {
    if name in c.fields then Some(c.fields[name]) else None
  }

  /** The completion is graded against the very challenge `getTodayChallenge` shows for that date. */
  lemma CompletionGradesShownChallenge(pool: Option<seq<Challenge>>, date: string)
    requires GetTodayChallenge(pool, date).Ok?
    ensures TodayChallenge(pool, date).Ok?
    ensures GetTodayChallenge(pool, date).value.challenge == Strip(TodayChallenge(pool, date).value)
  {
  }

  // ---------------------------------------------------------------------
  // getDailyChallenge and getDailyChallengeStatus

  datatype DailyChallengeInfo = DailyChallengeInfo(
    challenge: Option<DailyView>,
    isCompleted: bool,
    streak: nat,
    rewardPoints: nat,
    rewardXp: nat)

  /**
   * `getDailyChallenge(userId)`: the day's challenge, hidden once completed.
   * The challenge is computed, and can fail, even when it is hidden.
   */
  function GetDailyChallenge(users: map<string, User>, pool: Option<seq<Challenge>>, userId: string, today: string)
    : (r: Result<DailyChallengeInfo>)
    ensures userId !in users ==> r == Err(MissingRecord)
    ensures userId in users ==> (r.Err? <==> GetTodayChallenge(pool, today).Err?)
    ensures r.Ok? ==>
      && (r.value.isCompleted <==> users[userId].lastDailyChallengeDate == Some(today))
      && (r.value.challenge.None? <==> r.value.isCompleted)
      && (r.value.challenge.Some? ==> r.value.challenge == Some(GetTodayChallenge(pool, today).value))
      && r.value.streak == users[userId].streakDays
      && r.value.rewardPoints == POINTS_DAILY_CHALLENGE && r.value.rewardXp == XP_DAILY_CHALLENGE
  {
    if userId !in users then Err(MissingRecord)
    else
      var u := users[userId];
      var isCompleted := u.lastDailyChallengeDate == Some(today);
      match GetTodayChallenge(pool, today)
      case Err(e) => Err(e)
      case Ok(view) =>
        Ok(DailyChallengeInfo(if isCompleted then None else Some(view), isCompleted, u.streakDays,
                              POINTS_DAILY_CHALLENGE, XP_DAILY_CHALLENGE))
  }

  datatype DailyStatus = DailyStatus(isCompleted: bool, streak: nat, lastCompleted: Option<string>)

  /** `getDailyChallengeStatus(userId)`; an empty stored date reads as null. */
  function GetDailyChallengeStatus(users: map<string, User>, userId: string, today: string): (r: Result<DailyStatus>)
    ensures r.Err? <==> userId !in users
    ensures r.Err? ==> r.error == MissingRecord
    ensures r.Ok? ==>
      && (r.value.isCompleted <==> users[userId].lastDailyChallengeDate == Some(today))
      && r.value.streak == users[userId].streakDays
      && (r.value.lastCompleted.Some? ==> r.value.lastCompleted == users[userId].lastDailyChallengeDate)
      && (r.value.lastCompleted.None? <==> users[userId].lastDailyChallengeDate in {None, Some("")})
  {
    if userId !in users then Err(MissingRecord)
    else
      var u := users[userId];
      var last := if u.lastDailyChallengeDate == Some("") then None else u.lastDailyChallengeDate;
      Ok(DailyStatus(u.lastDailyChallengeDate == Some(today), u.streakDays, last))
  }

  /**
   * After a completion on `today`, the status reports it completed, the view
   * hides the challenge, and `CompleteDailyChallenge` refuses a second one.
   */
  lemma CompletedDayIsClosed(users: map<string, User>, pool: Option<seq<Challenge>>, userId: string,
                             today: string, points: nat, xp: nat, now: int)
    requires userId in users
    ensures var after := users[userId := DailyUpdate(users[userId], today, points, xp, now)];
      && after[userId].lastDailyChallengeDate == Some(today)
      && GetDailyChallengeStatus(after, userId, today).value.isCompleted
      && (GetDailyChallenge(after, pool, userId, today).Ok? ==>
            GetDailyChallenge(after, pool, userId, today).value.challenge.None?)
  {
  }
}
