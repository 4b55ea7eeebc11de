/**
 * The day-difference streak rule of `updateStreak`
 * (src/controllers/userController.js). Dates are integer day numbers: the
 * stored `lastActive` and the caller's `today`, both already truncated to
 * midnight, so `today - lastActive` is the source's `daysDiff`.
 */
module UserController {
  import opened Domain
  import opened Store
  import GameService

  /** The streak after a visit `daysDiff` days after the last one. */
  function NextStreak(streak: nat, daysDiff: int): (r: nat)
    ensures r <= streak + 1
    ensures daysDiff >= 1 ==> r >= 1
    ensures daysDiff <= 0 ==> r == streak
    ensures daysDiff > 1 ==> r == 1
    ensures r == streak + 1 <==> daysDiff == 1 || (daysDiff > 1 && streak == 0)
  {
    if daysDiff == 1 then streak + 1
    else if daysDiff > 1 then 1
    else streak
  }

  datatype StreakResult = StreakResult(streakDays: nat, wasReset: bool)

  /**
   * `updateStreak`: a missing user is a 404 with no write; otherwise the new
   * streak and today's date are written, and `wasReset` reports a gap.
   */
  method UpdateStreak(db: Db, userId: string, today: int) returns (r: Result<StreakResult>)
    modifies db
    ensures db.sessions == old(db.sessions) && db.completions == old(db.completions)
    ensures r.Err? <==> userId !in old(db.users)
    ensures r.Err? ==> r.error == UserNotFound && db.users == old(db.users)
    ensures r.Ok? ==>
      var u := old(db.users)[userId];
      && r.value.streakDays == NextStreak(u.streakDays, today - u.lastActive)
      && (r.value.wasReset <==> today - u.lastActive > 1)
      && db.users == old(db.users)[userId := u.(streakDays := r.value.streakDays, lastActive := today)]
  {
    if userId !in db.users {
      return Err(UserNotFound);
    }
    var userData := db.users[userId];
    var daysDiff := today - userData.lastActive;
    var newStreak := userData.streakDays;
    if daysDiff == 1 {
      newStreak := newStreak + 1;
    } else if daysDiff > 1 {
      newStreak := 1;
    }
    db.users := db.users[userId := userData.(streakDays := newStreak, lastActive := today)];
    return Ok(StreakResult(newStreak, daysDiff > 1));
  }

  /** The streak after a run of visits on the given days, starting from `streak` last active on `last`. */
  function StreakAfter(streak: nat, last: int, days: seq<int>): nat
    decreases |days|
  {
    if days == [] then streak
    else StreakAfter(NextStreak(streak, days[0] - last), days[0], days[1..])
  }

  /** Visiting on each of the next `k` days adds `k` to the streak. */
  lemma {:induction false} ConsecutiveDaysExtendStreak(streak: nat, last: int, k: nat)
    ensures StreakAfter(streak, last, seq(k, i => last + 1 + i)) == streak + k
    decreases k
  {
    if k > 0 {
      var days := seq(k, i => last + 1 + i);
      assert days[0] == last + 1;
      assert days[1..] == seq(k - 1, i => (last + 1) + 1 + i);
      ConsecutiveDaysExtendStreak(streak + 1, last + 1, k - 1);
    }
  }

  /** A run of visits never lengthens the streak by more than the number of visits. */
  lemma {:induction false} StreakGrowthBounded(streak: nat, last: int, days: seq<int>)
    ensures StreakAfter(streak, last, days) <= streak + |days|
    decreases |days|
  {
    if days != [] {
      StreakGrowthBounded(NextStreak(streak, days[0] - last), days[0], days[1..]);
    }
  }

  /** After a gap of more than one day, the run restarts at 1 and counts consecutive days from there. */
  lemma GapRestartsStreak(streak: nat, last: int, day: int, k: nat)
    requires day > last + 1
    ensures StreakAfter(streak, last, [day] + seq(k, i => day + 1 + i)) == 1 + k
  {
    var days := [day] + seq(k, i => day + 1 + i);
    assert days[1..] == seq(k, i => day + 1 + i);
    ConsecutiveDaysExtendStreak(1, day, k);
  }

  /** Any stats update stamps `lastActive` with the day, so a streak update later that day changes nothing. */
  lemma SameDayActivityFreezesStreak(u: User, points: nat, xp: nat, gameType: string, correct: nat, today: int)
    ensures var v := GameService.ApplyGameStats(u, points, xp, gameType, correct, today);
      NextStreak(v.streakDays, today - v.lastActive) == u.streakDays
  {
  }
}
