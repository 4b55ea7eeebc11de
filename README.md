# Cyberquest game core in Dafny

Cyberquest is the backend of a gamified cybersecurity-awareness platform. It runs on Express with Firebase. Players play three mini-games:

- phishing detective;
- password strength;
- URL inspector.

Each submission is graded against a challenge catalogue. The game earns points and XP, which raise the player's level and feed achievement counters. Those counters unlock badges.

The platform also has:

- a deterministic daily challenge, one per calendar day;
- a login streak;
- global, weekly, daily and community leaderboards;
- a per-user rank with a percentile;
- skill analytics with a monthly streak calendar;
- account management: sign-up, profile updates and deletion.

This project models that game logic in Dafny and proves what it promises. The model has these modules:

- `Constants`: point, XP and level tables.
- `Scoring`: points, XP and password strength.
- `GameService`: levels, grading, submission, challenge selection and statistics.
- `Achievements`: badge rules, unlocking and badge views.
- `DailyChallenge`: the daily challenge and its completion.
- `UserController`: the streak rule.
- `Leaderboard`.
- `Analytics`.
- `AuthService`: account creation, profile and deletion.
- `GameController`: request defaults and the password analysis.

Supporting modules:

- `Domain`: the records.
- `Store`: the document store as a `Db` class with a users map, a game-session list and a daily-completion list.
- `Text`: JavaScript string and `parseInt` behaviour.
- `Arith`: small division lemmas.
- `Wrappers`: `Option`.

Operations that write to the store are module-level methods that take the store object `db: Db` and declare `modifies db`. They state the exact new store. Each is specified by a pure function on users, and that function carries the proved properties. Loops in the source are loops here, with their invariants. Examples are the unlock pass, the answer grading, the leaderboard ordering, the skill counting, the insertion sort of the skills, the calendar and the weekly reset.

The model keeps these JavaScript semantics:

- Division by zero in the accuracy gives NaN for 0/0, so no bonus, and Infinity otherwise.
- `x || default` falls back on `0`, `""` and `undefined`.
- `===` is never true between arrays or objects.
- The store's `orderBy` leaves out documents that lack the field.
- A `where` filter against `undefined` is refused.
- An `update` of a missing document fails.
- `toFixed(1)` rounding is computed in integer tenths.

## Model

| member | source | states |
|---|---|---|
| Constants.LevelTable | src/config/constants.js:39-51 | 11 levels numbered 1..11 in order, the first needing 0 XP, thresholds strictly increasing |
| Scoring.AccuracyTests | src/utils/scoring.js:8-16 | the integer tests for "perfect" and "at least 80%" agree with the real-valued accuracy `correct/total*100` whenever total > 0 |
| Scoring.CalculatePoints | src/utils/scoring.js:6-19 | 50 per correct answer plus a bonus of at most 100; the bonus is 100 exactly on a perfect game, and there is no bonus exactly below 80% accuracy |
| Scoring.CalculateXP | src/utils/scoring.js:24-37 | 20 XP per correct answer plus at most 50; 50 exactly on a perfect game, nothing extra exactly below 80% |
| Scoring.RewardsByAccuracy | src/utils/scoring.js:12-16 | for total > 0: 100% gives +100 points/+50 XP, 80% up to 100% gives +50/+25, below 80% gives no bonus |
| Scoring.ScoringExamples | src/utils/scoring.js:6-37 | 5/5 gives 350 points and 150 XP; 4/5 gives 250 and 105; 2/5 gives 100 and 40; 0/0 gives 0 and 0 (NaN accuracy) |
| Scoring.CalculatePasswordStrength | src/utils/scoring.js:42-61 | the score is the raw sum clamped to 0..100 |
| Scoring.RawStrength | src/utils/scoring.js:43-58 | the unclamped sum of the length, class and pattern terms lies in -20..105: the letters-only penalty needs a letter, which earns 10 back |
| Scoring.StrongPasswordScoresFull | src/utils/scoring.js:42-61 | 16+ characters with all four character classes and no common pattern scores 100 |
| Scoring.WeakPasswordScoresZero | src/utils/scoring.js:42-61 | "abc" has the least possible raw sum, -20, and scores 0 after the clamp |
| Scoring.GetCharsetSize | src/utils/scoring.js:78-85 | the character-set size is at most 95, and 0 exactly for the empty password |
| Scoring.HasCommonPattern | src/utils/scoring.js:57 | `/123\|abc\|qwe/i` can only match a password of at least three characters |
| GameService.CalculateLevel | src/services/gameService.js:153-162 | the level is in 1..11, its threshold is reached, and the next level's threshold is not |
| GameService.CalculateLevelIsLastReached | src/services/gameService.js:156-161 | the level is the last table row whose threshold is reached: all rows up to it are reached, none after it |
| GameService.CalculateLevelExamples | src/services/gameService.js:153-162 | 0 and 99 XP are level 1, 100 is level 2, 3999 is level 10, 4000 and above are level 11 |
| GameService.CalculateLevelMonotone | src/services/gameService.js:153-162 | more XP never gives a lower level |
| GameService.AchievementKey | src/services/gameService.js:167-174 | each game type maps to its own counter (both directions), and any other type maps to `games_played` |
| GameService.ApplyGameStats | src/services/gameService.js:124-146 | points are added to total and weekly; XP is added and the level is recomputed from it; the type counter grows by the correct count and `games_played` by one; no other counter and no other field changes |
| GameService.ConsistentLevelNeverDrops | src/services/gameService.js:153-162 | of two records whose levels match their XP, the one with more XP has no lower level |
| GameService.ApplyGameStatsNeverLowersLevel | src/services/gameService.js:125-143 | a game never lowers a consistent user's level |
| GameService.UpdateUserStats | src/services/gameService.js:114-148 | a missing user is "User not found" with nothing written; otherwise exactly that user becomes `ApplyGameStats` of the old record |
| GameService.RecordPerfectScore | src/services/gameService.js:180-184 | `perfect_scores` grows by one exactly on a perfect game; nothing else changes |
| GameService.CheckGameAchievementsAsWritten | src/services/gameService.js:179-186 | as written, every perfect game throws a reference error (the undeclared `admin`); others change nothing |
| GameService.PerfectScoresFrozenAsWritten | src/services/gameService.js:71-93 | as written, a submission never increases `perfect_scores` |
| GameService.PerfectSubmissionExample | src/services/gameService.js:180-183 | 5/5 throws as written, and the corrected increment counts it |
| GameService.CheckGameAchievements | src/services/gameService.js:179-186 | a perfect game increments the counter of an existing user; on a missing user the update fails; a non-perfect game writes nothing; for an existing user the record becomes `RecordPerfectScore` of it |
| GameService.FirstIndexOf | src/services/gameService.js:45 | `find` by id: none exactly when no challenge has the id, else the first index that has it |
| GameService.StrictEquals | src/services/gameService.js:57 | `===` holds only between equal values, never when either side is an array, and between equal scalars always |
| GameService.GradeAnswer | src/services/gameService.js:44-67 | an unknown question is marked wrong with no correct answer; a known one echoes the answer and time, and is correct exactly when `===` holds |
| GameService.CountCorrect | src/services/gameService.js:57-58 | the number correct is at most the number of results, and equal exactly when all are correct |
| GameService.GradeOne | src/services/gameService.js:45-67 | one pass of the grading loop builds exactly the entry `GradeAnswer` defines for that answer |
| GameService.GradeAnswers | src/services/gameService.js:38-68 | an unknown game type with answers fails; otherwise one result per answer, each graded, with the correct count at most the answer count |
| GameService.SubmitGame | src/services/gameService.js:36-109 | the error cases (unknown type, missing user) write nothing; a success grades every answer, awards the points and XP of the correct count, records one session, and leaves the user as the stats update followed by the corrected perfect-score increment (see "## Findings") |
| GameService.OfDifficulty | src/services/gameService.js:18-20 | the filter keeps only challenges of the difficulty, each from the catalogue, and every catalogue challenge of that difficulty |
| GameService.OfDifficultyAppend | src/services/gameService.js:18-20 | the filter keeps catalogue order: filtering a concatenation concatenates the filtered parts |
| GameService.OfDifficultyCount | src/services/gameService.js:18-20 | the filter keeps every copy of a challenge of that difficulty and no copy of any other |
| GameService.SliceEnd | src/services/gameService.js:24 | `slice(0, count)` keeps `count` elements, counts from the end when negative, and never more than there are |
| GameService.GetChallenges | src/services/gameService.js:10-31 | an unknown type fails; otherwise the result has the sliced length of the filtered list, and each element is a challenge of that type and difficulty with its answer and explanation removed |
| GameService.SessionsOf | src/services/gameService.js:227-229 | exactly the sessions of the user |
| GameService.SessionsOfAppend | src/services/gameService.js:227-229 | a user's sessions in a concatenation are theirs in each part, in log order |
| GameService.StatsForAbsent | src/services/gameService.js:242-252 | a type the user never played has zero statistics |
| GameService.StatsForBounded | src/services/gameService.js:250-252 | played is at most the number of sessions, and correct is at most questions for well-formed sessions |
| GameService.GetUserStats | src/services/gameService.js:216-275 | a missing user is "User not found"; otherwise the user's stats, the session count, and per type exactly the types played with their counts |
| Achievements.UnlockRule | src/services/achievements.js:81-124 | only the ten catalogue badge ids have a rule; any other id never unlocks |
| Achievements.UnlockRuleIgnoresBadges | src/services/achievements.js:81-124 | a badge rule depends on neither the badge list nor `updatedAt` |
| Achievements.AbsentCounterNeverUnlocks | src/services/achievements.js:82-112 | a missing counter (`undefined >= n`) never unlocks its badge |
| Achievements.SecurityChampionUnreachable | src/services/achievements.js:118-120 | with levels capped at 11, `security_champion` (level 20) never unlocks |
| Achievements.Ids | src/services/achievements.js:74 | the ids of the badges, position by position |
| Achievements.NewlyUnlocked | src/services/achievements.js:72-137 | at most one new badge per catalogue entry |
| Achievements.NewlyUnlockedSound | src/services/achievements.js:72-137 | every newly unlocked badge is in the catalogue, was not held, and meets its rule |
| Achievements.NewlyUnlockedDistinct | src/services/achievements.js:127-136 | no badge is unlocked twice in one pass |
| Achievements.NewlyUnlockedComplete | src/services/achievements.js:72-137 | every catalogue badge whose rule holds is held or unlocked afterwards |
| Achievements.NothingLeftToUnlock | src/services/achievements.js:72-137 | when every qualifying badge is held, nothing is unlocked |
| Achievements.UnlockKeepsNoDup | src/services/achievements.js:128 | a duplicate-free badge list stays duplicate-free |
| Achievements.UnlockIdempotent | src/services/achievements.js:58-151 | a second check right after the first unlocks nothing |
| Achievements.UnlockPassStep | src/services/achievements.js:72-137 | one loop step keeps "taken so far plus what the rest unlocks" equal: a held or unqualified badge is skipped, otherwise it is pushed and its id added to the held list |
| Achievements.UnlockPass | src/services/achievements.js:67-137 | the loop returns exactly the newly unlocked badges, and the held list grows by their ids |
| Achievements.CheckAndUnlock | src/services/achievements.js:58-151 | a missing user is "User not found"; the result is the newly unlocked badges; the user record is rewritten only when some badge was unlocked, with the ids appended and `updatedAt` set |
| Achievements.FindBadge | src/services/achievements.js:22 | the badge found is a catalogue entry with the id; none exactly when no badge has it |
| Achievements.FindBadgeFirst | src/services/achievements.js:22 | like `find`, the badge found is the FIRST catalogue entry with the id |
| Achievements.LookupBadges | src/services/achievements.js:21-24 | the badges of the known held ids, in held order, all from the catalogue |
| Achievements.LookupBadgesFound | src/services/achievements.js:21-22 | every badge looked up is exactly the record `find` returns for its id |
| Achievements.KnownIdsAllKnown | src/services/achievements.js:21-24 | when every held id is known, nothing is filtered out |
| Achievements.LastThree | src/services/achievements.js:34 | `slice(-3)`: the last three, or all when fewer |
| Achievements.ProgressTenths | src/services/achievements.js:28 | the percentage of held badges, rounded to the nearest tenth; no number for an empty catalogue |
| Achievements.ProgressEnds | src/services/achievements.js:28 | holding every badge is exactly 100.0, and none is 0.0 |
| Achievements.ProgressMonotone | src/services/achievements.js:28 | more badges never show less progress |
| Achievements.GetUserAchievements | src/services/achievements.js:9-39 | a missing user is "User not found"; otherwise the known held badges as the catalogue records `find` returns, the catalogue size, the progress, and the last (up to) three unlocked |
| Achievements.GetAchievementProgress | src/services/achievements.js:173-214 | a missing user is "User not found"; otherwise five entries in source order: the four counters `phishing_detected`, `passwords_created`, `urls_inspected`, `perfect_scores` with their stored value or 0 when absent, then `streak_days`; required 10, 5, 20, 3, 7; badges `phishing_detective`, `password_pro`, `url_guardian`, `perfect_score`, `week_warrior` |
| Achievements.ProgressAgreesWithRules | src/services/achievements.js:184-210 | each progress entry is complete exactly when the unlock rule of its badge holds |
| DailyChallenge.DailySeed | src/services/dailyChallengeService.js:43-46 | the seed, when it parses, is non-negative |
| DailyChallenge.SeedOfDigits | src/services/dailyChallengeService.js:43-46 | a date whose dash-free form is a digit string seeds with that string's value |
| DailyChallenge.DailySeedOfDate | src/services/dailyChallengeService.js:43-46 | the seed of `YYYY-MM-DD` is the number YYYYMMDD |
| DailyChallenge.TodayIndex | src/services/dailyChallengeService.js:44-47 | an index exists exactly when the pool is non-empty and the seed parses, and it is within the pool |
| DailyChallenge.IndexOfSeed | src/services/dailyChallengeService.js:44-47 | a date whose seed parses picks the seed modulo the pool size |
| DailyChallenge.DateIndex | src/services/dailyChallengeService.js:43-47 | the date `YYYY-MM-DD` picks YYYYMMDD modulo the pool size |
| DailyChallenge.NextDayNextIndex | src/services/dailyChallengeService.js:43-47 | within a month, the next day picks the next challenge, cyclically |
| DailyChallenge.TodayChallenge | src/services/dailyChallengeService.js:41-47 | a missing pool, an empty pool or an unparseable date is an error; otherwise the challenge at the day's index, the seed modulo the pool size |
| DailyChallenge.GetTodayChallenge | src/services/dailyChallengeService.js:41-57 | the view carries the date, a 60-second limit, and today's challenge at the seed index without its answer and explanation |
| DailyChallenge.DailyRewardsAllOrNothing | src/services/dailyChallengeService.js:84-85 | a correct answer earns 200 points and 100 XP, a wrong one 0 and 0; points are earned exactly when the answer is correct |
| DailyChallenge.DailyUpdateAsWritten | src/services/dailyChallengeService.js:89-96 | as written, XP grows but the stored level is left unchanged |
| DailyChallenge.DailyUpdateAsWrittenBreaksLevel | src/services/dailyChallengeService.js:89-96 | a fresh user completing correctly has 100 XP but still level 1, where 100 XP is level 2 |
| DailyChallenge.DailyUpdate | src/services/dailyChallengeService.js:89-96 | the corrected update: the date, points added to total, weekly and daily, XP added with a consistent level, and nothing else changed |
| DailyChallenge.DailyUpdateNeverLowersLevel | src/services/dailyChallengeService.js:89-96 | a completion never lowers a consistent user's level |
| DailyChallenge.CompleteDailyChallenge | src/services/dailyChallengeService.js:62-123 | missing user, already completed today, no challenge, and no answer are each an error that writes nothing; otherwise the first answer is graded with `===`, the user becomes the corrected update with its level recomputed (see "## Findings"), and one completion record is appended |
| DailyChallenge.CompletionGradesShownChallenge | src/services/dailyChallengeService.js:41-57 | the challenge graded is the one shown that day |
| DailyChallenge.GetDailyChallenge | src/services/dailyChallengeService.js:9-36 | completed exactly when today's date is stored; the challenge is hidden exactly when completed; the streak and the rewards |
| DailyChallenge.GetDailyChallengeStatus | src/services/dailyChallengeService.js:128-144 | completed exactly when today's date is stored; the streak; the last date, or null when absent or empty |
| DailyChallenge.CompletedDayIsClosed | src/services/dailyChallengeService.js:70-72 | after a completion, the status says completed and the view hides the challenge |
| UserController.NextStreak | src/controllers/userController.js:53-61 | the streak grows by at most one; it is unchanged on the same day; it grows by one exactly on the next day; a gap of more than a day resets it to 1 |
| UserController.UpdateStreak | src/controllers/userController.js:32-76 | a missing user is an error that writes nothing; otherwise the new streak, the reset flag exactly for a gap of more than a day, and only the streak and `lastActive` are written |
| UserController.ConsecutiveDaysExtendStreak | src/controllers/userController.js:55-57 | k consecutive daily check-ins add k to the streak |
| UserController.StreakGrowthBounded | src/controllers/userController.js:53-61 | n check-ins add at most n |
| UserController.GapRestartsStreak | src/controllers/userController.js:58-60 | after a gap the streak restarts at 1 and then counts consecutive days |
| UserController.SameDayActivityFreezesStreak | src/controllers/userController.js:51-61 | playing a game sets `lastActive` to today, so a same-day streak update changes nothing |
| Leaderboard.FieldFor | src/services/leaderboard.js:9-16 | weekly and daily pick their own field; any other timeframe ranks by total points |
| Leaderboard.MaxExists | src/services/leaderboard.js:19-22 | every non-empty set of ranked users has a top scorer |
| Leaderboard.OrderingStep | src/services/leaderboard.js:19-22 | listing a top scorer of the users not yet listed keeps the partial listing distinct, complete with the rest, and non-increasing |
| Leaderboard.OrderByDesc | src/services/leaderboard.js:19-22 | each user having the field is listed once, in non-increasing order of it |
| Leaderboard.Limit | src/services/leaderboard.js:21 | `.limit(n)`: a prefix of at most n ids, the whole list when shorter |
| Leaderboard.TopOfListing | src/services/leaderboard.js:19-22 | the first n of a descending listing are distinct ranked users in non-increasing order, and a ranked user left out means the page is full and they score no higher than anyone on it |
| Leaderboard.EntryIds | src/services/leaderboard.js:31 | the ids of the entries, position by position |
| Leaderboard.GetGlobalLeaderboard | src/services/leaderboard.js:7-50 | at most `limit` distinct entries, ranked 1, 2, ... in non-increasing points; each entry copies its user's username, display name, photo, level, badge count and last activity, and its points are the chosen field; a user left out means the list is full and they score no higher than any entry |
| Leaderboard.Members | src/services/leaderboard.js:105-106 | exactly the users of the community |
| Leaderboard.CommunityQuery | src/services/leaderboard.js:105-109 | at most `limit` distinct members in non-increasing total points; a member left out means the page is full and they score no higher than anyone on it |
| Leaderboard.GetCommunityLeaderboard | src/services/leaderboard.js:103-134 | at most `limit` distinct members, ranked 1, 2, ... in non-increasing total points; each entry copies its member's username, display name, photo, total points and level; below the limit every member is listed; a member left out means the list is full and they score no higher than any entry |
| Leaderboard.PercentileTenths | src/services/leaderboard.js:86 | `(total - rank)/total*100` rounded to the nearest tenth, within 0..100.0 |
| Leaderboard.Above | src/services/leaderboard.js:76-78 | the users ahead: exactly those having the field with strictly more points |
| Leaderboard.GetUserRank | src/services/leaderboard.js:55-98 | a missing user is "User not found"; a user without the field makes the query fail; otherwise the rank is one plus the number of users with strictly more points, between 1 and the user count, and the percentile is `PercentileTenths` of the user count and that rank |
| Leaderboard.RankOrdersByPoints | src/services/leaderboard.js:76-80 | equal points give equal ranks, and more points give a strictly better rank |
| Leaderboard.RankWithinListing | src/services/leaderboard.js:19-22 | the rank of the user at leaderboard position i is at most i + 1, so ties share the better rank |
| Leaderboard.PercentileReachesHundred | src/services/leaderboard.js:86 | with 10000 users, rank 1 shows 100.0 |
| Leaderboard.PercentileBelowHundredForFewUsers | src/services/leaderboard.js:86 | with fewer than 2000 users, no rank shows 100.0 |
| Leaderboard.ResetWeeklyPoints | src/services/leaderboard.js:161-176 | every user keeps everything but `weeklyPoints`, which becomes 0; no user is added or removed |
| Leaderboard.ResetTiesWeeklyRanks | src/services/leaderboard.js:161-176 | after the reset every user is weekly rank 1 |
| Analytics.CalculatePercentile | src/services/analyticsService.js:158-165 | one of 25/40/60/75/90, each exactly on its band: 90 from 20 above average, 75 from 10 up to 20 above, 60 from average up to 10 above, 40 from 10 below up to average, 25 further below |
| Analytics.PercentileMonotone | src/services/analyticsService.js:158-165 | a higher score never gives a lower percentile |
| Analytics.Awareness | src/services/analyticsService.js:105-107 | at most 50; 50 exactly with a 5-day streak and 10 badges; 0 exactly with neither |
| Analytics.AwarenessMonotone | src/services/analyticsService.js:105-107 | more streak days or badges never lower awareness |
| Analytics.CategoryOf | src/services/analyticsService.js:77-90 | each game type maps to its own skill, both directions; others are ignored |
| Analytics.CountInZero | src/services/analyticsService.js:73-91 | a skill's count is zero exactly when no session has its game type |
| Analytics.CalculateSkillScores | src/services/analyticsService.js:59-110 | each skill is its mean accuracy when played and 50 otherwise; awareness is from streak and badges |
| Analytics.NoSessionsDefaultScores | src/services/analyticsService.js:94-102 | an unplayed skill has count zero and so defaults to 50 |
| Analytics.EstimateHundredths | src/services/analyticsService.js:125 | a user's estimate is in 40..100, capped at 100 exactly when `40 + 3*level + points/100` reaches it |
| Analytics.SumEstimatesBounds | src/services/analyticsService.js:121-127 | the sum lies between 40 and 100 per user |
| Analytics.RoundedMean | src/services/analyticsService.js:129 | the mean rounded to the nearest integer, halves up |
| Analytics.GetCommunityAverage | src/services/analyticsService.js:115-133 | no users, or a failed read, gives 70; otherwise the rounded mean estimate, within 40..100 |
| Analytics.SkillList | src/services/analyticsService.js:139-144 | four skills |
| Analytics.InsertBackPerm | src/services/analyticsService.js:147 | inserting adds exactly that skill |
| Analytics.InsertBackDescending | src/services/analyticsService.js:147 | inserting keeps scores non-increasing |
| Analytics.InsertBackStable | src/services/analyticsService.js:147 | inserting keeps equal-score skills in their original order |
| Analytics.SortByScoreSorts | src/services/analyticsService.js:147 | the sort is a permutation with non-increasing scores |
| Analytics.SortByScoreStable | src/services/analyticsService.js:147 | the sort is stable |
| Analytics.InsertBackSplit | src/services/analyticsService.js:147 | inserting places the skill after every skill scoring at least as much |
| Analytics.InsertPosAt | src/services/analyticsService.js:147 | the insertion point is after the last skill scoring at least as much |
| Analytics.InsertAt | src/services/analyticsService.js:147 | one insertion step on the array: the prefix becomes the insertion of the next element, the rest is unchanged |
| Analytics.SortSkills | src/services/analyticsService.js:147 | the array is sorted in place into the stable descending order |
| Analytics.Names | src/services/analyticsService.js:150-151 | the skill names, position by position |
| Analytics.AnalyzeSkills | src/services/analyticsService.js:138-153 | strengths are the names of the first two sorted skills, weaknesses the last two |
| Analytics.PermutedSkills | src/services/analyticsService.js:147 | the sorted skills are the four skills, each name once |
| Analytics.SplitOfPermutation | src/services/analyticsService.js:147-151 | any descending permutation splits into two disjoint pairs covering all names, the first scoring no lower |
| Analytics.SkillListFacts | src/services/analyticsService.js:139-144 | the four skill names differ, and each skill carries the score of its own field |
| Analytics.AnalyzeSkillsPartition | src/services/analyticsService.js:138-153 | strengths and weaknesses are two disjoint pairs covering all four skills, and no strength scores below a weakness |
| Analytics.AnalyzeSkillsTieOrder | src/services/analyticsService.js:139-147 | tied skills keep their listed order |
| Analytics.CompletedDatesMembership | src/services/analyticsService.js:176-185 | a date is in the set exactly when some completion of the user in range has it |
| Analytics.CollectCompletedDates | src/services/analyticsService.js:182-185 | the set holds exactly the dates of the user's completions within the month bounds |
| Analytics.GetStreakCalendar | src/services/analyticsService.js:170-208 | one entry per day of the month, each with its padded date, completed exactly when that date was completed, and the count of distinct completed dates in the month |
| Analytics.CalendarDatesDistinct | src/services/analyticsService.js:191-192 | the calendar's dates are all different |
| AuthService.NewUser | src/services/authService.js:27-50 | the new record: display name is the username, zero points, XP, streak and counters, level 1 (consistent), no badges, and all timestamps now |
| AuthService.NewUserUnlocksNothing | src/services/authService.js:27-50 | a fresh account qualifies for no badge |
| AuthService.NoProgressUnlocksNothing | src/services/achievements.js:81-124 | zero counters, streak and points, and a level below 10, unlock nothing |
| AuthService.CreateUser | src/services/authService.js:8-62 | a username already in use is refused with nothing written; otherwise exactly the new record is stored under the uid |
| AuthService.CreateKeepsUsernamesUnique | src/services/authService.js:11-17 | sign-up keeps usernames unique |
| AuthService.GetUserProfile | src/services/authService.js:67-79 | a missing user is "User not found"; otherwise the stored record |
| AuthService.Allowed | src/services/authService.js:86-93 | exactly the updates to username, displayName, photoURL and bio, with their values |
| AuthService.FilterUpdates | src/services/authService.js:86-93 | the loop keeps exactly the allowed updates |
| AuthService.ApplyProfile | src/services/authService.js:95-97 | only the four profile fields and `updatedAt` change, each to its update when given |
| AuthService.UpdateProfile | src/services/authService.js:84-103 | a missing user fails the update with nothing written; otherwise the filtered updates are applied to that user only |
| AuthService.ProfileUpdateKeepsProgress | src/services/authService.js:86-97 | a profile update never touches points, XP, level, streak, badges or counters |
| AuthService.ProfileUpdateCanDuplicateUsername | src/services/authService.js:84-97 | a profile update can give a user another user's username |
| AuthService.SessionsWithout | src/services/authService.js:117-125 | no more sessions than before |
| AuthService.SessionsWithoutSound | src/services/authService.js:117-125 | exactly the sessions of other users remain |
| AuthService.SessionsWithoutKeepsOthers | src/services/authService.js:117-125 | every other user's session history is unchanged, in order |
| AuthService.DeleteUser | src/services/authService.js:108-131 | the user's record and all their sessions are removed; completions stay |
| Text.ParseIntOfDigits | src/services/dailyChallengeService.js:46 | a non-empty decimal digit string parses to its value |
| Text.ParseIntNoMinus | src/services/dailyChallengeService.js:43-46 | a string without a minus sign never parses to a negative number |
| Text.ParseIntSkipsSpace | src/controllers/gameController.js:12 | `parseInt` without a radix skips leading white space and line terminators |
| Text.ParseIntSpaceExample | src/controllers/gameController.js:12 | " 7" parses to 7 |
| Text.ParseIntHexExample | src/controllers/gameController.js:12 | without a radix, "0x10" parses as hexadecimal 16 |
| Text.ParseIntSignedHexExample | src/controllers/gameController.js:12 | the sign comes before the prefix: "-0X1f" is -31 |
| Text.ParseIntPrefixExamples | src/controllers/gameController.js:12 | reading stops at the first non-digit ("12abc" is 12); a prefix without digits is NaN |
| Text.FormatDateDigits | src/services/analyticsService.js:191 | with the dashes removed, the padded date reads as the number YYYYMMDD |
| Text.FormatDateInjective | src/services/analyticsService.js:191 | distinct days of one month format to distinct dates |
| GameController.ParseOr | src/controllers/gameController.js:12 | `parseInt(x) \|\| d`: the parsed number when it is neither NaN nor 0, else the default |
| GameController.ChallengeCount | src/controllers/gameController.js:12 | the challenge count is never 0: 5 when absent, otherwise the radix-less `parseInt` value when that is a non-zero number |
| GameController.HistoryLimit | src/controllers/gameController.js:41 | the history limit is never 0: 10 when absent, otherwise the radix-less `parseInt` value when that is a non-zero number |
| GameController.ChallengeCountDefaults | src/controllers/gameController.js:12 | a positive decimal count is kept; "0" and no count both mean 5; no limit means 10 |
| GameController.ChallengeCountLenient | src/controllers/gameController.js:12-41 | like `parseInt`, " 7" counts 7, "0x10" counts 16 and "-0X1f" limits to -31 |
| GameController.DifficultyOr | src/controllers/gameController.js:11 | easy exactly when the difficulty is missing, empty or "easy" |
| GameController.StrengthLabel | src/controllers/gameController.js:77-79 | strong exactly from 80, weak exactly below 60, otherwise medium |
| GameController.SelectPrefix | src/controllers/gameController.js:82-88 | one more check appends its message exactly when it fails |
| GameController.SelectSound | src/controllers/gameController.js:82-88 | exactly the messages whose flag is set are selected, in their listed order |
| GameController.FeedbackMeaning | src/controllers/gameController.js:82-88 | each message is given exactly when its check fails (length under 12, no lower case, no upper case, no digit, no special character, a common pattern), and the messages keep the check order |
| GameController.SelectSix | src/controllers/gameController.js:82-88 | over six messages, selecting is the six conditional pushes in order |
| GameController.FeedbackForPushes | src/controllers/gameController.js:82-88 | the feedback is the six checks' pushes one after the other |
| GameController.CollectFeedback | src/controllers/gameController.js:82-88 | the six pushes build exactly the selected feedback |
| GameController.Mask | src/controllers/gameController.js:91 | same length; every character except a line terminator becomes `*` |
| GameController.MaskHidesContent | src/controllers/gameController.js:91 | passwords of equal length with the same line breaks mask alike |
| GameController.MaskAllStars | src/controllers/gameController.js:91 | a password without line breaks masks to stars only |
| GameController.AnalyzePasswordStrength | src/controllers/gameController.js:63-100 | a missing or empty password is refused; otherwise the mask, the score, its label and the feedback |
| GameController.LabelExamples | src/controllers/gameController.js:73-88 | a full-score password is strong; "abc" is weak and is told to avoid common patterns |

## Left out

- Firebase Authentication is not modelled. The uid is a parameter of `CreateUser`, and a failure of the auth service is not modelled. `DeleteUser` only models the store deletions.
- Clocks are not modelled. "Today" and "now" are parameters. Timestamps are integer day numbers. The server is assumed to run in UTC, so `toISOString` dates are local dates. Month bounds come from `FormatDate`. The number of days in a month is a parameter of `GetStreakCalendar`.
- `Math.random` is not modelled. The shuffle in `getChallenges` is a parameter: any permutation of the filtered challenges.
- Floating point:
  - The per-skill mean accuracy in `calculateSkillScores` is a parameter (`mean`). Sessions store float accuracies.
  - The submission's `accuracy.toFixed(2)` and the average accuracy in `getUserStats` are not modelled.
  - `estimateCrackTime` and `formatTime` (src/utils/scoring.js:66-97) are not modelled, so the `crackTime` field of the password analysis is left out.
- The `totalPoints / 100` term of the community estimate is exact here. The model works in hundredths, so floating-point rounding in the sum is not captured.
- Leaderboard.PercentileTenths and Achievements.ProgressTenths: rounding at an exact half follows the mathematical value. A double whose nearest representation falls just below a half is not modelled.
- The store is modelled as one consistent map. These are not modelled:
  - transactions and concurrent updates;
  - batch size limits;
  - `updateRealtimeLeaderboard` (a write to another database whose errors are ignored);
  - `getUserAnalytics` and `getGameHistory`, which only combine queries;
  - the `overallScore` average.
- `getAllBadges` and `getBadgeById` are not modelled; they are plain catalogue reads.
- Negative and zero `limit` values, which the store refuses, are not modelled. The leaderboard limits are `nat`.
- Controllers and routes are not modelled beyond the defaults and the password analysis: response envelopes, status codes, middleware and rate limiting.
- Request validation is modelled only as `UpdateProfile`'s precondition that profile values are strings.
- GameController.Mask: JavaScript strings are UTF-16, so a character outside the Basic Multilingual Plane masks to two stars. Here characters are code points.
- Scoring.CalculatePasswordStrength: `password.length` counts UTF-16 code units, so a character outside the Basic Multilingual Plane counts twice towards the 8, 12 and 16 thresholds. Here it counts once.
- GameController.FeedbackFor: the `length < 12` check counts UTF-16 code units in the source and code points here, as above.
- Text.ParseInt: `parseInt` returns a double, so a number with more than 15 significant digits is rounded in the source and exact here.
- GameController.AnalyzePasswordStrength: a non-string password in the request body is not modelled.
- `getTimeUntilMidnight` is not modelled, because it is clock arithmetic only.
- Achievements.GetUserAchievements: `parseFloat` of the fixed string is the tenths value itself. `NaN` and `Infinity` for an empty catalogue are both `None`.

## Findings

| source | as written | input that shows it | evidently intended | confidence | as-written member | corrected member |
|---|---|---|---|---|---|---|
| src/services/dailyChallengeService.js:89-96 | the completion adds XP but does not recompute `level` | a new user (0 XP, level 1) answers today's challenge correctly: 100 XP, still level 1, where 100 XP is level 2 | the level follows the XP, as in `updateUserStats` | not executed | DailyChallenge.DailyUpdateAsWrittenBreaksLevel | DailyChallenge.DailyUpdate |
| src/services/gameService.js:183 | `admin.firestore.FieldValue.increment(1)` uses `admin`, which the file never imports | any perfect submission, such as 5 of 5: a ReferenceError after stats and session are saved, so the submission fails and `perfect_scores` never grows | the counter grows by one per perfect game | not executed | GameService.PerfectScoresFrozenAsWritten | GameService.RecordPerfectScore |
