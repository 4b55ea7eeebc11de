/**
 * Badge unlocking and the badge views (src/services/achievements.js).
 * The badge catalogue is the store's `badges` sequence.
 */
module Achievements {
  import opened Wrappers
  import opened Text
  import opened Arith
  import opened Constants
  import opened Domain
  import opened Store
  import GameService

  /** The threshold rule of each badge id; an id without a rule never unlocks. */
  predicate UnlockRule(id: string, u: User)
    ensures UnlockRule(id, u) ==> id in {"first_steps", "phishing_detective", "password_pro", "url_guardian",
                                         "week_warrior", "perfect_score", "century_club", "helping_hand",
                                         "level_10", "security_champion"}
  {
    if id == "first_steps" then GAMES_PLAYED in u.achievements && u.achievements[GAMES_PLAYED] >= 1
    else if id == "phishing_detective" then PHISHING_DETECTED in u.achievements && u.achievements[PHISHING_DETECTED] >= 10
    else if id == "password_pro" then PASSWORDS_CREATED in u.achievements && u.achievements[PASSWORDS_CREATED] >= 5
    else if id == "url_guardian" then URLS_INSPECTED in u.achievements && u.achievements[URLS_INSPECTED] >= 20
    else if id == "week_warrior" then u.streakDays >= 7
    else if id == "perfect_score" then PERFECT_SCORES in u.achievements && u.achievements[PERFECT_SCORES] >= 3
    else if id == "century_club" then u.totalPoints >= 100
    else if id == "helping_hand" then COMMUNITY_HELPS in u.achievements && u.achievements[COMMUNITY_HELPS] >= 5
    else if id == "level_10" then u.level >= 10
    else if id == "security_champion" then u.level >= 20
    else false
  }

  /** The rules read counters, streak, points and level, never the badge list or the timestamps. */
  lemma UnlockRuleIgnoresBadges(id: string, u: User, badges: seq<string>, now: int)
    ensures UnlockRule(id, u.(badges := badges, updatedAt := now)) == UnlockRule(id, u)
  {
  }

  /** A counter that is absent never meets a threshold. */
  lemma AbsentCounterNeverUnlocks(u: User)
    ensures GAMES_PLAYED !in u.achievements ==> !UnlockRule("first_steps", u)
    ensures PHISHING_DETECTED !in u.achievements ==> !UnlockRule("phishing_detective", u)
    ensures PASSWORDS_CREATED !in u.achievements ==> !UnlockRule("password_pro", u)
    ensures URLS_INSPECTED !in u.achievements ==> !UnlockRule("url_guardian", u)
    ensures PERFECT_SCORES !in u.achievements ==> !UnlockRule("perfect_score", u)
    ensures COMMUNITY_HELPS !in u.achievements ==> !UnlockRule("helping_hand", u)
  {
  }

  /** With the level kept consistent the table tops out at 11, so `security_champion` (level 20) never unlocks. */
  lemma SecurityChampionUnreachable(u: User)
    requires GameService.LevelConsistent(u)
    ensures !UnlockRule("security_champion", u)
  {
  }

  function Ids(bs: seq<Badge>): (r: seq<string>)
    ensures |r| == |bs| && forall i :: 0 <= i < |bs| ==> r[i] == bs[i].id
  {
    seq(|bs|, i requires 0 <= i < |bs| => bs[i].id)
  }

  /**
   * The badges the loop of `checkAndUnlock` unlocks, in catalogue order: a
   * badge whose id is already held (including one unlocked earlier in the same
   * pass) is skipped, otherwise it is taken when its rule holds.
   */
  function NewlyUnlocked(catalog: seq<Badge>, have: seq<string>, u: User): (r: seq<Badge>)
    ensures |r| <= |catalog|
  {
    if catalog == [] then []
    else if catalog[0].id in have || !UnlockRule(catalog[0].id, u) then NewlyUnlocked(catalog[1..], have, u)
    else [catalog[0]] + NewlyUnlocked(catalog[1..], have + [catalog[0].id], u)
  }

  /** Only catalogue badges whose rule holds and whose id is not held unlock. */
  lemma {:induction false} NewlyUnlockedSound(catalog: seq<Badge>, have: seq<string>, u: User)
    ensures forall b :: b in NewlyUnlocked(catalog, have, u) ==> b in catalog && b.id !in have && UnlockRule(b.id, u)
  {
    if catalog != [] {
      var b0 := catalog[0];
      var tail := catalog[1..];
      assert forall b :: b in tail ==> b in catalog;
      if b0.id in have || !UnlockRule(b0.id, u) {
        NewlyUnlockedSound(tail, have, u);
      } else {
        NewlyUnlockedSound(tail, have + [b0.id], u);
        assert NewlyUnlocked(catalog, have, u) == [b0] + NewlyUnlocked(tail, have + [b0.id], u);
      }
    }
  }

  /** No id unlocks twice in one pass, even when the catalogue repeats an id. */
  lemma {:induction false} NewlyUnlockedDistinct(catalog: seq<Badge>, have: seq<string>, u: User)
    ensures NoDup(Ids(NewlyUnlocked(catalog, have, u)))
  {
    if catalog != [] {
      var b0 := catalog[0];
      if b0.id in have || !UnlockRule(b0.id, u) {
        NewlyUnlockedDistinct(catalog[1..], have, u);
      } else {
        var rest := NewlyUnlocked(catalog[1..], have + [b0.id], u);
        NewlyUnlockedDistinct(catalog[1..], have + [b0.id], u);
        var ids := Ids([b0] + rest);
        assert ids == [b0.id] + Ids(rest);
        forall i, j | 0 <= i < j < |ids|
          ensures ids[i] != ids[j]
        {
          if i > 0 {
            assert Ids(rest)[i - 1] != Ids(rest)[j - 1];
          } else {
            assert rest[j - 1].id !in have + [b0.id] by {
              NewlyUnlockedSound(catalog[1..], have + [b0.id], u);
              assert rest[j - 1] in rest;
            }
          }
        }
      }
    }
  }

  /** Every catalogue badge whose rule holds ends up held, either before or now. */
  lemma {:induction false} NewlyUnlockedComplete(catalog: seq<Badge>, have: seq<string>, u: User, k: nat)
    requires k < |catalog| && UnlockRule(catalog[k].id, u)
    ensures catalog[k].id in have || catalog[k].id in Ids(NewlyUnlocked(catalog, have, u))
  {
    var b0 := catalog[0];
    var rest := catalog[1..];
    if b0.id in have || !UnlockRule(b0.id, u) {
      if k > 0 {
        assert rest[k - 1] == catalog[k];
        NewlyUnlockedComplete(rest, have, u, k - 1);
      }
    } else {
      var have' := have + [b0.id];
      var later := NewlyUnlocked(rest, have', u);
      assert NewlyUnlocked(catalog, have, u) == [b0] + later;
      assert Ids([b0] + later)[0] == b0.id;
      if k > 0 && catalog[k].id != b0.id {
        assert rest[k - 1] == catalog[k];
        NewlyUnlockedComplete(rest, have', u, k - 1);
        if catalog[k].id !in have {
          var j :| 0 <= j < |Ids(later)| && Ids(later)[j] == catalog[k].id;
          assert Ids([b0] + later)[j + 1] == catalog[k].id;
        }
      }
    }
  }

  /** When every badge whose rule holds is already held, nothing unlocks. */
  lemma {:induction false} NothingLeftToUnlock(catalog: seq<Badge>, have: seq<string>, u: User)
    requires forall b :: b in catalog && UnlockRule(b.id, u) ==> b.id in have
    ensures NewlyUnlocked(catalog, have, u) == []
  {
    if catalog != [] {
      NothingLeftToUnlock(catalog[1..], have, u);
    }
  }

  /** Adding the ids `NewlyUnlocked` returns keeps a duplicate-free list duplicate-free. */
  lemma UnlockKeepsNoDup(catalog: seq<Badge>, u: User)
    requires NoDup(u.badges)
    ensures NoDup(u.badges + Ids(NewlyUnlocked(catalog, u.badges, u)))
  {
    NewlyUnlockedSound(catalog, u.badges, u);
    NewlyUnlockedDistinct(catalog, u.badges, u);
    var ids := Ids(NewlyUnlocked(catalog, u.badges, u));
    var s := u.badges + ids;
    forall i, j | 0 <= i < j < |s|
      ensures s[i] != s[j]
    {
      if j >= |u.badges| && i < |u.badges| {
        assert s[j] == ids[j - |u.badges|] && s[j] !in u.badges;
      } else if i >= |u.badges| {
        assert s[i] == ids[i - |u.badges|] && s[j] == ids[j - |u.badges|];
      }
    }
  }

  /** A second pass over the record the first pass wrote unlocks nothing. */
  lemma UnlockIdempotent(catalog: seq<Badge>, u: User, now: int)
    ensures var v := u.(badges := u.badges + Ids(NewlyUnlocked(catalog, u.badges, u)), updatedAt := now);
      NewlyUnlocked(catalog, v.badges, v) == []
  {
    var v := u.(badges := u.badges + Ids(NewlyUnlocked(catalog, u.badges, u)), updatedAt := now);
    forall b | b in catalog && UnlockRule(b.id, v)
      ensures b.id in v.badges
    {
      UnlockRuleIgnoresBadges(b.id, u, v.badges, now);
      var k :| 0 <= k < |catalog| && catalog[k] == b;
      NewlyUnlockedComplete(catalog, u.badges, u, k);
    }
    NothingLeftToUnlock(catalog, v.badges, v);
  }

  /** One step of the pass: the badges already taken plus what the rest of the catalogue unlocks. */
  lemma UnlockPassStep(catalog: seq<Badge>, i: nat, have: seq<string>, taken: seq<Badge>, u: User, unlock: bool)
    requires i < |catalog|
    requires unlock == (catalog[i].id !in have && UnlockRule(catalog[i].id, u))
    ensures taken + NewlyUnlocked(catalog[i..], have, u)
      == (if unlock then taken + [catalog[i]] else taken)
         + NewlyUnlocked(catalog[i + 1..], if unlock then have + [catalog[i].id] else have, u)
    ensures Ids(taken + [catalog[i]]) == Ids(taken) + [catalog[i].id]
  {
    assert catalog[i..][1..] == catalog[i + 1..];
    if unlock {
      assert taken + ([catalog[i]] + NewlyUnlocked(catalog[i + 1..], have + [catalog[i].id], u))
          == (taken + [catalog[i]]) + NewlyUnlocked(catalog[i + 1..], have + [catalog[i].id], u);
    }
  }

  /**
   * The loop of `checkAndUnlock`: one pass over the catalogue that pushes
   * onto the held list and onto the result in place.
   */
  method UnlockPass(catalog: seq<Badge>, badges: seq<string>, userData: User)
    returns (currentBadges: seq<string>, newlyUnlocked: seq<Badge>)
    ensures newlyUnlocked == NewlyUnlocked(catalog, badges, userData)
    ensures currentBadges == badges + Ids(newlyUnlocked)
  {
    currentBadges := badges;
    newlyUnlocked := [];
    assert catalog[0..] == catalog;
    for i := 0 to |catalog|
      invariant currentBadges == badges + Ids(newlyUnlocked)
      invariant newlyUnlocked + NewlyUnlocked(catalog[i..], currentBadges, userData)
             == NewlyUnlocked(catalog, badges, userData)
    {
      var badge := catalog[i];
      var unlock := badge.id !in currentBadges && UnlockRule(badge.id, userData);
      UnlockPassStep(catalog, i, currentBadges, newlyUnlocked, userData, unlock);
      if unlock {
        currentBadges := currentBadges + [badge.id];
        newlyUnlocked := newlyUnlocked + [badge];
      }
    }
    assert catalog[|catalog|..] == [];
  }

  /** `checkAndUnlock(userId)`: the record is written only when something unlocked. */
  method CheckAndUnlock(db: Db, userId: string, now: int) returns (r: Result<seq<Badge>>)
    modifies db
    ensures db.sessions == old(db.sessions) && db.completions == old(db.completions)
    ensures r.Err? <==> userId !in old(db.users)
    ensures r.Err? ==> r.error == UserNotFound && db.users == old(db.users)
    ensures r.Ok? ==> r.value == NewlyUnlocked(db.badges, old(db.users)[userId].badges, old(db.users)[userId])
    ensures r.Ok? && r.value == [] ==> db.users == old(db.users)
    ensures r.Ok? && r.value != [] ==>
      var u := old(db.users)[userId];
      db.users == old(db.users)[userId := u.(badges := u.badges + Ids(r.value), updatedAt := now)]
  {
    if userId !in db.users {
      return Err(UserNotFound);
    }
    var userData := db.users[userId];
    var currentBadges, newlyUnlocked := UnlockPass(db.badges, userData.badges, userData);
    if |newlyUnlocked| > 0 {
      db.users := db.users[userId := userData.(badges := currentBadges, updatedAt := now)];
    }
    return Ok(newlyUnlocked);
  }

  // ---------------------------------------------------------------------
  // getUserAchievements

  /** The catalogue entry with a given id, the first one if several share it. */
  function FindBadge(catalog: seq<Badge>, id: string): (r: Option<Badge>)
    ensures r.Some? ==> r.value in catalog && r.value.id == id
    ensures r.None? <==> forall i :: 0 <= i < |catalog| ==> catalog[i].id != id
  {
    if catalog == [] then None
    else if catalog[0].id == id then Some(catalog[0])
    else FindBadge(catalog[1..], id)
  }

  /** Like `find`, the badge found is the first catalogue entry with the id. */
  lemma {:induction false} FindBadgeFirst(catalog: seq<Badge>, id: string)
    ensures FindBadge(catalog, id).Some? ==>
      exists i :: 0 <= i < |catalog| && catalog[i] == FindBadge(catalog, id).value
                  && forall j :: 0 <= j < i ==> catalog[j].id != id
  {
    if catalog != [] && catalog[0].id != id && FindBadge(catalog, id).Some? {
      FindBadgeFirst(catalog[1..], id);
      var k :| 0 <= k < |catalog[1..]| && catalog[1..][k] == FindBadge(catalog[1..], id).value
               && forall j :: 0 <= j < k ==> catalog[1..][j].id != id;
      assert catalog[k + 1] == FindBadge(catalog, id).value;
      assert forall j :: 0 <= j < k + 1 ==> catalog[j].id != id by {
        forall j | 0 <= j < k + 1 ensures catalog[j].id != id {
          if j > 0 { assert catalog[j] == catalog[1..][j - 1]; }
        }
      }
    }
  }

  /** The ids that name a catalogue badge, in their order. */
  function KnownIds(catalog: seq<Badge>, ids: seq<string>): (r: seq<string>)
    ensures |r| <= |ids|
  {
    if ids == [] then []
    else if FindBadge(catalog, ids[0]).Some? then [ids[0]] + KnownIds(catalog, ids[1..])
    else KnownIds(catalog, ids[1..])
  }

  /** `ids.map(id => find(id) || null).filter(Boolean)`. */
  function LookupBadges(catalog: seq<Badge>, ids: seq<string>): (r: seq<Badge>)
    ensures Ids(r) == KnownIds(catalog, ids)
    ensures forall i :: 0 <= i < |r| ==> r[i] in catalog
  {
    if ids == [] then []
    else
      var rest := LookupBadges(catalog, ids[1..]);
      match FindBadge(catalog, ids[0])
      case None => rest
      case Some(b) =>
        assert Ids([b] + rest) == [b.id] + Ids(rest);
        [b] + rest
  }

  /** Each badge looked up is the record `find` returns for its own id. */
  lemma {:induction false} LookupBadgesFound(catalog: seq<Badge>, ids: seq<string>)
    ensures forall b :: b in LookupBadges(catalog, ids) ==> FindBadge(catalog, b.id) == Some(b)
  {
    if ids != [] {
      LookupBadgesFound(catalog, ids[1..]);
      var rest := LookupBadges(catalog, ids[1..]);
      match FindBadge(catalog, ids[0])
      case None =>
        assert LookupBadges(catalog, ids) == rest;
      case Some(b) =>
        assert LookupBadges(catalog, ids) == [b] + rest;
    }
  }

  /** When every id is known, nothing is dropped and the order is the badge list's. */
  lemma {:induction false} KnownIdsAllKnown(catalog: seq<Badge>, ids: seq<string>)
    requires forall i :: 0 <= i < |ids| ==> FindBadge(catalog, ids[i]).Some?
    ensures KnownIds(catalog, ids) == ids
  {
    if ids != [] {
      KnownIdsAllKnown(catalog, ids[1..]);
    }
  }

  datatype AchievementSummary = AchievementSummary(unlocked: seq<Badge>, total: nat, progressTenths: Option<nat>,
                                                   recentlyUnlocked: seq<Badge>)

  /**
   * `(unlocked / total * 100).toFixed(1)` in tenths of a percent: the nearest
   * tenth, halves rounded up. An empty catalogue divides by zero, which gives
   * no number.
   */
  function ProgressTenths(unlocked: nat, total: nat): (t: Option<nat>)
    ensures t.None? <==> total == 0
    ensures t.Some? ==> 2 * total * t.value <= 2000 * unlocked + total < 2 * total * (t.value + 1)
  {
    if total == 0 then None
    else
      var n := 2000 * unlocked + total;
      var d := 2 * total;
      DivFloor(n, d);
      Some(n / d)
  }

  /** Holding every badge of a non-empty catalogue is exactly 100.0 percent, and none is 0.0. */
  lemma ProgressEnds(total: nat)
    requires total > 0
    ensures ProgressTenths(total, total) == Some(1000)
    ensures ProgressTenths(0, total) == Some(0)
  {
    var t := ProgressTenths(total, total).value;
    DivRange(2000 * total + total, 2 * total, 1000, 1000);
    var z := ProgressTenths(0, total).value;
    DivRange(total, 2 * total, 0, 0);
  }

  /** More badges never show less progress. */
  lemma ProgressMonotone(a: nat, b: nat, total: nat)
    requires a <= b && total > 0
    ensures ProgressTenths(a, total).value <= ProgressTenths(b, total).value
  {
    var ta, tb := ProgressTenths(a, total).value, ProgressTenths(b, total).value;
    if ta > tb {
      MulMonotone(2 * total, tb + 1, ta);
    }
  }

  /** `arr.slice(-3)`: the last three elements, or all of them when there are fewer. */
  function LastThree<T>(s: seq<T>): (r: seq<T>)
    ensures |r| == if |s| < 3 then |s| else 3
    ensures r == s[|s| - |r|..]
  {
    if |s| < 3 then s else s[|s| - 3..]
  }

  /** `getUserAchievements(userId)`: the known badges held, the catalogue size, the progress and the last three. */
  function GetUserAchievements(users: map<string, User>, catalog: seq<Badge>, userId: string): (r: Result<AchievementSummary>)
    ensures r.Err? <==> userId !in users
    ensures r.Err? ==> r.error == UserNotFound
    ensures r.Ok? ==>
      && Ids(r.value.unlocked) == KnownIds(catalog, users[userId].badges)
      && (forall b :: b in r.value.unlocked ==> FindBadge(catalog, b.id) == Some(b))
      && r.value.total == |catalog|
      && r.value.progressTenths == ProgressTenths(|users[userId].badges|, |catalog|)
      && |r.value.recentlyUnlocked| <= 3 && |r.value.recentlyUnlocked| <= |r.value.unlocked|
      && (|r.value.unlocked| >= 3 ==> |r.value.recentlyUnlocked| == 3)
      && r.value.recentlyUnlocked == r.value.unlocked[|r.value.unlocked| - |r.value.recentlyUnlocked|..]
  {
    if userId !in users then Err(UserNotFound)
    else
      var unlocked := LookupBadges(catalog, users[userId].badges);
      LookupBadgesFound(catalog, users[userId].badges);
      Ok(AchievementSummary(unlocked, |catalog|, ProgressTenths(|users[userId].badges|, |catalog|), LastThree(unlocked)))
  }

  // ---------------------------------------------------------------------
  // getAchievementProgress

  datatype Progress = Progress(key: string, current: nat, required: nat, badge: string)

  /** `getAchievementProgress(userId)`: five counters against the thresholds of their badges. */
  function GetAchievementProgress(users: map<string, User>, userId: string): (r: Result<seq<Progress>>)
    ensures r.Err? <==> userId !in users
    ensures r.Err? ==> r.error == UserNotFound
    ensures r.Ok? ==> |r.value| == 5
    ensures r.Ok? ==> var p := r.value;
      && p[0].key == PHISHING_DETECTED && p[0].required == 10 && p[0].badge == "phishing_detective"
      && p[1].key == PASSWORDS_CREATED && p[1].required == 5 && p[1].badge == "password_pro"
      && p[2].key == URLS_INSPECTED && p[2].required == 20 && p[2].badge == "url_guardian"
      && p[3].key == PERFECT_SCORES && p[3].required == 3 && p[3].badge == "perfect_score"
      && p[4].key == "streak_days" && p[4].required == 7 && p[4].badge == "week_warrior"
    ensures r.Ok? ==> forall i :: 0 <= i < 4 ==>
      && (r.value[i].key in users[userId].achievements ==> r.value[i].current == users[userId].achievements[r.value[i].key])
      && (r.value[i].key !in users[userId].achievements ==> r.value[i].current == 0)
    ensures r.Ok? ==> r.value[4].current == users[userId].streakDays
  {
    if userId !in users then Err(UserNotFound)
    else
      var u := users[userId];
      Ok([
        Progress(PHISHING_DETECTED, Counter(u, PHISHING_DETECTED), 10, "phishing_detective"),
        Progress(PASSWORDS_CREATED, Counter(u, PASSWORDS_CREATED), 5, "password_pro"),
        Progress(URLS_INSPECTED, Counter(u, URLS_INSPECTED), 20, "url_guardian"),
        Progress(PERFECT_SCORES, Counter(u, PERFECT_SCORES), 3, "perfect_score"),
        Progress("streak_days", u.streakDays, 7, "week_warrior")
      ])
  }

  /** Each progress entry is complete exactly when the rule of its badge holds. */
  lemma ProgressAgreesWithRules(users: map<string, User>, userId: string)
    requires userId in users
    ensures var r := GetAchievementProgress(users, userId);
      r.Ok? && forall i :: 0 <= i < |r.value| ==>
        (r.value[i].current >= r.value[i].required <==> UnlockRule(r.value[i].badge, users[userId]))
  {
  }
}
