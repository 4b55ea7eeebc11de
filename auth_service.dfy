/**
 * The user-record lifecycle (src/services/authService.js): creating the
 * record under a free username, reading it, the whitelisted profile update
 * and the account deletion that takes the user's game sessions with it.
 * The authentication provider is outside the model: the new account's `uid`
 * is a parameter and provider failures are not modelled.
 */
module AuthService {
  import opened Wrappers
  import opened Domain
  import opened Store
  import GameService
  import Achievements

  /** Some stored user already goes by `username`: the `where('username', '==', username)` query is not empty. */
  predicate UsernameInUse(users: map<string, User>, username: string) {
    exists id :: id in users && users[id].username == username
  }

  /** No two stored users share a username. */
  predicate UniqueUsernames(users: map<string, User>) {
    forall a, b :: a in users && b in users && a != b ==> users[a].username != users[b].username
  }

  /** The five counters a new record starts with. */
  const INITIAL_COUNTERS: map<string, nat> :=
    map[PHISHING_DETECTED := 0, PASSWORDS_CREATED := 0, URLS_INSPECTED := 0, PERFECT_SCORES := 0, GAMES_PLAYED := 0]

  /** The record `createUser` writes for a new account. */
  function NewUser(uid: string, email: string, username: string, now: int): (u: User)
    ensures u.uid == uid && u.email == email && u.username == username && u.displayName == username
    ensures u.photoURL == None && u.bio == "" && u.communityId == None
    ensures u.totalPoints == 0 && u.weeklyPoints == 0 && u.xp == 0 && u.streakDays == 0
    ensures u.dailyPoints == None && u.lastDailyChallengeDate == None
    ensures GameService.LevelConsistent(u) && u.level == 1
    ensures u.badges == []
    ensures u.achievements.Keys == {PHISHING_DETECTED, PASSWORDS_CREATED, URLS_INSPECTED, PERFECT_SCORES, GAMES_PLAYED}
    ensures forall key :: Counter(u, key) == 0
    ensures u.lastActive == now && u.createdAt == now && u.updatedAt == now
  {
    GameService.CalculateLevelIsLastReached(0);
    User(uid, email, username, username, None, "", None, 0, 0, None, 0, 1, 0, [], INITIAL_COUNTERS, now, None, now, now)
  }

  /** A new account meets no badge rule, so the first unlock pass grants nothing. */
  lemma NewUserUnlocksNothing(catalog: seq<Badge>, uid: string, email: string, username: string, now: int)
    ensures forall id :: !Achievements.UnlockRule(id, NewUser(uid, email, username, now))
    ensures Achievements.NewlyUnlocked(catalog, [], NewUser(uid, email, username, now)) == []
  {
    var u := NewUser(uid, email, username, now);
    NoProgressUnlocksNothing(u);
    Achievements.NewlyUnlockedSound(catalog, [], u);
    var granted := Achievements.NewlyUnlocked(catalog, [], u);
    assert forall b :: b !in granted;
  }

  lemma NoProgressUnlocksNothing(u: User)
    requires forall key :: Counter(u, key) == 0
    requires u.streakDays == 0 && u.totalPoints == 0 && u.level < 10
    ensures forall id :: !Achievements.UnlockRule(id, u)
  {
    forall id
      ensures !Achievements.UnlockRule(id, u)
    {
      assert Counter(u, GAMES_PLAYED) == 0 && Counter(u, PHISHING_DETECTED) == 0 && Counter(u, PASSWORDS_CREATED) == 0;
      assert Counter(u, URLS_INSPECTED) == 0 && Counter(u, PERFECT_SCORES) == 0 && Counter(u, COMMUNITY_HELPS) == 0;
    }
  }

  datatype CreatedUser = CreatedUser(uid: string, email: string, username: string)

  /**
   * `createUser(email, password, username)`: refused when the username is
   * taken, with nothing written; otherwise the new record is stored under
   * the provider's `uid`.
   */
  method CreateUser(db: Db, uid: string, email: string, username: string, now: int) returns (r: Result<CreatedUser>)
    modifies db
    ensures db.sessions == old(db.sessions) && db.completions == old(db.completions)
    ensures r.Err? <==> UsernameInUse(old(db.users), username)
    ensures r.Err? ==> r.error == UsernameTaken && db.users == old(db.users)
    ensures r.Ok? ==>
      && r.value == CreatedUser(uid, email, username)
      && db.users == old(db.users)[uid := NewUser(uid, email, username, now)]
  {
    if exists id :: id in db.users && db.users[id].username == username {
      return Err(UsernameTaken);
    }
    db.users := db.users[uid := NewUser(uid, email, username, now)];
    return Ok(CreatedUser(uid, email, username));
  }

  /** Creating an account under a free username keeps usernames unique. */
  lemma CreateKeepsUsernamesUnique(users: map<string, User>, uid: string, email: string, username: string, now: int)
    requires UniqueUsernames(users) && !UsernameInUse(users, username)
    ensures UniqueUsernames(users[uid := NewUser(uid, email, username, now)])
  {
    var users' := users[uid := NewUser(uid, email, username, now)];
    forall a, b | a in users' && b in users' && a != b
      ensures users'[a].username != users'[b].username
    {
      if a != uid && b != uid {
        assert users'[a] == users[a] && users'[b] == users[b];
      } else if a == uid {
        assert users'[b] == users[b];
      } else {
        assert users'[a] == users[a];
      }
    }
  }

  /** `getUserProfile(userId)`: the stored record, or "User not found". */
  function GetUserProfile(users: map<string, User>, userId: string): (r: Result<User>)
    ensures r.Err? <==> userId !in users
    ensures r.Err? ==> r.error == UserNotFound
    ensures r.Ok? ==> userId in users && r.value == users[userId]
  {
    if userId in users then Ok(users[userId]) else Err(UserNotFound)
  }

  // ---------------------------------------------------------------------
  // updateProfile

  const USERNAME: string := "username"
  const DISPLAY_NAME: string := "displayName"
  const PHOTO_URL: string := "photoURL"
  const BIO: string := "bio"

  /** The keys a profile update may write. */
  const ALLOWED_UPDATES: seq<string> := [USERNAME, DISPLAY_NAME, PHOTO_URL, BIO]

  /** The update restricted to the allowed keys. */
  function Allowed(updates: map<string, Value>): (r: map<string, Value>)
    ensures r.Keys <= updates.Keys
    ensures forall k :: k in r ==> k in ALLOWED_UPDATES && r[k] == updates[k]
    ensures forall k :: k in updates && k in ALLOWED_UPDATES ==> k in r
  {
    map k | k in updates && k in ALLOWED_UPDATES :: updates[k]
  }

  /** The `forEach` over `Object.keys(updates)` that builds `filteredUpdates`. */
  method FilterUpdates(updates: map<string, Value>) returns (filtered: map<string, Value>)
    ensures filtered == Allowed(updates)
  {
    filtered := map[];
    var pending := updates.Keys;
    while pending != {}
      invariant pending <= updates.Keys
      invariant forall k :: k in filtered <==> k in updates && k !in pending && k in ALLOWED_UPDATES
      invariant forall k :: k in filtered ==> filtered[k] == updates[k]
      decreases |pending|
    {
      var key :| key in pending;
      if key in ALLOWED_UPDATES {
        filtered := filtered[key := updates[key]];
      }
      pending := pending - {key};
    }
  }

  /** A text field takes the update's string when the key is present. */
  function TextField(updates: map<string, Value>, key: string, current: string): string {
    if key in updates && updates[key].Str? then updates[key].s else current
  }

  /** The stored record after `update(filteredUpdates)` with `updatedAt` stamped. */
  function ApplyProfile(u: User, filtered: map<string, Value>, now: int): (r: User)
    requires forall k :: k in filtered ==> filtered[k].Str?
    ensures r == u.(username := r.username, displayName := r.displayName, photoURL := r.photoURL, bio := r.bio, updatedAt := now)
    ensures r.username == if USERNAME in filtered then filtered[USERNAME].s else u.username
    ensures r.displayName == if DISPLAY_NAME in filtered then filtered[DISPLAY_NAME].s else u.displayName
    ensures r.photoURL == if PHOTO_URL in filtered then Some(filtered[PHOTO_URL].s) else u.photoURL
    ensures r.bio == if BIO in filtered then filtered[BIO].s else u.bio
  {
    u.(username := TextField(filtered, USERNAME, u.username),
       displayName := TextField(filtered, DISPLAY_NAME, u.displayName),
       photoURL := if PHOTO_URL in filtered && filtered[PHOTO_URL].Str? then Some(filtered[PHOTO_URL].s) else u.photoURL,
       bio := TextField(filtered, BIO, u.bio),
       updatedAt := now)
  }

  /**
   * `updateProfile(userId, updates)`. The route's validation lets only
   * strings through for the profile keys. A missing record makes the
   * store's `update` fail.
   */
  method UpdateProfile(db: Db, userId: string, updates: map<string, Value>, now: int) returns (r: Result<()>)
    requires forall k :: k in updates && k in ALLOWED_UPDATES ==> updates[k].Str?
    modifies db
    ensures db.sessions == old(db.sessions) && db.completions == old(db.completions)
    ensures r.Err? <==> userId !in old(db.users)
    ensures r.Err? ==> r.error == NoDocumentToUpdate && db.users == old(db.users)
    ensures r.Ok? ==> db.users == old(db.users)[userId := ApplyProfile(old(db.users)[userId], Allowed(updates), now)]
  {
    var filtered := FilterUpdates(updates);
    if userId !in db.users {
      return Err(NoDocumentToUpdate);
    }
    db.users := db.users[userId := ApplyProfile(db.users[userId], filtered, now)];
    return Ok(());
  }

  /** Points, level, badges, counters and streak are out of reach of a profile update, whatever keys it carries. */
  lemma ProfileUpdateKeepsProgress(u: User, updates: map<string, Value>, now: int)
    requires forall k :: k in updates && k in ALLOWED_UPDATES ==> updates[k].Str?
    ensures var v := ApplyProfile(u, Allowed(updates), now);
      && v.totalPoints == u.totalPoints && v.weeklyPoints == u.weeklyPoints && v.dailyPoints == u.dailyPoints
      && v.xp == u.xp && v.level == u.level && v.streakDays == u.streakDays
      && v.badges == u.badges && v.achievements == u.achievements
      && (GameService.LevelConsistent(u) ==> GameService.LevelConsistent(v))
  {
  }

  /** Unlike `createUser`, a profile update does not check the new username: two users can end up sharing one. */
  lemma ProfileUpdateCanDuplicateUsername(users: map<string, User>, a: string, b: string, now: int)
    requires a in users && b in users && a != b
    ensures var users' := users[b := ApplyProfile(users[b], Allowed(map[USERNAME := Str(users[a].username)]), now)];
      !UniqueUsernames(users')
  {
    var users' := users[b := ApplyProfile(users[b], Allowed(map[USERNAME := Str(users[a].username)]), now)];
    assert USERNAME in Allowed(map[USERNAME := Str(users[a].username)]);
    assert users'[a].username == users'[b].username;
  }

  // ---------------------------------------------------------------------
  // deleteUser

  /** The sessions that survive the batch delete: those of other users, in order. */
  function SessionsWithout(sessions: seq<GameSession>, userId: string): (r: seq<GameSession>)
    ensures |r| <= |sessions|
  {
    if sessions == [] then []
    else
      var init := SessionsWithout(sessions[..|sessions| - 1], userId);
      var last := sessions[|sessions| - 1];
      if last.userId == userId then init else init + [last]
  }

  /** None of the deleted user's sessions survive, and every other session does. */
  lemma {:induction false} SessionsWithoutSound(sessions: seq<GameSession>, userId: string)
    ensures forall s :: s in SessionsWithout(sessions, userId) <==> s in sessions && s.userId != userId
  {
    if sessions != [] {
      var init := sessions[..|sessions| - 1];
      SessionsWithoutSound(init, userId);
      assert sessions == init + [sessions[|sessions| - 1]];
    }
  }

  /** Another user's history is untouched: same sessions, same order. */
  lemma {:induction false} SessionsWithoutKeepsOthers(sessions: seq<GameSession>, userId: string, other: string)
    requires other != userId
    ensures GameService.SessionsOf(SessionsWithout(sessions, userId), other) == GameService.SessionsOf(sessions, other)
  {
    if sessions != [] {
      var init := sessions[..|sessions| - 1];
      var last := sessions[|sessions| - 1];
      SessionsWithoutKeepsOthers(init, userId, other);
      assert sessions == init + [last];
      GameService.SessionsOfAppend(init, [last], other);
      if last.userId != userId {
        GameService.SessionsOfAppend(SessionsWithout(init, userId), [last], other);
      }
    }
  }

  /**
   * `deleteUser(userId)`: the record goes, and the batch deletes every
   * session whose `userId` matches. Daily completions are kept.
   */
  method DeleteUser(db: Db, userId: string)
    modifies db
    ensures db.users == old(db.users) - {userId}
    ensures db.sessions == SessionsWithout(old(db.sessions), userId)
    ensures db.completions == old(db.completions)
  {
    db.users := db.users - {userId};
    var kept: seq<GameSession> := [];
    for i := 0 to |db.sessions|
      invariant kept == SessionsWithout(db.sessions[..i], userId)
    {
      assert db.sessions[..i + 1][..i] == db.sessions[..i];
      if db.sessions[i].userId != userId {
        kept := kept + [db.sessions[i]];
      }
    }
    assert db.sessions[..|db.sessions|] == db.sessions;
    db.sessions := kept;
  }
}
