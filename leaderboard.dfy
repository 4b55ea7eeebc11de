/**
 * Rankings (src/services/leaderboard.js): the points field chosen by
 * timeframe, the global and community leaderboards, the count-based rank of
 * one user with its percentile, and the weekly reset.
 *
 * The store's `orderBy(field, 'desc')` returns only the documents that have
 * the field, in non-increasing order of it; `OrderByDesc` models that query
 * as a selection of a maximum among the users not yet listed.
 */
module Leaderboard {
  import opened Wrappers
  import opened Text
  import opened Arith
  import opened Domain
  import opened Store

  datatype PointsField = TotalPoints | WeeklyPoints | DailyPoints

  /** 'weekly' and 'daily' choose their own field; any other timeframe ranks by total points. */
  function FieldFor(timeframe: string): (f: PointsField)
    ensures f == WeeklyPoints <==> timeframe == "weekly"
    ensures f == DailyPoints <==> timeframe == "daily"
    ensures f == TotalPoints <==> timeframe != "weekly" && timeframe != "daily"
  {
    if timeframe == "weekly" then WeeklyPoints
    else if timeframe == "daily" then DailyPoints
    else TotalPoints
  }

  /** `userData[pointsField]`; only `dailyPoints` can be absent. */
  function PointsOf(u: User, f: PointsField): Option<nat> {
    match f
    case TotalPoints => Some(u.totalPoints)
    case WeeklyPoints => Some(u.weeklyPoints)
    case DailyPoints => u.dailyPoints
  }

  /** A user the ordered query returns: stored, and holding the field. */
  predicate Ranked(users: map<string, User>, f: PointsField, id: string) {
    id in users && PointsOf(users[id], f).Some?
  }

  function Pts(users: map<string, User>, f: PointsField, id: string): nat
    requires Ranked(users, f, id)
  {
    PointsOf(users[id], f).value
  }

  /** Every ranked user exactly once, in non-increasing order of points. */
  ghost predicate DescListing(users: map<string, User>, f: PointsField, ids: seq<string>) {
    && NoDup(ids)
    && (forall i :: 0 <= i < |ids| ==> Ranked(users, f, ids[i]))
    && (forall id :: Ranked(users, f, id) ==> id in ids)
    && (forall i, j :: 0 <= i < j < |ids| ==> Pts(users, f, ids[i]) >= Pts(users, f, ids[j]))
  }

  /** `m` holds the most points among the users in `s`. */
  predicate IsTop(users: map<string, User>, f: PointsField, s: set<string>, m: string)
    requires forall id :: id in s ==> Ranked(users, f, id)
  {
    m in s && forall o :: o in s ==> Pts(users, f, o) <= Pts(users, f, m)
  }

  lemma {:induction false} MaxExists(users: map<string, User>, f: PointsField, s: set<string>)
    requires s != {} && forall id :: id in s ==> Ranked(users, f, id)
    ensures exists m :: IsTop(users, f, s, m)
    decreases |s|
  {
    var x :| x in s;
    if s == {x} {
      assert IsTop(users, f, s, x);
    } else {
      MaxExists(users, f, s - {x});
      var m :| IsTop(users, f, s - {x}, m);
      if Pts(users, f, x) > Pts(users, f, m) {
        assert IsTop(users, f, s, x);
      } else {
        assert IsTop(users, f, s, m);
      }
    }
  }

  /**
   * Part way through the ordering: `ids` lists distinct ranked users in
   * non-increasing order, `remaining` holds exactly the ranked users not yet
   * listed, and none of them outscores a listed one.
   */
  ghost predicate Ordering(users: map<string, User>, f: PointsField, ids: seq<string>, remaining: set<string>) {
    && (forall id :: id in remaining <==> Ranked(users, f, id) && id !in ids)
    && (forall i :: 0 <= i < |ids| ==> Ranked(users, f, ids[i]))
    && NoDup(ids)
    && (forall i, j :: 0 <= i < j < |ids| ==> Pts(users, f, ids[i]) >= Pts(users, f, ids[j]))
    && (forall i, id :: 0 <= i < |ids| && id in remaining ==> Pts(users, f, ids[i]) >= Pts(users, f, id))
  }

  /** Listing a top user of the remaining ones next keeps the ordering. */
  lemma OrderingStep(users: map<string, User>, f: PointsField, ids: seq<string>, remaining: set<string>, best: string)
    requires Ordering(users, f, ids, remaining)
    requires forall id :: id in remaining ==> Ranked(users, f, id)
    requires IsTop(users, f, remaining, best)
    ensures Ordering(users, f, ids + [best], remaining - {best})
  {
    var next := ids + [best];
    assert forall i :: 0 <= i < |ids| ==> next[i] == ids[i];
    assert next[|ids|] == best && best !in ids;
  }

  /** The query `orderBy(field, 'desc')` over the users collection. */
  method OrderByDesc(users: map<string, User>, f: PointsField) returns (ids: seq<string>)
    ensures DescListing(users, f, ids)
  {
    ids := [];
    var remaining := set id | id in users && PointsOf(users[id], f).Some?;
    while remaining != {}
      invariant Ordering(users, f, ids, remaining)
      decreases |remaining|
    {
      MaxExists(users, f, remaining);
      var best :| IsTop(users, f, remaining, best);
      OrderingStep(users, f, ids, remaining, best);
      ids := ids + [best];
      remaining := remaining - {best};
    }
  }

  /** `.limit(n)` on the ordered query: its first `n` documents, or all of them when fewer. */
  function Limit(ids: seq<string>, n: nat): (top: seq<string>)
    ensures |top| <= n && top <= ids
    ensures |top| < n ==> top == ids
  {
    if |ids| <= n then ids else ids[..n]
  }

  /**
   * The first `n` of a descending listing: distinct ranked users in
   * non-increasing order, and every ranked user left out is one of a full
   * page and scores no more than anyone on it.
   */
  lemma TopOfListing(users: map<string, User>, f: PointsField, ordered: seq<string>, n: nat)
    requires DescListing(users, f, ordered)
    ensures var top := Limit(ordered, n);
      && NoDup(top)
      && (forall i :: 0 <= i < |top| ==> Ranked(users, f, top[i]))
      && (forall i, j :: 0 <= i < j < |top| ==> Pts(users, f, top[i]) >= Pts(users, f, top[j]))
      && (forall id :: Ranked(users, f, id) && id !in top ==>
            |top| == n && forall i :: 0 <= i < |top| ==> Pts(users, f, id) <= Pts(users, f, top[i]))
  {
    var top := Limit(ordered, n);
    assert forall i :: 0 <= i < |top| ==> top[i] == ordered[i];
    forall id | Ranked(users, f, id) && id !in top
      ensures |top| == n && forall i :: 0 <= i < |top| ==> Pts(users, f, id) <= Pts(users, f, top[i])
    {
      var j :| 0 <= j < |ordered| && ordered[j] == id;
      assert j >= |top|;
    }
  }

  datatype Entry = Entry(
    rank: nat,
    userId: string,
    username: string,
    displayName: string,
    photoURL: Option<string>,
    points: nat,
    level: nat,
    badges: nat,
    lastActive: int)

  function EntryIds(entries: seq<Entry>): (r: seq<string>)
    ensures |r| == |entries| && forall i :: 0 <= i < |entries| ==> r[i] == entries[i].userId
  {
    seq(|entries|, i requires 0 <= i < |entries| => entries[i].userId)
  }

  /**
   * `getGlobalLeaderboard(timeframe, limit)`: the top `limit` users by the
   * chosen field, ranked 1, 2, ... in list order by the `rank++` loop.
   */
  method GetGlobalLeaderboard(users: map<string, User>, timeframe: string, limit: nat) returns (entries: seq<Entry>)
    ensures var f := FieldFor(timeframe);
      && |entries| <= limit
      && NoDup(EntryIds(entries))
      && (forall i :: 0 <= i < |entries| ==> entries[i].rank == i + 1)
      && (forall i :: 0 <= i < |entries| ==>
            Ranked(users, f, entries[i].userId) && entries[i].points == Pts(users, f, entries[i].userId))
      && (forall i, j :: 0 <= i < j < |entries| ==> entries[i].points >= entries[j].points)
      && (forall id :: Ranked(users, f, id) && id !in EntryIds(entries) ==>
            |entries| == limit && forall i :: 0 <= i < |entries| ==> Pts(users, f, id) <= entries[i].points)
    ensures forall i :: 0 <= i < |entries| ==>
      (entries[i].userId in users &&
       var u := users[entries[i].userId];
       entries[i] == Entry(i + 1, entries[i].userId, u.username, u.displayName, u.photoURL, entries[i].points,
                           u.level, |u.badges|, u.lastActive))
  {
    var f := FieldFor(timeframe);
    var ordered := OrderByDesc(users, f);
    var top := Limit(ordered, limit);
    TopOfListing(users, f, ordered, limit);
    entries := [];
    var rank := 1;
    for k := 0 to |top|
      invariant rank == k + 1
      invariant |entries| == k
      invariant forall i :: 0 <= i < k ==> entries[i].userId == top[i] && entries[i].rank == i + 1
      invariant forall i :: 0 <= i < k ==> entries[i].points == Pts(users, f, top[i])
      invariant forall i :: 0 <= i < k ==> var u := users[top[i]];
        entries[i] == Entry(i + 1, top[i], u.username, u.displayName, u.photoURL, entries[i].points,
                            u.level, |u.badges|, u.lastActive)
    {
      var u := users[top[k]];
      entries := entries + [Entry(rank, top[k], u.username, u.displayName, u.photoURL, PointsOf(u, f).value,
                                  u.level, |u.badges|, u.lastActive)];
      rank := rank + 1;
    }
    assert EntryIds(entries) == top;
  }

  datatype CommunityEntry = CommunityEntry(
    rank: nat,
    userId: string,
    username: string,
    displayName: string,
    photoURL: Option<string>,
    points: nat,
    level: nat)

  /** The users of one community: `where('communityId', '==', communityId)`. */
  function Members(users: map<string, User>, communityId: string): (m: map<string, User>)
    ensures forall id :: id in m <==> id in users && users[id].communityId == Some(communityId)
    ensures forall id :: id in m ==> m[id] == users[id]
  {
    map id | id in users && users[id].communityId == Some(communityId) :: users[id]
  }

  /**
   * The query of `getCommunityLeaderboard`: the community's members by total
   * points, non-increasing, at most `limit` of them, and all of them when
   * fewer than `limit` come back.
   */
  method CommunityQuery(users: map<string, User>, communityId: string, limit: nat) returns (top: seq<string>)
    ensures |top| <= limit && NoDup(top)
    ensures forall i :: 0 <= i < |top| ==> top[i] in users && users[top[i]].communityId == Some(communityId)
    ensures forall i, j :: 0 <= i < j < |top| ==> users[top[i]].totalPoints >= users[top[j]].totalPoints
    ensures |top| < limit ==> forall id :: id in users && users[id].communityId == Some(communityId) ==> id in top
    ensures forall id :: id in users && users[id].communityId == Some(communityId) && id !in top ==>
      |top| == limit && forall i :: 0 <= i < |top| ==> users[id].totalPoints <= users[top[i]].totalPoints
  {
    var members := Members(users, communityId);
    var ordered := OrderByDesc(members, TotalPoints);
    top := Limit(ordered, limit);
    TopOfListing(members, TotalPoints, ordered, limit);
    forall id | id in users && users[id].communityId == Some(communityId) && id !in top
      ensures |top| == limit && forall i :: 0 <= i < |top| ==> users[id].totalPoints <= users[top[i]].totalPoints
    {
      assert Ranked(members, TotalPoints, id);
    }
  }

  /** `getCommunityLeaderboard(communityId, limit)`: members only, by total points, ranked 1, 2, ... */
  method GetCommunityLeaderboard(users: map<string, User>, communityId: string, limit: nat)
    returns (entries: seq<CommunityEntry>)
    ensures |entries| <= limit
    ensures forall i :: 0 <= i < |entries| ==> entries[i].rank == i + 1
    ensures forall i :: 0 <= i < |entries| ==>
      && entries[i].userId in users
      && users[entries[i].userId].communityId == Some(communityId)
      && entries[i].points == users[entries[i].userId].totalPoints
    ensures forall i, j :: 0 <= i < j < |entries| ==> entries[i].points >= entries[j].points
    ensures forall i, j :: 0 <= i < j < |entries| ==> entries[i].userId != entries[j].userId
    ensures |entries| < limit ==> forall id :: id in users && users[id].communityId == Some(communityId) ==>
      exists i :: 0 <= i < |entries| && entries[i].userId == id
    ensures forall id :: id in users && users[id].communityId == Some(communityId)
                         && (forall i :: 0 <= i < |entries| ==> entries[i].userId != id) ==>
      |entries| == limit && forall i :: 0 <= i < |entries| ==> users[id].totalPoints <= entries[i].points
    ensures forall i :: 0 <= i < |entries| ==>
      (entries[i].userId in users &&
       var u := users[entries[i].userId];
       entries[i] == CommunityEntry(i + 1, entries[i].userId, u.username, u.displayName, u.photoURL, u.totalPoints, u.level))
  {
    var top := CommunityQuery(users, communityId, limit);
    entries := [];
    var rank := 1;
    for k := 0 to |top|
      invariant rank == k + 1
      invariant |entries| == k
      invariant forall i :: 0 <= i < k ==> entries[i].userId == top[i] && entries[i].rank == i + 1
      invariant forall i :: 0 <= i < k ==> var u := users[top[i]];
        entries[i] == CommunityEntry(i + 1, top[i], u.username, u.displayName, u.photoURL, u.totalPoints, u.level)
    {
      var u := users[top[k]];
      entries := entries + [CommunityEntry(rank, top[k], u.username, u.displayName, u.photoURL, u.totalPoints, u.level)];
      rank := rank + 1;
    }
    if |entries| < limit {
      forall id | id in users && users[id].communityId == Some(communityId)
        ensures exists i :: 0 <= i < |entries| && entries[i].userId == id
      {
        var j :| 0 <= j < |top| && top[j] == id;
        assert entries[j].userId == id;
      }
    }
  }

  // ---------------------------------------------------------------------
  // getUserRank

  /** The users with strictly more points than `p` in field `f`: the query `where(field, '>', p)`. */
  function Above(users: map<string, User>, f: PointsField, p: nat): (r: set<string>)
    ensures r <= users.Keys
    ensures forall id :: id in r <==> Ranked(users, f, id) && Pts(users, f, id) > p
  {
    set id | id in users && PointsOf(users[id], f).Some? && PointsOf(users[id], f).value > p
  }

  lemma {:induction false} SubsetCard<T>(a: set<T>, b: set<T>)
    requires a <= b
    ensures |a| <= |b|
    decreases |b|
  {
    if a != {} {
      var x :| x in a;
      SubsetCard(a - {x}, b - {x});
    }
  }

  /** `((totalUsers - rank) / totalUsers * 100).toFixed(1)` in tenths: the nearest tenth, halves rounded up. */
  function PercentileTenths(total: nat, rank: nat): (t: nat)
    requires 1 <= rank <= total
    ensures 2 * total * t <= 2000 * (total - rank) + total < 2 * total * (t + 1)
    ensures t <= 1000
  {
    var n := 2000 * (total - rank) + total;
    var d := 2 * total;
    DivRange(n, d, 0, 1000);
    n / d
  }

  datatype RankInfo = RankInfo(rank: nat, points: nat, totalUsers: nat, percentileTenths: nat)

  /**
   * `getUserRank(userId, timeframe)`: one plus the number of users strictly
   * ahead. A user without the field (no daily points yet) makes the query
   * compare against undefined, which the store refuses.
   */
  function GetUserRank(users: map<string, User>, userId: string, timeframe: string): (r: Result<RankInfo>)
    ensures userId !in users ==> r == Err(UserNotFound)
    ensures userId in users && PointsOf(users[userId], FieldFor(timeframe)).None? ==> r == Err(InvalidQueryValue)
    ensures r.Ok? ==>
      && Ranked(users, FieldFor(timeframe), userId)
      && r.value.points == Pts(users, FieldFor(timeframe), userId)
      && r.value.rank == |Above(users, FieldFor(timeframe), r.value.points)| + 1
      && r.value.totalUsers == |users|
      && 1 <= r.value.rank <= r.value.totalUsers
      && r.value.percentileTenths <= 1000
      && r.value.percentileTenths == PercentileTenths(r.value.totalUsers, r.value.rank)
  {
    if userId !in users then Err(UserNotFound)
    else
      var f := FieldFor(timeframe);
      match PointsOf(users[userId], f)
      case None => Err(InvalidQueryValue)
      case Some(p) =>
        var above := Above(users, f, p);
        SubsetCard(above, users.Keys - {userId});
        var rank := |above| + 1;
        Ok(RankInfo(rank, p, |users|, PercentileTenths(|users|, rank)))
  }

  /** Users with equal points share a rank; more points give a strictly better rank. */
  lemma RankOrdersByPoints(users: map<string, User>, f: PointsField, a: string, b: string)
    requires Ranked(users, f, a) && Ranked(users, f, b)
    ensures Pts(users, f, a) == Pts(users, f, b) ==> |Above(users, f, Pts(users, f, a))| == |Above(users, f, Pts(users, f, b))|
    ensures Pts(users, f, a) > Pts(users, f, b) ==> |Above(users, f, Pts(users, f, a))| < |Above(users, f, Pts(users, f, b))|
  {
    var pa, pb := Pts(users, f, a), Pts(users, f, b);
    if pa > pb {
      var sa, sb := Above(users, f, pa), Above(users, f, pb);
      assert sa <= sb - {a};
      SubsetCard(sa, sb - {a});
    }
  }

  lemma {:induction false} SeqSetCard(s: seq<string>)
    ensures |set x | x in s| <= |s|
  {
    if s != [] {
      var init := s[..|s| - 1];
      SeqSetCard(init);
      assert (set x | x in s) == (set x | x in init) + {s[|s| - 1]};
    }
  }

  /** In any descending listing, the user at position `i` has a count-based rank of at most `i + 1`. */
  lemma RankWithinListing(users: map<string, User>, f: PointsField, ids: seq<string>, i: nat)
    requires DescListing(users, f, ids) && i < |ids|
    ensures |Above(users, f, Pts(users, f, ids[i]))| <= i
  {
    var above := Above(users, f, Pts(users, f, ids[i]));
    forall id | id in above
      ensures id in ids[..i]
    {
      assert Ranked(users, f, id);
      var j :| 0 <= j < |ids| && ids[j] == id;
      assert Pts(users, f, ids[j]) > Pts(users, f, ids[i]);
      assert j < i;
      assert ids[..i][j] == id;
    }
    SubsetCard(above, set x | x in ids[..i]);
    SeqSetCard(ids[..i]);
  }

  /** A percentile of 100.0 is reachable: rank 1 of 10000 users rounds up to it. */
  lemma PercentileReachesHundred()
    ensures PercentileTenths(10000, 1) == 1000
  {
  }

  /** Below 2000 users no rank rounds up to 100.0. */
  lemma PercentileBelowHundredForFewUsers(total: nat, rank: nat)
    requires 1 <= rank <= total < 2000
    ensures PercentileTenths(total, rank) < 1000
  {
  }

  // ---------------------------------------------------------------------
  // resetWeeklyPoints

  /** `resetWeeklyPoints()`: every user's weekly points become 0, nothing else changes. */
  method ResetWeeklyPoints(db: Db)
    modifies db
    ensures db.sessions == old(db.sessions) && db.completions == old(db.completions)
    ensures db.users.Keys == old(db.users).Keys
    ensures forall id :: id in db.users ==> db.users[id] == old(db.users)[id].(weeklyPoints := 0)
  {
    var pending := db.users.Keys;
    while pending != {}
      invariant db.sessions == old(db.sessions) && db.completions == old(db.completions)
      invariant db.users.Keys == old(db.users).Keys && pending <= db.users.Keys
      invariant forall id :: id in db.users ==>
        db.users[id] == if id in pending then old(db.users)[id] else old(db.users)[id].(weeklyPoints := 0)
      decreases |pending|
    {
      var id :| id in pending;
      db.users := db.users[id := db.users[id].(weeklyPoints := 0)];
      pending := pending - {id};
    }
  }

  /** Right after the reset every user is ranked first on the weekly board. */
  lemma ResetTiesWeeklyRanks(users: map<string, User>, userId: string)
    requires userId in users
    requires forall id :: id in users ==> users[id].weeklyPoints == 0
    ensures GetUserRank(users, userId, "weekly").Ok?
    ensures GetUserRank(users, userId, "weekly").value.rank == 1
  {
    assert Above(users, WeeklyPoints, 0) == {};
  }
}
