/**
 * The document store as one object: the `users` collection keyed by user id,
 * the append-only `gameSessions` and `dailyChallengeCompletions` collections,
 * and the two read-only catalogues. Every service call is one sequential,
 * atomic step on this object.
 */
module Store {
  import opened Domain

  /** Two writes of the same document leave only the later one. */
  lemma WriteTwice<V>(m: map<string, V>, k: string, a: V, b: V)
    ensures m[k := a][k := b] == m[k := b]
  {
  }

  class Db {
    var users: map<string, User>
    var sessions: seq<GameSession>
    var completions: seq<DailyCompletion>
    /** challenges.json: game type to its challenges. */
    const challenges: map<string, seq<Challenge>>
    /** badges.json */
    const badges: seq<Badge>

    constructor (challenges: map<string, seq<Challenge>>, badges: seq<Badge>)
      ensures users == map[] && sessions == [] && completions == []
      ensures this.challenges == challenges && this.badges == badges
    {
      this.challenges := challenges;
      this.badges := badges;
      users := map[];
      sessions := [];
      completions := [];
    }
  }
}
