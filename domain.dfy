/**
 * The records of the document store: user aggregates, game sessions, daily
 * completions, and the read-only catalogue entries (challenges and badges).
 * Timestamps (`lastActive`, `createdAt`, `updatedAt`, `completedAt`) are
 * integer day numbers supplied by the caller.
 */
module Domain {
  import opened Wrappers

  /** An answer a client sends, or a catalogue field: string, boolean, number or list of strings. */
  datatype Value = Str(s: string) | Bool(b: bool) | Num(n: int) | Strs(items: seq<string>)

  /** An entry of the challenge catalogue; `fields` holds the rest (question, options, red flags, hints). */
  datatype Challenge = Challenge(
    id: string,
    difficulty: string,
    correctAnswer: Value,
    explanation: string,
    fields: map<string, Value>)

  /** A challenge as clients see it: without `correctAnswer` and `explanation`. */
  datatype PublicChallenge = PublicChallenge(id: string, difficulty: string, fields: map<string, Value>)

  /** `({ correctAnswer, explanation, ...challenge }) => challenge` */
  function Strip(c: Challenge): PublicChallenge {
    PublicChallenge(c.id, c.difficulty, c.fields)
  }

  /** An entry of the badge catalogue. */
  datatype Badge = Badge(id: string, name: string, description: string, icon: string, rarity: string)

  // Achievement counter names.
  const GAMES_PLAYED: string := "games_played"
  const PHISHING_DETECTED: string := "phishing_detected"
  const PASSWORDS_CREATED: string := "passwords_created"
  const URLS_INSPECTED: string := "urls_inspected"
  const PERFECT_SCORES: string := "perfect_scores"
  const COMMUNITY_HELPS: string := "community_helps"

  /** The user document. `dailyPoints` is absent until the first daily challenge. */
  datatype User = User(
    uid: string,
    email: string,
    username: string,
    displayName: string,
    photoURL: Option<string>,
    bio: string,
    communityId: Option<string>,
    totalPoints: nat,
    weeklyPoints: nat,
    dailyPoints: Option<nat>,
    xp: nat,
    level: nat,
    streakDays: nat,
    badges: seq<string>,
    achievements: map<string, nat>,
    lastActive: int,
    lastDailyChallengeDate: Option<string>,
    createdAt: int,
    updatedAt: int)

  /** `achievements[key] || 0` */
  function Counter(u: User, key: string): nat {
    if key in u.achievements then u.achievements[key] else 0
  }

  /** One submitted answer. */
  datatype Answer = Answer(questionId: string, userAnswer: Value, timeTaken: int)

  /**
   * One graded answer. For a question that is not in the catalogue the source
   * records no `userAnswer` and no `timeTaken`, and a null `correctAnswer`.
   */
  datatype QuestionResult = QuestionResult(
    questionId: string,
    userAnswer: Option<Value>,
    correct: bool,
    correctAnswer: Option<Value>,
    explanation: string,
    timeTaken: Option<int>)

  /** A `gameSessions` document (its float `accuracy` is not kept). */
  datatype GameSession = GameSession(
    userId: string,
    gameType: string,
    results: seq<QuestionResult>,
    correctCount: nat,
    totalQuestions: nat,
    pointsEarned: nat,
    xpEarned: nat,
    completedAt: int)

  /** A `dailyChallengeCompletions` document. */
  datatype DailyCompletion = DailyCompletion(
    userId: string,
    date: string,
    challengeId: string,
    userAnswer: Value,
    isCorrect: bool,
    pointsEarned: nat,
    xpEarned: nat,
    timeTaken: int,
    completedAt: int)

  datatype Error =
    | UserNotFound          // "User not found"
    | UsernameTaken         // "Username already taken"
    | InvalidGameType       // "Invalid game type", or a TypeError on an unknown game type
    | AlreadyCompleted      // "Daily challenge already completed today"
    | MissingRecord         // a TypeError from reading a field of a missing user document
    | NoDocumentToUpdate    // the store refuses to update a missing document
    | ChallengeUnavailable  // a TypeError: no challenge at the computed daily index
    | MissingAnswer         // a TypeError: `answers[0]` is undefined
    | InvalidQueryValue     // the store refuses `where(field, '>', undefined)`
    | PasswordRequired      // "Password is required" (HTTP 400)
    | UndefinedReference    // a ReferenceError: a name used but never declared

  datatype Result<+T> = Ok(value: T) | Err(error: Error)
}
