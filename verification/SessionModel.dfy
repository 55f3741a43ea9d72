/**
 * Vocabulary shared by the two session stores: refresh tokens, the operations of the
 * SessionStore interface, and what each operation answers.
 *
 * A token and its SHA-256 hash are identified, since the hash is taken to be injective on
 * minted tokens. The random values an operation mints are parameters of the operation.
 */
module SessionModel {

  /** What a store knows about one refresh token. */
  datatype Token = Token(familyId: string, userId: string, expiresAt: int, used: bool)

  type Tokens = map<string, Token>

  datatype IssuedRefreshToken = IssuedRefreshToken(token: string, familyId: string, expiresAt: int)

  datatype RotationResult =
    | Rotated(userId: string, familyId: string, refresh: IssuedRefreshToken)
    | Invalid
    | Expired
    | ReuseDetected(userId: string, familyId: string)

  /** One call on a store, together with the fresh random values it draws. */
  datatype Op =
    | Create(userId: string, familyId: string, drawn: string)
    | Rotate(presented: string, drawn: string)
    | Revoke(presented: string)
    | RevokeUser(userId: string)

  datatype Step = Step(now: int, op: Op)

  datatype Outcome =
    | Opened(issued: IssuedRefreshToken)
    | Rotation(result: RotationResult)
    | Done

  predicate Draws(op: Op) {
    op.Create? || op.Rotate?
  }

  /** Randomness never repeats: no token hash and no family id is drawn twice in a run. */
  ghost predicate FreshRun(steps: seq<Step>) {
    && (forall i, j | 0 <= i < j < |steps| && Draws(steps[i].op) && Draws(steps[j].op) ::
          steps[i].op.drawn != steps[j].op.drawn)
    && (forall i, j | 0 <= i < j < |steps| && steps[i].op.Create? && steps[j].op.Create? ::
          steps[i].op.familyId != steps[j].op.familyId)
  }

  /** The clock never runs backwards. */
  ghost predicate ClockRun(steps: seq<Step>) {
    forall i, j | 0 <= i < j < |steps| :: steps[i].now <= steps[j].now
  }

  /** No token of family f is left. */
  ghost predicate FamilyGone(t: Tokens, f: string) {
    forall h | h in t :: t[h].familyId != f
  }

  /** No token of user u is left. */
  ghost predicate UserGone(t: Tokens, u: string) {
    forall h | h in t :: t[h].userId != u
  }

  /** Some step before k drew the hash. */
  ghost predicate DrawnBefore(steps: seq<Step>, k: nat, h: string)
    requires k <= |steps|
  {
    exists m :: 0 <= m < k && Draws(steps[m].op) && steps[m].op.drawn == h
  }

  /** Some step before k opened the family. */
  ghost predicate OpenedBefore(steps: seq<Step>, k: nat, f: string)
    requires k <= |steps|
  {
    exists m :: 0 <= m < k && steps[m].op.Create? && steps[m].op.familyId == f
  }
}
