/** Server-side sessions: the stored rows, the database's own constraints, and the effect of each
    operation on the table. Times are integers of microseconds. */
module Sessions {
  import opened Wrappers
  import opened Clock

  const SESSION_IDLE_TIMEOUT := 30 * 60 * SECOND
  const SESSION_ABSOLUTE_TIMEOUT := 8 * 60 * 60 * SECOND
  const SESSION_TOUCH_INTERVAL := 60 * SECOND

  /** A stored session; the table is keyed by its unique token digest. */
  datatype Session = Session(
    id: nat, user: nat, csrf: string,
    createdAt: int, lastSeenAt: int, idleExpiresAt: int, absoluteExpiresAt: int,
    revokedAt: Option<int>)

  /** `users` holds the active flag of each existing account. */
  datatype Store = Store(users: map<nat, bool>, sessions: map<string, Session>)

  datatype Account = Account(id: nat, active: bool)

  datatype AuthError =
    | DurationNotPositive
    | IdleExceedsAbsolute
    | BadDigest
    | HashesNotDistinct
    | RevokedBeforeCreation
    | IntegrityViolation

  datatype Op =
    | Rotate(user: nat, token: string, csrf: string, id: nat, now: int, idleFor: int, absoluteFor: int)
    | Create(user: nat, token: string, csrf: string, id: nat, now: int, expiresAt: int)
    | Touch(token: string, now: int, idleFor: int, writeInterval: int)
    | RevokeById(id: nat, now: int)
    | RevokeByToken(token: string, now: int)
    | RevokeUser(user: nat, now: int)

  datatype Reply = Row(session: Session) | NoRow | Count(revoked: nat)

  predicate ActiveAt(s: Session, now: int) {
    s.revokedAt.None? && now < s.idleExpiresAt && now < s.absoluteExpiresAt
  }

  /** What a stored record must satisfy: the record's own checks, which the table repeats. */
  predicate ValidSession(s: Session) {
    && s.createdAt < s.absoluteExpiresAt
    && s.createdAt <= s.lastSeenAt < s.idleExpiresAt <= s.absoluteExpiresAt
    && (s.revokedAt.Some? ==> s.createdAt <= s.revokedAt.value)
  }

  // ----- revocation as a set update

  datatype Target = ActiveOf(user: nat, now: int) | WithId(id: nat) | WithToken(token: string) | AllOf(user: nat)

  /** The rows an update statement selects. */
  predicate Selected(target: Target, token: string, s: Session) {
    match target
    case ActiveOf(user, now) => s.user == user && ActiveAt(s, now)
    case WithId(id) => s.id == id && s.revokedAt.None?
    case WithToken(t) => token == t && s.revokedAt.None?
    case AllOf(user) => s.user == user && s.revokedAt.None?
  }

  function SelectedTokens(sessions: map<string, Session>, target: Target): set<string> {
    set t | t in sessions && Selected(target, t, sessions[t])
  }

  function Revoked(sessions: map<string, Session>, target: Target, now: int): map<string, Session> {
    map t | t in sessions ::
      if Selected(target, t, sessions[t]) then sessions[t].(revokedAt := Some(now)) else sessions[t]
  }

  /** The table refuses a revocation stamped before the session was created. */
  predicate Revocable(sessions: map<string, Session>, target: Target, now: int) {
    forall t :: t in SelectedTokens(sessions, target) ==> sessions[t].createdAt <= now
  }

  // ----- the operations

  function RotateError(op: Op): Option<AuthError>
    requires op.Rotate?
  {
    if op.idleFor <= 0 || op.absoluteFor <= 0 then Some(DurationNotPositive)
    else if op.idleFor > op.absoluteFor then Some(IdleExceedsAbsolute)
    else if !IsSha256(op.token) || !IsSha256(op.csrf) then Some(BadDigest)
    else if op.token == op.csrf then Some(HashesNotDistinct)
    else None
  }

  /** The primary key and the two unique digests must be new. */
  predicate KeysTaken(sessions: map<string, Session>, token: string, csrf: string, id: nat) {
    || token in sessions
    || exists t :: t in sessions && (sessions[t].csrf == csrf || sessions[t].id == id)
  }

  function FreshSession(op: Op): Session
    requires op.Rotate?
  {
    Session(op.id, op.user, op.csrf, op.now, op.now, op.now + op.idleFor, op.now + op.absoluteFor, None)
  }

  function ApplyRotate(st: Store, op: Op): Result<(Store, Reply), AuthError>
    requires op.Rotate?
  {
    if RotateError(op).Some? then Failure(RotateError(op).value)
    else if !Revocable(st.sessions, ActiveOf(op.user, op.now), op.now) then Failure(RevokedBeforeCreation)
    else if op.user !in st.users || KeysTaken(st.sessions, op.token, op.csrf, op.id) then Failure(IntegrityViolation)
    else
      var row := FreshSession(op);
      Success((st.(sessions := Revoked(st.sessions, ActiveOf(op.user, op.now), op.now)[op.token := row]), Row(row)))
  }

  /** The compatibility entry point: an absolute instant instead of two durations. */
  function CreateAsRotate(op: Op): Op
    requires op.Create?
  {
    var absoluteFor := op.expiresAt - op.now;
    Rotate(op.user, op.token, op.csrf, op.id, op.now, Min(SESSION_IDLE_TIMEOUT, absoluteFor), absoluteFor)
  }

  function Touched(s: Session, now: int, idleFor: int, writeInterval: int): Session {
    if s.lastSeenAt <= now - writeInterval
    then s.(lastSeenAt := now, idleExpiresAt := Min(now + idleFor, s.absoluteExpiresAt))
    else s
  }

  function ApplyTouch(st: Store, op: Op): Result<(Store, Reply), AuthError>
    requires op.Touch?
  {
    if !IsSha256(op.token) then Failure(BadDigest)
    else if op.idleFor <= 0 || op.writeInterval <= 0 then Failure(DurationNotPositive)
    else if op.token !in st.sessions || !ActiveAt(st.sessions[op.token], op.now) then Success((st, NoRow))
    else
      var s := st.sessions[op.token];
      if s.user !in st.users || !st.users[s.user] then Success((st, NoRow))
      else
        var row := Touched(s, op.now, op.idleFor, op.writeInterval);
        Success((st.(sessions := st.sessions[op.token := row]), Row(row)))
  }

  function ApplyRevoke(st: Store, target: Target, now: int): Result<(Store, Reply), AuthError> {
    if !Revocable(st.sessions, target, now) then Failure(RevokedBeforeCreation)
    else Success((st.(sessions := Revoked(st.sessions, target, now)), Count(|SelectedTokens(st.sessions, target)|)))
  }

  function Apply(st: Store, op: Op): Result<(Store, Reply), AuthError> {
    match op
    case Rotate(_, _, _, _, _, _, _) => ApplyRotate(st, op)
    case Create(_, _, _, _, _, _) =>
      if op.expiresAt - op.now <= 0 then Failure(DurationNotPositive) else ApplyRotate(st, CreateAsRotate(op))
    case Touch(_, _, _, _) => ApplyTouch(st, op)
    case RevokeById(id, now) => ApplyRevoke(st, WithId(id), now)
    case RevokeByToken(token, now) =>
      if !IsSha256(token) then Failure(BadDigest) else ApplyRevoke(st, WithToken(token), now)
    case RevokeUser(user, now) => ApplyRevoke(st, AllOf(user), now)
  }

  /** A failed operation rolls its transaction back. */
  function Step(st: Store, op: Op): Store {
    var r := Apply(st, op);
    if r.Success? then r.value.0 else st
  }

  function Run(st: Store, ops: seq<Op>): Store
    decreases |ops|
  {
    if ops == [] then st else Run(Step(st, ops[0]), ops[1..])
  }

  /** The clock of a run never goes back, starting from `clock`. */
  predicate Forward(ops: seq<Op>, clock: int) {
    ops == [] || (clock <= ops[0].now && Forward(ops[1..], ops[0].now))
  }

  function LastClock(ops: seq<Op>, clock: int): int {
    if ops == [] then clock else LastClock(ops[1..], ops[0].now)
  }
}

/** The repository object: its methods update the table and are proved against the operations. */
module SessionRepository {
  import opened Wrappers
  import opened Clock
  import opened Sessions

  class AuthRepository {
    var users: map<nat, bool>
    var sessions: map<string, Session>

    constructor (users: map<nat, bool>)
      ensures this.users == users && sessions == map[]
    {
      this.users := users;
      sessions := map[];
    }

    function Store(): Sessions.Store
      reads this
    {
      Sessions.Store(users, sessions)
    }

    method RotateSession(
      user: nat, token: string, csrf: string, id: nat, now: int, idleFor: int, absoluteFor: int)
      returns (r: Result<Session, AuthError>)
      modifies this`sessions
      ensures var op := Rotate(user, token, csrf, id, now, idleFor, absoluteFor);
              && Store() == Step(old(Store()), op)
              && (r.Success? <==> Apply(old(Store()), op).Success?)
              && (r.Failure? ==> r.error == Apply(old(Store()), op).error)
      ensures r.Success? ==> token in sessions && sessions[token] == r.value && ActiveAt(r.value, now)
      ensures r.Success? ==>
                forall t :: t in sessions && t != token && sessions[t].user == user ==> !ActiveAt(sessions[t], now)
    {
      if idleFor <= 0 || absoluteFor <= 0 {
        return Failure(DurationNotPositive);
      }
      if idleFor > absoluteFor {
        return Failure(IdleExceedsAbsolute);
      }
      if !IsSha256(token) || !IsSha256(csrf) {
        return Failure(BadDigest);
      }
      if token == csrf {
        return Failure(HashesNotDistinct);
      }
      if !Revocable(sessions, ActiveOf(user, now), now) {
        return Failure(RevokedBeforeCreation);
      }
      if user !in users || KeysTaken(sessions, token, csrf, id) {
        return Failure(IntegrityViolation);
      }
      sessions := Revoked(sessions, ActiveOf(user, now), now);
      var row := Session(id, user, csrf, now, now, now + idleFor, now + absoluteFor, None);
      sessions := sessions[token := row];
      r := Success(row);
    }

    method CreateSession(user: nat, token: string, csrf: string, id: nat, now: int, expiresAt: int)
      returns (r: Result<nat, AuthError>)
      modifies this`sessions
      ensures var op := Create(user, token, csrf, id, now, expiresAt);
              && Store() == Step(old(Store()), op)
              && (r.Success? <==> Apply(old(Store()), op).Success?)
              && (r.Failure? ==> r.error == Apply(old(Store()), op).error)
              && (r.Success? ==> r.value == id && token in sessions && sessions[token].absoluteExpiresAt == expiresAt)
    {
      var absoluteFor := expiresAt - now;
      if absoluteFor <= 0 {
        return Failure(DurationNotPositive);
      }
      var row := RotateSession(user, token, csrf, id, now, Min(SESSION_IDLE_TIMEOUT, absoluteFor), absoluteFor);
      if row.Failure? {
        return Failure(row.error);
      }
      r := Success(row.value.id);
    }

    /** The session and its account, if both are still good. */
    method GetActiveSession(token: string, now: int) returns (r: Result<Option<(Session, Account)>, AuthError>)
      ensures r.Failure? <==> !IsSha256(token)
      ensures r.Failure? ==> r.error == BadDigest
      ensures r.Success? ==>
                (r.value.Some? <==> token in sessions && ActiveAt(sessions[token], now)
                                    && sessions[token].user in users && users[sessions[token].user])
      ensures r.Success? && r.value.Some? ==>
                r.value.value == (sessions[token], Account(sessions[token].user, true))
    {
      if !IsSha256(token) {
        return Failure(BadDigest);
      }
      if token !in sessions || !ActiveAt(sessions[token], now) {
        return Success(None);
      }
      var s := sessions[token];
      r := Success(if s.user in users && users[s.user] then Some((s, Account(s.user, users[s.user]))) else None);
    }

    method TouchActiveSession(token: string, now: int, idleFor: int, writeInterval: int)
      returns (r: Result<Option<Session>, AuthError>)
      modifies this`sessions
      ensures var op := Touch(token, now, idleFor, writeInterval);
              && Store() == Step(old(Store()), op)
              && (r.Success? <==> Apply(old(Store()), op).Success?)
              && (r.Failure? ==> r.error == Apply(old(Store()), op).error)
              && (r.Success? && r.value.Some? ==> Apply(old(Store()), op).value.1 == Row(r.value.value))
              && (r.Success? && r.value.None? ==> Apply(old(Store()), op).value.1 == NoRow)
    {
      if !IsSha256(token) {
        return Failure(BadDigest);
      }
      if idleFor <= 0 || writeInterval <= 0 {
        return Failure(DurationNotPositive);
      }
      if token !in sessions || !ActiveAt(sessions[token], now) {
        return Success(None);
      }
      var row := sessions[token];
      if row.user !in users || !users[row.user] {
        return Success(None);
      }
      if row.lastSeenAt <= now - writeInterval {
        row := row.(lastSeenAt := now, idleExpiresAt := Min(now + idleFor, row.absoluteExpiresAt));
      }
      sessions := sessions[token := row];
      r := Success(Some(row));
    }

    method RevokeSession(id: nat, now: int) returns (r: Result<bool, AuthError>)
      modifies this`sessions
      ensures Store() == Step(old(Store()), RevokeById(id, now))
      ensures r.Success? <==> Apply(old(Store()), RevokeById(id, now)).Success?
      ensures r.Failure? ==> r.error == Apply(old(Store()), RevokeById(id, now)).error
      ensures r.Success? ==>
                (r.value <==> exists t :: t in old(sessions) && old(sessions)[t].id == id && old(sessions)[t].revokedAt.None?)
    {
      r := Revoke(WithId(id), now);
    }

    method RevokeSessionByTokenHash(token: string, now: int) returns (r: Result<bool, AuthError>)
      modifies this`sessions
      ensures Store() == Step(old(Store()), RevokeByToken(token, now))
      ensures r.Success? <==> Apply(old(Store()), RevokeByToken(token, now)).Success?
      ensures r.Failure? ==> r.error == Apply(old(Store()), RevokeByToken(token, now)).error
      ensures r.Success? ==> (r.value <==> token in old(sessions) && old(sessions)[token].revokedAt.None?)
    {
      if !IsSha256(token) {
        return Failure(BadDigest);
      }
      r := Revoke(WithToken(token), now);
      assert SelectedTokens(old(sessions), WithToken(token))
          == if token in old(sessions) && old(sessions)[token].revokedAt.None? then {token} else {};
    }

    method RevokeUserSessions(user: nat, now: int) returns (r: Result<nat, AuthError>)
      modifies this`sessions
      ensures Store() == Step(old(Store()), RevokeUser(user, now))
      ensures r.Success? <==> Apply(old(Store()), RevokeUser(user, now)).Success?
      ensures r.Failure? ==> r.error == Apply(old(Store()), RevokeUser(user, now)).error
      ensures r.Success? ==>
                r.value == |set t | t in old(sessions) && old(sessions)[t].user == user && old(sessions)[t].revokedAt.None?|
    {
      if !Revocable(sessions, AllOf(user), now) {
        return Failure(RevokedBeforeCreation);
      }
      var count := |SelectedTokens(sessions, AllOf(user))|;
      assert SelectedTokens(sessions, AllOf(user))
          == set t | t in sessions && sessions[t].user == user && sessions[t].revokedAt.None?;
      sessions := Revoked(sessions, AllOf(user), now);
      r := Success(count);
    }

    /** One update statement that reports whether it touched a row. */
    method Revoke(target: Target, now: int) returns (r: Result<bool, AuthError>)
      modifies this`sessions
      ensures ApplyRevoke(old(Store()), target, now).Success? ==>
                && Store() == ApplyRevoke(old(Store()), target, now).value.0
                && r == Success(SelectedTokens(old(sessions), target) != {})
      ensures ApplyRevoke(old(Store()), target, now).Failure? ==>
                Store() == old(Store()) && r == Failure(RevokedBeforeCreation)
    {
      if !Revocable(sessions, target, now) {
        return Failure(RevokedBeforeCreation);
      }
      var touched := SelectedTokens(sessions, target) != {};
      sessions := Revoked(sessions, target, now);
      r := Success(touched);
    }
  }
}
