/** What each session operation does to the table, row by row and in the rows' own fields, and when
    it is refused. */
module SessionEffects {
  import opened Wrappers
  import opened Clock
  import opened Sessions

  // ----- revocations

  /** Revoking a user's sessions stamps each of theirs that bears no stamp, and touches no other row:
      afterwards none of them is active at any instant. It is refused exactly when one of them was
      created later than the stamp. */
  lemma RevokeUserExactly(st: Store, user: nat, now: int)
    ensures Apply(st, RevokeUser(user, now)).Failure? <==>
              exists t :: t in st.sessions && st.sessions[t].user == user && st.sessions[t].revokedAt.None? && now < st.sessions[t].createdAt
    ensures Apply(st, RevokeUser(user, now)).Success? ==>
              var (n, reply) := Apply(st, RevokeUser(user, now)).value;
              && n.users == st.users && n.sessions.Keys == st.sessions.Keys
              && (forall t :: t in st.sessions ==>
                    n.sessions[t] == if st.sessions[t].user == user && st.sessions[t].revokedAt.None?
                                     then st.sessions[t].(revokedAt := Some(now)) else st.sessions[t])
              && (forall t, at :: t in n.sessions && n.sessions[t].user == user ==> !ActiveAt(n.sessions[t], at))
              && reply == Count(|set t | t in st.sessions && st.sessions[t].user == user && st.sessions[t].revokedAt.None?|)
  {
    assert SelectedTokens(st.sessions, AllOf(user))
        == set t | t in st.sessions && st.sessions[t].user == user && st.sessions[t].revokedAt.None?;
  }

  /** Revoking by id stamps the rows of that id alone. */
  lemma RevokeByIdExactly(st: Store, id: nat, now: int)
    ensures Apply(st, RevokeById(id, now)).Failure? <==>
              exists t :: t in st.sessions && st.sessions[t].id == id && st.sessions[t].revokedAt.None? && now < st.sessions[t].createdAt
    ensures Apply(st, RevokeById(id, now)).Success? ==>
              var (n, reply) := Apply(st, RevokeById(id, now)).value;
              && n.users == st.users && n.sessions.Keys == st.sessions.Keys
              && (forall t :: t in st.sessions ==>
                    n.sessions[t] == if st.sessions[t].id == id && st.sessions[t].revokedAt.None?
                                     then st.sessions[t].(revokedAt := Some(now)) else st.sessions[t])
              && (forall t, at :: t in n.sessions && n.sessions[t].id == id ==> !ActiveAt(n.sessions[t], at))
              && reply == Count(|set t | t in st.sessions && st.sessions[t].id == id && st.sessions[t].revokedAt.None?|)
  {
    assert SelectedTokens(st.sessions, WithId(id))
        == set t | t in st.sessions && st.sessions[t].id == id && st.sessions[t].revokedAt.None?;
  }

  /** Revoking by token digest stamps the one row of that digest. */
  lemma RevokeByTokenExactly(st: Store, token: string, now: int)
    ensures Apply(st, RevokeByToken(token, now)).Failure? <==>
              !IsSha256(token)
              || (token in st.sessions && st.sessions[token].revokedAt.None? && now < st.sessions[token].createdAt)
    ensures Apply(st, RevokeByToken(token, now)).Success? ==>
              var (n, reply) := Apply(st, RevokeByToken(token, now)).value;
              && n.users == st.users && n.sessions.Keys == st.sessions.Keys
              && (forall t :: t in st.sessions ==>
                    n.sessions[t] == if t == token && st.sessions[t].revokedAt.None?
                                     then st.sessions[t].(revokedAt := Some(now)) else st.sessions[t])
              && (forall at :: token in n.sessions ==> !ActiveAt(n.sessions[token], at))
              && reply == Count(if token in st.sessions && st.sessions[token].revokedAt.None? then 1 else 0)
  {
    assert SelectedTokens(st.sessions, WithToken(token))
        == if token in st.sessions && st.sessions[token].revokedAt.None? then {token} else {};
  }

  // ----- rotation

  /** A rotation stamps the user's sessions that are active at its instant, adds one fresh row, and
      touches no other. */
  lemma RotationExactly(st: Store, user: nat, token: string, csrf: string, id: nat, now: int, idleFor: int, absoluteFor: int)
    requires Apply(st, Rotate(user, token, csrf, id, now, idleFor, absoluteFor)).Success?
    ensures var (n, reply) := Apply(st, Rotate(user, token, csrf, id, now, idleFor, absoluteFor)).value;
            && n.users == st.users && n.sessions.Keys == st.sessions.Keys + {token} && token !in st.sessions
            && n.sessions[token] == Session(id, user, csrf, now, now, now + idleFor, now + absoluteFor, None)
            && reply == Row(n.sessions[token])
            && (forall t :: t in st.sessions ==>
                  n.sessions[t] ==
                    if st.sessions[t].user == user && st.sessions[t].revokedAt.None?
                       && now < st.sessions[t].idleExpiresAt && now < st.sessions[t].absoluteExpiresAt
                    then st.sessions[t].(revokedAt := Some(now)) else st.sessions[t])
  {
  }

  /** Why a rotation is refused, in the order of the checks: a duration that is not positive, an idle
      time over the absolute one, a malformed digest, one digest for both purposes, an active session
      of the user created after the stamp, and last the table's keys. */
  lemma RotationRefusedExactly(st: Store, user: nat, token: string, csrf: string, id: nat, now: int, idleFor: int, absoluteFor: int)
    ensures var r := Apply(st, Rotate(user, token, csrf, id, now, idleFor, absoluteFor));
            var sound := 0 < idleFor <= absoluteFor;
            var digests := IsSha256(token) && IsSha256(csrf);
            var stampable :=
              forall t :: t in st.sessions && st.sessions[t].user == user && st.sessions[t].revokedAt.None?
                          && now < st.sessions[t].idleExpiresAt && now < st.sessions[t].absoluteExpiresAt
                ==> st.sessions[t].createdAt <= now;
            var unused :=
              && user in st.users && token !in st.sessions
              && forall t :: t in st.sessions ==> st.sessions[t].csrf != csrf && st.sessions[t].id != id;
            && (r == Failure(DurationNotPositive) <==> idleFor <= 0 || absoluteFor <= 0)
            && (r == Failure(IdleExceedsAbsolute) <==> 0 < absoluteFor < idleFor)
            && (r == Failure(BadDigest) <==> sound && !digests)
            && (r == Failure(HashesNotDistinct) <==> sound && digests && token == csrf)
            && (r == Failure(RevokedBeforeCreation) <==> sound && digests && token != csrf && !stampable)
            && (r == Failure(IntegrityViolation) <==> sound && digests && token != csrf && stampable && !unused)
            && (r.Success? <==> sound && digests && token != csrf && stampable && unused)
  {
    RotationChecks(st, Rotate(user, token, csrf, id, now, idleFor, absoluteFor));
  }

  lemma RotationChecks(st: Store, op: Op)
    requires op.Rotate?
    ensures Revocable(st.sessions, ActiveOf(op.user, op.now), op.now) <==>
              forall t :: t in st.sessions && st.sessions[t].user == op.user && st.sessions[t].revokedAt.None?
                          && op.now < st.sessions[t].idleExpiresAt && op.now < st.sessions[t].absoluteExpiresAt
                ==> st.sessions[t].createdAt <= op.now
    ensures !KeysTaken(st.sessions, op.token, op.csrf, op.id) <==>
              op.token !in st.sessions && forall t :: t in st.sessions ==> st.sessions[t].csrf != op.csrf && st.sessions[t].id != op.id
  {
  }

  /** The compatibility entry point is the rotation that ends at the given instant and is idle for at
      most half an hour. */
  lemma CreationExactly(st: Store, user: nat, token: string, csrf: string, id: nat, now: int, expiresAt: int)
    ensures expiresAt <= now ==> Apply(st, Create(user, token, csrf, id, now, expiresAt)) == Failure(DurationNotPositive)
    ensures now < expiresAt ==>
              Apply(st, Create(user, token, csrf, id, now, expiresAt))
              == Apply(st, Rotate(user, token, csrf, id, now,
                                  if expiresAt - now < 30 * MINUTE then expiresAt - now else 30 * MINUTE, expiresAt - now))
  {
  }

  // ----- touch

  /** A touch changes the last visit and the idle deadline of one active session of an active account,
      and only when the write interval has passed. */
  lemma TouchExactly(st: Store, token: string, now: int, idleFor: int, writeInterval: int)
    ensures var r := Apply(st, Touch(token, now, idleFor, writeInterval));
            var usable :=
              && token in st.sessions
              && st.sessions[token].revokedAt.None?
              && now < st.sessions[token].idleExpiresAt && now < st.sessions[token].absoluteExpiresAt
              && st.sessions[token].user in st.users && st.users[st.sessions[token].user];
            && (r == Failure(BadDigest) <==> !IsSha256(token))
            && (r == Failure(DurationNotPositive) <==> IsSha256(token) && (idleFor <= 0 || writeInterval <= 0))
            && (r.Success? <==> IsSha256(token) && 0 < idleFor && 0 < writeInterval)
            && (r.Success? && !usable ==> r.value == (st, NoRow))
            && (r.Success? && usable ==>
                  var s := st.sessions[token];
                  var row := if writeInterval <= now - s.lastSeenAt
                             then s.(lastSeenAt := now,
                                     idleExpiresAt := if now + idleFor < s.absoluteExpiresAt then now + idleFor else s.absoluteExpiresAt)
                             else s;
                  r.value == (st.(sessions := st.sessions[token := row]), Row(row)))
  {
  }
}
