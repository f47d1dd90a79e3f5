/** What whole runs of session operations keep: one active session a user, no resurrection, the
    idle and absolute time bounds, and what a forward clock is needed for. */
module SessionSafety {
  import opened Wrappers
  import opened Clock
  import opened Sessions

  ghost predicate AllValid(st: Store) {
    forall t :: t in st.sessions ==> ValidSession(st.sessions[t])
  }

  /** The idle deadline is always the last visit plus the idle time, cut at the absolute one. */
  ghost predicate IdleRule(st: Store, idleFor: int) {
    forall t :: t in st.sessions ==>
      st.sessions[t].idleExpiresAt == Min(st.sessions[t].lastSeenAt + idleFor, st.sessions[t].absoluteExpiresAt)
  }

  /** No row was written later than the clock. */
  ghost predicate WrittenBy(st: Store, clock: int) {
    forall t :: t in st.sessions ==> st.sessions[t].createdAt <= clock && st.sessions[t].lastSeenAt <= clock
  }

  ghost predicate OneActive(st: Store, clock: int) {
    forall t, u ::
      && t in st.sessions && u in st.sessions
      && st.sessions[t].user == st.sessions[u].user
      && ActiveAt(st.sessions[t], clock) && ActiveAt(st.sessions[u], clock)
      ==> t == u
  }

  predicate UsesIdle(op: Op, idleFor: int) {
    match op
    case Rotate(_, _, _, _, _, i, _) => i == idleFor
    case Create(_, _, _, _, _, _) => SESSION_IDLE_TIMEOUT == idleFor
    case Touch(_, _, i, _) => i == idleFor
    case _ => true
  }

  // ----- one step

  lemma StepKeepsValid(st: Store, op: Op)
    requires AllValid(st)
    ensures AllValid(Step(st, op))
  {
  }

  lemma StepKeepsIdleRule(st: Store, op: Op, idleFor: int)
    requires IdleRule(st, idleFor) && UsesIdle(op, idleFor)
    ensures IdleRule(Step(st, op), idleFor)
  {
  }

  lemma StepKeepsWrittenBy(st: Store, op: Op, clock: int)
    requires WrittenBy(st, clock) && clock <= op.now
    ensures WrittenBy(Step(st, op), op.now)
    ensures Apply(st, op) != Failure(RevokedBeforeCreation)
  {
  }

  /** An operation never loses a row, and never changes whose it is or when it must end. */
  lemma StepKeepsIdentity(st: Store, op: Op, token: string)
    requires token in st.sessions
    ensures token in Step(st, op).sessions
    ensures var before, after := st.sessions[token], Step(st, op).sessions[token];
            && after.id == before.id && after.user == before.user && after.csrf == before.csrf
            && after.createdAt == before.createdAt && after.absoluteExpiresAt == before.absoluteExpiresAt
            && (before.revokedAt.Some? ==> after.revokedAt == before.revokedAt)
  {
  }

  lemma StepKeepsDormant(st: Store, op: Op, token: string, clock: int)
    requires token in st.sessions && !ActiveAt(st.sessions[token], clock) && clock <= op.now
    ensures token in Step(st, op).sessions && !ActiveAt(Step(st, op).sessions[token], op.now)
  {
  }

  // ----- which steps leave two active sessions

  /** What is active later was active before, in the same row. */
  lemma ActiveEarlier(s: Session, before: int, at: int)
    requires before <= at && ActiveAt(s, at)
    ensures ActiveAt(s, before)
  {
  }

  /** A touch stamped before the clock that brings a session, expired by the clock, back beside
      another active one of its user. */
  predicate Revives(st: Store, op: Op, clock: int) {
    && op.Touch? && op.now < clock
    && IsSha256(op.token) && op.idleFor > 0 && op.writeInterval > 0
    && op.token in st.sessions
    && var s := st.sessions[op.token];
       && s.user in st.users && st.users[s.user]
       && s.revokedAt.None? && op.now < s.idleExpiresAt <= clock < s.absoluteExpiresAt
       && s.lastSeenAt <= op.now - op.writeInterval && clock < op.now + op.idleFor
       && exists u :: u in st.sessions && u != op.token && st.sessions[u].user == s.user && ActiveAt(st.sessions[u], clock)
  }

  lemma AddedIsAlone(st: Store, op: Op, token: string, other: string, at: int)
    requires token in Step(st, op).sessions && token !in st.sessions
    requires other in Step(st, op).sessions && other != token
    requires Step(st, op).sessions[other].user == Step(st, op).sessions[token].user
    requires op.now <= at
    ensures !ActiveAt(Step(st, op).sessions[other], at)
  {
    RotationIsAlone(st, op, token);
    assert !ActiveAt(Step(st, op).sessions[other], op.now);
  }

  lemma RevivalBreaks(st: Store, op: Op, clock: int)
    requires Revives(st, op, clock)
    ensures !OneActive(Step(st, op), clock)
  {
    var s := st.sessions[op.token];
    var u :| u in st.sessions && u != op.token && st.sessions[u].user == s.user && ActiveAt(st.sessions[u], clock);
    var n := Step(st, op).sessions;
    assert n == st.sessions[op.token := Touched(s, op.now, op.idleFor, op.writeInterval)];
    assert ActiveAt(n[op.token], clock) && ActiveAt(n[u], clock);
  }

  /** A row that was not active at the clock and is now, was revived by this very touch. */
  lemma OnlyTouchesRevive(st: Store, op: Op, token: string, clock: int, at: int)
    requires token in st.sessions && token in Step(st, op).sessions
    requires clock <= at && op.now <= at && (at == clock || at == op.now)
    requires !ActiveAt(st.sessions[token], clock) && ActiveAt(Step(st, op).sessions[token], at)
    ensures op.Touch? && op.token == token && op.now < clock == at
    ensures st.sessions[token].revokedAt.None?
    ensures op.now < st.sessions[token].idleExpiresAt <= clock < st.sessions[token].absoluteExpiresAt
    ensures st.sessions[token].lastSeenAt <= op.now - op.writeInterval && clock < op.now + op.idleFor
  {
  }

  lemma OthersUntouched(st: Store, op: Op, token: string)
    requires op.Touch? && token in st.sessions && token != op.token
    ensures token in Step(st, op).sessions && Step(st, op).sessions[token] == st.sessions[token]
  {
  }

  /** Two active rows after a step, at the clock or at the step if that is later, are one, unless a
      touch revived one of them. */
  lemma StillOne(st: Store, op: Op, clock: int, at: int, t: string, u: string)
    requires OneActive(st, clock) && at == Max(clock, op.now) && !Revives(st, op, clock)
    requires t in Step(st, op).sessions && u in Step(st, op).sessions
    requires Step(st, op).sessions[t].user == Step(st, op).sessions[u].user
    requires ActiveAt(Step(st, op).sessions[t], at) && ActiveAt(Step(st, op).sessions[u], at)
    ensures t == u
  {
    if t != u {
      if t !in st.sessions {
        AddedIsAlone(st, op, t, u, at);
      } else if u !in st.sessions {
        AddedIsAlone(st, op, u, t, at);
      } else {
        OldRowsStillOne(st, op, clock, at, t, u);
      }
    }
  }

  lemma OldRowsStillOne(st: Store, op: Op, clock: int, at: int, t: string, u: string)
    requires OneActive(st, clock) && at == Max(clock, op.now) && !Revives(st, op, clock)
    requires t in st.sessions && u in st.sessions
    requires t in Step(st, op).sessions && u in Step(st, op).sessions
    requires Step(st, op).sessions[t].user == Step(st, op).sessions[u].user
    requires ActiveAt(Step(st, op).sessions[t], at) && ActiveAt(Step(st, op).sessions[u], at)
    ensures t == u
  {
    StepKeepsIdentity(st, op, t);
    StepKeepsIdentity(st, op, u);
    if t != u && !ActiveAt(st.sessions[t], clock) {
      OnlyTouchesRevive(st, op, t, clock, at);
      RevivedBeside(st, op, clock, t, u);
    } else if t != u && !ActiveAt(st.sessions[u], clock) {
      OnlyTouchesRevive(st, op, u, clock, at);
      RevivedBeside(st, op, clock, u, t);
    }
  }

  lemma RevivedBeside(st: Store, op: Op, clock: int, t: string, u: string)
    requires op.Touch? && op.token == t && op.now < clock && t != u
    requires t in st.sessions && u in st.sessions && st.sessions[t].user == st.sessions[u].user
    requires !ActiveAt(st.sessions[t], clock)
    requires t in Step(st, op).sessions && ActiveAt(Step(st, op).sessions[t], clock)
    requires u in Step(st, op).sessions && ActiveAt(Step(st, op).sessions[u], clock)
    ensures Revives(st, op, clock)
  {
    OthersUntouched(st, op, u);
    OnlyTouchesRevive(st, op, t, clock, clock);
  }

  /** Whatever its stamp, a step leaves each user at most one active session, at the clock or at the
      step if that is later, if and only if it is not such a touch. */
  lemma StaleTouchesExactly(st: Store, op: Op, clock: int)
    requires OneActive(st, clock)
    ensures OneActive(Step(st, op), Max(clock, op.now)) <==> !Revives(st, op, clock)
  {
    if Revives(st, op, clock) {
      RevivalBreaks(st, op, clock);
    } else {
      var n := Step(st, op);
      forall t, u | t in n.sessions && u in n.sessions && n.sessions[t].user == n.sessions[u].user
                    && ActiveAt(n.sessions[t], Max(clock, op.now)) && ActiveAt(n.sessions[u], Max(clock, op.now))
        ensures t == u
      {
        StillOne(st, op, clock, Max(clock, op.now), t, u);
      }
    }
  }

  /** A session that an operation adds is its user's only active one at that instant. */
  lemma RotationIsAlone(st: Store, op: Op, token: string)
    requires token in Step(st, op).sessions && token !in st.sessions
    ensures forall u :: u in Step(st, op).sessions && u != token ==>
              Step(st, op).sessions[u].user == Step(st, op).sessions[token].user ==>
                !ActiveAt(Step(st, op).sessions[u], op.now)
  {
  }

  // ----- whole runs

  /** The instant is no earlier than any rotation of the user. */
  ghost predicate SinceRotation(st: Store, user: nat, at: int) {
    forall t :: t in st.sessions && st.sessions[t].user == user ==> st.sessions[t].createdAt <= at
  }

  /** From `floor` and their last rotation on, no user has two active sessions. */
  ghost predicate OneSinceRotation(st: Store, floor: int) {
    forall t, u, at ::
      && t in st.sessions && u in st.sessions && st.sessions[t].user == st.sessions[u].user
      && floor <= at && SinceRotation(st, st.sessions[t].user, at)
      && ActiveAt(st.sessions[t], at) && ActiveAt(st.sessions[u], at)
      ==> t == u
  }

  /** A touch is stamped no earlier than `floor` and its user's last rotation; no other operation's
      stamp matters. */
  ghost predicate Timely(st: Store, op: Op, floor: int) {
    op.Touch? && op.token in st.sessions ==>
      floor <= op.now && SinceRotation(st, st.sessions[op.token].user, op.now)
  }

  ghost predicate TimelyRun(st: Store, ops: seq<Op>, floor: int)
    decreases |ops|
  {
    ops == [] || (Timely(st, ops[0], floor) && TimelyRun(Step(st, ops[0]), ops[1..], floor))
  }

  lemma SinceRotationBefore(st: Store, op: Op, user: nat, at: int)
    requires SinceRotation(Step(st, op), user, at)
    ensures SinceRotation(st, user, at)
  {
    forall t | t in st.sessions && st.sessions[t].user == user
      ensures st.sessions[t].createdAt <= at
    {
      StepKeepsIdentity(st, op, t);
    }
  }

  lemma AddedNow(st: Store, op: Op, token: string)
    requires token in Step(st, op).sessions && token !in st.sessions
    ensures Step(st, op).sessions[token].createdAt == op.now
  {
  }

  /** Without a touch on it, a row that is active was so before the step. */
  lemma ActiveUntouched(st: Store, op: Op, token: string, at: int)
    requires token in st.sessions && token in Step(st, op).sessions
    requires op.Touch? ==> op.token != token
    ensures ActiveAt(Step(st, op).sessions[token], at) ==> ActiveAt(st.sessions[token], at)
  {
  }

  /** A row that a touch changed was active at the touch. */
  lemma TouchedWasActive(st: Store, op: Op, at: int)
    requires op.Touch? && op.token in st.sessions && op.token in Step(st, op).sessions
    ensures ActiveAt(Step(st, op).sessions[op.token], at) ==>
              ActiveAt(st.sessions[op.token], at) || ActiveAt(st.sessions[op.token], op.now)
  {
  }

  lemma NotBoth(st: Store, floor: int, t: string, u: string, at: int)
    requires OneSinceRotation(st, floor)
    requires t in st.sessions && u in st.sessions && t != u && st.sessions[t].user == st.sessions[u].user
    requires floor <= at && SinceRotation(st, st.sessions[t].user, at)
    ensures !ActiveAt(st.sessions[t], at) || !ActiveAt(st.sessions[u], at)
  {
  }

  /** Before the step, both rows would have been active at one instant since the rotation. */
  lemma BothBefore(st: Store, op: Op, floor: int, t: string, u: string, at: int)
    requires OneSinceRotation(st, floor) && Timely(st, op, floor)
    requires t in st.sessions && u in st.sessions && t != u && st.sessions[t].user == st.sessions[u].user
    requires floor <= at && SinceRotation(st, st.sessions[t].user, at)
    requires t in Step(st, op).sessions && u in Step(st, op).sessions
    requires op.Touch? ==> op.token != u
    ensures !ActiveAt(Step(st, op).sessions[t], at) || !ActiveAt(Step(st, op).sessions[u], at)
  {
    NotBoth(st, floor, t, u, at);
    ActiveUntouched(st, op, u, at);
    if op.Touch? && op.token == t {
      TouchedWasActive(st, op, at);
      NotBoth(st, floor, t, u, Min(at, op.now));
    } else {
      ActiveUntouched(st, op, t, at);
    }
  }

  lemma StepKeepsOneSinceRotation(st: Store, op: Op, floor: int)
    requires OneSinceRotation(st, floor) && Timely(st, op, floor)
    ensures OneSinceRotation(Step(st, op), floor)
  {
    var n := Step(st, op);
    forall t, u, at | t in n.sessions && u in n.sessions && n.sessions[t].user == n.sessions[u].user
                      && floor <= at && SinceRotation(n, n.sessions[t].user, at)
                      && ActiveAt(n.sessions[t], at) && ActiveAt(n.sessions[u], at)
      ensures t == u
    {
      OnePairSinceRotation(st, op, floor, t, u, at);
    }
  }

  lemma OnePairSinceRotation(st: Store, op: Op, floor: int, t: string, u: string, at: int)
    requires OneSinceRotation(st, floor) && Timely(st, op, floor) && floor <= at
    requires t in Step(st, op).sessions && u in Step(st, op).sessions
    requires Step(st, op).sessions[t].user == Step(st, op).sessions[u].user
    requires SinceRotation(Step(st, op), Step(st, op).sessions[t].user, at)
    requires ActiveAt(Step(st, op).sessions[t], at) && ActiveAt(Step(st, op).sessions[u], at)
    ensures t == u
  {
    SinceRotationBefore(st, op, Step(st, op).sessions[t].user, at);
    if t != u {
      if t !in st.sessions {
        AddedNow(st, op, t);
        AddedIsAlone(st, op, t, u, at);
      } else if u !in st.sessions {
        AddedNow(st, op, u);
        AddedIsAlone(st, op, u, t, at);
      } else {
        StepKeepsIdentity(st, op, t);
        StepKeepsIdentity(st, op, u);
        if op.Touch? && op.token == u {
          BothBefore(st, op, floor, u, t, at);
        } else {
          BothBefore(st, op, floor, t, u, at);
        }
      }
    }
  }

  /** However the clocks of rotations and revocations run, each user has at most one active session
      at every instant since their last rotation, as long as no touch is stamped before its user's
      last rotation. */
  lemma {:induction false} OneSessionIfTouchesAreTimely(st: Store, ops: seq<Op>, floor: int)
    requires OneSinceRotation(st, floor) && TimelyRun(st, ops, floor)
    ensures OneSinceRotation(Run(st, ops), floor)
    decreases |ops|
  {
    if ops != [] {
      StepKeepsOneSinceRotation(st, ops[0], floor);
      OneSessionIfTouchesAreTimely(Step(st, ops[0]), ops[1..], floor);
    }
  }

  lemma OneActiveStays(st: Store, clock: int)
    requires OneActive(st, clock)
    ensures OneSinceRotation(st, clock)
  {
    forall t, u, at | t in st.sessions && u in st.sessions && st.sessions[t].user == st.sessions[u].user
                      && clock <= at && ActiveAt(st.sessions[t], at) && ActiveAt(st.sessions[u], at)
      ensures t == u
    {
      ActiveEarlier(st.sessions[t], clock, at);
      ActiveEarlier(st.sessions[u], clock, at);
    }
  }

  /** On a forward clock every touch is timely. */
  lemma {:induction false} ForwardIsTimely(st: Store, ops: seq<Op>, clock: int, floor: int)
    requires WrittenBy(st, clock) && Forward(ops, clock) && floor <= clock
    ensures TimelyRun(st, ops, floor)
    ensures WrittenBy(Run(st, ops), LastClock(ops, clock)) && clock <= LastClock(ops, clock)
    decreases |ops|
  {
    if ops != [] {
      StepKeepsWrittenBy(st, ops[0], clock);
      ForwardIsTimely(Step(st, ops[0]), ops[1..], ops[0].now, floor);
    }
  }

  /** Over every run whose clock does not go back, each user has at most one active session, at
      the last instant of the run and at every later one. */
  lemma AtMostOneActiveSession(st: Store, ops: seq<Op>, clock: int, later: int)
    requires OneActive(st, clock) && WrittenBy(st, clock)
    requires Forward(ops, clock)
    requires LastClock(ops, clock) <= later
    ensures OneActive(Run(st, ops), later)
    ensures WrittenBy(Run(st, ops), LastClock(ops, clock))
  {
    OneActiveStays(st, clock);
    ForwardIsTimely(st, ops, clock, clock);
    OneSessionIfTouchesAreTimely(st, ops, clock);
    var end := Run(st, ops);
    forall t, u | t in end.sessions && u in end.sessions && end.sessions[t].user == end.sessions[u].user
                  && ActiveAt(end.sessions[t], later) && ActiveAt(end.sessions[u], later)
      ensures t == u
    {
      assert SinceRotation(end, end.sessions[t].user, later);
    }
  }

  /** Starting from no sessions at all. */
  lemma SingleSessionFromStart(users: map<nat, bool>, ops: seq<Op>, clock: int, later: int)
    requires Forward(ops, clock)
    requires LastClock(ops, clock) <= later
    ensures OneActive(Run(Store(users, map[]), ops), later)
  {
    AtMostOneActiveSession(Store(users, map[]), ops, clock, later);
  }

  /** A session once inactive, by revocation or by either deadline, is inactive for good. */
  lemma {:induction false} NoResurrection(st: Store, ops: seq<Op>, token: string, clock: int, later: int)
    requires token in st.sessions && !ActiveAt(st.sessions[token], clock)
    requires Forward(ops, clock)
    requires LastClock(ops, clock) <= later
    ensures token in Run(st, ops).sessions && !ActiveAt(Run(st, ops).sessions[token], later)
    decreases |ops|
  {
    if ops != [] {
      StepKeepsDormant(st, ops[0], token, clock);
      NoResurrection(Step(st, ops[0]), ops[1..], token, ops[0].now, later);
    }
  }

  /** Whatever the clock does, every stored session satisfies the record's own checks, and keeps
      the idle rule when every operation uses the one idle time. */
  lemma {:induction false} TimeBoundsHold(st: Store, ops: seq<Op>, idleFor: int)
    requires AllValid(st) && IdleRule(st, idleFor)
    requires forall i :: 0 <= i < |ops| ==> UsesIdle(ops[i], idleFor)
    ensures AllValid(Run(st, ops)) && IdleRule(Run(st, ops), idleFor)
    decreases |ops|
  {
    if ops != [] {
      StepKeepsValid(st, ops[0]);
      StepKeepsIdleRule(st, ops[0], idleFor);
      TimeBoundsHold(Step(st, ops[0]), ops[1..], idleFor);
    }
  }

  /** No run of any operations moves a session's absolute deadline or lets it live past it. */
  lemma {:induction false} AbsoluteDeadlineIsFinal(st: Store, ops: seq<Op>, token: string, at: int)
    requires token in st.sessions
    ensures token in Run(st, ops).sessions
    ensures Run(st, ops).sessions[token].absoluteExpiresAt == st.sessions[token].absoluteExpiresAt
    ensures st.sessions[token].absoluteExpiresAt <= at ==> !ActiveAt(Run(st, ops).sessions[token], at)
    ensures st.sessions[token].revokedAt.Some? ==> !ActiveAt(Run(st, ops).sessions[token], at)
    decreases |ops|
  {
    if ops != [] {
      StepKeepsIdentity(st, ops[0], token);
      AbsoluteDeadlineIsFinal(Step(st, ops[0]), ops[1..], token, at);
    }
  }

  /** After an accepted touch the session stays alive, untouched, until the idle time less one
      write interval has passed or its absolute deadline comes; and the stored visit moves only in
      steps of at least the write interval. */
  lemma AcceptedTouchKeepsAlive(st: Store, op: Op, idleFor: int, at: int)
    requires op.Touch? && op.idleFor == idleFor
    requires AllValid(st) && IdleRule(st, idleFor)
    requires Apply(st, op).Success? && Apply(st, op).value.1.Row?
    requires at < Min(op.now + idleFor - op.writeInterval, st.sessions[op.token].absoluteExpiresAt)
    ensures ActiveAt(Step(st, op).sessions[op.token], at)
    ensures var before, after := st.sessions[op.token].lastSeenAt, Step(st, op).sessions[op.token].lastSeenAt;
            after == before || after == op.now >= before + op.writeInterval
  {
  }

  // ----- a clock that goes back

  function Digest(c: char): (h: string)
    requires 'a' <= c <= 'f'
    ensures IsSha256(h) && h[0] == c
  {
    seq(64, _ => c)
  }

  function SkewedRun(): seq<Op> {
    [ Rotate(1, Digest('a'), Digest('c'), 1, 0, SESSION_IDLE_TIMEOUT, SESSION_ABSOLUTE_TIMEOUT),
      Rotate(1, Digest('b'), Digest('d'), 2, 40 * MINUTE, SESSION_IDLE_TIMEOUT, SESSION_ABSOLUTE_TIMEOUT),
      Touch(Digest('a'), 20 * MINUTE, SESSION_IDLE_TIMEOUT, SESSION_TOUCH_INTERVAL) ]
  }

  /** The forward clock is needed: a touch stamped before the last rotation revives an expired
      session beside the new one. */
  lemma BackwardClockGivesTwoSessions()
    ensures var end := Run(Store(map[1 := true], map[]), SkewedRun());
            && Digest('a') in end.sessions && Digest('b') in end.sessions && Digest('a') != Digest('b')
            && end.sessions[Digest('a')].user == end.sessions[Digest('b')].user
            && ActiveAt(end.sessions[Digest('a')], 45 * MINUTE)
            && ActiveAt(end.sessions[Digest('b')], 45 * MINUTE)
  {
    var ops := SkewedRun();
    var a, b, c, d := Digest('a'), Digest('b'), Digest('c'), Digest('d');
    assert a[0] == 'a' && b[0] == 'b' && c[0] == 'c' && d[0] == 'd';
    var s0 := Store(map[1 := true], map[]);
    var s1 := Step(s0, ops[0]);
    assert s1.sessions == map[Digest('a') := FreshSession(ops[0])];
    var s2 := Step(s1, ops[1]);
    assert SelectedTokens(s1.sessions, ActiveOf(1, 40 * MINUTE)) == {};
    assert s2.sessions == map[Digest('a') := FreshSession(ops[0]), Digest('b') := FreshSession(ops[1])];
    var s3 := Step(s2, ops[2]);
    assert Run(s0, ops) == Run(s1, ops[1..]) == Run(s2, ops[1..][1..]) == Run(s3, ops[1..][1..][1..]);
  }
}
