/** What every interleaving of the login limiter keeps: the lock table, the counts a running
    attempt relies on, the window bound on the table, and the serial reading of the history. */
module LimiterSafety {
  import opened Wrappers
  import opened Clock
  import opened RateWindow
  import opened LimiterProtocol

  /** Which parts of the state a step can touch. */
  lemma StepFrame(key: KeyOf, s: State, step: Step)
    requires Enabled(key, s, step)
    ensures var n := Next(key, s, step);
            && |s.txns| <= |n.txns|
            && (forall j :: 0 <= j < |s.txns| ==> n.txns[j].request == s.txns[j].request)
            && (!step.Commit? ==> n.log == s.log)
            && (!step.Commit? && !step.Prune? ==> n.rows == s.rows)
            && (!step.Prune? ==> n.mark == s.mark)
            && (n.pruneSafe <==> s.pruneSafe && AboveMark(n.txns, n.mark))
  {
  }

  lemma AcquireKeepsLocks(key: KeyOf, s: State, i: nat)
    requires LocksConsistent(key, s) && Enabled(key, s, Acquire(i))
    ensures LocksConsistent(key, Next(key, s, Acquire(i)))
  {
    var n := Next(key, s, Acquire(i));
    var plan := Plan(key, s.txns[i].request);
    var k := plan[s.txns[i].phase.held];
    assert HeldKeys(key, n.txns[i]) == HeldKeys(key, s.txns[i]) + {k};
    assert n.locks == s.locks[k := i];
    KeysKept(key, s, n, i);
  }

  /** Every other transaction holds what it held, and the lock table names the keys of this one. */
  lemma KeysKept(key: KeyOf, s: State, n: State, i: nat)
    requires LocksConsistent(key, s) && i < |n.txns| && |s.txns| <= |n.txns|
    requires i == |s.txns| || |n.txns| == |s.txns|
    requires forall j :: 0 <= j < |n.txns| && j != i ==> j < |s.txns| && n.txns[j] == s.txns[j]
    requires Held(key, n.txns[i]) <= |Plan(key, n.txns[i].request)|
    requires forall k :: k in n.locks && n.locks[k] != i ==> k in s.locks && n.locks[k] == s.locks[k]
    requires forall k :: k in s.locks && s.locks[k] != i ==> k in n.locks && n.locks[k] == s.locks[k]
    requires forall k :: k in HeldKeys(key, n.txns[i]) <==> k in n.locks && n.locks[k] == i
    ensures LocksConsistent(key, n)
  {
    forall j, k | 0 <= j < |n.txns|
      ensures k in HeldKeys(key, n.txns[j]) <==> k in n.locks && n.locks[k] == j
    {
      assert j != i ==> HeldKeys(key, n.txns[j]) == HeldKeys(key, s.txns[j]);
    }
  }

  lemma BeginKeepsLocks(key: KeyOf, s: State, req: LoginRequest, n: State)
    requires LocksConsistent(key, s)
    requires n.txns == s.txns + [Txn(req, Locking(0))] && n.locks == s.locks
    ensures LocksConsistent(key, n)
  {
    assert HeldKeys(key, n.txns[|s.txns|]) == {};
    KeysKept(key, s, n, |s.txns|);
  }

  lemma DropKeepsLocks(key: KeyOf, s: State, i: nat, n: State)
    requires LocksConsistent(key, s) && i < |s.txns|
    requires n.txns == s.txns[i := s.txns[i].(phase := Finished)]
    requires n.locks == Freed(s.locks, i)
    ensures LocksConsistent(key, n)
  {
    assert HeldKeys(key, n.txns[i]) == {};
    KeysKept(key, s, n, i);
  }

  lemma PhaseKeepsLocks(key: KeyOf, s: State, i: nat, t: Txn, n: State)
    requires LocksConsistent(key, s) && i < |s.txns|
    requires t.request == s.txns[i].request && Held(key, t) == Held(key, s.txns[i])
    requires n.txns == s.txns[i := t] && n.locks == s.locks
    ensures LocksConsistent(key, n)
  {
    assert HeldKeys(key, n.txns[i]) == HeldKeys(key, s.txns[i]);
    KeysKept(key, s, n, i);
  }

  lemma LocksKept(key: KeyOf, s: State, step: Step)
    requires LocksConsistent(key, s) && Enabled(key, s, step)
    ensures LocksConsistent(key, Next(key, s, step))
  {
    var n := Next(key, s, step);
    match step {
      case Begin(req) => BeginKeepsLocks(key, s, req, n);
      case Prune(_) =>
      case Acquire(i) => AcquireKeepsLocks(key, s, i);
      case Release(i) => DropKeepsLocks(key, s, i, n);
      case Abort(i) => DropKeepsLocks(key, s, i, n);
      case _ => PhaseStepKeepsLocks(key, s, step);
    }
  }

  lemma PhaseStepKeepsLocks(key: KeyOf, s: State, step: Step)
    requires LocksConsistent(key, s) && Enabled(key, s, step)
    requires step.CountUsername? || step.CountClient? || step.Decide? || step.Commit?
    ensures LocksConsistent(key, Next(key, s, step))
  {
    var n := Next(key, s, step);
    PhaseKeepsLocks(key, s, step.id, n.txns[step.id], n);
  }

  /** Two transactions that hold all their locks work on different subjects. */
  lemma Exclusive(key: KeyOf, s: State, i: nat, j: nat, d: Dimension)
    requires LocksConsistent(key, s)
    requires i < |s.txns| && j < |s.txns| && i != j
    requires Held(key, s.txns[i]) == |Plan(key, s.txns[i].request)|
    requires Held(key, s.txns[j]) == |Plan(key, s.txns[j].request)|
    ensures s.txns[i].request.Of(d) != s.txns[j].request.Of(d)
  {
    AllHeld(key, s.txns[i], d);
    AllHeld(key, s.txns[j], d);
    assert s.locks[key(s.txns[i].request.Of(d))] == i;
    assert s.locks[key(s.txns[j].request.Of(d))] == j;
  }

  lemma AllHeld(key: KeyOf, t: Txn, d: Dimension)
    requires Held(key, t) == |Plan(key, t.request)|
    ensures key(t.request.Of(d)) in HeldKeys(key, t)
  {
    var plan := Plan(key, t.request);
    if |plan| == 2 {
      assert Prefix(plan, 2) == Prefix(plan, 1) + {plan[1]};
    }
    assert Prefix(plan, 1) == Prefix(plan, 0) + {plan[0]};
  }

  lemma NewRowsAreOthers(rows: seq<Reservation>, req: LoginRequest, allowed: bool, s: Subject, start: int)
    requires req.Of(Username) != s && req.Of(Client) != s
    ensures WindowState(rows + NewRows(req, allowed), s, start) == WindowState(rows, s, start)
  {
    if allowed {
      var u, c := Reservation(req.Of(Username), req.now), Reservation(req.Of(Client), req.now);
      assert rows + NewRows(req, allowed) == rows + [u] + [c];
      assert (rows + [u] + [c])[..|rows| + 1] == rows + [u];
      assert (rows + [u])[..|rows|] == rows;
    } else {
      assert rows + NewRows(req, allowed) == rows;
    }
  }

  /** Appending the same rows to two tables that count alike leaves them counting alike. */
  lemma SameRowsSameCount(
    a: seq<Reservation>, b: seq<Reservation>, req: LoginRequest, allowed: bool, s: Subject, start: int)
    requires WindowState(a, s, start) == WindowState(b, s, start)
    ensures WindowState(a + NewRows(req, allowed), s, start) == WindowState(b + NewRows(req, allowed), s, start)
  {
    if allowed {
      var u, c := Reservation(req.Of(Username), req.now), Reservation(req.Of(Client), req.now);
      assert a + NewRows(req, allowed) == a + [u] + [c];
      assert b + NewRows(req, allowed) == b + [u] + [c];
      assert (a + [u] + [c])[..|a| + 1] == a + [u] && (a + [u])[..|a|] == a;
      assert (b + [u] + [c])[..|b| + 1] == b + [u] && (b + [u])[..|b|] == b;
    } else {
      assert a + NewRows(req, allowed) == a && b + NewRows(req, allowed) == b;
    }
  }

  lemma GrantedAppend(log: seq<Entry>, e: Entry)
    ensures Granted(log + [e]) == Granted(log) + NewRows(e.request, e.decision.allowed)
  {
    assert (log + [e])[..|log|] == log;
  }

  lemma TalliesCoverKept(key: KeyOf, s: State, step: Step, j: nat)
    requires LocksConsistent(key, s) && Enabled(key, s, step) && j < |Next(key, s, step).txns|
    requires j < |s.txns| ==> TalliesCover(s.txns[j], s.rows)
    ensures TalliesCover(Next(key, s, step).txns[j], Next(key, s, step).rows)
  {
    var n := Next(key, s, step);
    var t := n.txns[j];
    match step {
      case Prune(before) =>
        KeepCountsLess(s.rows, before, t.request.Of(Username), 0, 0);
        KeepCountsLess(s.rows, before, t.request.Of(Client), 0, 0);
      case Commit(i) =>
        if j != i && Running(t) && !t.phase.Locking? {
          Exclusive(key, s, i, j, Username);
          Exclusive(key, s, i, j, Client);
          var d := s.txns[i].phase.decision;
          NewRowsAreOthers(s.rows, s.txns[i].request, d.allowed, t.request.Of(Username), t.request.Start(Username));
          NewRowsAreOthers(s.rows, s.txns[i].request, d.allowed, t.request.Of(Client), t.request.Start(Client));
        }
      case _ =>
    }
  }

  lemma TableBoundedKept(key: KeyOf, s: State, step: Step)
    requires Inv(key, s) && Enabled(key, s, step)
    ensures TableBounded(Next(key, s, step))
  {
    var n := Next(key, s, step);
    forall subject, limit, window | Complies(n.txns, subject, limit, window)
      ensures Bounded(n.rows, subject, limit, window)
    {
      assert Complies(s.txns, subject, limit, window) by {
        forall i | 0 <= i < |s.txns|
          ensures RequestComplies(s.txns[i].request, subject, limit, window)
        {
          assert RequestComplies(n.txns[i].request, subject, limit, window);
        }
      }
      match step {
        case Prune(before) => PruneKeepsBound(s.rows, before, subject, limit, window);
        case Commit(i) => CommitKeepsBound(s.txns[i], s.rows, subject, limit, window);
        case _ =>
      }
    }
  }

  lemma CommitKeepsBound(t: Txn, rows: seq<Reservation>, s: Subject, limit: int, window: int)
    requires t.phase.Decided? && TalliesCover(t, rows)
    requires RequestComplies(t.request, s, limit, window)
    requires Bounded(rows, s, limit, window)
    ensures Bounded(rows + NewRows(t.request, t.phase.decision.allowed), s, limit, window)
  {
    if t.phase.decision.allowed {
      var user, client :|
        && t.phase.decision == RateWindow.Decide(t.request, user, client)
        && Covers(user, rows, t.request, Username)
        && Covers(client, rows, t.request, Client);
      AttemptKeepsBound(rows, t.request, user.count, client.count, s, limit, window);
    } else {
      assert rows + [] == rows;
    }
  }

  lemma TableMatchesHistoryKept(key: KeyOf, s: State, step: Step)
    requires TableMatchesHistory(s) && Enabled(key, s, step)
    ensures TableMatchesHistory(Next(key, s, step))
  {
    var n := Next(key, s, step);
    match step {
      case Prune(before) =>
        forall subject, start | n.mark.value <= start + 1
          ensures WindowState(n.rows, subject, start) == WindowState(Granted(n.log), subject, start)
        {
          PruneInvisible(s.rows, before, subject, start);
        }
      case Commit(i) =>
        var e := Entry(s.txns[i].request, s.txns[i].phase.decision);
        GrantedAppend(s.log, e);
        forall subject, start | s.mark.None? || s.mark.value <= start + 1
          ensures WindowState(n.rows, subject, start) == WindowState(Granted(n.log), subject, start)
        {
          SameRowsSameCount(s.rows, Granted(s.log), e.request, e.decision.allowed, subject, start);
        }
      case _ =>
    }
  }

  lemma HistoryKept(key: KeyOf, s: State, step: Step)
    requires LogFromTxns(s) && Enabled(key, s, step)
    requires s.pruneSafe ==> Serial(s.log)
    requires s.pruneSafe ==> forall i :: 0 <= i < |s.txns| ==> TalliesExact(s.txns[i], Granted(s.log))
    ensures LogFromTxns(Next(key, s, step))
    ensures Next(key, s, step).pruneSafe ==> Serial(Next(key, s, step).log)
  {
    LogStaysAsked(key, s, step);
    var n := Next(key, s, step);
    StepFrame(key, s, step);
    if n.pruneSafe {
      forall k | 0 <= k < |n.log|
        ensures n.log[k].decision == Verdict(Granted(n.log[..k]), n.log[k].request)
      {
        if k < |s.log| {
          assert n.log[k] == s.log[k] && n.log[..k] == s.log[..k];
          assert s.log[k].decision == Verdict(Granted(s.log[..k]), s.log[k].request);
        } else {
          assert n.log[..k] == s.log;
          assert TalliesExact(s.txns[step.id], Granted(s.log));
        }
      }
    }
  }

  lemma LogStaysAsked(key: KeyOf, s: State, step: Step)
    requires LogFromTxns(s) && Enabled(key, s, step)
    ensures LogFromTxns(Next(key, s, step))
  {
    var n := Next(key, s, step);
    StepFrame(key, s, step);
    forall k | 0 <= k < |n.log|
      ensures Asked(n.txns, n.log[k].request)
    {
      if k < |s.log| {
        assert s.log[k] == n.log[k];
        assert Asked(s.txns, s.log[k].request);
        var i :| 0 <= i < |s.txns| && s.txns[i].request == s.log[k].request;
        assert n.txns[i].request == n.log[k].request;
      } else {
        assert n.txns[step.id].request == n.log[k].request;
      }
    }
  }

  lemma TalliesExactKept(key: KeyOf, s: State, step: Step, j: nat)
    requires LocksConsistent(key, s) && TableMatchesHistory(s)
    requires Enabled(key, s, step) && j < |Next(key, s, step).txns|
    requires Next(key, s, step).pruneSafe
    requires j < |s.txns| ==> TalliesExact(s.txns[j], Granted(s.log))
    ensures TalliesExact(Next(key, s, step).txns[j], Granted(Next(key, s, step).log))
  {
    var n := Next(key, s, step);
    var t := n.txns[j];
    match step {
      case CountUsername(i) =>
        if i == j {
          assert Running(t) && AboveMark(n.txns, n.mark);
        }
      case CountClient(i) =>
        if i == j {
          assert Running(t) && AboveMark(n.txns, n.mark);
        }
      case Commit(i) =>
        var e := Entry(s.txns[i].request, s.txns[i].phase.decision);
        GrantedAppend(s.log, e);
        if j != i && Running(t) && !t.phase.Locking? {
          Exclusive(key, s, i, j, Username);
          Exclusive(key, s, i, j, Client);
          NewRowsAreOthers(Granted(s.log), e.request, e.decision.allowed,
                           t.request.Of(Username), t.request.Start(Username));
          NewRowsAreOthers(Granted(s.log), e.request, e.decision.allowed,
                           t.request.Of(Client), t.request.Start(Client));
        }
      case _ =>
    }
  }

  lemma InvKept(key: KeyOf, s: State, step: Step)
    requires Inv(key, s) && Enabled(key, s, step)
    ensures Inv(key, Next(key, s, step))
  {
    var n := Next(key, s, step);
    LocksKept(key, s, step);
    TableBoundedKept(key, s, step);
    TableMatchesHistoryKept(key, s, step);
    HistoryKept(key, s, step);
    forall j | 0 <= j < |n.txns|
      ensures TalliesCover(n.txns[j], n.rows)
      ensures n.pruneSafe ==> TalliesExact(n.txns[j], Granted(n.log))
    {
      TalliesCoverKept(key, s, step, j);
      if n.pruneSafe {
        TalliesExactKept(key, s, step, j);
      }
    }
  }

  lemma InvInitially(key: KeyOf)
    ensures Inv(key, INITIAL)
  {
    forall subject, limit, window | Complies(INITIAL.txns, subject, limit, window)
      ensures Bounded(INITIAL.rows, subject, limit, window)
    {
    }
  }

  lemma {:induction false} InvAlongRun(key: KeyOf, s: State, steps: seq<Step>)
    requires Inv(key, s)
    ensures Exec(key, s, steps).Some? ==> Inv(key, Exec(key, s, steps).value)
    decreases |steps|
  {
    if steps != [] && Enabled(key, s, steps[0]) {
      InvKept(key, s, steps[0]);
      InvAlongRun(key, Next(key, s, steps[0]), steps[1..]);
    }
  }

  lemma ReachableInv(key: KeyOf, s: State)
    requires Reachable(key, s)
    ensures Inv(key, s)
  {
    var steps :| Exec(key, INITIAL, steps) == Some(s);
    InvInitially(key);
    InvAlongRun(key, INITIAL, steps);
  }

  // ----- main results

  /** Under every interleaving and every clock, the table never holds more than `limit` stamps of
      a subject in any interval of length `window`, if its attempts asked for no more than that. */
  lemma WindowBoundUnderInterleaving(
    key: KeyOf, s: State, subject: Subject, limit: int, window: int, t: int)
    requires Reachable(key, s)
    requires Complies(s.txns, subject, limit, window)
    ensures CountIn(s.rows, subject, t - window, t) <= limit
  {
    ReachableInv(key, s);
    assert Bounded(s.rows, subject, limit, window);
  }

  /** While no attempt ran below a prune cut, the interleaved run decided exactly what running the
      attempts one at a time, in commit order, would have decided, and the bound holds of every
      reservation ever granted, pruned or not. */
  lemma InterleavedRunIsSerial(
    key: KeyOf, s: State, subject: Subject, limit: int, window: int, t: int)
    requires Reachable(key, s)
    requires s.pruneSafe
    ensures Serial(s.log)
    ensures Complies(s.txns, subject, limit, window) ==>
              CountIn(Granted(s.log), subject, t - window, t) <= limit
  {
    ReachableInv(key, s);
    if Complies(s.txns, subject, limit, window) {
      forall k | 0 <= k < |s.log|
        ensures RequestComplies(s.log[k].request, subject, limit, window)
      {
        assert Asked(s.txns, s.log[k].request);
      }
      SerialLogBounded(s.log, subject, limit, window);
    }
  }

  lemma SerialStep(log: seq<Entry>, init: seq<Entry>, last: Entry)
    requires log == init + [last] && Serial(log)
    ensures Serial(init) && Granted(log) == After(Granted(init), last.request)
  {
    forall k | 0 <= k < |init|
      ensures init[k].decision == Verdict(Granted(init[..k]), init[k].request)
    {
      assert init[k] == log[k] && init[..k] == log[..k];
    }
    assert log[|init|] == last && log[..|init|] == init;
  }

  lemma LastApart<T>(s: seq<T>)
    requires s != []
    ensures s == s[..|s| - 1] + [s[|s| - 1]]
  {
  }

  lemma StepKeepsBound(log: seq<Entry>, init: seq<Entry>, last: Entry, s: Subject, limit: int, window: int)
    requires Granted(log) == After(Granted(init), last.request)
    requires Bounded(Granted(init), s, limit, window) && RequestComplies(last.request, s, limit, window)
    ensures Bounded(Granted(log), s, limit, window)
  {
    VerdictKeepsBound(Granted(init), last.request, s, limit, window);
  }

  lemma {:induction false} SerialLogBounded(log: seq<Entry>, s: Subject, limit: int, window: int)
    requires Serial(log)
    requires 0 <= limit
    requires forall k :: 0 <= k < |log| ==> RequestComplies(log[k].request, s, limit, window)
    ensures Bounded(Granted(log), s, limit, window)
  {
    if log != [] {
      var init, last := log[..|log| - 1], log[|log| - 1];
      LastApart(log);
      SerialStep(log, init, last);
      assert RequestComplies(last.request, s, limit, window);
      SerialLogBounded(init, s, limit, window);
      StepKeepsBound(log, init, last, s, limit, window);
    }
  }

  /** A whole attempt keeps the bound of every subject whose limits it complies with. */
  lemma VerdictKeepsBound(rows: seq<Reservation>, req: LoginRequest, s: Subject, limit: int, window: int)
    requires Bounded(rows, s, limit, window) && RequestComplies(req, s, limit, window)
    ensures Bounded(After(rows, req), s, limit, window)
  {
    if Verdict(rows, req).allowed {
      AttemptKeepsBound(rows, req,
                        WindowState(rows, req.Of(Username), req.Start(Username)).count,
                        WindowState(rows, req.Of(Client), req.Start(Client)).count,
                        s, limit, window);
    } else {
      assert rows + [] == rows;
    }
  }

  /** The deployed limits: ten reservations a username in fifteen minutes, twenty a client in one. */
  lemma DefaultLimits(key: KeyOf, s: State, hash: string, t: int)
    requires Reachable(key, s)
    requires forall i :: 0 <= i < |s.txns| ==>
               && s.txns[i].request.usernameLimit == USERNAME_RATE_LIMIT
               && s.txns[i].request.usernameWindow == USERNAME_RATE_WINDOW
               && s.txns[i].request.clientLimit == CLIENT_RATE_LIMIT
               && s.txns[i].request.clientWindow == CLIENT_RATE_WINDOW
    ensures CountIn(s.rows, Subject(Username, hash), t - 900 * SECOND, t) <= 10
    ensures CountIn(s.rows, Subject(Client, hash), t - 60 * SECOND, t) <= 20
  {
    WindowBoundUnderInterleaving(key, s, Subject(Username, hash), USERNAME_RATE_LIMIT, USERNAME_RATE_WINDOW, t);
    WindowBoundUnderInterleaving(key, s, Subject(Client, hash), CLIENT_RATE_LIMIT, CLIENT_RATE_WINDOW, t);
  }

  /** In every reachable table that the clock has not run ahead of, the retry instant of a denied
      attempt is exact: denied at every earlier instant, allowed from that instant on. */
  lemma RetryInstantIsExact(key: KeyOf, s: State, req: LoginRequest, now: int)
    requires Reachable(key, s)
    requires WellFormed(req)
    requires forall d: Dimension :: Complies(s.txns, req.Of(d), req.Limit(d), req.Window(d))
    requires forall i :: 0 <= i < |s.txns| ==> s.txns[i].request.now <= req.now
    requires !Verdict(s.rows, req).allowed
    ensures Verdict(s.rows, req).retryAt.Some?
    ensures Verdict(s.rows, req.(now := now)).allowed <==> Verdict(s.rows, req).retryAt.value <= now
  {
    ReachableInv(key, s);
    DeniedHasRetry(s.rows, req);
    if Verdict(s.rows, req).retryAt.value <= now {
      var steps :| Exec(key, INITIAL, steps) == Some(s);
      RowsAreStamped(key, INITIAL, steps);
      forall d: Dimension
        ensures Bounded(s.rows, req.Of(d), req.Limit(d), req.Window(d))
      {
        assert Complies(s.txns, req.Of(d), req.Limit(d), req.Window(d));
      }
      AllowedFromRetry(s.rows, req, now);
    } else {
      DeniedUntilRetry(s.rows, req, now);
    }
  }

  ghost predicate Stamped(s: State) {
    forall r :: r in s.rows ==> exists i :: 0 <= i < |s.txns| && s.txns[i].request.now == r.at
  }

  lemma {:induction false} KeepIsSubset(rows: seq<Reservation>, before: int)
    ensures forall r :: r in Keep(rows, before) ==> r in rows
  {
    if rows != [] {
      KeepIsSubset(rows[..|rows| - 1], before);
    }
  }

  lemma {:induction false} RowsAreStamped(key: KeyOf, s: State, steps: seq<Step>)
    requires Stamped(s)
    ensures Exec(key, s, steps).Some? ==> Stamped(Exec(key, s, steps).value)
    decreases |steps|
  {
    if steps != [] && Enabled(key, s, steps[0]) {
      var n := Next(key, s, steps[0]);
      if steps[0].Prune? {
        KeepIsSubset(s.rows, steps[0].before);
      }
      forall r | r in n.rows
        ensures exists i :: 0 <= i < |n.txns| && n.txns[i].request.now == r.at
      {
        if r in s.rows {
          var i :| 0 <= i < |s.txns| && s.txns[i].request.now == r.at;
          assert n.txns[i].request.now == r.at;
        } else {
          assert n.txns[steps[0].id].request.now == r.at;
        }
      }
      RowsAreStamped(key, n, steps[1..]);
    }
  }
}
