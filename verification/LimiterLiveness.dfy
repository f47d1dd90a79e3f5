/** The login limiter never deadlocks and always drains; one attempt run alone is the atomic
    attempt; and pruning inside a window that is still to be counted breaks the promise. */
module LimiterLiveness {
  import opened Wrappers
  import opened Clock
  import opened RateWindow
  import opened LimiterProtocol
  import opened LimiterSafety

  /** A step by which an attempt that has begun gets on with its own work. */
  predicate Advances(step: Step) {
    !step.Begin? && !step.Prune? && !step.Abort?
  }

  ghost predicate CanAdvance(key: KeyOf, s: State) {
    exists step :: Advances(step) && Enabled(key, s, step)
  }

  predicate AllFinished(s: State) {
    forall i :: 0 <= i < |s.txns| ==> s.txns[i].phase.Finished?
  }

  /** How far a waiting transaction's next key is from the top of the key range. */
  function Distance(key: KeyOf, t: Txn): nat {
    var plan := Plan(key, t.request);
    if t.phase.Locking? && t.phase.held < |plan| then KEY_LIMIT - plan[t.phase.held] else 0
  }

  /** The holder of a key that a transaction waits for is itself unfinished, and if it waits too,
      it waits for a greater key. */
  lemma HolderIsFurther(key: KeyOf, t: Txn, k: LockKey)
    requires Held(key, t) <= |Plan(key, t.request)|
    requires k in HeldKeys(key, t)
    ensures !t.phase.Finished?
    ensures t.phase.Locking? && t.phase.held < |Plan(key, t.request)| ==>
              k < Plan(key, t.request)[t.phase.held]
  {
    var plan := Plan(key, t.request);
    if t.phase.Locking? && t.phase.held < |plan| {
      assert Prefix(plan, 1) == Prefix(plan, 0) + {plan[0]};
    }
  }

  lemma {:induction false} SomeStepFrom(key: KeyOf, s: State, i: nat)
    requires LocksConsistent(key, s)
    requires i < |s.txns| && !s.txns[i].phase.Finished?
    ensures CanAdvance(key, s)
    decreases Distance(key, s.txns[i])
  {
    var t := s.txns[i];
    var plan := Plan(key, t.request);
    match t.phase {
      case Locking(held) =>
        if held == |plan| {
          assert Enabled(key, s, CountUsername(i)) && Advances(CountUsername(i));
        } else {
          var k := plan[held];
          if k !in s.locks {
            assert Enabled(key, s, Acquire(i)) && Advances(Acquire(i));
          } else {
            var j := s.locks[k];
            assert k in HeldKeys(key, s.txns[j]);
            HolderIsFurther(key, s.txns[j], k);
            SomeStepFrom(key, s, j);
          }
        }
      case CountedUsername(_) => assert Enabled(key, s, CountClient(i)) && Advances(CountClient(i));
      case CountedBoth(_, _) => assert Enabled(key, s, Decide(i)) && Advances(Decide(i));
      case Decided(_) => assert Enabled(key, s, Commit(i)) && Advances(Commit(i));
      case Committed => assert Enabled(key, s, Release(i)) && Advances(Release(i));
    }
  }

  /** In every reachable state with an unfinished attempt, some attempt can take its next step. */
  lemma NeverDeadlocks(key: KeyOf, s: State)
    requires Reachable(key, s)
    requires !AllFinished(s)
    ensures CanAdvance(key, s)
  {
    ReachableInv(key, s);
    var i :| 0 <= i < |s.txns| && !s.txns[i].phase.Finished?;
    SomeStepFrom(key, s, i);
  }

  /** A transaction may fail at any point before its commit, and then leaves no trace: its locks are free,
      and nothing is granted or recorded. */
  lemma AbortLeavesNothing(key: KeyOf, s: State, i: nat)
    requires i < |s.txns|
    ensures Enabled(key, s, Abort(i)) <==> !s.txns[i].phase.Committed? && !s.txns[i].phase.Finished?
    ensures Enabled(key, s, Abort(i)) ==>
              var next := Next(key, s, Abort(i));
              && next.rows == s.rows && next.log == s.log && next.mark == s.mark
              && next.txns == s.txns[i := Txn(s.txns[i].request, Finished)]
              && forall k :: k in next.locks <==> k in s.locks && s.locks[k] != i
  {
  }

  // ----- draining

  function Remaining(key: KeyOf, t: Txn): nat {
    match t.phase
    case Locking(held) =>
      var plan := Plan(key, t.request);
      5 + if held <= |plan| then |plan| - held else 0
    case CountedUsername(_) => 4
    case CountedBoth(_, _) => 3
    case Decided(_) => 2
    case Committed => 1
    case Finished => 0
  }

  function Work(key: KeyOf, txns: seq<Txn>): nat {
    if txns == [] then 0 else Remaining(key, txns[0]) + Work(key, txns[1..])
  }

  lemma {:induction false} WorkUpdate(key: KeyOf, txns: seq<Txn>, i: nat, t: Txn)
    requires i < |txns|
    ensures Work(key, txns[i := t]) + Remaining(key, txns[i]) == Work(key, txns) + Remaining(key, t)
  {
    if i == 0 {
      assert txns[0 := t][1..] == txns[1..];
    } else {
      assert txns[i := t][1..] == txns[1..][i - 1 := t];
      WorkUpdate(key, txns[1..], i - 1, t);
    }
  }

  lemma {:induction false} WorkIsZeroWhenFinished(key: KeyOf, txns: seq<Txn>)
    ensures Work(key, txns) == 0 <==> forall i :: 0 <= i < |txns| ==> txns[i].phase.Finished?
  {
    if txns != [] {
      WorkIsZeroWhenFinished(key, txns[1..]);
      assert forall i :: 1 <= i < |txns| ==> txns[i] == txns[1..][i - 1];
      assert (forall i :: 0 <= i < |txns[1..]| ==> txns[1..][i].phase.Finished?) ==>
             (forall i :: 1 <= i < |txns| ==> txns[i].phase.Finished?);
      assert (forall i :: 0 <= i < |txns| ==> txns[i].phase.Finished?) ==>
             (forall i :: 0 <= i < |txns[1..]| ==> txns[1..][i].phase.Finished?);
    }
  }

  lemma AdvancingShrinksWork(key: KeyOf, s: State, step: Step)
    requires Enabled(key, s, step) && Advances(step)
    ensures Work(key, Next(key, s, step).txns) + 1 == Work(key, s.txns)
  {
    var n := Next(key, s, step);
    assert n.txns == s.txns[step.id := n.txns[step.id]];
    WorkUpdate(key, s.txns, step.id, n.txns[step.id]);
  }

  /** A schedule of advancing steps uses up one unit of work each, so none outlasts the work that
      was there; with no deadlock, one that can no longer be extended has finished every attempt. */
  lemma {:induction false} AdvancingRunsDrain(key: KeyOf, s: State, steps: seq<Step>)
    requires Reachable(key, s)
    requires forall i :: 0 <= i < |steps| ==> Advances(steps[i])
    requires Exec(key, s, steps).Some?
    ensures var end := Exec(key, s, steps).value;
            && |steps| + Work(key, end.txns) == Work(key, s.txns)
            && (!CanAdvance(key, end) <==> AllFinished(end))
            && (AllFinished(end) <==> |steps| == Work(key, s.txns))
    decreases |steps|
  {
    if steps == [] {
      if !AllFinished(s) {
        NeverDeadlocks(key, s);
      }
      WorkIsZeroWhenFinished(key, s.txns);
    } else {
      var n := Next(key, s, steps[0]);
      ReachableNext(key, s, steps[0]);
      AdvancingShrinksWork(key, s, steps[0]);
      AdvancingRunsDrain(key, n, steps[1..]);
    }
  }

  // ----- schedules compose

  lemma {:induction false} ExecExtends(key: KeyOf, s: State, steps: seq<Step>, step: Step)
    requires Exec(key, s, steps).Some? && Enabled(key, Exec(key, s, steps).value, step)
    ensures Exec(key, s, steps + [step]) == Some(Next(key, Exec(key, s, steps).value, step))
    decreases |steps|
  {
    if steps == [] {
      assert [step][1..] == [];
      assert Exec(key, Next(key, s, step), []) == Some(Next(key, s, step));
      assert steps + [step] == [step];
    } else {
      assert (steps + [step])[1..] == steps[1..] + [step];
      ExecExtends(key, Next(key, s, steps[0]), steps[1..], step);
    }
  }

  lemma ReachableNext(key: KeyOf, s: State, step: Step)
    requires Reachable(key, s) && Enabled(key, s, step)
    ensures Reachable(key, Next(key, s, step))
  {
    var steps :| Exec(key, INITIAL, steps) == Some(s);
    ExecExtends(key, INITIAL, steps, step);
    assert Exec(key, INITIAL, steps + [step]) == Some(Next(key, s, step));
  }

  // ----- one attempt alone

  /** The state one more whole attempt leaves behind when no other transaction moves meanwhile. */
  ghost predicate AttemptedAlone(s: State, req: LoginRequest, end: State) {
    && end.txns == s.txns + [Txn(req, Finished)]
    && end.locks == s.locks
    && end.rows == After(s.rows, req)
    && end.log == s.log + [Entry(req, Verdict(s.rows, req))]
    && end.mark == s.mark
  }

  lemma LocksNameTxns(key: KeyOf, s: State)
    requires Reachable(key, s)
    ensures forall k :: k in s.locks ==> s.locks[k] < |s.txns|
  {
    ReachableInv(key, s);
  }

  /** A state where the last transaction runs in `phase` with all of its keys, `s` being the rest. */
  ghost predicate Alone(key: KeyOf, s: State, req: LoginRequest, phase: Phase, t: State) {
    && Reachable(key, t)
    && t.txns == s.txns + [Txn(req, phase)]
    && t.rows == s.rows && t.log == s.log && t.mark == s.mark
    && (forall k :: k in t.locks <==> k in s.locks || k in Plan(key, req))
    && (forall k :: k in t.locks ==> t.locks[k] == if k in s.locks then s.locks[k] else |s.txns|)
  }

  lemma BeginAlone(key: KeyOf, s: State, req: LoginRequest) returns (t: State)
    requires Reachable(key, s)
    requires WellFormed(req)
    ensures Reachable(key, t)
    ensures t.txns == s.txns + [Txn(req, Locking(0))] && t.locks == s.locks
    ensures t.rows == s.rows && t.log == s.log && t.mark == s.mark
  {
    ReachableNext(key, s, Begin(req));
    t := Next(key, s, Begin(req));
  }

  lemma AcquireAlone(key: KeyOf, s: State, i: nat, req: LoginRequest, held: nat) returns (t: State)
    requires Reachable(key, s)
    requires i < |s.txns| && s.txns[i] == Txn(req, Locking(held))
    requires held < |Plan(key, req)| && Plan(key, req)[held] !in s.locks
    ensures Reachable(key, t)
    ensures t.txns == s.txns[i := Txn(req, Locking(held + 1))] && t.locks == s.locks[Plan(key, req)[held] := i]
    ensures t.rows == s.rows && t.log == s.log && t.mark == s.mark
  {
    AcquireMoves(key, s, i, req, held);
    ReachableNext(key, s, Acquire(i));
    t := Next(key, s, Acquire(i));
  }

  lemma AcquireMoves(key: KeyOf, s: State, i: nat, req: LoginRequest, held: nat)
    requires i < |s.txns| && s.txns[i] == Txn(req, Locking(held))
    requires held < |Plan(key, req)| && Plan(key, req)[held] !in s.locks
    ensures Enabled(key, s, Acquire(i))
    ensures var n := Next(key, s, Acquire(i));
            && n.txns == s.txns[i := Txn(req, Locking(held + 1))] && n.locks == s.locks[Plan(key, req)[held] := i]
            && n.rows == s.rows && n.log == s.log && n.mark == s.mark
  {
  }

  lemma LockAlone(key: KeyOf, s: State, req: LoginRequest) returns (t: State)
    requires Reachable(key, s)
    requires WellFormed(req)
    requires forall k :: k in Plan(key, req) ==> k !in s.locks
    ensures Alone(key, s, req, Locking(|Plan(key, req)|), t)
  {
    var plan := Plan(key, req);
    t := FirstLock(key, s, req);
    if |plan| == 2 {
      assert plan[1] in plan;
      t := AcquireAlone(key, t, |s.txns|, req, 1);
      assert t.txns == s.txns + [Txn(req, Locking(2))];
    }
    OwnLocks(s.locks, plan, |s.txns|, t.locks);
  }

  lemma FirstLock(key: KeyOf, s: State, req: LoginRequest) returns (t: State)
    requires Reachable(key, s)
    requires WellFormed(req)
    requires forall k :: k in Plan(key, req) ==> k !in s.locks
    ensures Reachable(key, t)
    ensures t.txns == s.txns + [Txn(req, Locking(1))] && t.locks == s.locks[Plan(key, req)[0] := |s.txns|]
    ensures t.rows == s.rows && t.log == s.log && t.mark == s.mark
  {
    assert Plan(key, req)[0] in Plan(key, req);
    t := BeginAlone(key, s, req);
    t := AcquireAlone(key, t, |s.txns|, req, 0);
    assert t.txns == s.txns + [Txn(req, Locking(1))];
  }

  lemma OwnLocks(locks: map<LockKey, nat>, plan: seq<LockKey>, i: nat, after: map<LockKey, nat>)
    requires 1 <= |plan| <= 2
    requires forall k :: k in plan ==> k !in locks
    requires after == if |plan| == 1 then locks[plan[0] := i] else locks[plan[0] := i][plan[1] := i]
    ensures forall k :: k in after <==> k in locks || k in plan
    ensures forall k :: k in after ==> after[k] == if k in locks then locks[k] else i
  {
    assert forall k :: k in plan <==> k == plan[0] || (|plan| == 2 && k == plan[1]);
  }

  lemma CountAlone(key: KeyOf, s: State, req: LoginRequest, t: State) returns (u: State)
    requires Alone(key, s, req, Locking(|Plan(key, req)|), t)
    ensures Alone(key, s, req, Decided(Verdict(s.rows, req)), u)
  {
    var i := |s.txns|;
    ReachableNext(key, t, CountUsername(i));
    u := Next(key, t, CountUsername(i));
    var user := WindowState(s.rows, req.Of(Username), req.Start(Username));
    assert u.txns == s.txns + [Txn(req, CountedUsername(user))];
    ReachableNext(key, u, CountClient(i));
    u := Next(key, u, CountClient(i));
    var client := WindowState(s.rows, req.Of(Client), req.Start(Client));
    assert u.txns == s.txns + [Txn(req, CountedBoth(user, client))];
    ReachableNext(key, u, Decide(i));
    u := Next(key, u, Decide(i));
    assert u.txns == s.txns + [Txn(req, Decided(Verdict(s.rows, req)))];
  }

  lemma CommitAlone(key: KeyOf, s: State, req: LoginRequest, t: State) returns (end: State)
    requires Alone(key, s, req, Decided(Verdict(s.rows, req)), t)
    requires forall k :: k in s.locks ==> s.locks[k] < |s.txns|
    requires forall k :: k in Plan(key, req) ==> k !in s.locks
    ensures Reachable(key, end) && AttemptedAlone(s, req, end)
  {
    var i := |s.txns|;
    ReachableNext(key, t, Commit(i));
    var u := Next(key, t, Commit(i));
    assert u.txns == s.txns + [Txn(req, Committed)];
    ReachableNext(key, u, Release(i));
    end := Next(key, u, Release(i));
    assert end.txns == s.txns + [Txn(req, Finished)];
    assert end.locks == s.locks;
  }

  /** Running an attempt's own steps, with its keys free, is the atomic attempt. */
  lemma AloneIsAtomic(key: KeyOf, s: State, req: LoginRequest)
    requires Reachable(key, s)
    requires WellFormed(req)
    requires forall k :: k in Plan(key, req) ==> k !in s.locks
    ensures exists end :: Reachable(key, end) && AttemptedAlone(s, req, end)
  {
    LocksNameTxns(key, s);
    var t := LockAlone(key, s, req);
    var u := CountAlone(key, s, req, t);
    var end := CommitAlone(key, s, req, u);
  }

  // ----- pruning too late a cut

  /** After `n` attempts at one instant, all granted, with nothing else ever run. */
  ghost predicate Filled(key: KeyOf, s: State, req: LoginRequest, n: nat, counted: Dimension) {
    && Reachable(key, s)
    && s.locks == map[]
    && s.mark == None
    && (forall i :: 0 <= i < |s.txns| ==> s.txns[i].request == req)
    && (forall r :: r in s.rows ==> r.at == req.now)
    && (forall d: Dimension :: WindowState(s.rows, req.Of(d), req.Start(d)).count == n)
    && (forall lo, hi :: lo < req.now <= hi ==> CountIn(Granted(s.log), req.Of(counted), lo, hi) == n)
  }

  lemma {:induction false} FillTo(key: KeyOf, req: LoginRequest, n: nat, counted: Dimension)
    requires WellFormed(req) && n <= req.usernameLimit && n <= req.clientLimit
    ensures exists s :: Filled(key, s, req, n, counted)
  {
    if n == 0 {
      assert Exec(key, INITIAL, []) == Some(INITIAL);
      assert Filled(key, INITIAL, req, 0, counted);
    } else {
      FillTo(key, req, n - 1, counted);
      var s :| Filled(key, s, req, n - 1, counted);
      AloneIsAtomic(key, s, req);
      var end :| Reachable(key, end) && AttemptedAlone(s, req, end);
      FillOneMore(key, s, req, n, end, counted);
    }
  }

  lemma FillOneMore(key: KeyOf, s: State, req: LoginRequest, n: nat, end: State, counted: Dimension)
    requires WellFormed(req) && 0 < n <= req.usernameLimit && n <= req.clientLimit
    requires Filled(key, s, req, n - 1, counted)
    requires Reachable(key, end) && AttemptedAlone(s, req, end)
    ensures Filled(key, end, req, n, counted)
  {
    assert WindowState(s.rows, req.Of(Username), req.Start(Username)).count == n - 1;
    assert WindowState(s.rows, req.Of(Client), req.Start(Client)).count == n - 1;
    assert Verdict(s.rows, req).allowed;
    AppendedCounts(s.rows, req);
    GrantedAppend(s.log, Entry(req, Verdict(s.rows, req)));
    forall lo, hi | lo < req.now <= hi
      ensures CountIn(Granted(end.log), req.Of(counted), lo, hi) == n
    {
      AppendedInterval(Granted(s.log), req, lo, hi, counted);
    }
  }

  lemma AppendedCounts(rows: seq<Reservation>, req: LoginRequest)
    requires WellFormed(req)
    ensures forall d: Dimension ::
              (WindowState(rows + NewRows(req, true), req.Of(d), req.Start(d)).count
               == WindowState(rows, req.Of(d), req.Start(d)).count + 1)
  {
    var u, c := Reservation(req.Of(Username), req.now), Reservation(req.Of(Client), req.now);
    assert rows + NewRows(req, true) == rows + [u] + [c];
    forall d: Dimension
      ensures WindowState(rows + NewRows(req, true), req.Of(d), req.Start(d)).count == WindowState(rows, req.Of(d), req.Start(d)).count + 1
    {
      WindowStateAppend(rows, u, req.Of(d), req.Start(d));
      WindowStateAppend(rows + [u], c, req.Of(d), req.Start(d));
    }
  }

  lemma AppendedInterval(rows: seq<Reservation>, req: LoginRequest, lo: int, hi: int, counted: Dimension)
    requires lo < req.now <= hi
    ensures CountIn(rows + NewRows(req, true), req.Of(counted), lo, hi)
         == CountIn(rows, req.Of(counted), lo, hi) + 1
  {
    var u, c := Reservation(req.Of(Username), req.now), Reservation(req.Of(Client), req.now);
    assert rows + NewRows(req, true) == rows + [u] + [c];
    CountInAppend(rows, u, req.Of(counted), lo, hi);
    CountInAppend(rows + [u], c, req.Of(counted), lo, hi);
  }

  lemma {:induction false} KeepDropsAll(rows: seq<Reservation>, before: int)
    requires forall r :: r in rows ==> r.at < before
    ensures Keep(rows, before) == []
  {
    if rows != [] {
      KeepDropsAll(rows[..|rows| - 1], before);
    }
  }

  /** Whatever the limits, and for either dimension, a prune cut past the start of the next attempt's
      window lets one more than the limit be granted inside that window. The earlier attempts are
      the same, with the other dimension's limit raised to this one's where it is lower. */
  lemma LatePruneBreaksBound(key: KeyOf, req: LoginRequest, counted: Dimension, before: int)
    requires WellFormed(req)
    requires before > req.Start(counted) + 1
    ensures exists s ::
              && Reachable(key, s)
              && Complies(s.txns, req.Of(counted), req.Limit(counted), req.Window(counted))
              && s.mark == Some(before)
              && CountIn(Granted(s.log), req.Of(counted), req.Start(counted), req.now) == req.Limit(counted) + 1
  {
    var cut := FilledAndCut(key, req, counted, before);
    AloneIsAtomic(key, cut, req);
    var end :| Reachable(key, end) && AttemptedAlone(cut, req, end);
    OneTooMany(cut, req, end, counted);
  }

  /** The same attempt at an earlier instant, with no less room in the other dimension. */
  function Earlier(req: LoginRequest, counted: Dimension, now: int): LoginRequest {
    match counted
    case Username => req.(now := now, clientLimit := Max(req.clientLimit, req.usernameLimit))
    case Client => req.(now := now, usernameLimit := Max(req.usernameLimit, req.clientLimit))
  }

  lemma EarlierComplies(s: State, req: LoginRequest, counted: Dimension, now: int)
    requires WellFormed(req)
    requires forall i :: 0 <= i < |s.txns| ==> s.txns[i].request == Earlier(req, counted, now)
    ensures Complies(s.txns, req.Of(counted), req.Limit(counted), req.Window(counted))
  {
  }

  /** The limit reached just before the cut, and then cut away. */
  lemma FilledAndCut(key: KeyOf, req: LoginRequest, counted: Dimension, before: int) returns (cut: State)
    requires WellFormed(req)
    requires before > req.Start(counted) + 1
    ensures Reachable(key, cut) && cut.locks == map[] && cut.rows == [] && cut.mark == Some(before)
    ensures Complies(cut.txns, req.Of(counted), req.Limit(counted), req.Window(counted))
    ensures CountIn(Granted(cut.log), req.Of(counted), req.Start(counted), req.now) == req.Limit(counted)
  {
    var now := Min(req.now, before - 1);
    var earlier := Earlier(req, counted, now);
    FillTo(key, earlier, req.Limit(counted), counted);
    var full :| Filled(key, full, earlier, req.Limit(counted), counted);
    cut := CutAll(key, full, earlier, req.Limit(counted), counted, before);
    EarlierComplies(cut, req, counted, now);
    assert CountIn(Granted(full.log), earlier.Of(counted), req.Start(counted), req.now) == req.Limit(counted);
  }

  lemma OneTooMany(cut: State, req: LoginRequest, end: State, counted: Dimension)
    requires WellFormed(req) && cut.rows == [] && AttemptedAlone(cut, req, end)
    requires Complies(cut.txns, req.Of(counted), req.Limit(counted), req.Window(counted))
    requires CountIn(Granted(cut.log), req.Of(counted), req.Start(counted), req.now) == req.Limit(counted)
    ensures CountIn(Granted(end.log), req.Of(counted), req.Start(counted), req.now) == req.Limit(counted) + 1
    ensures Complies(end.txns, req.Of(counted), req.Limit(counted), req.Window(counted))
  {
    GrantedAppend(cut.log, Entry(req, Verdict(cut.rows, req)));
    AppendedInterval(Granted(cut.log), req, req.Start(counted), req.now, counted);
  }

  lemma CutAll(key: KeyOf, full: State, req: LoginRequest, n: nat, counted: Dimension, before: int) returns (cut: State)
    requires Filled(key, full, req, n, counted)
    requires req.now < before
    ensures Reachable(key, cut)
    ensures cut.rows == [] && cut.mark == Some(before)
    ensures cut.txns == full.txns && cut.locks == full.locks && cut.log == full.log
  {
    ReachableNext(key, full, Prune(before));
    cut := Next(key, full, Prune(before));
    KeepDropsAll(full.rows, before);
  }
}
