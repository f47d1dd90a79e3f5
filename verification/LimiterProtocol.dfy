/** The login limiter as many database transactions run it at once. One attempt takes its one or
    two advisory locks in ascending order, runs its two counting queries as separate statements,
    adds its rows, commits, and only then lets its locks go; any other step may run in between. */
module LimiterProtocol {
  import opened Wrappers
  import opened Clock
  import opened RateWindow

  /** Advisory lock keys are signed 64-bit integers. */
  const KEY_LIMIT := 0x8000_0000_0000_0000

  type LockKey = k: int | -KEY_LIMIT <= k < KEY_LIMIT

  /** The lock key of a subject: a deterministic digest, not assumed to be injective. */
  type KeyOf = Subject -> LockKey

  datatype Phase =
    | Locking(held: nat)
    | CountedUsername(user: Tally)
    | CountedBoth(user: Tally, client: Tally)
    | Decided(decision: Decision)
    | Committed
    | Finished

  datatype Txn = Txn(request: LoginRequest, phase: Phase)

  datatype Entry = Entry(request: LoginRequest, decision: Decision)

  /** `log` and `mark` are history: what committed, in commit order, and the latest prune cut.
      `pruneSafe` says that no running attempt ever counted a window older than that cut. */
  datatype State = State(
    txns: seq<Txn>,
    locks: map<LockKey, nat>,
    rows: seq<Reservation>,
    log: seq<Entry>,
    mark: Option<int>,
    pruneSafe: bool)

  datatype Step =
    | Begin(request: LoginRequest)
    | Acquire(id: nat)
    | CountUsername(id: nat)
    | CountClient(id: nat)
    | Decide(id: nat)
    | Commit(id: nat)
    | Release(id: nat)
    | Abort(id: nat)
    | Prune(before: int)

  const INITIAL := State([], map[], [], [], None, true)

  /** The sorted set of an attempt's lock keys: one key when the two digests collide. */
  function Plan(key: KeyOf, req: LoginRequest): (plan: seq<LockKey>)
    ensures 1 <= |plan| <= 2
    ensures |plan| == 2 ==> plan[0] < plan[1]
    ensures forall d: Dimension :: key(req.Of(d)) in plan
  {
    var u, c := key(req.Of(Username)), key(req.Of(Client));
    if u == c then [u] else if u < c then [u, c] else [c, u]
  }

  /** How many keys of its plan a transaction holds. */
  function Held(key: KeyOf, t: Txn): nat {
    match t.phase
    case Locking(held) => held
    case Finished => 0
    case _ => |Plan(key, t.request)|
  }

  /** The first `n` keys of a plan. */
  function Prefix(plan: seq<LockKey>, n: nat): set<LockKey> {
    if n == 0 || n > |plan| then {} else Prefix(plan, n - 1) + {plan[n - 1]}
  }

  function HeldKeys(key: KeyOf, t: Txn): set<LockKey> {
    Prefix(Plan(key, t.request), Held(key, t))
  }

  /** Running: begun, and not yet past its commit. */
  predicate Running(t: Txn) {
    !t.phase.Committed? && !t.phase.Finished?
  }

  function Freed(locks: map<LockKey, nat>, id: nat): map<LockKey, nat> {
    map k | k in locks && locks[k] != id :: locks[k]
  }

  /** Every running attempt's windows start no earlier than just below the latest prune cut. */
  predicate AboveMark(txns: seq<Txn>, mark: Option<int>) {
    mark.Some? ==>
      forall i | 0 <= i < |txns| :: Running(txns[i]) ==>
        && mark.value <= txns[i].request.Start(Username) + 1
        && mark.value <= txns[i].request.Start(Client) + 1
  }

  predicate Owns(s: State, step: Step) {
    match step
    case Begin(_) => true
    case Prune(_) => true
    case _ => step.id < |s.txns|
  }

  /** When the database lets a step happen. */
  predicate Enabled(key: KeyOf, s: State, step: Step) {
    && Owns(s, step)
    && match step
       case Begin(req) => WellFormed(req)
       case Prune(_) => true
       case Acquire(i) =>
         && s.txns[i].phase.Locking?
         && s.txns[i].phase.held < |Plan(key, s.txns[i].request)|
         && Plan(key, s.txns[i].request)[s.txns[i].phase.held] !in s.locks
       case CountUsername(i) => s.txns[i].phase == Locking(|Plan(key, s.txns[i].request)|)
       case CountClient(i) => s.txns[i].phase.CountedUsername?
       case Decide(i) => s.txns[i].phase.CountedBoth?
       case Commit(i) => s.txns[i].phase.Decided?
       case Release(i) => s.txns[i].phase.Committed?
       case Abort(i) => Running(s.txns[i])
  }

  function MaxMark(mark: Option<int>, before: int): Option<int> {
    Some(if mark.None? then before else Max(mark.value, before))
  }

  /** The state after a step; the committed rows become visible before any lock is released. */
  function Moved(key: KeyOf, s: State, step: Step): State
    requires Enabled(key, s, step)
  {
    match step
    case Begin(req) => s.(txns := s.txns + [Txn(req, Locking(0))])
    case Prune(before) => s.(rows := Keep(s.rows, before), mark := MaxMark(s.mark, before))
    case Acquire(i) =>
      var t := s.txns[i];
      s.(txns := s.txns[i := t.(phase := Locking(t.phase.held + 1))],
         locks := s.locks[Plan(key, t.request)[t.phase.held] := i])
    case CountUsername(i) =>
      var t := s.txns[i];
      s.(txns := s.txns[i := t.(phase :=
        CountedUsername(WindowState(s.rows, t.request.Of(Username), t.request.Start(Username))))])
    case CountClient(i) =>
      var t := s.txns[i];
      s.(txns := s.txns[i := t.(phase :=
        CountedBoth(t.phase.user, WindowState(s.rows, t.request.Of(Client), t.request.Start(Client))))])
    case Decide(i) =>
      var t := s.txns[i];
      s.(txns := s.txns[i := t.(phase := Decided(RateWindow.Decide(t.request, t.phase.user, t.phase.client)))])
    case Commit(i) =>
      var t := s.txns[i];
      s.(txns := s.txns[i := t.(phase := Committed)],
         rows := s.rows + NewRows(t.request, t.phase.decision.allowed),
         log := s.log + [Entry(t.request, t.phase.decision)])
    case Release(i) =>
      s.(txns := s.txns[i := s.txns[i].(phase := Finished)], locks := Freed(s.locks, i))
    case Abort(i) =>
      s.(txns := s.txns[i := s.txns[i].(phase := Finished)], locks := Freed(s.locks, i))
  }

  function Next(key: KeyOf, s: State, step: Step): State
    requires Enabled(key, s, step)
  {
    var moved := Moved(key, s, step);
    moved.(pruneSafe := s.pruneSafe && AboveMark(moved.txns, moved.mark))
  }

  /** The state a schedule of steps reaches from `s`, if each step was enabled in its turn. */
  function Exec(key: KeyOf, s: State, steps: seq<Step>): Option<State>
    decreases |steps|
  {
    if steps == [] then Some(s)
    else if !Enabled(key, s, steps[0]) then None
    else Exec(key, Next(key, s, steps[0]), steps[1..])
  }

  ghost predicate Reachable(key: KeyOf, s: State) {
    exists steps :: Exec(key, INITIAL, steps) == Some(s)
  }

  // ----- history

  /** All rows ever granted, in commit order, whether or not they were pruned since. */
  function Granted(log: seq<Entry>): seq<Reservation> {
    if log == [] then []
    else
      var last := log[|log| - 1];
      Granted(log[..|log| - 1]) + NewRows(last.request, last.decision.allowed)
  }

  /** The log is what a one-at-a-time execution of whole attempts would have produced. */
  ghost predicate Serial(log: seq<Entry>) {
    forall k :: 0 <= k < |log| ==> log[k].decision == Verdict(Granted(log[..k]), log[k].request)
  }

  /** Every attempt for this subject asked for at most `limit` in at least `window`. */
  ghost predicate Complies(txns: seq<Txn>, s: Subject, limit: int, window: int) {
    && 0 <= limit
    && forall i :: 0 <= i < |txns| ==> RequestComplies(txns[i].request, s, limit, window)
  }

  predicate RequestComplies(req: LoginRequest, s: Subject, limit: int, window: int) {
    && (req.Of(Username) == s ==> req.usernameLimit <= limit && window <= req.usernameWindow)
    && (req.Of(Client) == s ==> req.clientLimit <= limit && window <= req.clientWindow)
  }

  // ----- the invariant

  /** A key is held exactly by the transaction the lock table names. */
  ghost predicate LocksConsistent(key: KeyOf, s: State) {
    && (forall i :: 0 <= i < |s.txns| ==> Held(key, s.txns[i]) <= |Plan(key, s.txns[i].request)|)
    && (forall k :: k in s.locks ==> s.locks[k] < |s.txns|)
    && (forall i, k :: 0 <= i < |s.txns| ==>
          (k in HeldKeys(key, s.txns[i]) <==> k in s.locks && s.locks[k] == i))
  }

  predicate Covers(tally: Tally, rows: seq<Reservation>, req: LoginRequest, d: Dimension) {
    WindowState(rows, req.Of(d), req.Start(d)).count <= tally.count
  }

  /** What a running attempt has counted is still an upper bound on what it would count now. */
  ghost predicate TalliesCover(t: Txn, rows: seq<Reservation>) {
    match t.phase
    case CountedUsername(user) => Covers(user, rows, t.request, Username)
    case CountedBoth(user, client) =>
      Covers(user, rows, t.request, Username) && Covers(client, rows, t.request, Client)
    case Decided(decision) =>
      exists user, client ::
        && decision == RateWindow.Decide(t.request, user, client)
        && Covers(user, rows, t.request, Username)
        && Covers(client, rows, t.request, Client)
    case _ => true
  }

  /** What a running attempt has counted is exactly what it would count in the full history. */
  ghost predicate TalliesExact(t: Txn, granted: seq<Reservation>) {
    var u := WindowState(granted, t.request.Of(Username), t.request.Start(Username));
    var c := WindowState(granted, t.request.Of(Client), t.request.Start(Client));
    match t.phase
    case CountedUsername(user) => user == u
    case CountedBoth(user, client) => user == u && client == c
    case Decided(decision) => decision == Verdict(granted, t.request)
    case _ => true
  }

  ghost predicate TableBounded(s: State) {
    forall subject, limit, window ::
      Complies(s.txns, subject, limit, window) ==> Bounded(s.rows, subject, limit, window)
  }

  /** Above the prune cut the table and the history count the same. */
  ghost predicate TableMatchesHistory(s: State) {
    forall subject, start :: s.mark.None? || s.mark.value <= start + 1 ==>
      WindowState(s.rows, subject, start) == WindowState(Granted(s.log), subject, start)
  }

  ghost predicate Asked(txns: seq<Txn>, req: LoginRequest) {
    exists i :: 0 <= i < |txns| && txns[i].request == req
  }

  ghost predicate LogFromTxns(s: State) {
    forall k :: 0 <= k < |s.log| ==> Asked(s.txns, s.log[k].request)
  }

  ghost predicate Inv(key: KeyOf, s: State) {
    && (forall i :: 0 <= i < |s.txns| ==> WellFormed(s.txns[i].request))
    && LocksConsistent(key, s)
    && (forall i :: 0 <= i < |s.txns| ==> TalliesCover(s.txns[i], s.rows))
    && TableBounded(s)
    && TableMatchesHistory(s)
    && LogFromTxns(s)
    && (s.pruneSafe ==>
          && AboveMark(s.txns, s.mark)
          && Serial(s.log)
          && forall i :: 0 <= i < |s.txns| ==> TalliesExact(s.txns[i], Granted(s.log)))
  }
}
