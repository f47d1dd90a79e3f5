/** The window arithmetic of the login limiter; times are integers of microseconds. */
module RateWindow {
  import opened Wrappers
  import opened Clock

  const USERNAME_RATE_WINDOW := 900 * SECOND
  const USERNAME_RATE_LIMIT := 10
  const CLIENT_RATE_WINDOW := 60 * SECOND
  const CLIENT_RATE_LIMIT := 20

  datatype Dimension = Username | Client

  datatype Subject = Subject(dimension: Dimension, hash: string)

  datatype Reservation = Reservation(subject: Subject, at: int)

  datatype LoginRequest = LoginRequest(
    username: string, client: string, now: int,
    usernameLimit: int, usernameWindow: int,
    clientLimit: int, clientWindow: int)
  {
    function Of(d: Dimension): Subject {
      Subject(d, if d == Username then username else client)
    }

    function Limit(d: Dimension): int {
      if d == Username then usernameLimit else clientLimit
    }

    function Window(d: Dimension): int {
      if d == Username then usernameWindow else clientWindow
    }

    /** The exclusive start of the window this attempt counts. */
    function Start(d: Dimension): int {
      now - Window(d)
    }
  }

  /** What one aggregate query returns: how many rows fall in the window and the oldest of them. */
  datatype Tally = Tally(count: nat, oldest: Option<int>)

  datatype Decision = Decision(
    allowed: bool,
    usernameCount: int, usernameLimit: int,
    clientCount: int, clientLimit: int,
    retryAt: Option<int>)

  predicate Hits(r: Reservation, s: Subject, start: int) {
    r.subject == s && start < r.at
  }

  /** The aggregate query of `_window_state`: count and minimum over the rows after `start`. */
  function WindowState(rows: seq<Reservation>, s: Subject, start: int): Tally {
    if rows == [] then Tally(0, None)
    else
      var rest := WindowState(rows[..|rows| - 1], s, start);
      var last := rows[|rows| - 1];
      if !Hits(last, s, start) then rest
      else Tally(rest.count + 1, Some(if rest.oldest.None? then last.at else Min(rest.oldest.value, last.at)))
  }

  /** How many rows of a subject are stamped in the half-open interval (lo, hi]. */
  function CountIn(rows: seq<Reservation>, s: Subject, lo: int, hi: int): nat {
    if rows == [] then 0
    else
      var last := rows[|rows| - 1];
      CountIn(rows[..|rows| - 1], s, lo, hi) + (if Hits(last, s, lo) && last.at <= hi then 1 else 0)
  }

  /** The promise of one window: no interval of the window's length holds more than the limit. */
  ghost predicate Bounded(rows: seq<Reservation>, s: Subject, limit: int, window: int) {
    forall lo, hi :: hi == lo + window ==> CountIn(rows, s, lo, hi) <= limit
  }

  /** The instant from which the blocked windows have each let their oldest reservation go. */
  function RetryAt(req: LoginRequest, user: Tally, client: Tally): Option<int> {
    var u := if user.count >= req.usernameLimit && user.oldest.Some?
             then Some(user.oldest.value + req.usernameWindow) else None;
    var c := if client.count >= req.clientLimit && client.oldest.Some?
             then Some(client.oldest.value + req.clientWindow) else None;
    if u.None? then c else if c.None? then u else Some(Max(u.value, c.value))
  }

  function Decide(req: LoginRequest, user: Tally, client: Tally): Decision {
    var allowed := user.count < req.usernameLimit && client.count < req.clientLimit;
    Decision(
      allowed,
      if allowed then user.count + 1 else user.count, req.usernameLimit,
      if allowed then client.count + 1 else client.count, req.clientLimit,
      RetryAt(req, user, client))
  }

  function NewRows(req: LoginRequest, allowed: bool): seq<Reservation> {
    if allowed
    then [Reservation(req.Of(Username), req.now), Reservation(req.Of(Client), req.now)]
    else []
  }

  /** What a whole attempt decides when nothing else runs: the specification of one transaction. */
  function Verdict(rows: seq<Reservation>, req: LoginRequest): Decision {
    Decide(req,
           WindowState(rows, req.Of(Username), req.Start(Username)),
           WindowState(rows, req.Of(Client), req.Start(Client)))
  }

  function After(rows: seq<Reservation>, req: LoginRequest): seq<Reservation> {
    rows + NewRows(req, Verdict(rows, req).allowed)
  }

  /** The rows `prune_before` keeps. */
  function Keep(rows: seq<Reservation>, before: int): seq<Reservation> {
    if rows == [] then []
    else
      var last := rows[|rows| - 1];
      Keep(rows[..|rows| - 1], before) + (if last.at < before then [] else [last])
  }

  /** `_require_sha256`: a lowercase hexadecimal digest of 64 characters. */
  predicate WellFormed(req: LoginRequest) {
    && IsSha256(req.username)
    && IsSha256(req.client)
    && req.usernameWindow > 0
    && req.clientWindow > 0
    && req.usernameLimit > 0
    && req.clientLimit > 0
  }

  // ----- the aggregate query

  lemma WindowStateAppend(rows: seq<Reservation>, r: Reservation, s: Subject, start: int)
    ensures WindowState(rows + [r], s, start) ==
              var w := WindowState(rows, s, start);
              if !Hits(r, s, start) then w
              else Tally(w.count + 1, Some(if w.oldest.None? then r.at else Min(w.oldest.value, r.at)))
  {
    assert (rows + [r])[..|rows|] == rows;
  }

  lemma CountInAppend(rows: seq<Reservation>, r: Reservation, s: Subject, lo: int, hi: int)
    ensures CountIn(rows + [r], s, lo, hi)
         == CountIn(rows, s, lo, hi) + (if Hits(r, s, lo) && r.at <= hi then 1 else 0)
  {
    assert (rows + [r])[..|rows|] == rows;
  }

  /** An interval inside the counted window holds at most what the query counts. */
  lemma {:induction false} CountInAtMostWindow(rows: seq<Reservation>, s: Subject, lo: int, hi: int, start: int)
    requires start <= lo
    ensures CountIn(rows, s, lo, hi) <= WindowState(rows, s, start).count
  {
    if rows != [] {
      CountInAtMostWindow(rows[..|rows| - 1], s, lo, hi, start);
    }
  }

  /** When no row is stamped after `hi`, the query counts exactly the interval that ends there. */
  lemma {:induction false} WindowIsInterval(rows: seq<Reservation>, s: Subject, start: int, hi: int)
    requires forall r :: r in rows ==> r.at <= hi
    ensures WindowState(rows, s, start).count == CountIn(rows, s, start, hi)
  {
    if rows != [] {
      WindowIsInterval(rows[..|rows| - 1], s, start, hi);
    }
  }

  /** The oldest stamp is present exactly when something is counted, lies in the window, and
      every counted row is still counted from any later start before it. */
  lemma {:induction false} OldestIsMinimum(rows: seq<Reservation>, s: Subject, start: int)
    ensures var w := WindowState(rows, s, start);
            && (w.oldest.Some? <==> w.count > 0)
            && (w.oldest.Some? ==> start < w.oldest.value)
            && (w.oldest.Some? ==> WindowState(rows, s, w.oldest.value).count < w.count)
            && (w.oldest.Some? ==> forall later :: later < w.oldest.value ==>
                 WindowState(rows, s, later).count >= w.count)
  {
    if rows != [] {
      var init := rows[..|rows| - 1];
      OldestIsMinimum(init, s, start);
      var last := rows[|rows| - 1];
      var w := WindowState(rows, s, start);
      if Hits(last, s, start) {
        var v := WindowState(init, s, start);
        if v.oldest.None? {
          WindowStateMonotone(init, s, start, last.at);
        } else {
          if last.at < v.oldest.value {
            WindowStateMonotone(init, s, start, last.at);
          } else {
            assert w.oldest == v.oldest;
          }
        }
      } else if w.oldest.Some? {
        WindowStateMonotone([last], s, start, w.oldest.value);
      }
    }
  }

  /** A later start never counts more. */
  lemma {:induction false} WindowStateMonotone(rows: seq<Reservation>, s: Subject, start: int, later: int)
    requires start <= later
    ensures WindowState(rows, s, later).count <= WindowState(rows, s, start).count
  {
    if rows != [] {
      WindowStateMonotone(rows[..|rows| - 1], s, start, later);
    }
  }

  // ----- the window bound

  /** Granting below the limit keeps the bound, for any clock: the count has no upper end, so it
      covers every interval of the window's length that could contain the new stamp. */
  lemma GrantKeepsBound(rows: seq<Reservation>, r: Reservation, limit: int, window: int, asked: int, span: int)
    requires Bounded(rows, r.subject, limit, window)
    requires asked <= limit && window <= span
    requires WindowState(rows, r.subject, r.at - span).count < asked
    ensures Bounded(rows + [r], r.subject, limit, window)
  {
    forall lo, hi | hi == lo + window
      ensures CountIn(rows + [r], r.subject, lo, hi) <= limit
    {
      CountInAppend(rows, r, r.subject, lo, hi);
      if lo < r.at <= hi {
        CountInAtMostWindow(rows, r.subject, lo, hi, r.at - span);
      }
    }
  }

  lemma OtherSubjectKeepsBound(rows: seq<Reservation>, r: Reservation, s: Subject, limit: int, window: int)
    requires Bounded(rows, s, limit, window)
    requires r.subject != s
    ensures Bounded(rows + [r], s, limit, window)
  {
    forall lo, hi | hi == lo + window
      ensures CountIn(rows + [r], s, lo, hi) <= limit
    {
      CountInAppend(rows, r, s, lo, hi);
    }
  }

  /** A subject's bound survives the rows of an attempt that counted below its limits. */
  lemma AttemptKeepsBound(
    rows: seq<Reservation>, req: LoginRequest, user: nat, client: nat, s: Subject, limit: int, window: int)
    requires Bounded(rows, s, limit, window)
    requires WindowState(rows, req.Of(Username), req.Start(Username)).count <= user < req.usernameLimit
    requires WindowState(rows, req.Of(Client), req.Start(Client)).count <= client < req.clientLimit
    requires forall d: Dimension :: req.Of(d) == s ==> req.Limit(d) <= limit && window <= req.Window(d)
    ensures Bounded(rows + NewRows(req, true), s, limit, window)
  {
    var u := Reservation(req.Of(Username), req.now);
    var c := Reservation(req.Of(Client), req.now);
    if u.subject == s {
      GrantKeepsBound(rows, u, limit, window, req.Limit(Username), req.Window(Username));
    } else {
      OtherSubjectKeepsBound(rows, u, s, limit, window);
    }
    assert Bounded(rows + [u], s, limit, window);
    if c.subject == s {
      WindowStateAppend(rows, u, s, req.Start(Client));
      GrantKeepsBound(rows + [u], c, limit, window, req.Limit(Client), req.Window(Client));
    } else {
      OtherSubjectKeepsBound(rows + [u], c, s, limit, window);
    }
    assert rows + NewRows(req, true) == rows + [u] + [c];
  }

  /** Deleting rows never breaks a bound. */
  lemma PruneKeepsBound(rows: seq<Reservation>, before: int, s: Subject, limit: int, window: int)
    requires Bounded(rows, s, limit, window)
    ensures Bounded(Keep(rows, before), s, limit, window)
  {
    forall lo, hi | hi == lo + window
      ensures CountIn(Keep(rows, before), s, lo, hi) <= limit
    {
      KeepCountsLess(rows, before, s, lo, hi);
    }
  }

  lemma {:induction false} KeepCountsLess(rows: seq<Reservation>, before: int, s: Subject, lo: int, hi: int)
    ensures CountIn(Keep(rows, before), s, lo, hi) <= CountIn(rows, s, lo, hi)
    ensures forall start :: WindowState(Keep(rows, before), s, start).count <= WindowState(rows, s, start).count
  {
    if rows != [] {
      var init := rows[..|rows| - 1];
      var last := rows[|rows| - 1];
      KeepCountsLess(init, before, s, lo, hi);
      assert Keep(rows, before) == Keep(init, before) + (if last.at < before then [] else [last]);
      assert Keep(init, before) + [] == Keep(init, before);
      if last.at >= before {
        CountInAppend(Keep(init, before), last, s, lo, hi);
        forall start
          ensures WindowState(Keep(rows, before), s, start).count <= WindowState(rows, s, start).count
        {
          WindowStateAppend(Keep(init, before), last, s, start);
          assert WindowState(Keep(init, before), s, start).count <= WindowState(init, s, start).count;
        }
      }
    }
  }

  /** Deleting rows is invisible to a window that starts no earlier than just below the cut. */
  lemma {:induction false} PruneInvisible(rows: seq<Reservation>, before: int, s: Subject, start: int)
    requires before <= start + 1
    ensures WindowState(Keep(rows, before), s, start) == WindowState(rows, s, start)
  {
    if rows != [] {
      var init := rows[..|rows| - 1];
      var last := rows[|rows| - 1];
      PruneInvisible(init, before, s, start);
      assert Keep(init, before) + [] == Keep(init, before);
      if last.at >= before {
        assert (Keep(init, before) + [last])[..|Keep(init, before)|] == Keep(init, before);
      }
    }
  }

  // ----- the retry instant

  lemma DeniedHasRetry(rows: seq<Reservation>, req: LoginRequest)
    requires WellFormed(req)
    ensures Verdict(rows, req).retryAt.Some? <==> !Verdict(rows, req).allowed
  {
    OldestIsMinimum(rows, req.Of(Username), req.Start(Username));
    OldestIsMinimum(rows, req.Of(Client), req.Start(Client));
  }

  /** Before the retry instant a repeated attempt is denied, whatever the clock did before. */
  lemma DeniedUntilRetry(rows: seq<Reservation>, req: LoginRequest, now: int)
    requires WellFormed(req)
    requires !Verdict(rows, req).allowed
    requires Verdict(rows, req).retryAt.Some? && now < Verdict(rows, req).retryAt.value
    ensures !Verdict(rows, req.(now := now)).allowed
  {
    OldestIsMinimum(rows, req.Of(Username), req.Start(Username));
    OldestIsMinimum(rows, req.Of(Client), req.Start(Client));
  }

  predicate Blocked(rows: seq<Reservation>, req: LoginRequest, d: Dimension) {
    WindowState(rows, req.Of(d), req.Start(d)).count >= req.Limit(d)
  }

  /** The window would still be full without its oldest stamp and that stamp's equals. */
  predicate Overfull(rows: seq<Reservation>, req: LoginRequest, d: Dimension) {
    var w := WindowState(rows, req.Of(d), req.Start(d));
    w.oldest.Some? && WindowState(rows, req.Of(d), w.oldest.value).count >= req.Limit(d)
  }

  lemma RetryIsLate(rows: seq<Reservation>, req: LoginRequest, d: Dimension)
    requires WellFormed(req) && Blocked(rows, req, d)
    ensures var w := WindowState(rows, req.Of(d), req.Start(d));
            && w.oldest.Some? && req.Start(d) < w.oldest.value
            && Verdict(rows, req).retryAt.Some?
            && w.oldest.value + req.Window(d) <= Verdict(rows, req).retryAt.value
            && req.now < Verdict(rows, req).retryAt.value
  {
    OldestIsMinimum(rows, req.Of(Username), req.Start(Username));
    OldestIsMinimum(rows, req.Of(Client), req.Start(Client));
  }

  /** From the retry instant on a repeated attempt is allowed, when no full window is overfull. */
  lemma AllowedUnlessOverfull(rows: seq<Reservation>, req: LoginRequest, now: int)
    requires WellFormed(req)
    requires !Verdict(rows, req).allowed
    requires forall d: Dimension :: Blocked(rows, req, d) ==> !Overfull(rows, req, d)
    requires Verdict(rows, req).retryAt.Some? && Verdict(rows, req).retryAt.value <= now
    ensures Verdict(rows, req.(now := now)).allowed
  {
    var full: Dimension := if Blocked(rows, req, Username) then Username else Client;
    RetryIsLate(rows, req, full);
    forall d: Dimension
      ensures WindowState(rows, req.Of(d), now - req.Window(d)).count < req.Limit(d)
    {
      if Blocked(rows, req, d) {
        RetryIsLate(rows, req, d);
        WindowStateMonotone(rows, req.Of(d), WindowState(rows, req.Of(d), req.Start(d)).oldest.value, now - req.Window(d));
      } else {
        WindowStateMonotone(rows, req.Of(d), req.Start(d), now - req.Window(d));
      }
    }
    assert WindowState(rows, req.Of(Username), now - req.Window(Username)).count < req.Limit(Username);
    assert WindowState(rows, req.Of(Client), now - req.Window(Client)).count < req.Limit(Client);
  }

  /** How many rows a dimension still counts at an instant. */
  function Remaining(rows: seq<Reservation>, req: LoginRequest, d: Dimension, at: int): int {
    WindowState(rows, req.Of(d), at - req.Window(d)).count
  }

  /** Every full window has come below its limit by the instant. */
  predicate DrainedBy(rows: seq<Reservation>, req: LoginRequest, at: int) {
    && (Blocked(rows, req, Username) ==> Remaining(rows, req, Username, at) < req.usernameLimit)
    && (Blocked(rows, req, Client) ==> Remaining(rows, req, Client, at) < req.clientLimit)
  }

  /** This full window's oldest stamp sets the retry instant. */
  predicate Sets(rows: seq<Reservation>, req: LoginRequest, d: Dimension, retry: int) {
    Blocked(rows, req, d)
    && WindowState(rows, req.Of(d), req.Start(d)).oldest == Some(retry - req.Window(d))
  }

  lemma NeverRefills(rows: seq<Reservation>, req: LoginRequest, d: Dimension, at: int, later: int)
    requires at <= later
    ensures Remaining(rows, req, d, later) <= Remaining(rows, req, d, at)
  {
    WindowStateMonotone(rows, req.Of(d), at - req.Window(d), later - req.Window(d));
  }

  lemma AllowedWhenDrained(rows: seq<Reservation>, req: LoginRequest, at: int)
    requires WellFormed(req) && req.now <= at
    ensures Verdict(rows, req.(now := at)).allowed <==> DrainedBy(rows, req, at)
  {
    NeverRefills(rows, req, Username, req.now, at);
    NeverRefills(rows, req, Client, req.now, at);
  }

  /** The promise of the retry instant: denied at every earlier instant, allowed from it on. */
  ghost predicate RetryIsExact(rows: seq<Reservation>, req: LoginRequest) {
    Verdict(rows, req).retryAt.Some?
    && forall now :: Verdict(rows, req.(now := now)).allowed <==> Verdict(rows, req).retryAt.value <= now
  }

  /** For every denied attempt the retry instant is exact if and only if each full window has fewer
      rows than its limit stamped later than its own length before that instant. */
  lemma RetryExactWhenDrained(rows: seq<Reservation>, req: LoginRequest)
    requires WellFormed(req) && !Verdict(rows, req).allowed
    ensures Verdict(rows, req).retryAt.Some?
    ensures RetryIsExact(rows, req) <==> DrainedBy(rows, req, Verdict(rows, req).retryAt.value)
  {
    DeniedHasRetry(rows, req);
    var retry := Verdict(rows, req).retryAt.value;
    DrainedDecides(rows, req, retry);
    assert RetryIsExact(rows, req) ==> Verdict(rows, req.(now := retry)).allowed;
    if DrainedBy(rows, req, retry) {
      forall now
        ensures Verdict(rows, req.(now := now)).allowed <==> retry <= now
      {
        DrainedDecides(rows, req, now);
      }
    }
  }

  lemma DrainedDecides(rows: seq<Reservation>, req: LoginRequest, now: int)
    requires WellFormed(req) && !Verdict(rows, req).allowed
    ensures Verdict(rows, req).retryAt.Some?
    ensures var retry := Verdict(rows, req).retryAt.value;
            && (Verdict(rows, req.(now := retry)).allowed <==> DrainedBy(rows, req, retry))
            && (DrainedBy(rows, req, retry) ==> (Verdict(rows, req.(now := now)).allowed <==> retry <= now))
  {
    DeniedHasRetry(rows, req);
    var full: Dimension := if Blocked(rows, req, Username) then Username else Client;
    RetryIsLate(rows, req, full);
    var retry := Verdict(rows, req).retryAt.value;
    AllowedWhenDrained(rows, req, retry);
    if now < retry {
      DeniedUntilRetry(rows, req, now);
    } else {
      AllowedWhenDrained(rows, req, now);
      NeverRefills(rows, req, Username, retry, now);
      NeverRefills(rows, req, Client, retry, now);
    }
  }

  /** Where one window alone is full, the retry instant is exact if and only if that window is not
      overfull: an attempt at that instant is allowed, or denied once more. */
  lemma RetryExactUnlessOverfull(rows: seq<Reservation>, req: LoginRequest, d: Dimension)
    requires WellFormed(req)
    requires Blocked(rows, req, d) && forall other: Dimension :: other != d ==> !Blocked(rows, req, other)
    ensures Verdict(rows, req).retryAt.Some?
    ensures Verdict(rows, req.(now := Verdict(rows, req).retryAt.value)).allowed <==> !Overfull(rows, req, d)
  {
    assert !Blocked(rows, req, if d == Username then Client else Username);
    SetterDrainsUnlessOverfull(rows, req, d);
    DrainedDecides(rows, req, Verdict(rows, req).retryAt.value);
  }

  /** Some full window sets the retry instant, and every one that does has drained by then exactly
      when it is not overfull. */
  lemma SetterDrainsUnlessOverfull(rows: seq<Reservation>, req: LoginRequest, d: Dimension)
    requires WellFormed(req) && !Verdict(rows, req).allowed
    ensures Verdict(rows, req).retryAt.Some?
    ensures var retry := Verdict(rows, req).retryAt.value;
            && (Sets(rows, req, Username, retry) || Sets(rows, req, Client, retry))
            && (Sets(rows, req, d, retry) ==> (Remaining(rows, req, d, retry) < req.Limit(d) <==> !Overfull(rows, req, d)))
  {
    OldestIsMinimum(rows, req.Of(Username), req.Start(Username));
    OldestIsMinimum(rows, req.Of(Client), req.Start(Client));
  }

  /** A window that is bounded and holds no stamp from the future is not overfull. */
  lemma BoundedIsNotOverfull(rows: seq<Reservation>, req: LoginRequest, d: Dimension)
    requires WellFormed(req)
    requires Bounded(rows, req.Of(d), req.Limit(d), req.Window(d))
    requires forall r :: r in rows ==> r.at <= req.now
    ensures !Overfull(rows, req, d)
  {
    OldestIsMinimum(rows, req.Of(d), req.Start(d));
    WindowIsInterval(rows, req.Of(d), req.Start(d), req.now);
    assert CountIn(rows, req.Of(d), req.Start(d), req.now) <= req.Limit(d);
  }

  /** At the retry instant, and ever after, it is allowed, if the windows are bounded and no row
      is stamped in the future. */
  lemma AllowedFromRetry(rows: seq<Reservation>, req: LoginRequest, now: int)
    requires WellFormed(req)
    requires forall d: Dimension :: Bounded(rows, req.Of(d), req.Limit(d), req.Window(d))
    requires forall r :: r in rows ==> r.at <= req.now
    requires !Verdict(rows, req).allowed
    requires Verdict(rows, req).retryAt.Some? && Verdict(rows, req).retryAt.value <= now
    ensures Verdict(rows, req.(now := now)).allowed
  {
    forall d: Dimension | Blocked(rows, req, d)
      ensures !Overfull(rows, req, d)
    {
      BoundedIsNotOverfull(rows, req, d);
    }
    AllowedUnlessOverfull(rows, req, now);
  }
}
