/** The reservation table as one transaction sees it: the repository's own methods, each proved
    against the window arithmetic, and the two ways the retry promise and the clock interact. */
module LoginRates {
  import opened Wrappers
  import opened Clock
  import opened RateWindow

  datatype RateError = BadUsernameHash | BadClientHash | WindowNotPositive | LimitNotPositive

  /** The first argument check that fails, in the order the checks are made. */
  function Complaint(req: LoginRequest): (e: Option<RateError>)
    ensures e.None? <==> WellFormed(req)
    ensures e == Some(BadUsernameHash) <==> !IsSha256(req.username)
    ensures e == Some(BadClientHash) <==> IsSha256(req.username) && !IsSha256(req.client)
    ensures e == Some(WindowNotPositive) <==>
              IsSha256(req.username) && IsSha256(req.client) && (req.usernameWindow <= 0 || req.clientWindow <= 0)
    ensures e == Some(LimitNotPositive) <==>
              && IsSha256(req.username) && IsSha256(req.client) && 0 < req.usernameWindow && 0 < req.clientWindow
              && (req.usernameLimit <= 0 || req.clientLimit <= 0)
  {
    if !IsSha256(req.username) then Some(BadUsernameHash)
    else if !IsSha256(req.client) then Some(BadClientHash)
    else if req.usernameWindow <= 0 || req.clientWindow <= 0 then Some(WindowNotPositive)
    else if req.usernameLimit <= 0 || req.clientLimit <= 0 then Some(LimitNotPositive)
    else None
  }

  /** What one attempt decides, adds and reports: it is granted exactly when both windows hold fewer
      rows than their limits; a grant adds one row for each subject at its own instant; and the counts
      reported, granted or denied, are what the windows hold once the attempt is done, beside the
      request's own limits. */
  lemma DecisionExactly(rows: seq<Reservation>, req: LoginRequest, decision: Decision, after: seq<Reservation>)
    requires WellFormed(req) && decision == Verdict(rows, req) && after == After(rows, req)
    ensures var user, client := Subject(Username, req.username), Subject(Client, req.client);
            && (decision.allowed <==>
                  && WindowState(rows, user, req.now - req.usernameWindow).count < req.usernameLimit
                  && WindowState(rows, client, req.now - req.clientWindow).count < req.clientLimit)
            && after == rows + (if decision.allowed then [Reservation(user, req.now), Reservation(client, req.now)] else [])
            && decision.usernameCount == WindowState(after, user, req.now - req.usernameWindow).count
            && decision.clientCount == WindowState(after, client, req.now - req.clientWindow).count
            && decision.usernameLimit == req.usernameLimit && decision.clientLimit == req.clientLimit
  {
    var user, client := Subject(Username, req.username), Subject(Client, req.client);
    if decision.allowed {
      GrantCounts(rows, user, client, req.now, req.now - req.usernameWindow, req.now - req.clientWindow);
    } else {
      assert rows + [] == rows;
    }
  }

  /** A grant counts itself in both of its windows. */
  lemma GrantCounts(rows: seq<Reservation>, user: Subject, client: Subject, now: int, since: int, from: int)
    requires user.dimension != client.dimension && since < now && from < now
    ensures var after := rows + [Reservation(user, now), Reservation(client, now)];
            && WindowState(after, user, since).count == WindowState(rows, user, since).count + 1
            && WindowState(after, client, from).count == WindowState(rows, client, from).count + 1
  {
    var u, c := Reservation(user, now), Reservation(client, now);
    assert rows + [u, c] == rows + [u] + [c];
    WindowStateAppend(rows, u, user, since);
    WindowStateAppend(rows + [u], c, user, since);
    WindowStateAppend(rows, u, client, from);
    WindowStateAppend(rows + [u], c, client, from);
  }

  class LoginRateRepository {
    var reservations: seq<Reservation>

    constructor ()
      ensures reservations == []
    {
      reservations := [];
    }

    method ReserveLoginAttempt(req: LoginRequest) returns (r: Result<Decision, RateError>)
      modifies this
      ensures !WellFormed(req) ==> r == Failure(Complaint(req).value) && reservations == old(reservations)
      ensures WellFormed(req) ==>
                && r == Success(Verdict(old(reservations), req))
                && reservations == After(old(reservations), req)
                && r.value.usernameCount >= 0 && r.value.clientCount >= 0
                && (r.value.allowed ==> r.value.usernameCount <= req.usernameLimit && r.value.clientCount <= req.clientLimit)
                && (r.value.retryAt.Some? <==> !r.value.allowed)
      ensures WellFormed(req) ==>
                var user, client := Subject(Username, req.username), Subject(Client, req.client);
                && (r.value.allowed <==>
                      && WindowState(old(reservations), user, req.now - req.usernameWindow).count < req.usernameLimit
                      && WindowState(old(reservations), client, req.now - req.clientWindow).count < req.clientLimit)
                && reservations == old(reservations)
                     + (if r.value.allowed then [Reservation(user, req.now), Reservation(client, req.now)] else [])
                && r.value.usernameCount == WindowState(reservations, user, req.now - req.usernameWindow).count
                && r.value.clientCount == WindowState(reservations, client, req.now - req.clientWindow).count
                && r.value.usernameLimit == req.usernameLimit && r.value.clientLimit == req.clientLimit
    {
      var complaint := Complaint(req);
      if complaint.Some? {
        return Failure(complaint.value);
      }
      var user := WindowState(reservations, req.Of(Username), req.now - req.usernameWindow);
      var client := WindowState(reservations, req.Of(Client), req.now - req.clientWindow);
      var allowed := user.count < req.usernameLimit && client.count < req.clientLimit;
      var candidates: seq<int> := [];
      if user.count >= req.usernameLimit && user.oldest.Some? {
        candidates := candidates + [user.oldest.value + req.usernameWindow];
      }
      if client.count >= req.clientLimit && client.oldest.Some? {
        candidates := candidates + [client.oldest.value + req.clientWindow];
      }
      var usernameCount, clientCount := user.count, client.count;
      DeniedHasRetry(reservations, req);
      DecisionExactly(reservations, req, Verdict(reservations, req), After(reservations, req));
      if allowed {
        reservations := reservations
          + [Reservation(req.Of(Username), req.now), Reservation(req.Of(Client), req.now)];
        usernameCount, clientCount := usernameCount + 1, clientCount + 1;
      }
      var retryAt := if |candidates| == 0 then None
                     else if |candidates| == 1 then Some(candidates[0])
                     else Some(Max(candidates[0], candidates[1]));
      r := Success(Decision(allowed, usernameCount, req.usernameLimit, clientCount, req.clientLimit, retryAt));
    }

    /** Deletes the rows stamped before the cut and says how many went. */
    method PruneBefore(before: int) returns (deleted: nat)
      modifies this
      ensures reservations == Keep(old(reservations), before)
      ensures deleted == |old(reservations)| - |reservations|
      ensures forall r :: r in reservations <==> r in old(reservations) && r.at >= before
    {
      KeepIsFilter(reservations, before);
      var kept := Keep(reservations, before);
      deleted := |reservations| - |kept|;
      reservations := kept;
    }
  }

  lemma {:induction false} KeepIsFilter(rows: seq<Reservation>, before: int)
    ensures |Keep(rows, before)| <= |rows|
    ensures forall r :: r in Keep(rows, before) <==> r in rows && r.at >= before
  {
    if rows != [] {
      KeepIsFilter(rows[..|rows| - 1], before);
      assert forall r :: r in rows <==> r in rows[..|rows| - 1] || r == rows[|rows| - 1];
    }
  }

  const DIGEST: string := "aaaaaaaaaaaaaaaaaaaaaaaaaaaaaaaaaaaaaaaaaaaaaaaaaaaaaaaaaaaaaaaa"

  function Probe(now: int): LoginRequest {
    LoginRequest(DIGEST, DIGEST, now, 1, 5, 9, 5)
  }

  /** With a clock that runs backwards the retry instant can come too early: after grants at 0 and
      at 10, an attempt stamped 3 is told to retry at 5, and at 5 it is denied again. */
  lemma ClockSkewBreaksRetry()
    ensures var rows := After(After([], Probe(0)), Probe(10));
            && !Verdict(rows, Probe(3)).allowed
            && Verdict(rows, Probe(3)).retryAt == Some(5)
            && !Verdict(rows, Probe(5)).allowed
  {
    TwoGrants();
    SkewedCounts();
  }

  /** The rows a granted probe leaves. */
  function Granting(rows: seq<Reservation>, at: int): seq<Reservation> {
    rows + [Reservation(Subject(Username, DIGEST), at)] + [Reservation(Subject(Client, DIGEST), at)]
  }

  lemma TwoGrants()
    ensures After([], Probe(0)) == Granting([], 0)
    ensures After(Granting([], 0), Probe(10)) == Granting(Granting([], 0), 10)
  {
    TwoMore([], 0, Subject(Username, DIGEST), 5);
    TwoMore([], 0, Subject(Client, DIGEST), 5);
  }

  lemma SkewedCounts()
    ensures var rows := Granting(Granting([], 0), 10);
            && WindowState(rows, Subject(Username, DIGEST), -2) == Tally(2, Some(0))
            && WindowState(rows, Subject(Client, DIGEST), -2) == Tally(2, Some(0))
            && WindowState(rows, Subject(Username, DIGEST), 0) == Tally(1, Some(10))
  {
    CountsSince(Subject(Username, DIGEST), -2);
    CountsSince(Subject(Client, DIGEST), -2);
    CountsSince(Subject(Username, DIGEST), 0);
  }

  lemma CountsSince(s: Subject, start: int)
    requires s == Subject(Username, DIGEST) || s == Subject(Client, DIGEST)
    requires start < 10
    ensures WindowState(Granting(Granting([], 0), 10), s, start) == if start < 0 then Tally(2, Some(0)) else Tally(1, Some(10))
  {
    TwoMore([], 0, s, start);
    TwoMore(Granting([], 0), 10, s, start);
  }

  /** What one granted probe adds to a count of its username or of its client. */
  lemma TwoMore(rows: seq<Reservation>, at: int, s: Subject, start: int)
    requires s == Subject(Username, DIGEST) || s == Subject(Client, DIGEST)
    ensures WindowState(Granting(rows, at), s, start)
         == var w := WindowState(rows, s, start);
            if at <= start then w
            else Tally(w.count + 1, Some(if w.oldest.None? then at else Min(w.oldest.value, at)))
  {
    WindowStateAppend(rows, Reservation(Subject(Username, DIGEST), at), s, start);
    WindowStateAppend(rows + [Reservation(Subject(Username, DIGEST), at)], Reservation(Subject(Client, DIGEST), at), s, start);
  }
}
