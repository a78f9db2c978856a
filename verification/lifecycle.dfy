/** Properties relating several operations of the two services: the
    active-then-inactive session lifecycle, and how logging in and out decides
    which sessions the session service sees as the current user's. */
module Lifecycle {
  import opened Wrappers
  import opened Models
  import opened Storage
  import ArrayOps
  import Auth
  import opened Sessions

  /** Ending a session twice is the same as ending it once, whatever the second timestamp. */
  lemma EndSessionIdempotent(st: Store, id: string, t1: nat, t2: nat)
    ensures EndSession(EndSession(st, id, t1), id, t2) == EndSession(st, id, t1)
  {
  }

  /** Once a session has been ended, adding a score to it changes nothing. */
  lemma AddScoreAfterEndIsNoOp(st: Store, id: string, t: nat, x: int)
    ensures AddScore(EndSession(st, id, t), id, x) == EndSession(st, id, t)
  {
  }

  /** A user with no active session who starts one sees it as their active session. */
  lemma StartThenActive(st: Store, freshId: string, now: nat)
    requires GetActiveSession(st) == None
    ensures var Started(st1, s) := StartSession(st, freshId, now);
            GetActiveSession(st1) == Some(s)
  {
    var Started(st1, s) := StartSession(st, freshId, now);
    var ss := GetSessions(st);
    assert ArrayOps.IsFirst(GetSessions(st1), ActiveOwnedBy(GetCurrentUserId(st)), |ss|);
  }

  /** Starting a session while one is already active leaves the older one active and
      still reported as the active session: the new session is stored behind it. */
  lemma StartWhileActiveKeepsOlder(st: Store, freshId: string, now: nat)
    requires GetActiveSession(st).Some?
    ensures var Started(st1, s) := StartSession(st, freshId, now);
            GetActiveSession(st1) == GetActiveSession(st) && s.isActive
  {
    var Started(st1, s) := StartSession(st, freshId, now);
    var ss := GetSessions(st);
    var p := ActiveOwnedBy(GetCurrentUserId(st));
    var i := ArrayOps.FindIndex(ss, p).value;
    assert GetSessions(st1)[..|ss|] == ss;
    assert ArrayOps.IsFirst(GetSessions(st1), p, i);
  }

  /** The new session is listed last among the current user's sessions, after the
      ones they already had, in stored order. */
  lemma StartExtendsUserSessions(st: Store, freshId: string, now: nat)
    ensures var Started(st1, s) := StartSession(st, freshId, now);
            GetUserSessions(st1) == GetUserSessions(st) + [s]
  {
    var Started(st1, s) := StartSession(st, freshId, now);
    var p := OwnedBy(GetCurrentUserId(st));
    ArrayOps.FilterAppend(GetSessions(st), [s], p);
    assert ArrayOps.Filter([s], p) == [s];
  }

  /** The whole lifecycle of a session under a fresh id: start it, add one score, end
      it. The stored list gains exactly one session at the end, inactive, with that
      score and both dates, and the sessions stored before are untouched. */
  lemma FreshSessionLifecycle(st: Store, freshId: string, start: nat, x: int, stop: nat)
    requires forall j :: 0 <= j < |GetSessions(st)| ==> GetSessions(st)[j].id != freshId
    ensures var st1 := StartSession(st, freshId, start).store;
            var st3 := EndSession(AddScore(st1, freshId, x), freshId, stop);
            GetSessions(st3) == GetSessions(st) + [Session(freshId, GetCurrentUserId(st), start, Some(stop), [x], false)]
  {
  }

  /** After a successful login the session service attributes new sessions to the
      username that logged in. */
  lemma LoginSetsCurrentUserId(st: Store, name: string, password: string)
    requires Auth.Login(st, name, password).ok
    ensures GetCurrentUserId(Auth.Login(st, name, password).store) == name
  {
  }

  /** After logging out there is no current user, sessions are attributed to the
      empty id, and the stored users and sessions are as before. */
  lemma LogoutClearsCurrentUserId(st: Store)
    ensures var st1 := Auth.Logout(st);
            && Auth.GetCurrentUser(st1) == None
            && GetCurrentUserId(st1) == ""
            && Auth.GetUsers(st1) == Auth.GetUsers(st)
            && GetSessions(st1) == GetSessions(st)
  {
  }

  /** With nothing stored under any key there are no users, no current user and no
      sessions, so both services report empty lists and no active session. */
  lemma NothingStored()
    ensures Auth.GetUsers(Empty) == [] && Auth.GetCurrentUser(Empty) == None
    ensures GetSessions(Empty) == [] && GetUserSessions(Empty) == [] && GetActiveSession(Empty) == None
  {
  }
}
