/** Session bookkeeping: a stored list of numeric-score sessions, each owned by a
    user, with an active-then-inactive lifecycle. Every mutation reads the whole
    list, updates the first session with the given id when a guard holds, and
    writes the whole list back. */
module Sessions {
  import opened Wrappers
  import opened Models
  import opened Storage
  import ArrayOps

  // ---------------------------------------------------------------------------
  // Reading and writing the sessions key

  /** The stored session list; empty when nothing is stored under the sessions key. */
  function GetSessions(st: Store): (r: seq<Session>)
    ensures st.sessions.None? ==> r == []
    ensures st.sessions.Some? ==> r == st.sessions.value
  {
    match st.sessions
    case None => []
    case Some(ss) => ss
  }

  /** Overwrites the sessions key with `ss`; the other keys are left alone. */
  function SaveAllSessions(st: Store, ss: seq<Session>): (r: Store)
    ensures GetSessions(r) == ss
    ensures r.users == st.users && r.currentUser == st.currentUser
  {
    st.(sessions := Some(ss))
  }

  /** Appends one session to the stored list. */
  function SaveSession(st: Store, s: Session): (r: Store)
    ensures GetSessions(r) == GetSessions(st) + [s]
    ensures r.users == st.users && r.currentUser == st.currentUser
  {
    SaveAllSessions(st, GetSessions(st) + [s])
  }

  /** The username of the current user, or the empty string when nobody is logged in. */
  function GetCurrentUserId(st: Store): (r: string)
    ensures st.currentUser.None? ==> r == ""
    ensures st.currentUser.Some? ==> r == st.currentUser.value.username
  {
    match st.currentUser
    case None => ""
    case Some(u) => u.username
  }

  // ---------------------------------------------------------------------------
  // Predicates the list is searched with

  function HasId(id: string): Session -> bool {
    (s: Session) => s.id == id
  }

  function OwnedBy(userId: string): Session -> bool {
    (s: Session) => s.userId == userId
  }

  function ActiveOwnedBy(userId: string): Session -> bool {
    (s: Session) => s.isActive && s.userId == userId
  }

  /** `ss'` is `ss` with position `i` replaced by `s'` and every other position kept. */
  ghost predicate UpdatedAt(ss: seq<Session>, ss': seq<Session>, i: int, s': Session) {
    && 0 <= i < |ss|
    && |ss'| == |ss|
    && ss'[i] == s'
    && forall j :: 0 <= j < |ss| && j != i ==> ss'[j] == ss[j]
  }

  /** The session as `endSession` leaves it: inactive, end date set, every other field kept. */
  function Ended(s: Session, now: nat): (r: Session)
    ensures !r.isActive && r.endDate == Some(now)
    ensures r.id == s.id && r.userId == s.userId && r.startDate == s.startDate && r.scores == s.scores
  {
    s.(isActive := false, endDate := Some(now))
  }

  /** The session as `addScore` leaves it: `score` appended to its scores, every other field kept. */
  function Scored(s: Session, score: int): (r: Session)
    ensures |r.scores| == |s.scores| + 1 && r.scores[..|s.scores|] == s.scores && r.scores[|s.scores|] == score
    ensures r.id == s.id && r.userId == s.userId && r.startDate == s.startDate
    ensures r.endDate == s.endDate && r.isActive == s.isActive
  {
    s.(scores := s.scores + [score])
  }

  // ---------------------------------------------------------------------------
  // Operations

  /** What `startSession` leaves behind: the new store and the session it returns. */
  datatype Started = Started(store: Store, session: Session)

  /** Starting a session appends exactly one new session, active, with no scores and
      no end date, owned by the current user (the empty id when nobody is logged in),
      and returns it. Stored sessions are not touched: an already active session
      stays active. */
  function StartSession(st: Store, freshId: string, now: nat): (r: Started)
    ensures r.session.id == freshId && r.session.userId == GetCurrentUserId(st) && r.session.startDate == now
    ensures r.session.isActive && r.session.scores == [] && r.session.endDate == None
    ensures GetSessions(r.store) == GetSessions(st) + [r.session]
    ensures r.store.users == st.users && r.store.currentUser == st.currentUser
  {
    var s := Session(freshId, GetCurrentUserId(st), now, None, [], true);
    Started(SaveSession(st, s), s)
  }

  /** Ending acts only on the first session with the given id, and only when it is
      active: that session becomes inactive with end date `now` and nothing else in
      the store changes. When the id is absent or the session already ended, the
      store is left exactly as it was. */
  function EndSession(st: Store, id: string, now: nat): (r: Store)
    ensures forall i :: ArrayOps.IsFirst(GetSessions(st), HasId(id), i) && GetSessions(st)[i].isActive ==>
              UpdatedAt(GetSessions(st), GetSessions(r), i, Ended(GetSessions(st)[i], now))
    ensures (forall i :: ArrayOps.IsFirst(GetSessions(st), HasId(id), i) ==> !GetSessions(st)[i].isActive) ==>
              r == st
    ensures r.users == st.users && r.currentUser == st.currentUser
  {
    var ss := GetSessions(st);
    match ArrayOps.FindIndex(ss, HasId(id))
    case Some(i) =>
      if ss[i].isActive then SaveAllSessions(st, ss[i := Ended(ss[i], now)]) else st
    case None => st
  }

  /** Adding a score acts only on the first session with the given id, and only when
      it is active: `score` is appended to that session's scores and nothing else in
      the store changes. When the id is absent or the session has ended, the store is
      left exactly as it was. */
  function AddScore(st: Store, id: string, score: int): (r: Store)
    ensures forall i :: ArrayOps.IsFirst(GetSessions(st), HasId(id), i) && GetSessions(st)[i].isActive ==>
              UpdatedAt(GetSessions(st), GetSessions(r), i, Scored(GetSessions(st)[i], score))
    ensures (forall i :: ArrayOps.IsFirst(GetSessions(st), HasId(id), i) ==> !GetSessions(st)[i].isActive) ==>
              r == st
    ensures r.users == st.users && r.currentUser == st.currentUser
  {
    var ss := GetSessions(st);
    match ArrayOps.FindIndex(ss, HasId(id))
    case Some(i) =>
      if ss[i].isActive then SaveAllSessions(st, ss[i := Scored(ss[i], score)]) else st
    case None => st
  }

  /** The first stored session that is active and owned by the current user, or
      nothing when there is none. */
  function GetActiveSession(st: Store): (r: Option<Session>)
    ensures forall i :: ArrayOps.IsFirst(GetSessions(st), ActiveOwnedBy(GetCurrentUserId(st)), i) ==>
              r == Some(GetSessions(st)[i])
    ensures r.None? <==> forall j :: 0 <= j < |GetSessions(st)| ==>
              !(GetSessions(st)[j].isActive && GetSessions(st)[j].userId == GetCurrentUserId(st))
  {
    var ss := GetSessions(st);
    match ArrayOps.FindIndex(ss, ActiveOwnedBy(GetCurrentUserId(st)))
    case Some(i) => Some(ss[i])
    case None => None
  }

  /** The stored sessions owned by the current user: each one owned by them, and
      every session they own is listed. */
  function GetUserSessions(st: Store): (r: seq<Session>)
    ensures forall k :: 0 <= k < |r| ==> r[k] in GetSessions(st) && r[k].userId == GetCurrentUserId(st)
    ensures forall j :: 0 <= j < |GetSessions(st)| && GetSessions(st)[j].userId == GetCurrentUserId(st) ==>
              GetSessions(st)[j] in r
    ensures forall j :: 0 <= j < |GetSessions(st)| ==>
              multiset(r)[GetSessions(st)[j]] ==
              (if GetSessions(st)[j].userId == GetCurrentUserId(st) then multiset(GetSessions(st))[GetSessions(st)[j]] else 0)
  {
    var ss := GetSessions(st);
    var r := ArrayOps.Filter(ss, OwnedBy(GetCurrentUserId(st)));
    assert forall j :: 0 <= j < |ss| ==>
      multiset(r)[ss[j]] == (if ss[j].userId == GetCurrentUserId(st) then multiset(ss)[ss[j]] else 0) by {
      forall j | 0 <= j < |ss| {
        ArrayOps.FilterCount(ss, OwnedBy(GetCurrentUserId(st)), ss[j]);
      }
    }
    r
  }

  /** `getUserSessions` keeps stored order: splitting the stored list at any point
      splits the user's sessions at the matching point, so the user's sessions among
      the first `k` stored ones come first, followed by those among the rest. */
  lemma UserSessionsInStoredOrder(st: Store, k: nat)
    requires k <= |GetSessions(st)|
    ensures var ss := GetSessions(st);
            GetUserSessions(st) ==
            GetUserSessions(st.(sessions := Some(ss[..k]))) + GetUserSessions(st.(sessions := Some(ss[k..])))
  {
    var ss := GetSessions(st);
    assert ss == ss[..k] + ss[k..];
    ArrayOps.FilterAppend(ss[..k], ss[k..], OwnedBy(GetCurrentUserId(st)));
  }

  // ---------------------------------------------------------------------------
  // Statistics over a session's scores

  /** The integer fields of `getSessionStats`; `count` is absent for a session with no scores. */
  datatype Stats = Stats(total: int, max: int, min: int, count: Option<nat>)

  /** `scores.reduce((a, b) => a + b, acc)`: a left fold. */
  function Reduce(scores: seq<int>, acc: int): int
    decreases |scores|
  {
    if |scores| == 0 then acc else Reduce(scores[1..], acc + scores[0])
  }

  /** The sum of the scores, as a reference definition. */
  function Sum(scores: seq<int>): int
    decreases |scores|
  {
    if |scores| == 0 then 0 else scores[0] + Sum(scores[1..])
  }

  /** `Math.max(...scores)` on a non-empty list: an element no smaller than any other. */
  function MaxOf(scores: seq<int>): (m: int)
    requires |scores| > 0
    ensures m in scores
    ensures forall k :: 0 <= k < |scores| ==> scores[k] <= m
    decreases |scores|
  {
    if |scores| == 1 then scores[0]
    else
      var m := MaxOf(scores[..|scores| - 1]);
      if scores[|scores| - 1] > m then scores[|scores| - 1] else m
  }

  /** `Math.min(...scores)` on a non-empty list: an element no larger than any other. */
  function MinOf(scores: seq<int>): (m: int)
    requires |scores| > 0
    ensures m in scores
    ensures forall k :: 0 <= k < |scores| ==> m <= scores[k]
    decreases |scores|
  {
    if |scores| == 1 then scores[0]
    else
      var m := MinOf(scores[..|scores| - 1]);
      if scores[|scores| - 1] < m then scores[|scores| - 1] else m
  }

  /** Folding with `+` from `acc` adds the sum of the scores to `acc`. */
  lemma {:induction false} ReduceIsSum(scores: seq<int>, acc: int)
    ensures Reduce(scores, acc) == acc + Sum(scores)
    decreases |scores|
  {
    if |scores| > 0 {
      ReduceIsSum(scores[1..], acc + scores[0]);
    }
  }

  /** Appending a score adds it to the sum. */
  lemma {:induction false} SumAppend(scores: seq<int>, x: int)
    ensures Sum(scores + [x]) == Sum(scores) + x
    decreases |scores|
  {
    if |scores| == 0 {
      assert [] + [x] == [x];
    } else {
      assert (scores + [x])[1..] == scores[1..] + [x];
      SumAppend(scores[1..], x);
    }
  }

  /** With no scores every field is 0 and `count` is missing. Otherwise `total` is the
      sum, `count` the number of scores, and `max` and `min` are scores bounding every
      other score from above and below. */
  function GetSessionStats(session: Session): (r: Stats)
    ensures |session.scores| == 0 ==> r == Stats(0, 0, 0, None)
    ensures |session.scores| > 0 ==> r.total == Sum(session.scores) && r.count == Some(|session.scores|)
    ensures |session.scores| > 0 ==> r.max in session.scores && r.min in session.scores
    ensures forall k :: 0 <= k < |session.scores| ==> r.min <= session.scores[k] <= r.max
  {
    var scores := session.scores;
    if |scores| == 0 then Stats(0, 0, 0, None)
    else
      ReduceIsSum(scores, 0);
      Stats(Reduce(scores, 0), MaxOf(scores), MinOf(scores), Some(|scores|))
  }

  /** Adding one score to a session moves its statistics the way the dashboard expects:
      the total grows by the score, the count by one, and the score becomes the new
      maximum or minimum exactly when it exceeds or undercuts the old one. */
  lemma ScoredStats(s: Session, x: int)
    ensures var before := GetSessionStats(s);
            var after := GetSessionStats(Scored(s, x));
            && after.total == before.total + x
            && after.count == Some(|s.scores| + 1)
            && after.max == (if |s.scores| == 0 || x > before.max then x else before.max)
            && after.min == (if |s.scores| == 0 || x < before.min then x else before.min)
  {
    var t := s.scores + [x];
    SumAppend(s.scores, x);
    if |s.scores| > 0 {
      assert t[..|t| - 1] == s.scores;
    }
  }
}
