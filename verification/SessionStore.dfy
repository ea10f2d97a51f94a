/** The session store: a capped map with a sliding expiry, and when a cookie is accepted over whole runs. */
module SessionStore {
  import opened Collections
  import opened Text

  datatype Session = Session(username: string, createdAt: int, lastActivity: int)

  type Sessions = map<string, Session>   // keyed by token

  datatype Limits = Limits(ttl: int, max: int)

  /** Which session a new login pushes out: one created no later than any other, and only when the store is full. */
  ghost predicate Evicts(l: Limits, s: Sessions, victim: Option<string>) {
    match victim
    case None => |s| < l.max || s == map[]
    case Some(v) => |s| >= l.max && v in s && forall t :: t in s ==> s[v].createdAt <= s[t].createdAt
  }

  function Left(s: Sessions, victim: Option<string>): Sessions {
    if victim.Some? then s - {victim.value} else s
  }

  predicate Fresh(l: Limits, s: Sessions, token: string, now: int) {
    token in s && now - s[token].lastActivity <= l.ttl
  }

  function Touched(s: Sessions, token: string, now: int): Sessions
    requires token in s
  {
    s[token := s[token].(lastActivity := now)]
  }

  /** The sessions after a request: an expired one is dropped, and only user activity extends a live one. */
  function Requested(l: Limits, s: Sessions, token: string, polling: bool, now: int): Sessions {
    if !Fresh(l, s, token, now) then s - {token}
    else if polling then s
    else Touched(s, token, now)
  }

  function WithoutUser(s: Sessions, username: string): Sessions {
    map t | t in s && s[t].username != username :: s[t]
  }

  function Unexpired(l: Limits, s: Sessions, now: int): Sessions {
    map t | t in s && now - s[t].lastActivity <= l.ttl :: s[t]
  }

  class SessionStore {
    const l: Limits
    var sessions: Sessions

    constructor (l: Limits)
      ensures this.l == l && sessions == map[]
    {
      this.l, sessions := l, map[];
    }

    /** evictOldestLocked; map iteration order decides between sessions of the same instant. */
    method EvictOldest() returns (oldest: string)
      requires "" !in sessions && |sessions| >= l.max
      modifies this
      ensures oldest == "" <==> old(sessions) == map[]
      ensures Evicts(l, old(sessions), if oldest == "" then None else Some(oldest))
      ensures sessions == Left(old(sessions), if oldest == "" then None else Some(oldest))
    {
      oldest := "";
      var oldestTime := 0;
      var first := true;
      var todo := sessions.Keys;
      while todo != {}
        invariant todo <= sessions.Keys && sessions == old(sessions)
        invariant first <==> todo == sessions.Keys
        invariant first ==> oldest == ""
        invariant !first ==> oldest in sessions && sessions[oldest].createdAt == oldestTime
        invariant !first ==> forall t :: t in sessions && t !in todo ==> oldestTime <= sessions[t].createdAt
      {
        var token :| token in todo;
        todo := todo - {token};
        if first || sessions[token].createdAt < oldestTime {
          oldest, oldestTime, first := token, sessions[token].createdAt, false;
        }
      }
      if oldest != "" {
        sessions := sessions - {oldest};
      }
    }

    /** `token` is the new random token; the victim says which session made room. */
    method Create(username: string, token: string, now: int) returns (victim: Option<string>)
      requires "" !in sessions && token != ""
      modifies this
      ensures "" !in sessions && Evicts(l, old(sessions), victim)
      ensures sessions == Left(old(sessions), victim)[token := Session(username, now, now)]
    {
      victim := None;
      if |sessions| >= l.max {
        var oldest := EvictOldest();
        victim := if oldest == "" then None else Some(oldest);
      }
      sessions := sessions[token := Session(username, now, now)];
    }

    method Get(token: string, now: int) returns (r: Option<Session>)
      modifies this
      ensures r == if Fresh(l, old(sessions), token, now) then Some(old(sessions)[token]) else None
      ensures sessions == if r.Some? then old(sessions) else old(sessions) - {token}
    {
      r := None;
      if token in sessions {
        if now - sessions[token].lastActivity > l.ttl {
          sessions := sessions - {token};
        } else {
          r := Some(sessions[token]);
        }
      }
      assert token !in old(sessions) ==> old(sessions) - {token} == old(sessions);
    }

    method Touch(token: string, now: int)
      modifies this
      ensures sessions == if token in old(sessions) then Touched(old(sessions), token, now) else old(sessions)
    {
      if token in sessions {
        sessions := sessions[token := sessions[token].(lastActivity := now)];
      }
    }

    /** The cookie step of the middleware, taken as one instant. */
    method Admit(cookie: string, polling: bool, now: int) returns (accepted: bool)
      requires "" !in sessions
      modifies this
      ensures accepted == Fresh(l, old(sessions), cookie, now)
      ensures sessions == Requested(l, old(sessions), cookie, polling, now)
    {
      accepted := false;
      if cookie != "" {
        var sess := Get(cookie, now);
        if sess.Some? {
          if !polling {
            Touch(cookie, now);
          }
          accepted := true;
        }
      }
      assert "" !in old(sessions) ==> old(sessions) - {""} == old(sessions);
    }

    method Delete(token: string)
      modifies this
      ensures sessions == old(sessions) - {token}
    {
      sessions := sessions - {token};
    }

    method DeleteByUsername(username: string)
      modifies this
      ensures sessions == WithoutUser(old(sessions), username)
    {
      ghost var all := sessions;
      var todo := sessions.Keys;
      while todo != {}
        invariant todo <= sessions.Keys <= all.Keys
        invariant forall t :: t in sessions ==> sessions[t] == all[t]
        invariant forall t :: t in all && t !in todo ==> (t in sessions <==> all[t].username != username)
      {
        var token :| token in todo;
        todo := todo - {token};
        if sessions[token].username == username {
          sessions := sessions - {token};
        }
      }
    }

    /** One tick of the cleanup goroutine. */
    method Cleanup(now: int)
      modifies this
      ensures sessions == Unexpired(l, old(sessions), now)
      ensures forall t :: t in sessions <==> t in old(sessions) && now - old(sessions)[t].lastActivity <= l.ttl
    {
      ghost var all := sessions;
      var todo := sessions.Keys;
      while todo != {}
        invariant todo <= sessions.Keys <= all.Keys
        invariant forall t :: t in sessions ==> sessions[t] == all[t]
        invariant forall t :: t in all && t !in todo ==> (t in sessions <==> now - all[t].lastActivity <= l.ttl)
      {
        var token :| token in todo;
        todo := todo - {token};
        if now - sessions[token].lastActivity > l.ttl {
          sessions := sessions - {token};
        }
      }
    }
  }

  // ---------------------------------------------------------------- runs

  datatype Event =
    | Login(token: string, username: string, at: int, victim: Option<string>)
    | Request(token: string, polling: bool, at: int)
    | Logout(token: string, at: int)
    | Rotate(username: string, at: int)      // DeleteByUsername
    | Tick(at: int)

  function After(l: Limits, evs: seq<Event>): Sessions {
    if evs == [] then map[] else Next(l, After(l, evs[..|evs| - 1]), evs[|evs| - 1])
  }

  function Next(l: Limits, s: Sessions, e: Event): Sessions {
    match e
    case Login(token, username, t, victim) => Left(s, victim)[token := Session(username, t, t)]
    case Request(token, polling, t) => Requested(l, s, token, polling, t)
    case Logout(token, _) => s - {token}
    case Rotate(username, _) => WithoutUser(s, username)
    case Tick(t) => Unexpired(l, s, t)
  }

  ghost predicate Clocked(evs: seq<Event>) {
    forall i, j :: 0 <= i <= j < |evs| ==> evs[i].at <= evs[j].at
  }

  /** Every login gets a new token. */
  ghost predicate FreshTokens(evs: seq<Event>) {
    forall i, j :: 0 <= i < j < |evs| && evs[i].Login? && evs[j].Login? ==> evs[i].token != evs[j].token
  }

  /** Every victim is one the eviction could have picked. */
  ghost predicate TrueVictims(l: Limits, evs: seq<Event>) {
    forall i :: 0 <= i < |evs| && evs[i].Login? ==> Evicts(l, After(l, evs[..i]), evs[i].victim)
  }

  /** The store never holds more than max(1, maxSessions) sessions. */
  lemma {:induction false} NeverOverfull(l: Limits, evs: seq<Event>)
    requires TrueVictims(l, evs)
    ensures |After(l, evs)| <= if l.max > 1 then l.max else 1
  {
    if evs != [] {
      var n := |evs| - 1;
      forall i | 0 <= i < n && evs[..n][i].Login?
        ensures Evicts(l, After(l, evs[..n][..i]), evs[..n][i].victim)
      {
        assert evs[..n][..i] == evs[..i];
      }
      NeverOverfull(l, evs[..n]);
      NextSize(l, After(l, evs[..n]), evs[n]);
    }
  }

  lemma NextSize(l: Limits, s: Sessions, e: Event)
    requires e.Login? ==> Evicts(l, s, e.victim)
    requires |s| <= if l.max > 1 then l.max else 1
    ensures |Next(l, s, e)| <= if l.max > 1 then l.max else 1
  {
    var s' := Next(l, s, e);
    Sizes(s);
    Sizes(s');
    if e.Login? {
      var left := Left(s, e.victim);
      Sizes(left);
      assert s'.Keys == left.Keys + {e.token};
      if e.victim.Some? {
        assert left.Keys == s.Keys - {e.victim.value};
      }
    } else {
      assert s'.Keys <= s.Keys;
      SubsetSize(s'.Keys, s.Keys);
    }
  }

  lemma Sizes(s: Sessions)
    ensures |s| == |s.Keys|
  {
  }

  // ---------------------------------------------------------------- acceptance

  predicate Accepted(l: Limits, evs: seq<Event>, i: nat)
    requires i < |evs| && evs[i].Request?
  {
    Fresh(l, After(l, evs[..i]), evs[i].token, evs[i].at)
  }

  /** The login of `token` and the user's own requests with it: what the sliding window counts. */
  predicate Activity(e: Event, token: string) {
    (e.Login? && e.token == token) || (e.Request? && e.token == token && !e.polling)
  }

  /** The time of the last activity at positions j..m-1. */
  function LastTime(evs: seq<Event>, token: string, j: nat, m: nat): int
    requires j < m <= |evs|
    decreases m
  {
    if m == j + 1 || Activity(evs[m - 1], token) then evs[m - 1].at else LastTime(evs, token, j, m - 1)
  }

  /** Events that end a session whatever the clock says: logout, rotation of its user, eviction. */
  predicate Ends(e: Event, token: string, username: string) {
    match e
    case Login(_, _, _, victim) => victim == Some(token)
    case Logout(t, _) => t == token
    case Rotate(u, _) => u == username
    case _ => false
  }

  /** Between j and m nothing ended the session, and each activity came within the TTL of the one before. */
  ghost predicate Unbroken(l: Limits, evs: seq<Event>, j: nat, m: nat)
    requires j < m <= |evs| && evs[j].Login?
  {
    forall i :: j < i < m ==>
      && !Ends(evs[i], evs[j].token, evs[j].username)
      && (Activity(evs[i], evs[j].token) ==> evs[i].at - LastTime(evs, evs[j].token, j, i) <= l.ttl)
  }

  /** The entry of one token after the events before m: there as long as its activity is unbroken. */
  ghost predicate Tracked(l: Limits, evs: seq<Event>, j: nat, m: nat)
    requires j < m <= |evs| && evs[j].Login?
  {
    var s, token := After(l, evs[..m]), evs[j].token;
    var last := LastTime(evs, token, j, m);
    && (token in s ==> Unbroken(l, evs, j, m) && s[token] == Session(evs[j].username, evs[j].at, last))
    && (token !in s && Unbroken(l, evs, j, m) ==> evs[m - 1].at - last > l.ttl)
  }

  lemma {:induction false} TracksActivity(l: Limits, evs: seq<Event>, j: nat, m: nat)
    requires Clocked(evs) && FreshTokens(evs) && j < m <= |evs| && evs[j].Login? && l.ttl >= 0
    ensures Tracked(l, evs, j, m)
    decreases m
  {
    var n := m - 1;
    assert evs[..m][..n] == evs[..n];
    if n > j {
      TracksActivity(l, evs, j, n);
      assert evs[n - 1].at <= evs[n].at;
      TrackStep(l, evs, j, n);
    }
  }

  lemma TrackStep(l: Limits, evs: seq<Event>, j: nat, n: nat)
    requires FreshTokens(evs) && j < n < |evs| && evs[j].Login? && l.ttl >= 0
    requires evs[n - 1].at <= evs[n].at && evs[..n + 1][..n] == evs[..n]
    requires Tracked(l, evs, j, n)
    ensures Tracked(l, evs, j, n + 1)
  {
    var s, e, token := After(l, evs[..n]), evs[n], evs[j].token;
    assert After(l, evs[..n + 1]) == Next(l, s, e);
    assert e.Login? ==> e.token != token;
  }

  /**
   * When a cookie is accepted, exactly: its login is in the past, nothing ended the session since, and the
   * login, the user's own requests and this request follow each other without a gap longer than the TTL.
   */
  lemma AcceptedIff(l: Limits, evs: seq<Event>, j: nat, i: nat)
    requires Clocked(evs) && FreshTokens(evs) && l.ttl >= 0
    requires j < i < |evs| && evs[j].Login? && evs[i].Request? && evs[i].token == evs[j].token
    ensures Accepted(l, evs, i) <==>
            Unbroken(l, evs, j, i) && evs[i].at - LastTime(evs, evs[j].token, j, i) <= l.ttl
  {
    TracksActivity(l, evs, j, i);
    assert evs[i - 1].at <= evs[i].at;
  }

  /** Without a login there is nothing to accept. */
  lemma {:induction false} NeverWithoutLogin(l: Limits, evs: seq<Event>, token: string)
    requires forall j :: 0 <= j < |evs| && evs[j].Login? ==> evs[j].token != token
    ensures token !in After(l, evs)
  {
    if evs != [] {
      NeverWithoutLogin(l, evs[..|evs| - 1], token);
    }
  }
}
