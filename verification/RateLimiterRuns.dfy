/** The limiter as it runs: one map of buckets for all connections, and a cleanup that drops idle ones. */
module RateLimiterRuns {
  import opened Text
  import opened Collections
  import opened RateLimit

  /** The number given to a connection by ConnContext. */
  datatype ConnId = ConnId(n: int)

  type Buckets = map<ConnId, Bucket>

  datatype Event = Request(conn: ConnId, at: real) | Cleanup(at: real)

  predicate Idle(b: Bucket, now: real) {
    now - b.last > IDLE
  }

  function Swept(bs: Buckets, now: real): Buckets {
    map id | id in bs && !Idle(bs[id], now) :: bs[id]
  }

  class RateLimiter {
    const l: Limits
    var buckets: Buckets

    constructor (l: Limits)
      ensures this.l == l && buckets == map[]
    {
      this.l, buckets := l, map[];
    }

    method Allow(conn: ConnId, now: real) returns (ok: bool)
      modifies this
      ensures ok == Answer(l, old(At(buckets, conn)), now)
      ensures buckets == old(buckets)[conn := Used(l, old(At(buckets, conn)), now)]
    {
      var b := if conn in buckets then buckets[conn] else Bucket(l.burst as real, now);
      var tokens := b.tokens + (now - b.last) * l.rate;
      if tokens > l.burst as real {
        tokens := l.burst as real;
      }
      ok := tokens >= 1.0;
      if ok {
        tokens := tokens - 1.0;
      }
      buckets := buckets[conn := Bucket(tokens, now)];
    }

    method DropIdle(now: real)
      modifies this
      ensures buckets == Swept(old(buckets), now)
      ensures forall id :: id in buckets <==> id in old(buckets) && now - old(buckets)[id].last <= 300.0
    {
      hide Idle;
      ghost var all := buckets;
      var todo := buckets.Keys;
      while todo != {}
        invariant todo <= buckets.Keys <= all.Keys
        invariant forall id :: id in buckets ==> buckets[id] == all[id]
        invariant forall id :: id in all && id !in todo ==> (id in buckets <==> !Idle(all[id], now))
      {
        var id :| id in todo;
        todo := todo - {id};
        if Idle(buckets[id], now) {
          buckets := buckets - {id};
        }
      }
      IdleAfter();
    }
  }

  lemma IdleAfter()
    ensures forall b, now :: Idle(b, now) <==> now - b.last > 300.0
  {
  }

  // ---------------------------------------------------------------- runs

  /** The buckets after a run; with `sweep` off, cleanups are skipped. */
  function BucketsAfter(l: Limits, evs: seq<Event>, sweep: bool): Buckets {
    if evs == [] then map[]
    else
      var bs := BucketsAfter(l, evs[..|evs| - 1], sweep);
      match evs[|evs| - 1]
      case Request(c, t) => bs[c := Used(l, At(bs, c), t)]
      case Cleanup(t) => if sweep then Swept(bs, t) else bs
  }

  /** The answer a request gets after a run. */
  function AnswerAfter(l: Limits, evs: seq<Event>, conn: ConnId, t: real, sweep: bool): bool {
    Answer(l, At(BucketsAfter(l, evs, sweep), conn), t)
  }

  /** The request times of one connection. */
  function TimesOf(evs: seq<Event>, conn: ConnId): seq<real> {
    if evs == [] then []
    else
      var e := evs[|evs| - 1];
      TimesOf(evs[..|evs| - 1], conn) + (if e.Request? && e.conn == conn then [e.at] else [])
  }

  ghost predicate Clocked(evs: seq<Event>) {
    forall i, j :: 0 <= i <= j < |evs| ==> evs[i].at <= evs[j].at
  }

  /** As main.go configures it: burst equals the rate, so a bucket is full again long before it is idle. */
  predicate RefillsWhileIdle(l: Limits) {
    l.rate >= 0.0 && l.burst as real <= IDLE * l.rate
  }

  lemma IdleIsFull(l: Limits, b: Bucket, now: real)
    requires RefillsWhileIdle(l) && Idle(b, now) && b.tokens >= 0.0
    ensures Refilled(l, Some(b), now) == Refilled(l, None, now)
  {
    hide Gain;
    IdleGain(l);
    GainGrows(l, IDLE, now - b.last);
  }

  lemma IdleGain(l: Limits)
    requires RefillsWhileIdle(l)
    ensures Gain(l, IDLE) >= l.burst as real
  {
  }

  lemma GainGrows(l: Limits, a: real, b: real)
    requires l.rate >= 0.0 && a <= b
    ensures Gain(l, a) <= Gain(l, b)
  {
    assert (b - a) * l.rate >= 0.0;
  }

  lemma RefillNotNegative(l: Limits, b: Bucket, now: real)
    requires l.rate >= 0.0 && b.tokens >= 0.0 && b.last <= now
    ensures Refilled(l, Some(b), now) >= 0.0
  {
    hide Gain;
    GainGrows(l, 0.0, now - b.last);
    NoGain(l);
  }

  lemma FullNotNegative(l: Limits, now: real)
    ensures Refilled(l, None, now) >= 0.0
  {
  }

  lemma {:induction false} TokensNotNegative(l: Limits, ts: seq<real>)
    requires Ordered(ts) && l.rate >= 0.0 && ts != []
    ensures After(l, ts).value.tokens >= 0.0 && After(l, ts).value.last == ts[|ts| - 1]
  {
    hide Refilled;
    var n := |ts| - 1;
    if n > 0 {
      TokensNotNegative(l, ts[..n]);
      assert Ordered(ts[..n]) && ts[..n][n - 1] == ts[n - 1] <= ts[n];
      RefillNotNegative(l, After(l, ts[..n]).value, ts[n]);
    } else {
      FullNotNegative(l, ts[0]);
    }
  }

  /** A live bucket is the bucket of the connection's own history; a dropped one would be idle. */
  ghost predicate Tracks(l: Limits, bs: Buckets, evs: seq<Event>, conn: ConnId) {
    At(bs, conn) == After(l, TimesOf(evs, conn))
    || (conn !in bs && After(l, TimesOf(evs, conn)).Some? && evs != []
        && Idle(After(l, TimesOf(evs, conn)).value, evs[|evs| - 1].at))
  }

  lemma {:induction false} TimesOrdered(evs: seq<Event>, conn: ConnId)
    requires Clocked(evs)
    ensures Ordered(TimesOf(evs, conn))
    ensures forall t :: t in TimesOf(evs, conn) ==> evs != [] && t <= evs[|evs| - 1].at
  {
    if evs != [] {
      var n := |evs| - 1;
      TimesOrdered(evs[..n], conn);
      var ts, e := TimesOf(evs[..n], conn), evs[n];
      if n > 0 {
        assert evs[n - 1].at <= e.at;
      }
      if e.Request? && e.conn == conn {
        assert forall i :: 0 <= i < |ts| ==> ts[i] in ts;
        assert TimesOf(evs, conn) == ts + [e.at];
      } else {
        assert ts + [] == ts;
      }
    }
  }

  lemma TracksSame(l: Limits, bs: Buckets, evs: seq<Event>, conn: ConnId, t: real)
    requires RefillsWhileIdle(l) && Clocked(evs) && Tracks(l, bs, evs, conn)
    requires evs == [] || evs[|evs| - 1].at <= t
    ensures Refilled(l, At(bs, conn), t) == Refilled(l, After(l, TimesOf(evs, conn)), t)
  {
    hide Refilled;
    TimesOrdered(evs, conn);
    if conn !in bs && After(l, TimesOf(evs, conn)).Some? {
      TokensNotNegative(l, TimesOf(evs, conn));
      IdleIsFull(l, After(l, TimesOf(evs, conn)).value, t);
    }
  }

  lemma {:induction false} SweepTracks(l: Limits, evs: seq<Event>, conn: ConnId)
    requires RefillsWhileIdle(l) && Clocked(evs)
    ensures Tracks(l, BucketsAfter(l, evs, true), evs, conn)
  {
    hide Refilled;
    if evs != [] {
      var n := |evs| - 1;
      var before := evs[..n];
      SweepTracks(l, before, conn);
      var bs := BucketsAfter(l, before, true);
      var ts := TimesOf(before, conn);
      var e := evs[n];
      if n > 0 {
        assert evs[n - 1].at <= e.at;
      }
      if e.Request? && e.conn == conn {
        TracksSame(l, bs, before, conn, e.at);
        assert (ts + [e.at])[..|ts|] == ts;
      } else {
        assert ts + [] == ts;
      }
    }
  }

  lemma {:induction false} UnsweptIsHistory(l: Limits, evs: seq<Event>, conn: ConnId)
    ensures At(BucketsAfter(l, evs, false), conn) == After(l, TimesOf(evs, conn))
  {
    hide Used;
    if evs != [] {
      var n := |evs| - 1;
      UnsweptIsHistory(l, evs[..n], conn);
      var ts := TimesOf(evs[..n], conn);
      var e := evs[n];
      if e.Request? && e.conn == conn {
        assert (ts + [e.at])[..|ts|] == ts;
      } else {
        assert ts + [] == ts;
      }
    }
  }

  /**
   * The limiter over any run, with its cleanup: a connection's request is answered by that connection's
   * own window law, and exactly as if no bucket had ever been dropped.
   */
  lemma LimiterIsExact(l: Limits, evs: seq<Event>, conn: ConnId, t: real)
    requires RefillsWhileIdle(l) && Clocked(evs + [Request(conn, t)])
    ensures AnswerAfter(l, evs, conn, t, true) == AnswerAfter(l, evs, conn, t, false)
    ensures var ts := TimesOf(evs, conn);
      AnswerAfter(l, evs, conn, t, true) <==>
        WithinSince(l, ts, t, t) && forall i :: 0 <= i < |ts| ==> WithinSince(l, ts, ts[i], t)
  {
    hide BucketsAfter, WithinSince, Refilled;
    var all := evs + [Request(conn, t)];
    forall i, j | 0 <= i <= j < |evs| ensures evs[i].at <= evs[j].at {
      assert all[i].at <= all[j].at;
    }
    if evs != [] {
      assert all[|evs| - 1].at <= all[|evs|].at;
    }
    SweepTracks(l, evs, conn);
    UnsweptIsHistory(l, evs, conn);
    TracksSame(l, BucketsAfter(l, evs, true), evs, conn, t);
    TimesOrdered(all, conn);
    assert all[..|evs|] == evs;
    ExactOverRuns(l, TimesOf(evs, conn), t);
  }

  // ---------------------------------------------------------------- when the cleanup would matter

  function Burst(conn: ConnId, t: real, n: nat): seq<Event> {
    seq(n, i => Request(conn, t))
  }

  /** Requests at one instant: tokens only go down, by one each, until less than one is left. */
  lemma {:induction false} SameInstant(l: Limits, evs: seq<Event>, conn: ConnId, t: real, n: nat, sweep: bool)
    requires var b := At(BucketsAfter(l, evs, sweep), conn); b.Some? ==> b.value.tokens >= 0.0
    requires Refilled(l, At(BucketsAfter(l, evs, sweep), conn), t) <= l.burst as real
    ensures var r := Refilled(l, At(BucketsAfter(l, evs, sweep), conn), t);
      var r' := Refilled(l, At(BucketsAfter(l, evs + Burst(conn, t, n), sweep), conn), t);
      if n as real <= r then r' == r - n as real else r' < 1.0
  {
    if n == 0 {
      assert evs + Burst(conn, t, 0) == evs;
    } else {
      SameInstant(l, evs, conn, t, n - 1, sweep);
      var before := evs + Burst(conn, t, n - 1);
      var all := evs + Burst(conn, t, n);
      assert all[..|all| - 1] == before;
      OneMore(l, before, all, conn, t, sweep);
    }
  }

  lemma OneMore(l: Limits, before: seq<Event>, all: seq<Event>, conn: ConnId, t: real, sweep: bool)
    requires all != [] && all[..|all| - 1] == before && all[|all| - 1] == Request(conn, t)
    ensures var r := Refilled(l, At(BucketsAfter(l, before, sweep), conn), t);
      r <= l.burst as real ==>
      Refilled(l, At(BucketsAfter(l, all, sweep), conn), t) == if r >= 1.0 then r - 1.0 else r
  {
    hide Refilled;
    var b := At(BucketsAfter(l, before, sweep), conn);
    assert At(BucketsAfter(l, all, sweep), conn) == Some(Used(l, b, t));
    AtOnce(l, b, t);
  }

  /** A second request at the same instant finds what the first one left. */
  lemma AtOnce(l: Limits, b: Option<Bucket>, t: real)
    ensures Refilled(l, b, t) <= l.burst as real ==>
      Refilled(l, Some(Used(l, b, t)), t) == if Refilled(l, b, t) >= 1.0 then Refilled(l, b, t) - 1.0 else Refilled(l, b, t)
  {
    hide Gain;
    NoGain(l);
  }

  /** A full burst, a cleanup at t, and then all but one of a second burst. */
  function Probe(l: Limits, conn: ConnId, t: real): seq<Event>
    requires l.burst >= 1
  {
    Burst(conn, 0.0, l.burst) + [Cleanup(t)] + Burst(conn, t, l.burst - 1)
  }

  /**
   * The condition is the exact one: if an idle bucket were not full again, some run would tell. The
   * last request of a second full burst is granted after the cleanup and would be refused without it.
   */
  lemma CleanupWouldMatter(l: Limits, conn: ConnId, t: real)
    requires l.burst >= 1 && l.rate >= 0.0 && t > IDLE && l.burst as real > Gain(l, t)
    ensures AnswerAfter(l, Probe(l, conn, t), conn, t, true)
    ensures !AnswerAfter(l, Probe(l, conn, t), conn, t, false)
  {
    hide Refilled, BucketsAfter, Gain;
    Emptied(l, conn, t, true);
    Emptied(l, conn, t, false);
    var start := Burst(conn, 0.0, l.burst) + [Cleanup(t)];
    SameInstant(l, start, conn, t, l.burst - 1, true);
    SameInstant(l, start, conn, t, l.burst - 1, false);
  }

  lemma Emptied(l: Limits, conn: ConnId, t: real, sweep: bool)
    requires l.burst >= 1 && l.rate >= 0.0 && t > IDLE && l.burst as real > Gain(l, t)
    ensures var b := At(BucketsAfter(l, Burst(conn, 0.0, l.burst) + [Cleanup(t)], sweep), conn);
      && (b.Some? ==> b.value.tokens >= 0.0)
      && Refilled(l, b, t) == if sweep then l.burst as real else Gain(l, t)
  {
    hide Used, Gain;
    GainGrows(l, 0.0, t);
    NoGain(l);
    var burst := Burst(conn, 0.0, l.burst);
    var all := burst + [Cleanup(t)];
    assert all[..|all| - 1] == burst;
    AfterBurst(l, conn, l.burst, sweep);
  }

  lemma {:induction false} AfterBurst(l: Limits, conn: ConnId, n: nat, sweep: bool)
    requires 1 <= n <= l.burst
    ensures At(BucketsAfter(l, Burst(conn, 0.0, n), sweep), conn) == Some(Bucket((l.burst - n) as real, 0.0))
  {
    hide Gain;
    NoGain(l);
    var all := Burst(conn, 0.0, n);
    assert all[..n - 1] == Burst(conn, 0.0, n - 1);
    if n > 1 {
      AfterBurst(l, conn, n - 1, sweep);
    } else {
      assert Burst(conn, 0.0, 0) == [];
    }
  }

  /** Whenever an idle bucket is not full again, such a t exists. */
  lemma CleanupSafeIff(l: Limits, conn: ConnId)
    requires l.burst >= 1 && l.rate >= 0.0
    ensures RefillsWhileIdle(l) <==>
      forall evs: seq<Event>, t: real :: Clocked(evs + [Request(conn, t)]) ==>
        AnswerAfter(l, evs, conn, t, true) == AnswerAfter(l, evs, conn, t, false)
  {
    hide AnswerAfter;
    if RefillsWhileIdle(l) {
      forall evs: seq<Event>, t: real | Clocked(evs + [Request(conn, t)])
        ensures AnswerAfter(l, evs, conn, t, true) == AnswerAfter(l, evs, conn, t, false)
      {
        LimiterIsExact(l, evs, conn, t);
      }
    } else {
      var t := Gap(l);
      CleanupWouldMatter(l, conn, t);
      var evs := Probe(l, conn, t);
      assert Clocked(evs + [Request(conn, t)]);
    }
  }

  lemma Gap(l: Limits) returns (t: real)
    requires l.rate >= 0.0 && l.burst as real > IDLE * l.rate
    ensures t > IDLE && l.burst as real > Gain(l, t)
  {
    if l.rate == 0.0 {
      t := IDLE + 1.0;
    } else {
      var full := l.burst as real / l.rate;
      assert full * l.rate == l.burst as real;
      if full <= IDLE {
        GainGrows(l, full, IDLE);
        assert false;
      }
      t := (IDLE + full) / 2.0;
      assert t * l.rate == (IDLE * l.rate + full * l.rate) / 2.0;
    }
  }
}
