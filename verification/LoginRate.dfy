/** The login limiter: trimmed timestamps answer like the full failure log, and concurrent attempts stay bounded. */
module LoginRate {
  import opened Text
  import opened Collections

  type Attempts = map<string, seq<int>>   // remote IP -> failure times

  /** The entries after `cutoff`, in order. */
  function Recent(ts: seq<int>, cutoff: int): seq<int> {
    if ts == [] then []
    else Recent(ts[..|ts| - 1], cutoff) + (if ts[|ts| - 1] > cutoff then [ts[|ts| - 1]] else [])
  }

  datatype Limits = Limits(max: int, window: int)

  function CheckAt(l: Limits, entry: Option<seq<int>>, now: int): bool {
    entry.None? || |Recent(entry.value, now - l.window)| < l.max
  }

  function RecordAt(l: Limits, entry: Option<seq<int>>, now: int): seq<int> {
    Recent((if entry.Some? then entry.value else []) + [now], now - l.window)
  }

  /** What cleanup leaves: entries with at least one recent failure. */
  function Cleaned(l: Limits, a: Attempts, now: int): Attempts {
    map ip | ip in a && Recent(a[ip], now - l.window) != [] :: a[ip]
  }

  class LoginRateLimiter {
    const l: Limits
    var attempts: Attempts

    constructor (l: Limits)
      ensures this.l == l && attempts == map[]
    {
      this.l, attempts := l, map[];
    }

    method Check(ip: string, now: int) returns (ok: bool)
      ensures ok == CheckAt(l, At(attempts, ip), now)
    {
      if ip !in attempts {
        return true;
      }
      var cutoff := now - l.window;
      var count := 0;
      var ts := attempts[ip];
      for i := 0 to |ts|
        invariant count == |Recent(ts[..i], cutoff)|
      {
        assert ts[..i + 1][..i] == ts[..i];
        if ts[i] > cutoff {
          count := count + 1;
        }
      }
      assert ts[..|ts|] == ts;
      ok := count < l.max;
    }

    method RecordFailure(ip: string, now: int)
      modifies this
      ensures attempts == old(attempts)[ip := RecordAt(l, old(At(attempts, ip)), now)]
    {
      var ts := (if ip in attempts then attempts[ip] else []) + [now];
      var cutoff := now - l.window;
      var filtered := [];
      for i := 0 to |ts|
        invariant filtered == Recent(ts[..i], cutoff) && attempts == old(attempts)
      {
        assert ts[..i + 1][..i] == ts[..i];
        if ts[i] > cutoff {
          filtered := filtered + [ts[i]];
        }
      }
      assert ts[..|ts|] == ts;
      attempts := attempts[ip := filtered];
    }

    method Reset(ip: string)
      modifies this
      ensures attempts == old(attempts) - {ip}
    {
      attempts := attempts - {ip};
    }

    method DropStale(now: int)
      modifies this
      ensures attempts == Cleaned(l, old(attempts), now)
      ensures forall ip :: ip in attempts <==>
        ip in old(attempts) && exists t :: t in old(attempts)[ip] && t > now - l.window
    {
      hide Recent;
      ghost var all := attempts;
      var cutoff := now - l.window;
      var todo := attempts.Keys;
      while todo != {}
        invariant todo <= attempts.Keys <= all.Keys
        invariant forall ip :: ip in attempts ==> attempts[ip] == all[ip]
        invariant forall ip :: ip in all && ip !in todo ==> (ip in attempts <==> Recent(all[ip], cutoff) != [])
      {
        var ip :| ip in todo;
        todo := todo - {ip};
        var hasRecent := HasRecent(attempts[ip], cutoff);
        if !hasRecent {
          attempts := attempts - {ip};
        }
      }
      forall ip | ip in all
        ensures Recent(all[ip], cutoff) != [] <==> exists t :: t in all[ip] && t > cutoff
      {
        RecentMembers(all[ip], cutoff);
      }
    }
  }

  /** What is recent, and how much of it, by the positions in the log. */
  lemma {:induction false} RecentMembers(ts: seq<int>, cutoff: int)
    ensures forall t :: t in Recent(ts, cutoff) <==> t in ts && t > cutoff
    ensures Recent(ts, cutoff) != [] <==> exists t :: t in ts && t > cutoff
  {
    if ts != [] {
      var n := |ts| - 1;
      RecentMembers(ts[..n], cutoff);
      assert ts == ts[..n] + [ts[n]];
    }
    assert Recent(ts, cutoff) != [] ==> Recent(ts, cutoff)[0] in Recent(ts, cutoff);
  }

  method HasRecent(ts: seq<int>, cutoff: int) returns (r: bool)
    ensures r <==> Recent(ts, cutoff) != []
  {
    for i := 0 to |ts|
      invariant Recent(ts[..i], cutoff) == []
    {
      assert ts[..i + 1][..i] == ts[..i];
      if ts[i] > cutoff {
        LaterKeeps(ts, i + 1, cutoff);
        return true;
      }
    }
    assert ts[..|ts|] == ts;
    r := false;
  }

  lemma {:induction false} LaterKeeps(ts: seq<int>, n: nat, cutoff: int)
    requires n <= |ts| && Recent(ts[..n], cutoff) != []
    ensures Recent(ts, cutoff) != []
    decreases |ts|
  {
    if n == |ts| {
      assert ts[..n] == ts;
    } else {
      var m := |ts| - 1;
      assert ts[..m][..n] == ts[..n];
      LaterKeeps(ts[..m], n, cutoff);
    }
  }

  // ---------------------------------------------------------------- runs

  datatype Event =
    | Fail(ip: string, at: int)
    | Succeed(ip: string, at: int)     // Reset
    | Clean(at: int)

  function AttemptsAfter(l: Limits, evs: seq<Event>): Attempts {
    if evs == [] then map[]
    else
      var a := AttemptsAfter(l, evs[..|evs| - 1]);
      match evs[|evs| - 1]
      case Fail(ip, t) => a[ip := RecordAt(l, At(a, ip), t)]
      case Succeed(ip, _) => a - {ip}
      case Clean(t) => Cleaned(l, a, t)
  }

  /** Every failure of an address since its last success. */
  function FullLog(evs: seq<Event>, ip: string): seq<int> {
    if evs == [] then []
    else
      var e := evs[|evs| - 1];
      var before := FullLog(evs[..|evs| - 1], ip);
      if e.Fail? && e.ip == ip then before + [e.at]
      else if e.Succeed? && e.ip == ip then []
      else before
  }

  ghost predicate Clocked(evs: seq<Event>) {
    forall i, j :: 0 <= i <= j < |evs| ==> evs[i].at <= evs[j].at
  }

  lemma {:induction false} RecentTwice(ts: seq<int>, c: int, d: int)
    requires c <= d
    ensures Recent(Recent(ts, c), d) == Recent(ts, d)
  {
    if ts != [] {
      var n := |ts| - 1;
      RecentTwice(ts[..n], c, d);
      var r := Recent(ts[..n], c);
      if ts[n] > c {
        assert (r + [ts[n]])[..|r|] == r;
      } else {
        assert r + [] == r;
      }
    }
  }

  lemma RecentSnoc(ts: seq<int>, t: int, cutoff: int)
    ensures Recent(ts + [t], cutoff) == Recent(ts, cutoff) + (if t > cutoff then [t] else [])
  {
    assert (ts + [t])[..|ts|] == ts;
  }

  function EntryOf(a: Attempts, ip: string): seq<int> {
    if ip in a then a[ip] else []
  }

  /** Whatever trimming and cleanup removed is out of every later window. */
  lemma {:induction false} SameRecent(l: Limits, evs: seq<Event>, ip: string, cutoff: int)
    requires Clocked(evs)
    requires evs != [] ==> evs[|evs| - 1].at - l.window <= cutoff
    ensures Recent(EntryOf(AttemptsAfter(l, evs), ip), cutoff) == Recent(FullLog(evs, ip), cutoff)
  {
    hide Recent;
    EmptyRecent(cutoff);
    if evs != [] {
      var n := |evs| - 1;
      var before, e := evs[..n], evs[n];
      if n > 0 {
        assert evs[n - 1].at <= e.at;
      }
      SameRecent(l, before, ip, cutoff);
      var a, log := AttemptsAfter(l, before), FullLog(before, ip);
      if e.Fail? && e.ip == ip {
        RecentTwice(EntryOf(a, ip) + [e.at], e.at - l.window, cutoff);
        RecentSnoc(EntryOf(a, ip), e.at, cutoff);
        RecentSnoc(log, e.at, cutoff);
      } else if e.Clean? && ip in a && Recent(a[ip], e.at - l.window) == [] {
        RecentTwice(a[ip], e.at - l.window, cutoff);
      }
    }
  }

  lemma EmptyRecent(cutoff: int)
    ensures Recent([], cutoff) == []
  {
  }

  /** The limiter equals the full failure log: Check answers as if nothing since the last success were lost. */
  lemma ChecksFullLog(l: Limits, evs: seq<Event>, ip: string, now: int)
    requires Clocked(evs + [Clean(now)]) && l.max >= 1
    ensures CheckAt(l, At(AttemptsAfter(l, evs), ip), now) <==> |Recent(FullLog(evs, ip), now - l.window)| < l.max
  {
    hide Recent, AttemptsAfter, FullLog;
    var all := evs + [Clean(now)];
    forall i, j | 0 <= i <= j < |evs| ensures evs[i].at <= evs[j].at {
      assert all[i].at <= all[j].at;
    }
    if evs != [] {
      assert all[|evs| - 1].at <= all[|evs|].at;
    }
    EmptyRecent(now - l.window);
    SameRecent(l, evs, ip, now - l.window);
  }

  /** A recent failure of the address that no later success has forgiven. */
  ghost predicate Unforgiven(evs: seq<Event>, i: nat, ip: string, cutoff: int) {
    && i < |evs| && evs[i].Fail? && evs[i].ip == ip && evs[i].at > cutoff
    && forall j :: i < j < |evs| && evs[j].Succeed? ==> evs[j].ip != ip
  }

  ghost function Counted(evs: seq<Event>, ip: string, cutoff: int): set<nat> {
    set i: nat | i < |evs| && Unforgiven(evs, i, ip, cutoff)
  }

  lemma UnforgivenSnoc(evs: seq<Event>, e: Event, i: nat, ip: string, cutoff: int)
    ensures i < |evs| ==> (Unforgiven(evs + [e], i, ip, cutoff) <==>
                             Unforgiven(evs, i, ip, cutoff) && !(e.Succeed? && e.ip == ip))
    ensures i == |evs| ==> (Unforgiven(evs + [e], i, ip, cutoff) <==> e.Fail? && e.ip == ip && e.at > cutoff)
  {
    var more := evs + [e];
    if i < |evs| && Unforgiven(more, i, ip, cutoff) {
      assert more[|evs|] == e;
      assert forall j :: i < j < |evs| ==> more[j] == evs[j];
    }
  }

  lemma CountedSnoc(evs: seq<Event>, e: Event, ip: string, cutoff: int)
    ensures Counted(evs + [e], ip, cutoff) ==
      if e.Succeed? && e.ip == ip then {}
      else Counted(evs, ip, cutoff) + if e.Fail? && e.ip == ip && e.at > cutoff then {|evs|} else {}
  {
    hide Unforgiven;
    forall i: nat | i <= |evs|
      ensures i < |evs| ==> (Unforgiven(evs + [e], i, ip, cutoff) <==>
                               Unforgiven(evs, i, ip, cutoff) && !(e.Succeed? && e.ip == ip))
      ensures i == |evs| ==> (Unforgiven(evs + [e], i, ip, cutoff) <==> e.Fail? && e.ip == ip && e.at > cutoff)
    {
      UnforgivenSnoc(evs, e, i, ip, cutoff);
    }
  }

  lemma {:induction false} CountedIs(evs: seq<Event>, ip: string, cutoff: int)
    ensures |Recent(FullLog(evs, ip), cutoff)| == |Counted(evs, ip, cutoff)|
    ensures forall i :: i in Counted(evs, ip, cutoff) ==> i < |evs|
  {
    hide Recent, Unforgiven;
    EmptyRecent(cutoff);
    if evs == [] {
      assert Counted(evs, ip, cutoff) == {};
    } else {
      var n := |evs| - 1;
      assert evs == evs[..n] + [evs[n]];
      CountedIs(evs[..n], ip, cutoff);
      CountedSnoc(evs[..n], evs[n], ip, cutoff);
      RecentSnoc(FullLog(evs[..n], ip), evs[n].at, cutoff);
    }
  }

  /** Check, exactly: fewer than max failures of the address in the window that no later success has forgiven. */
  lemma AllowedIff(l: Limits, evs: seq<Event>, ip: string, now: int)
    requires Clocked(evs + [Clean(now)]) && l.max >= 1
    ensures CheckAt(l, At(AttemptsAfter(l, evs), ip), now) <==> |Counted(evs, ip, now - l.window)| < l.max
  {
    hide Recent, AttemptsAfter, FullLog, CheckAt, Counted;
    ChecksFullLog(l, evs, ip, now);
    CountedIs(evs, ip, now - l.window);
  }

  // ---------------------------------------------------------------- concurrent attempts

  /** login() is Check, then verification, then RecordFailure or Reset, each its own locked step. */
  datatype Step =
    | Begin(ip: string, at: int)      // Check; the attempt goes on only if it passes
    | Wrong(ip: string, at: int)      // verification failed: RecordFailure
    | Right(ip: string, at: int)      // session created: Reset
    | Abandon(ip: string, at: int)    // verification succeeded, but no session could be created
    | Sweep(at: int)

  /** `verifying` counts the attempts of each address that passed Check and are not finished. */
  datatype Logins = Logins(evs: seq<Event>, verifying: map<string, nat>, now: int)

  function Busy(s: Logins, ip: string): nat {
    if ip in s.verifying then s.verifying[ip] else 0
  }

  /** At most k attempts of one address are in flight, the clock does not go back, and only running attempts finish. */
  predicate Can(s: Logins, step: Step, k: nat) {
    && s.now <= step.at
    && match step
       case Begin(ip, _) => Busy(s, ip) < k
       case Sweep(_) => true
       case _ => Busy(s, step.ip) > 0
  }

  function Do(l: Limits, s: Logins, step: Step): Logins
    requires !step.Begin? && !step.Sweep? ==> Busy(s, step.ip) > 0
  {
    match step
    case Begin(ip, t) =>
      if CheckAt(l, At(AttemptsAfter(l, s.evs), ip), t)
      then Logins(s.evs, s.verifying[ip := Busy(s, ip) + 1], t) else s.(now := t)
    case Wrong(ip, t) => Logins(s.evs + [Fail(ip, t)], s.verifying[ip := Busy(s, ip) - 1], t)
    case Right(ip, t) => Logins(s.evs + [Succeed(ip, t)], s.verifying[ip := Busy(s, ip) - 1], t)
    case Abandon(ip, t) => Logins(s.evs, s.verifying[ip := Busy(s, ip) - 1], t)
    case Sweep(t) => Logins(s.evs + [Clean(t)], s.verifying, t)
  }

  ghost predicate Possible(l: Limits, s: Logins, steps: seq<Step>, k: nat)
    decreases |steps|
  {
    steps == [] || (Can(s, steps[0], k) && Possible(l, Do(l, s, steps[0]), steps[1..], k))
  }

  ghost function After(l: Limits, s: Logins, steps: seq<Step>, k: nat): Logins
    requires Possible(l, s, steps, k)
    decreases |steps|
  {
    if steps == [] then s else After(l, Do(l, s, steps[0]), steps[1..], k)
  }

  function InWindow(l: Limits, ts: seq<int>, t: int): nat {
    |Recent(ts, t - l.window)|
  }

  ghost predicate Bounded(l: Limits, log: seq<int>, bound: int) {
    forall i :: 0 <= i < |log| ==> InWindow(l, log[..i + 1], log[i]) <= bound
  }

  ghost predicate Inv(l: Limits, s: Logins, k: nat) {
    && Clocked(s.evs) && (s.evs != [] ==> s.evs[|s.evs| - 1].at <= s.now)
    && forall ip: string :: Held(l, s, k, ip)
  }

  /** Failures in the window and attempts in flight of one address, and all its earlier windows. */
  ghost predicate Held(l: Limits, s: Logins, k: nat, ip: string) {
    && InWindow(l, FullLog(s.evs, ip), s.now) + Busy(s, ip) <= l.max + k - 1
    && Bounded(l, FullLog(s.evs, ip), l.max + k - 1)
  }

  lemma {:induction false} RecentShrinks(ts: seq<int>, c: int, d: int)
    requires c <= d
    ensures |Recent(ts, d)| <= |Recent(ts, c)|
  {
    if ts != [] {
      RecentShrinks(ts[..|ts| - 1], c, d);
    }
  }

  lemma ClockedSnoc(evs: seq<Event>, e: Event)
    requires Clocked(evs) && (evs != [] ==> evs[|evs| - 1].at <= e.at)
    ensures Clocked(evs + [e]) && (evs + [e])[..|evs|] == evs
  {
    assert forall i :: 0 <= i < |evs| ==> evs[i].at <= evs[|evs| - 1].at;
  }

  lemma BoundedSnoc(l: Limits, log: seq<int>, t: int, bound: int)
    requires Bounded(l, log, bound) && InWindow(l, log + [t], t) <= bound
    ensures Bounded(l, log + [t], bound)
  {
    hide InWindow;
    var longer := log + [t];
    forall i | 0 <= i < |longer| ensures InWindow(l, longer[..i + 1], longer[i]) <= bound {
      if i < |log| {
        assert longer[..i + 1] == log[..i + 1];
      } else {
        assert longer[..i + 1] == longer;
      }
    }
  }

  lemma WindowAfterFailure(l: Limits, log: seq<int>, now: int, t: int, busy: nat, bound: int)
    requires now <= t && busy > 0
    requires InWindow(l, log, now) + busy <= bound && Bounded(l, log, bound)
    ensures InWindow(l, log + [t], t) + (busy - 1) <= bound && Bounded(l, log + [t], bound)
  {
    hide Recent, Bounded;
    RecentShrinks(log, now - l.window, t - l.window);
    RecentSnoc(log, t, t - l.window);
    BoundedSnoc(l, log, t, bound);
  }

  lemma FullLogSnoc(evs: seq<Event>, e: Event, ip: string)
    ensures var before, now := FullLog(evs, ip), FullLog(evs + [e], ip);
      && (!e.Clean? && e.ip == ip ==> now == if e.Fail? then before + [e.at] else [])
      && (e.Clean? || e.ip != ip ==> now == before)
  {
    assert (evs + [e])[..|evs|] == evs;
  }

  /** Opening an attempt: it passed Check, so the window had room. */
  lemma BeginFits(l: Limits, s: Logins, ip: string, t: int, k: nat)
    requires Clocked(s.evs) && (s.evs != [] ==> s.evs[|s.evs| - 1].at <= t) && l.max >= 1
    requires Busy(s, ip) < k && CheckAt(l, At(AttemptsAfter(l, s.evs), ip), t)
    ensures InWindow(l, FullLog(s.evs, ip), t) + Busy(s, ip) + 1 <= l.max + k - 1
  {
    hide Recent, AttemptsAfter, CheckAt, FullLog;
    ClockedSnoc(s.evs, Clean(t));
    ChecksFullLog(l, s.evs, ip, t);
  }

  lemma StepAt(l: Limits, s: Logins, step: Step, k: nat, ip: string)
    requires Inv(l, s, k) && Can(s, step, k) && l.max >= 1
    ensures Held(l, Do(l, s, step), k, ip)
  {
    hide Recent, AttemptsAfter, CheckAt, Bounded, FullLog;
    var log := FullLog(s.evs, ip);
    assert Held(l, s, k, ip);
    RecentShrinks(log, s.now - l.window, step.at - l.window);
    match step {
      case Begin(own, t) =>
        if own == ip && CheckAt(l, At(AttemptsAfter(l, s.evs), ip), t) {
          BeginFits(l, s, ip, t, k);
        }
      case Wrong(own, t) =>
        FullLogSnoc(s.evs, Fail(own, t), ip);
        if own == ip {
          WindowAfterFailure(l, log, s.now, t, Busy(s, ip), l.max + k - 1);
        }
      case Right(own, t) =>
        FullLogSnoc(s.evs, Succeed(own, t), ip);
        EmptyRecent(t - l.window);
        EmptyBounded(l, l.max + k - 1);
        BusyBound(l, s, k, own);
      case Abandon(_, _) =>
      case Sweep(t) =>
        FullLogSnoc(s.evs, Clean(t), ip);
    }
  }

  lemma EmptyBounded(l: Limits, bound: int)
    ensures Bounded(l, [], bound)
  {
  }

  /** Never more than max + k - 1 attempts verifying at once. */
  lemma BusyBound(l: Limits, s: Logins, k: nat, ip: string)
    requires Inv(l, s, k)
    ensures Busy(s, ip) <= l.max + k - 1
  {
    assert Held(l, s, k, ip);
    assert InWindow(l, FullLog(s.evs, ip), s.now) >= 0;
  }

  lemma StepClocked(l: Limits, s: Logins, step: Step, k: nat)
    requires Clocked(s.evs) && (s.evs != [] ==> s.evs[|s.evs| - 1].at <= s.now) && Can(s, step, k)
    ensures var s' := Do(l, s, step);
      Clocked(s'.evs) && (s'.evs != [] ==> s'.evs[|s'.evs| - 1].at <= s'.now)
  {
    hide AttemptsAfter, CheckAt, Clocked;
    match step {
      case Wrong(ip, t) => ClockedSnoc(s.evs, Fail(ip, t));
      case Right(ip, t) => ClockedSnoc(s.evs, Succeed(ip, t));
      case Sweep(t) => ClockedSnoc(s.evs, Clean(t));
      case _ =>
    }
  }

  lemma {:induction false} RunKeeps(l: Limits, s: Logins, steps: seq<Step>, k: nat)
    requires Inv(l, s, k) && Possible(l, s, steps, k) && l.max >= 1
    ensures Inv(l, After(l, s, steps, k), k)
    decreases |steps|
  {
    hide Do, Can, Held;
    if steps != [] {
      CanFinish(s, steps[0], k);
      StepClocked(l, s, steps[0], k);
      forall ip: string ensures Held(l, Do(l, s, steps[0]), k, ip) {
        StepAt(l, s, steps[0], k, ip);
      }
      RunKeeps(l, Do(l, s, steps[0]), steps[1..], k);
    }
  }

  lemma CanFinish(s: Logins, step: Step, k: nat)
    requires Can(s, step, k)
    ensures !step.Begin? && !step.Sweep? ==> Busy(s, step.ip) > 0
  {
  }

  /**
   * Check and RecordFailure are separate steps, yet the overshoot is bounded: with at most k attempts of
   * an address in flight, no window since its last success holds more than max + k - 1 recorded failures.
   */
  lemma WindowsBounded(l: Limits, start: int, steps: seq<Step>, k: nat, ip: string, i: nat)
    requires l.max >= 1 && k >= 1 && Possible(l, Logins([], map[], start), steps, k)
    requires i < |FullLog(After(l, Logins([], map[], start), steps, k).evs, ip)|
    ensures var log := FullLog(After(l, Logins([], map[], start), steps, k).evs, ip);
      InWindow(l, log[..i + 1], log[i]) <= l.max + k - 1
  {
    hide InWindow, FullLog, Possible, After;
    var s := Logins([], map[], start);
    StartInv(l, start, k);
    RunKeeps(l, s, steps, k);
    assert Held(l, After(l, s, steps, k), k, ip);
  }

  lemma StartInv(l: Limits, start: int, k: nat)
    requires l.max >= 1
    ensures Inv(l, Logins([], map[], start), k)
  {
    EmptyRecent(start - l.window);
    var s := Logins([], map[], start);
    forall ip: string ensures Held(l, s, k, ip) {
      assert Busy(s, ip) == 0;
    }
  }

  // ---------------------------------------------------------------- the bound is reached

  function Fails(ip: string, n: nat): seq<Event> {
    seq(n, i => Fail(ip, 0))
  }

  /** At time 0, n failures of the address are recorded and b of its attempts are verifying. */
  ghost predicate Standing(s: Logins, ip: string, n: nat, b: nat) {
    s.evs == Fails(ip, n) && Busy(s, ip) == b && s.now == 0
  }

  lemma {:induction false} FailsLog(l: Limits, ip: string, n: nat)
    requires l.window > 0
    ensures var log := FullLog(Fails(ip, n), ip);
      |log| == n && Recent(log, -l.window) == log && forall t :: t in log ==> t == 0
  {
    hide Recent, FullLog;
    if n == 0 {
      assert Fails(ip, 0) == [];
      NoLog(ip);
      EmptyRecent(-l.window);
    } else {
      var before := Fails(ip, n - 1);
      assert Fails(ip, n) == before + [Fail(ip, 0)];
      FailsLog(l, ip, n - 1);
      FullLogSnoc(before, Fail(ip, 0), ip);
      RecentSnoc(FullLog(before, ip), 0, -l.window);
    }
  }

  lemma NoLog(ip: string)
    ensures FullLog([], ip) == []
  {
  }

  /** Check lets one more attempt in as long as fewer than max failures are recorded. */
  lemma Opens(l: Limits, s: Logins, ip: string, n: nat, b: nat, k: nat)
    requires Standing(s, ip, n, b) && n < l.max && b < k && l.window > 0
    ensures Can(s, Begin(ip, 0), k) && Standing(Do(l, s, Begin(ip, 0)), ip, n, b + 1)
  {
    hide Recent, FullLog, AttemptsAfter, CheckAt;
    FailsLog(l, ip, n);
    assert Clocked(s.evs + [Clean(0)]);
    ChecksFullLog(l, s.evs, ip, 0);
  }

  lemma Closes(l: Limits, s: Logins, ip: string, n: nat, b: nat, k: nat)
    requires Standing(s, ip, n, b) && b > 0
    ensures Can(s, Wrong(ip, 0), k) && Standing(Do(l, s, Wrong(ip, 0)), ip, n + 1, b - 1)
  {
    assert Fails(ip, n + 1) == Fails(ip, n) + [Fail(ip, 0)];
  }

  /** A possible run from here to a state with n failures and b attempts verifying. */
  ghost predicate Leads(l: Limits, s: Logins, steps: seq<Step>, k: nat, ip: string, n: nat, b: nat) {
    Possible(l, s, steps, k) && Standing(After(l, s, steps, k), ip, n, b)
  }

  lemma OneStep(l: Limits, s: Logins, step: Step, rest: seq<Step>, k: nat, ip: string, n: nat, b: nat)
    requires Can(s, step, k) && Leads(l, Do(l, s, step), rest, k, ip, n, b)
    ensures Leads(l, s, [step] + rest, k, ip, n, b)
  {
    hide Can, Do, Standing;
    assert ([step] + rest)[1..] == rest;
  }

  /** All open attempts fail. */
  lemma {:induction false} CloseAll(l: Limits, s: Logins, ip: string, n: nat, b: nat, k: nat) returns (steps: seq<Step>)
    requires Standing(s, ip, n, b)
    ensures Leads(l, s, steps, k, ip, n + b, 0)
    decreases b
  {
    hide Can, Do, Standing;
    if b == 0 {
      steps := [];
    } else {
      Closes(l, s, ip, n, b, k);
      steps := CloseAll(l, Do(l, s, Wrong(ip, 0)), ip, n + 1, b - 1, k);
      OneStep(l, s, Wrong(ip, 0), steps, k, ip, n + b, 0);
      steps := [Wrong(ip, 0)] + steps;
    }
  }

  /** Attempts are opened until k are in flight, and then all of them fail. */
  lemma {:induction false} OpenAndClose(l: Limits, s: Logins, ip: string, n: nat, b: nat, k: nat)
    returns (steps: seq<Step>)
    requires Standing(s, ip, n, b) && b <= k && n < l.max && l.window > 0
    ensures Leads(l, s, steps, k, ip, n + k, 0)
    decreases k - b
  {
    hide Can, Do, Standing;
    if b == k {
      steps := CloseAll(l, s, ip, n, b, k);
    } else {
      Opens(l, s, ip, n, b, k);
      steps := OpenAndClose(l, Do(l, s, Begin(ip, 0)), ip, n, b + 1, k);
      OneStep(l, s, Begin(ip, 0), steps, k, ip, n + k, 0);
      steps := [Begin(ip, 0)] + steps;
    }
  }

  /** One attempt after the other up to max - 1 failures, and then k at once. */
  lemma {:induction false} FillUp(l: Limits, s: Logins, ip: string, n: nat, k: nat) returns (steps: seq<Step>)
    requires Standing(s, ip, n, 0) && n < l.max && k >= 1 && l.window > 0
    ensures Leads(l, s, steps, k, ip, l.max - 1 + k, 0)
    decreases l.max - n
  {
    hide Can, Do, Standing;
    if n == l.max - 1 {
      steps := OpenAndClose(l, s, ip, n, 0, k);
    } else {
      Opens(l, s, ip, n, 0, k);
      var s1 := Do(l, s, Begin(ip, 0));
      Closes(l, s1, ip, n, 1, k);
      steps := FillUp(l, Do(l, s1, Wrong(ip, 0)), ip, n + 1, k);
      OneStep(l, s1, Wrong(ip, 0), steps, k, ip, l.max - 1 + k, 0);
      OneStep(l, s, Begin(ip, 0), [Wrong(ip, 0)] + steps, k, ip, l.max - 1 + k, 0);
      steps := [Begin(ip, 0)] + ([Wrong(ip, 0)] + steps);
    }
  }

  /** The bound is sharp: some run with at most k attempts in flight records max + k - 1 failures in one window. */
  lemma BoundIsReached(l: Limits, ip: string, k: nat) returns (steps: seq<Step>)
    requires l.max >= 1 && k >= 1 && l.window > 0
    ensures Possible(l, Logins([], map[], 0), steps, k)
    ensures var log := FullLog(After(l, Logins([], map[], 0), steps, k).evs, ip);
      |log| == l.max + k - 1 && InWindow(l, log[..|log|], log[|log| - 1]) == l.max + k - 1
  {
    hide Possible, After, Recent, FullLog;
    var s := Logins([], map[], 0);
    assert Fails(ip, 0) == [];
    steps := FillUp(l, s, ip, 0, k);
    FailsLog(l, ip, l.max - 1 + k);
    var log := FullLog(Fails(ip, l.max - 1 + k), ip);
    assert log[..|log|] == log && log[|log| - 1] in log;
  }
}
