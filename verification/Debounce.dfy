/**
 * The debounced conf writer. Its methods are short sections under a mutex; getPeers and the write run
 * outside it, so timer goroutines, Flush, Close, DirectWrite and Notify interleave freely in between.
 */
module Debounce {
  import opened Collections

  /** The fields the mutex protects; `armed` says that a timer is set and has not fired. */
  datatype Flags = Flags(pending: bool, armed: bool, closed: bool)

  // ---------------------------------------------------------------- the locked sections

  function Notified(f: Flags): Flags {
    if f.closed then f else Flags(true, true, false)
  }

  /** Flush: the timer goes; the caller flushes if something was pending. */
  function Disarmed(f: Flags): (Flags, bool) {
    (f.(armed := false), f.pending)
  }

  function Closing(f: Flags): (Flags, bool) {
    (Flags(f.pending, false, true), f.pending)
  }

  /** The first section of flush: whoever finds the notification pending takes it. */
  function Taken(f: Flags): (Flags, bool) {
    (f.(pending := false), f.pending)
  }

  function Cancelled(f: Flags): Flags {
    Flags(false, false, f.closed)
  }

  class DebouncedWriter {
    var pending: bool
    var armed: bool
    var closed: bool

    function Now(): Flags
      reads this
    {
      Flags(pending, armed, closed)
    }

    constructor ()
      ensures Now() == Flags(false, false, false)
    {
      pending, armed, closed := false, false, false;
    }

    method Notify()
      modifies this
      ensures Now() == Notified(old(Now()))
      ensures closed == old(closed) && if closed then unchanged(this) else pending && armed
    {
      if closed {
        return;
      }
      pending := true;
      armed := true;   // any earlier timer is stopped and replaced
    }

    method BeginFlush() returns (hasPending: bool)
      modifies this
      ensures (Now(), hasPending) == Disarmed(old(Now()))
      ensures !armed && hasPending == pending == old(pending) && closed == old(closed)
    {
      armed := false;
      hasPending := pending;
    }

    method BeginClose() returns (hasPending: bool)
      modifies this
      ensures (Now(), hasPending) == Closing(old(Now()))
      ensures closed && !armed && hasPending == pending == old(pending)
    {
      closed := true;
      armed := false;
      hasPending := pending;
    }

    method TakePending() returns (taken: bool)
      modifies this
      ensures (Now(), taken) == Taken(old(Now()))
      ensures !pending && taken == old(pending) && armed == old(armed) && closed == old(closed)
    {
      if !pending {
        return false;
      }
      pending := false;
      taken := true;
    }

    method BeginDirectWrite()
      modifies this
      ensures Now() == Cancelled(old(Now()))
      ensures !armed && !pending && closed == old(closed)
    {
      armed := false;
      pending := false;
    }
  }

  // ---------------------------------------------------------------- all interleavings

  /** A running flush(): before its locked section, before getPeers, and before the write. */
  datatype Flusher =
    | AtStart
    | Holding(ids: set<nat>)
    | HasRead(ids: set<nat>, readAt: nat)
    | Over

  datatype State = State(
    flags: Flags,
    flushers: map<nat, Flusher>,
    clock: nat,
    acceptedAt: seq<nat>,        // when each accepted notification came; its index is its number
    waiting: set<nat>,           // accepted, and nobody has taken or cancelled them yet
    writtenFrom: map<nat, nat>,  // notification -> when the peers written for it were read
    cancelled: set<nat>,         // by DirectWrite
    takers: set<nat>,            // flushers that took a notification
    writers: set<nat>)           // flushers that have written

  datatype Move =
    | Notify
    | TimerFires(id: nat)
    | FlushCall(id: nat)
    | CloseCall(id: nat)
    | DirectWrite
    | Take(id: nat)
    | ReadPeers(id: nat)
    | Write(id: nat)

  predicate Can(s: State, m: Move) {
    match m
    case Notify => true
    case DirectWrite => true
    case TimerFires(id) => s.flags.armed && id !in s.flushers
    case FlushCall(id) => id !in s.flushers
    case CloseCall(id) => id !in s.flushers
    case Take(id) => id in s.flushers && s.flushers[id].AtStart?
    case ReadPeers(id) => id in s.flushers && s.flushers[id].Holding?
    case Write(id) => id in s.flushers && s.flushers[id].HasRead?
  }

  /** The caller of Flush or Close goes on to flush only if something was pending. */
  function Spawn(s: State, id: nat, f: Flags, go: bool): State {
    s.(flags := f, flushers := s.flushers[id := if go then AtStart else Over], clock := s.clock + 1)
  }

  function Do(s: State, m: Move): State
    requires Can(s, m)
  {
    var t := s.(clock := s.clock + 1);
    match m
    case Notify =>
      if s.flags.closed then t
      else t.(flags := Notified(s.flags), waiting := s.waiting + {|s.acceptedAt|},
              acceptedAt := s.acceptedAt + [s.clock])
    case TimerFires(id) => Spawn(s, id, s.flags.(armed := false), true)
    case FlushCall(id) => Spawn(s, id, Disarmed(s.flags).0, Disarmed(s.flags).1)
    case CloseCall(id) => Spawn(s, id, Closing(s.flags).0, Closing(s.flags).1)
    case DirectWrite => t.(flags := Cancelled(s.flags), waiting := {}, cancelled := s.cancelled + s.waiting)
    case Take(id) =>
      if Taken(s.flags).1
      then t.(flags := Taken(s.flags).0, flushers := s.flushers[id := Holding(s.waiting)], waiting := {},
              takers := s.takers + {id})
      else t.(flags := Taken(s.flags).0, flushers := s.flushers[id := Over])
    case ReadPeers(id) => t.(flushers := s.flushers[id := HasRead(s.flushers[id].ids, s.clock)])
    case Write(id) =>
      var done := map n | n in s.flushers[id].ids :: s.flushers[id].readAt;
      t.(flushers := s.flushers[id := Over], writtenFrom := s.writtenFrom + done, writers := s.writers + {id})
  }

  const START := State(Flags(false, false, false), map[], 0, [], {}, map[], {}, {}, {})

  ghost predicate Possible(s: State, ms: seq<Move>)
    decreases |ms|
  {
    ms == [] || (Can(s, ms[0]) && Possible(Do(s, ms[0]), ms[1..]))
  }

  ghost function After(s: State, ms: seq<Move>): State
    requires Possible(s, ms)
    decreases |ms|
  {
    if ms == [] then s else After(Do(s, ms[0]), ms[1..])
  }

  // ---------------------------------------------------------------- the invariant

  predicate Carries(f: Flusher, n: nat) {
    (f.Holding? || f.HasRead?) && n in f.ids
  }

  ghost predicate OnItsWay(s: State) {
    exists id :: id in s.flushers && s.flushers[id].AtStart?
  }

  /** What becomes of an accepted notification. */
  ghost predicate AccountedFor(s: State, n: nat)
    requires n < |s.acceptedAt|
  {
    || (n in s.waiting && s.flags.pending && (s.flags.armed || OnItsWay(s)))
    || (exists id :: id in s.flushers && Carries(s.flushers[id], n))
    || (n in s.writtenFrom && s.acceptedAt[n] < s.writtenFrom[n])
    || n in s.cancelled
  }

  ghost predicate FlagsInv(s: State) {
    && (s.flags.pending <==> s.waiting != {})
    && (s.flags.pending ==> s.flags.armed || OnItsWay(s))
    && (s.flags.closed ==> !s.flags.armed)
    && (forall n :: n in s.waiting ==> n < |s.acceptedAt|)
    && (forall n :: 0 <= n < |s.acceptedAt| ==> s.acceptedAt[n] < s.clock)
  }

  /** Notifications held by a flusher were accepted, and before it read the peers. */
  ghost predicate FlusherOk(s: State, id: nat, f: Flusher) {
    match f
    case AtStart => id !in s.takers
    case Holding(ids) => id in s.takers && id !in s.writers && forall n :: n in ids ==> n < |s.acceptedAt|
    case HasRead(ids, readAt) =>
      id in s.takers && id !in s.writers && forall n :: n in ids ==> n < |s.acceptedAt| && s.acceptedAt[n] < readAt
    case Over => true
  }

  ghost predicate FlushersInv(s: State) {
    forall id :: id in s.flushers ==> FlusherOk(s, id, s.flushers[id])
  }

  ghost predicate CountInv(s: State) {
    && s.writers <= s.takers <= s.flushers.Keys
    && |s.takers| + (if s.flags.pending then 1 else 0) <= |s.acceptedAt|
  }

  ghost predicate Inv(s: State) {
    && FlagsInv(s) && FlushersInv(s) && CountInv(s)
    && (forall n :: 0 <= n < |s.acceptedAt| ==> AccountedFor(s, n))
  }

  lemma FlagsKept(s: State, m: Move)
    requires Inv(s) && Can(s, m)
    ensures FlagsInv(Do(s, m))
  {
    hide FlushersInv, CountInv, AccountedFor;
    var s' := Do(s, m);
    if OnItsWay(s) && !m.Take? {
      var id :| id in s.flushers && s.flushers[id].AtStart?;
      assert s'.flushers[id].AtStart?;
    }
    if m.TimerFires? || m.FlushCall? || m.CloseCall? {
      assert s'.flushers[m.id].AtStart? || !s'.flags.pending;
    }
  }

  lemma FlushersKept(s: State, m: Move)
    requires Inv(s) && Can(s, m)
    ensures FlushersInv(Do(s, m))
  {
    hide AccountedFor, OnItsWay, FlusherOk, FlagsInv;
    var s' := Do(s, m);
    forall id | id in s'.flushers ensures FlusherOk(s', id, s'.flushers[id]) {
      if id in s.flushers && s'.flushers[id] == s.flushers[id] {
        OtherFlusher(s, m, id);
      } else {
        OwnFlusher(s, m, id);
      }
    }
  }

  lemma OtherFlusher(s: State, m: Move, id: nat)
    requires Can(s, m) && CountInv(s) && id in s.flushers && FlusherOk(s, id, s.flushers[id])
    requires Do(s, m).flushers[id] == s.flushers[id]
    ensures FlusherOk(Do(s, m), id, s.flushers[id])
  {
  }

  lemma OwnFlusher(s: State, m: Move, id: nat)
    requires Can(s, m) && CountInv(s) && FlagsInv(s)
    requires id in s.flushers ==> FlusherOk(s, id, s.flushers[id])
    requires id in Do(s, m).flushers && (id in s.flushers ==> Do(s, m).flushers[id] != s.flushers[id])
    ensures FlusherOk(Do(s, m), id, Do(s, m).flushers[id])
  {
    hide OnItsWay;
  }

  lemma CountKept(s: State, m: Move)
    requires Inv(s) && Can(s, m)
    ensures CountInv(Do(s, m))
  {
    hide AccountedFor, OnItsWay;
    if m.Take? {
      assert m.id !in s.takers;
    }
  }

  lemma AccountKept(s: State, m: Move, n: nat)
    requires Inv(s) && Can(s, m) && n < |Do(s, m).acceptedAt|
    ensures AccountedFor(Do(s, m), n)
  {
    hide CountInv, OnItsWay;
    var s' := Do(s, m);
    FlagsKept(s, m);
    if n in s'.waiting {
    } else if n in s.waiting {
      assert m.DirectWrite? || (m.Take? && Carries(s'.flushers[m.id], n));
    } else if id :| id in s.flushers && Carries(s.flushers[id], n) {
      if m == Write(id) {
        assert n in s'.writtenFrom;
      } else {
        assert Carries(s'.flushers[id], n);
      }
    } else {
      assert AccountedFor(s, n);
    }
  }

  lemma {:induction false} RunKeeps(s: State, ms: seq<Move>)
    requires Inv(s) && Possible(s, ms)
    ensures Inv(After(s, ms))
    decreases |ms|
  {
    hide Do, FlagsInv, FlushersInv, CountInv, AccountedFor;
    if ms != [] {
      var m := ms[0];
      FlagsKept(s, m);
      FlushersKept(s, m);
      CountKept(s, m);
      forall n | 0 <= n < |Do(s, m).acceptedAt| ensures AccountedFor(Do(s, m), n) {
        AccountKept(s, m, n);
      }
      RunKeeps(Do(s, m), ms[1..]);
    }
  }

  /**
   * No lost notification: in every interleaving each accepted Notify is still pending with a timer set
   * or a flush on its way, or carried by a running flush, or was followed by a getPeers read taken after
   * it whose result is written, or was cancelled by DirectWrite; and flushes never write more often than
   * Notify was accepted.
   */
  lemma NothingLost(ms: seq<Move>)
    requires Possible(START, ms)
    ensures var s := After(START, ms);
      && (forall n :: 0 <= n < |s.acceptedAt| ==> AccountedFor(s, n))
      && |s.writers| <= |s.acceptedAt|
  {
    RunKeeps(START, ms);
    var s := After(START, ms);
    SubsetSize(s.writers, s.takers);
  }

  // ---------------------------------------------------------------- shutdown and silence

  /** Closed for good: nothing is accepted any more, and no timer is set. */
  lemma {:induction false} ClosedStays(s: State, ms: seq<Move>)
    requires s.flags.closed && !s.flags.armed && Possible(s, ms)
    ensures var s' := After(s, ms); s'.flags.closed && !s'.flags.armed && s'.acceptedAt == s.acceptedAt
    decreases |ms|
  {
    if ms != [] {
      hide Possible, After;
      Unrolled(s, ms);
      ClosedStays(Do(s, ms[0]), ms[1..]);
    }
  }

  /** After Close no notification is accepted and no timer set, whatever else goes on. */
  lemma CloseStops(s: State, id: nat, ms: seq<Move>)
    requires Can(s, CloseCall(id)) && Possible(Do(s, CloseCall(id)), ms)
    ensures var s' := After(Do(s, CloseCall(id)), ms);
      s'.acceptedAt == s.acceptedAt && s'.flags.closed && !s'.flags.armed
  {
    ClosedStays(Do(s, CloseCall(id)), ms);
  }

  /** Only an accepted notification sets the timer: without one since it was unset, no flush starts by itself. */
  lemma {:induction false} SilentWithoutNotify(s: State, ms: seq<Move>)
    requires !s.flags.armed && Possible(s, ms) && After(s, ms).acceptedAt == s.acceptedAt
    ensures !After(s, ms).flags.armed && forall m :: m in ms ==> !m.TimerFires?
    decreases |ms|
  {
    if ms != [] {
      hide Possible, After;
      Unrolled(s, ms);
      MoreAccepted(Do(s, ms[0]), ms[1..]);
      assert ms == [ms[0]] + ms[1..];
      SilentWithoutNotify(Do(s, ms[0]), ms[1..]);
    }
  }

  lemma Unrolled(s: State, ms: seq<Move>)
    requires ms != [] && Possible(s, ms)
    ensures Can(s, ms[0]) && Possible(Do(s, ms[0]), ms[1..]) && After(s, ms) == After(Do(s, ms[0]), ms[1..])
  {
  }

  lemma {:induction false} MoreAccepted(s: State, ms: seq<Move>)
    requires Possible(s, ms)
    ensures |After(s, ms).acceptedAt| >= |s.acceptedAt|
    decreases |ms|
  {
    if ms != [] {
      hide Possible, After;
      Unrolled(s, ms);
      MoreAccepted(Do(s, ms[0]), ms[1..]);
    }
  }

  /** Flush, Close and DirectWrite unset it. */
  lemma TimerUnset(s: State, m: Move)
    requires Can(s, m) && (m.FlushCall? || m.CloseCall? || m.DirectWrite? || m.TimerFires?)
    ensures !Do(s, m).flags.armed && Do(s, m).acceptedAt == s.acceptedAt
  {
  }

  lemma {:induction false} AfterConcat(s: State, a: seq<Move>, b: seq<Move>)
    requires Possible(s, a + b)
    ensures Possible(s, a) && Possible(After(s, a), b) && After(s, a + b) == After(After(s, a), b)
    decreases |a|
  {
    if a == [] {
      assert a + b == b;
    } else {
      assert (a + b)[0] == a[0] && (a + b)[1..] == a[1..] + b;
      AfterConcat(Do(s, a[0]), a[1..], b);
    }
  }

  /**
   * Shutdown: in every run with a Close in it, when all flushes are over each notification that was ever accepted,
   * all of them before the Close, was written or cancelled.
   */
  lemma CloseFlushesAll(before: seq<Move>, id: nat, rest: seq<Move>, n: nat)
    requires Possible(START, before + [CloseCall(id)] + rest)
    requires var s := After(START, before + [CloseCall(id)] + rest);
      n < |s.acceptedAt| && forall id :: id in s.flushers ==> s.flushers[id].Over?
    ensures var s := After(START, before + [CloseCall(id)] + rest);
      && ((n in s.writtenFrom && s.acceptedAt[n] < s.writtenFrom[n]) || n in s.cancelled)
      && Possible(START, before) && s.acceptedAt == After(START, before).acceptedAt
  {
    hide Possible, After;
    var ms := before + [CloseCall(id)] + rest;
    RunKeeps(START, ms);
    assert AccountedFor(After(START, ms), n);
    assert ms == before + ([CloseCall(id)] + rest);
    AfterConcat(START, before, [CloseCall(id)] + rest);
    var s := After(START, before);
    Unrolled(s, [CloseCall(id)] + rest);
    assert ([CloseCall(id)] + rest)[1..] == rest;
    CloseStops(s, id, rest);
  }
}
