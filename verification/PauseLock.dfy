/**
 * Reconciliation passes, batch creations and deletions running at once. Each thread advances by one
 * kernel, database or lock call; passes share the read lock, the two handlers take the write lock.
 */
module PauseLock {
  import opened Text

  type Key = string

  datatype Thread =
    // ReconcileOnce
    | PassWaiting
    | PassLocked
    | PassDevice(seen: set<Key>)                                     // GetDevice done
    | PassUnknown(seen: set<Key>, rows: map<Key, bool>, todo: set<Key>)
    | PassRecord(seen: set<Key>, rows: map<Key, bool>, todo: set<Key>, cur: Key)
    | PassMissing(seen: set<Key>, rows: map<Key, bool>, todo: set<Key>)
    // BatchCreatePeers
    | BatchWaiting(keys: set<Key>)
    | BatchPaused(keys: set<Key>)
    | BatchInKernel(keys: set<Key>)
    | BatchInRows(keys: set<Key>)
    | BatchUndoRows(keys: set<Key>, todo: set<Key>)
    | BatchUndoKernel(todo: set<Key>)
    // DeletePeer
    | DeleteWaiting(key: Key)
    | DeletePaused(key: Key)
    | DeleteUnkernelled(key: Key, removed: bool)
    | Leaving                                                         // the deferred unlock of a handler
    | Finished

  datatype State = State(
    kernel: set<Key>,
    rows: map<Key, bool>,        // public key -> enabled
    readers: set<nat>,
    writer: Option<nat>,
    threads: map<nat, Thread>,
    used: set<Key>,              // keys ever given to the kernel or the table
    created: set<Key>,           // keys of batches that succeeded
    deleted: set<Key>,           // keys whose DeletePeer deleted the row
    gone: set<Key>)              // ... after removing them from the kernel

  /** `ok`: the call succeeds; `key`: the entry a loop handles next. */
  datatype Move =
    | StartPass(id: nat)
    | StartBatch(id: nat, keys: set<Key>)
    | StartDelete(id: nat, key: Key)
    | Go(id: nat, ok: bool, key: Key)

  datatype Effect = Quiet | PassRemoves(key: Key) | PassRecords(key: Key) | PassAdds(key: Key)

  predicate IsPass(t: Thread) {
    t.PassLocked? || t.PassDevice? || t.PassUnknown? || t.PassRecord? || t.PassMissing?
  }

  predicate IsPaused(t: Thread) {
    || t.BatchPaused? || t.BatchInKernel? || t.BatchInRows? || t.BatchUndoRows? || t.BatchUndoKernel?
    || t.DeletePaused? || t.DeleteUnkernelled? || t.Leaving?
  }

  /** Keys generated for a batch that has not handed them to the kernel yet. */
  function Fresh(t: Thread): set<Key> {
    if t.BatchWaiting? || t.BatchPaused? then t.keys else {}
  }

  predicate Reserved(s: State, k: Key) {
    exists id :: id in s.threads && k in Fresh(s.threads[id])
  }

  /** Whether a move is possible. With `locking` off the handlers do not wait for the passes. */
  predicate Can(s: State, m: Move, locking: bool) {
    match m
    case StartPass(id) => id !in s.threads
    case StartBatch(id, keys) => id !in s.threads && forall k :: k in keys ==> k !in s.used && !Reserved(s, k)
    case StartDelete(id, key) => id !in s.threads && key in s.rows    // GetPeerByID found it
    case Go(id, ok, key) =>
      id in s.threads &&
      match s.threads[id]
      case PassWaiting => s.writer.None? || !locking
      case BatchWaiting(_) => (s.writer.None? && s.readers == {}) || !locking
      case DeleteWaiting(_) => (s.writer.None? && s.readers == {}) || !locking
      case PassUnknown(_, _, todo) => todo != {} ==> key in todo
      case PassMissing(_, _, todo) => todo != {} ==> key in todo
      case BatchUndoRows(_, todo) => todo != {} ==> key in todo
      case BatchUndoKernel(todo) => todo != {} ==> key in todo
      case Finished => false
      case _ => true
  }

  function To(s: State, id: nat, t: Thread): State {
    s.(threads := s.threads[id := t])
  }

  function Unlock(s: State, id: nat): State {
    To(s, id, Finished).(readers := s.readers - {id}, writer := if s.writer == Some(id) then None else s.writer)
  }

  function Rows(keys: set<Key>): map<Key, bool> {
    map k | k in keys :: true
  }

  /** The state after a move, and what a pass did to the kernel or the table in it. */
  function Do(s: State, m: Move, locking: bool): (State, Effect)
    requires Can(s, m, locking)
  {
    match m
    case StartPass(id) => (To(s, id, PassWaiting), Quiet)
    case StartBatch(id, keys) => (To(s, id, BatchWaiting(keys)), Quiet)
    case StartDelete(id, key) => (To(s, id, DeleteWaiting(key)), Quiet)
    case Go(id, ok, key) => Advance(s, id, ok, key)
  }

  function Advance(s: State, id: nat, ok: bool, key: Key): (State, Effect)
    requires id in s.threads
  {
    match s.threads[id]
    case PassWaiting => (To(s, id, PassLocked).(readers := s.readers + {id}), Quiet)
    case PassLocked => (if ok then To(s, id, PassDevice(s.kernel)) else Unlock(s, id), Quiet)
    case PassDevice(seen) => (if ok then To(s, id, PassUnknown(seen, s.rows, seen)) else Unlock(s, id), Quiet)
    case PassUnknown(seen, rows, todo) =>
      if todo == {} then (To(s, id, PassMissing(seen, rows, rows.Keys)), Quiet)
      else
        var rest := todo - {key};
        if key in rows && rows[key] then (To(s, id, PassUnknown(seen, rows, rest)), Quiet)
        else
          var next := if key in rows then PassUnknown(seen, rows, rest) else PassRecord(seen, rows, rest, key);
          if ok then (To(s, id, next).(kernel := s.kernel - {key}), PassRemoves(key)) else (To(s, id, next), Quiet)
    case PassRecord(seen, rows, todo, cur) =>
      var s' := To(s, id, PassUnknown(seen, rows, todo));
      if ok && cur !in s.rows then (s'.(rows := s.rows[cur := false]), PassRecords(cur)) else (s', Quiet)
    case PassMissing(seen, rows, todo) =>
      if todo == {} then (Unlock(s, id), Quiet)
      else
        var s' := To(s, id, PassMissing(seen, rows, todo - {key}));
        if key in rows && rows[key] && key !in seen && ok
        then (s'.(kernel := s.kernel + {key}), PassAdds(key)) else (s', Quiet)
    case BatchWaiting(keys) => (To(s, id, BatchPaused(keys)).(writer := Some(id)), Quiet)
    case BatchPaused(keys) =>
      (if ok then To(s, id, BatchInKernel(keys)).(kernel := s.kernel + keys, used := s.used + keys)
       else To(s, id, Leaving), Quiet)
    case BatchInKernel(keys) =>
      (if ok && keys !! s.rows.Keys then To(s, id, BatchInRows(keys)).(rows := s.rows + Rows(keys))
       else To(s, id, BatchUndoKernel(keys)), Quiet)
    case BatchInRows(keys) =>
      (if ok then To(s, id, Leaving).(created := s.created + keys) else To(s, id, BatchUndoRows(keys, keys)), Quiet)
    case BatchUndoRows(keys, todo) =>
      if todo == {} then (To(s, id, BatchUndoKernel(keys)), Quiet)
      else
        var s' := To(s, id, BatchUndoRows(keys, todo - {key}));
        (if ok then s'.(rows := s.rows - {key}) else s', Quiet)
    case BatchUndoKernel(todo) =>
      if todo == {} then (To(s, id, Leaving), Quiet)
      else
        var s' := To(s, id, BatchUndoKernel(todo - {key}));
        (if ok then s'.(kernel := s.kernel - {key}) else s', Quiet)
    case DeleteWaiting(k) => (To(s, id, DeletePaused(k)).(writer := Some(id)), Quiet)
    case DeletePaused(k) =>
      // RemovePeer fails on a key the kernel does not have; that too leaves the kernel without it.
      (if ok then To(s, id, DeleteUnkernelled(k, true)).(kernel := s.kernel - {k})
       else To(s, id, DeleteUnkernelled(k, false)), Quiet)
    case DeleteUnkernelled(k, removed) =>
      (if ok && k in s.rows
       then To(s, id, Leaving).(
              rows := s.rows - {k}, deleted := s.deleted + {k}, gone := if removed then s.gone + {k} else s.gone)
       else To(s, id, Leaving), Quiet)
    case Leaving => (Unlock(s, id), Quiet)
    case Finished => (s, Quiet)
  }

  // ---------------------------------------------------------------- runs

  datatype Run = Run(init: State, moves: seq<Move>)

  ghost predicate Initial(s: State) {
    && s.threads == map[] && s.readers == {} && s.writer == None
    && s.used == s.kernel + s.rows.Keys
    && s.created == {} && s.deleted == {} && s.gone == {}
  }

  ghost predicate Possible(s: State, moves: seq<Move>, locking: bool)
    decreases |moves|
  {
    moves == [] || (Can(s, moves[0], locking) && Possible(Do(s, moves[0], locking).0, moves[1..], locking))
  }

  ghost function After(s: State, moves: seq<Move>, locking: bool): State
    requires Possible(s, moves, locking)
    decreases |moves|
  {
    if moves == [] then s else After(Do(s, moves[0], locking).0, moves[1..], locking)
  }

  // ---------------------------------------------------------------- the invariant

  function Kept(s: State): set<Key> {
    s.created - s.deleted
  }

  ghost predicate LockInv(s: State) {
    && (forall id :: id in s.threads && IsPass(s.threads[id]) ==> id in s.readers)
    && (forall id :: id in s.threads && IsPaused(s.threads[id]) ==> s.writer == Some(id))
    && (s.writer.Some? ==> s.readers == {})
  }

  ghost predicate FreshInv(s: State) {
    && (forall id, k :: id in s.threads && k in Fresh(s.threads[id]) ==> k !in s.used)
    && (forall id, jd :: id in s.threads && jd in s.threads && id != jd ==>
          Fresh(s.threads[id]) !! Fresh(s.threads[jd]))
  }

  predicate Enabled(s: State, k: Key) {
    k in s.rows && s.rows[k]
  }

  ghost predicate Sets(s: State) {
    && s.kernel <= s.used && s.rows.Keys <= s.used && s.deleted <= s.used && s.created <= s.used
    && s.gone <= s.deleted && s.gone !! s.kernel
    && (forall k :: k in Kept(s) ==> Enabled(s, k))
    && (forall k :: k in s.deleted ==> !Enabled(s, k))
  }

  /** Rows of a batch under way, and what a running pass has read. */
  ghost predicate ThreadInv(s: State, t: Thread) {
    match t
    case BatchInKernel(keys) => keys <= s.used && keys !! s.deleted && keys !! s.created && keys !! s.gone
    case BatchInRows(keys) =>
      keys <= s.used && keys !! s.deleted && keys !! s.created && forall k :: k in keys ==> Enabled(s, k)
    case BatchUndoRows(keys, todo) => todo <= keys && keys !! s.deleted && keys !! s.created
    case BatchUndoKernel(todo) => todo !! s.created
    case PassDevice(seen) => seen <= s.used
    case PassUnknown(_, rows, todo) => Snapshot(s, rows) && todo <= s.used
    case PassRecord(_, rows, todo, cur) => Snapshot(s, rows) && todo <= s.used && cur in s.used && cur !in Kept(s)
    case PassMissing(_, rows, _) => Snapshot(s, rows)
    case DeleteUnkernelled(k, removed) => removed ==> k !in s.kernel
    case _ => true
  }

  /** While a pass runs, the peers it read as enabled stay so, and include every batch-created key. */
  ghost predicate Snapshot(s: State, rows: map<Key, bool>) {
    && (forall k :: k in rows && rows[k] ==> Enabled(s, k))
    && (forall k :: k in Kept(s) ==> k in rows && rows[k])
  }

  ghost predicate Inv(s: State) {
    LockInv(s) && FreshInv(s) && Sets(s) && forall id :: id in s.threads ==> ThreadInv(s, s.threads[id])
  }

  /** What a pass may do: leave batch-created keys alone, and never revive a deleted one. */
  predicate Allowed(s: State, effect: Effect) {
    match effect
    case Quiet => true
    case PassRemoves(k) => k !in Kept(s)
    case PassRecords(k) => k !in Kept(s)
    case PassAdds(k) => k !in s.deleted
  }

  ghost predicate Moves(s: State, s': State, id: nat) {
    id in s.threads && id in s'.threads && s'.threads == s.threads[id := s'.threads[id]]
  }

  /** A handler that holds the write lock runs alone. */
  lemma HandlerMoves(s: State, s': State, id: nat)
    requires Inv(s) && Moves(s, s', id) && IsPaused(s.threads[id])
    requires s'.readers == s.readers
    requires if IsPaused(s'.threads[id]) then s'.writer == s.writer else s'.threads[id].Finished? && s'.writer == None
    requires s.used <= s'.used <= s.used + Fresh(s.threads[id])
    requires Fresh(s'.threads[id]) == {}
    requires Sets(s') && ThreadInv(s', s'.threads[id])
    ensures Inv(s')
  {
    hide Sets;
    forall jd | jd in s'.threads ensures ThreadInv(s', s'.threads[jd]) {
      if jd != id {
        assert !IsPass(s.threads[jd]) && !IsPaused(s.threads[jd]);
      }
    }
    forall jd, k | jd in s'.threads && k in Fresh(s'.threads[jd]) ensures k !in s'.used {
      assert jd in s.threads && Fresh(s.threads[jd]) !! Fresh(s.threads[id]);
    }
  }

  /** Passes run side by side; none of them enables, disables or deletes a row. */
  lemma PassMoves(s: State, s': State, id: nat)
    requires Inv(s) && Moves(s, s', id) && IsPass(s.threads[id])
    requires if IsPass(s'.threads[id]) then s'.readers == s.readers
             else s'.threads[id].Finished? && s'.readers == s.readers - {id}
    requires s'.writer == s.writer && s'.used == s.used && s'.created == s.created && s'.deleted == s.deleted
    requires forall k :: Enabled(s', k) <==> Enabled(s, k)
    requires Sets(s') && ThreadInv(s', s'.threads[id])
    ensures Inv(s')
  {
    hide Sets;
    assert s.writer == None;
    forall jd | jd in s'.threads ensures ThreadInv(s', s'.threads[jd]) {
      if jd != id {
        assert ThreadInv(s, s.threads[jd]) && !IsPaused(s.threads[jd]);
        assert Kept(s') == Kept(s);
      }
    }
  }

  /** Only the lock and the threads differ. */
  predicate SameData(s: State, s': State) {
    s' == s.(threads := s'.threads, readers := s'.readers, writer := s'.writer)
  }

  lemma SameDataKeeps(s: State, s': State, t: Thread)
    requires SameData(s, s')
    ensures Sets(s) ==> Sets(s')
    ensures ThreadInv(s, t) ==> ThreadInv(s', t)
  {
    assert Kept(s') == Kept(s);
    assert forall k :: Enabled(s', k) == Enabled(s, k);
  }

  /** A thread that starts, or takes the lock, touches nothing else. */
  lemma IdleMoves(s: State, s': State, id: nat)
    requires Inv(s) && SameData(s, s') && id in s'.threads && s'.threads == s.threads[id := s'.threads[id]]
    requires LockInv(s') && ThreadInv(s', s'.threads[id])
    requires id in s.threads ==> Fresh(s'.threads[id]) == Fresh(s.threads[id])
    requires forall k :: k in Fresh(s'.threads[id]) ==> k !in s.used
    requires id !in s.threads ==> forall k :: k in Fresh(s'.threads[id]) ==> !Reserved(s, k)
    ensures Inv(s')
  {
    hide Sets, LockInv, ThreadInv;
    SameDataKeeps(s, s', s'.threads[id]);
    forall jd | jd in s'.threads ensures ThreadInv(s', s'.threads[jd]) {
      SameDataKeeps(s, s', s'.threads[jd]);
    }
    forall a, b | a in s'.threads && b in s'.threads && a != b ensures Fresh(s'.threads[a]) !! Fresh(s'.threads[b]) {
      assert forall k :: a in s.threads && k in Fresh(s.threads[a]) ==> Reserved(s, k);
      assert forall k :: b in s.threads && k in Fresh(s.threads[b]) ==> Reserved(s, k);
    }
  }

  lemma StartKeeps(s: State, m: Move)
    requires Inv(s) && Can(s, m, true) && !m.Go?
    ensures Inv(Do(s, m, true).0) && Allowed(s, Do(s, m, true).1)
  {
    hide Sets, FreshInv;
    IdleMoves(s, Do(s, m, true).0, m.id);
  }

  lemma LockKeeps(s: State, id: nat, ok: bool, key: Key)
    requires Inv(s) && Can(s, Go(id, ok, key), true)
    requires s.threads[id].PassWaiting? || s.threads[id].BatchWaiting? || s.threads[id].DeleteWaiting?
    ensures Inv(Advance(s, id, ok, key).0) && Allowed(s, Advance(s, id, ok, key).1)
  {
    hide Sets;
    IdleMoves(s, Advance(s, id, ok, key).0, id);
  }

  lemma PassSets(s: State, id: nat, ok: bool, key: Key)
    requires Sets(s) && Can(s, Go(id, ok, key), true) && IsPass(s.threads[id]) && ThreadInv(s, s.threads[id])
    ensures var (s', effect) := Advance(s, id, ok, key);
      && (forall k :: Enabled(s', k) <==> Enabled(s, k))
      && Sets(s') && Allowed(s, effect)
  {
    var s' := Advance(s, id, ok, key).0;
    assert Kept(s') == Kept(s);
  }

  lemma PassThread(s: State, id: nat, ok: bool, key: Key)
    requires Sets(s) && Can(s, Go(id, ok, key), true) && IsPass(s.threads[id]) && ThreadInv(s, s.threads[id])
    requires forall k :: Enabled(Advance(s, id, ok, key).0, k) <==> Enabled(s, k)
    ensures var s' := Advance(s, id, ok, key).0; ThreadInv(s', s'.threads[id])
  {
    assert Kept(Advance(s, id, ok, key).0) == Kept(s);
  }

  lemma PassKeeps(s: State, id: nat, ok: bool, key: Key)
    requires Inv(s) && Can(s, Go(id, ok, key), true) && IsPass(s.threads[id])
    ensures Inv(Advance(s, id, ok, key).0) && Allowed(s, Advance(s, id, ok, key).1)
  {
    hide LockInv, FreshInv, Sets, ThreadInv, Enabled, Allowed;
    PassExcludes(s, id);
    PassSets(s, id, ok, key);
    PassThread(s, id, ok, key);
    PassMoves(s, Advance(s, id, ok, key).0, id);
  }

  lemma PassExcludes(s: State, id: nat)
    requires LockInv(s) && id in s.threads && IsPass(s.threads[id])
    ensures s.writer == None
  {
  }

  lemma HandlerSets(s: State, id: nat, ok: bool, key: Key)
    requires Sets(s) && Can(s, Go(id, ok, key), true) && IsPaused(s.threads[id])
    requires ThreadInv(s, s.threads[id]) && Fresh(s.threads[id]) !! s.used
    ensures Sets(Advance(s, id, ok, key).0)
  {
    var s' := Advance(s, id, ok, key).0;
    var t := s.threads[id];
    if t.BatchPaused? {
      assert forall k :: Enabled(s', k) == Enabled(s, k);
      assert t.keys == Fresh(t) && s.gone !! t.keys;
    } else if t.BatchInKernel? {
      assert forall k :: Enabled(s', k) <==> Enabled(s, k) || (s'.rows != s.rows && k in t.keys);
    } else if t.BatchInRows? {
      assert forall k :: Enabled(s', k) == Enabled(s, k);
      assert Kept(s') <= Kept(s) + t.keys;
    } else if t.BatchUndoRows? {
      assert forall k :: Enabled(s', k) ==> Enabled(s, k);
      assert forall k :: Enabled(s, k) && k !in t.keys ==> Enabled(s', k);
    } else if t.DeleteUnkernelled? {
      assert forall k :: Enabled(s', k) <==> Enabled(s, k) && (s'.rows == s.rows || k != t.key);
      assert forall k :: k in Kept(s') ==> k in Kept(s);
    } else {
      assert forall k :: Enabled(s', k) == Enabled(s, k);
      assert Kept(s') == Kept(s);
    }
  }

  lemma HandlerThread(s: State, id: nat, ok: bool, key: Key)
    requires Sets(s) && Can(s, Go(id, ok, key), true) && IsPaused(s.threads[id])
    requires ThreadInv(s, s.threads[id]) && Fresh(s.threads[id]) !! s.used
    ensures ThreadInv(Advance(s, id, ok, key).0, Advance(s, id, ok, key).0.threads[id])
  {
  }

  lemma HandlerKeeps(s: State, id: nat, ok: bool, key: Key)
    requires Inv(s) && Can(s, Go(id, ok, key), true) && IsPaused(s.threads[id])
    ensures Inv(Advance(s, id, ok, key).0) && Allowed(s, Advance(s, id, ok, key).1)
  {
    hide LockInv, FreshInv, Sets, ThreadInv, Rows;
    PausedWrites(s, id);
    HandlerSets(s, id, ok, key);
    HandlerThread(s, id, ok, key);
    HandlerMoves(s, Advance(s, id, ok, key).0, id);
  }

  lemma PausedWrites(s: State, id: nat)
    requires LockInv(s) && FreshInv(s) && id in s.threads && IsPaused(s.threads[id])
    ensures s.writer == Some(id) && s.readers == {} && Fresh(s.threads[id]) !! s.used
  {
  }

  /** Every move keeps the invariant, and no pass does anything it must not do. */
  lemma StepKeeps(s: State, m: Move)
    requires Inv(s) && Can(s, m, true)
    ensures Inv(Do(s, m, true).0) && Allowed(s, Do(s, m, true).1)
  {
    hide Inv, Advance, Allowed;
    if !m.Go? {
      StartKeeps(s, m);
    } else if IsPass(s.threads[m.id]) {
      PassKeeps(s, m.id, m.ok, m.key);
    } else if IsPaused(s.threads[m.id]) {
      HandlerKeeps(s, m.id, m.ok, m.key);
    } else {
      LockKeeps(s, m.id, m.ok, m.key);
    }
  }

  lemma {:induction false} RunKeeps(s: State, moves: seq<Move>)
    requires Inv(s) && Possible(s, moves, true)
    ensures Inv(After(s, moves, true))
    decreases |moves|
  {
    hide Inv, Do;
    if moves != [] {
      StepKeeps(s, moves[0]);
      RunKeeps(Do(s, moves[0], true).0, moves[1..]);
    }
  }

  lemma InitialInv(s: State)
    requires Initial(s)
    ensures Inv(s)
  {
  }

  /**
   * In every interleaving, whichever calls fail: the next move of a pass never removes or disables a
   * batch-created key that nobody deleted, and never adds a deleted key; batch-created keys stay
   * enabled, and a key its DeletePeer took out of the kernel stays out.
   */
  lemma PausesSuffice(s: State, moves: seq<Move>, m: Move)
    requires Initial(s) && Possible(s, moves, true) && Can(After(s, moves, true), m, true)
    ensures var t := After(s, moves, true);
      && Allowed(t, Do(t, m, true).1)
      && (forall k :: k in Kept(t) ==> Enabled(t, k))
      && t.gone !! t.kernel
  {
    hide Do, Allowed;
    InitialInv(s);
    RunKeeps(s, moves);
    StepKeeps(After(s, moves, true), m);
  }

  // ---------------------------------------------------------------- without the pause

  /** A pass reads kernel and table in the middle of a batch. */
  function RaceMoves(k: Key): seq<Move> {
    [StartBatch(0, {k}), Go(0, true, k), Go(0, true, k),    // the batch's key is in the kernel
     StartPass(1), Go(1, true, k), Go(1, true, k), Go(1, true, k),    // the pass has read both sides
     Go(0, true, k), Go(0, true, k)]                         // the batch commits and succeeds
  }

  function EmptyState(): State {
    State({}, map[], {}, None, map[], {}, {}, {}, {})
  }

  /** The state after `i` moves of the race. */
  function Race(k: Key, i: nat): State {
    match i
    case 0 => EmptyState()
    case 1 => EmptyState().(threads := map[0 := BatchWaiting({k})])
    case 2 => EmptyState().(threads := map[0 := BatchPaused({k})], writer := Some(0))
    case 3 => InKernel(k, map[0 := BatchInKernel({k})])
    case 4 => InKernel(k, map[0 := BatchInKernel({k}), 1 := PassWaiting])
    case 5 => InKernel(k, map[0 := BatchInKernel({k}), 1 := PassLocked]).(readers := {1})
    case 6 => InKernel(k, map[0 := BatchInKernel({k}), 1 := PassDevice({k})]).(readers := {1})
    case 7 => InKernel(k, map[0 := BatchInKernel({k}), 1 := PassUnknown({k}, map[], {k})]).(readers := {1})
    case 8 => InKernel(k, map[0 := BatchInRows({k}), 1 := PassUnknown({k}, map[], {k})]).(
                readers := {1}, rows := map[k := true])
    case _ => InKernel(k, map[0 := Leaving, 1 := PassUnknown({k}, map[], {k})]).(
                readers := {1}, rows := map[k := true], created := {k})
  }

  function InKernel(k: Key, threads: map<nat, Thread>): State {
    State({k}, map[], {}, Some(0), threads, {k}, {}, {}, {})
  }

  ghost predicate Moved(k: Key, i: nat)
    requires i < 9
  {
    Can(Race(k, i), RaceMoves(k)[i], false) && Do(Race(k, i), RaceMoves(k)[i], false).0 == Race(k, i + 1)
  }

  lemma BatchStarts(k: Key)
    ensures Moved(k, 0)
  {
  }

  lemma BatchSkipsTheWait(k: Key)
    ensures Moved(k, 1)
  {
  }

  lemma BatchConfiguresKernel(k: Key)
    ensures Moved(k, 2)
  {
  }

  lemma PassStarts(k: Key)
    ensures Moved(k, 3)
  {
  }

  lemma PassSkipsTheWait(k: Key)
    ensures Moved(k, 4)
  {
  }

  lemma PassReadsKernel(k: Key)
    ensures Moved(k, 5)
  {
  }

  lemma PassReadsRows(k: Key)
    ensures Moved(k, 6)
  {
  }

  lemma BatchInserts(k: Key)
    ensures Moved(k, 7)
  {
  }

  lemma BatchSucceeds(k: Key)
    ensures Moved(k, 8)
  {
  }

  lemma RaceStep(k: Key, i: nat)
    requires i < 9
    ensures Can(Race(k, i), RaceMoves(k)[i], false) && Do(Race(k, i), RaceMoves(k)[i], false).0 == Race(k, i + 1)
  {
    hide Can, Do, Race, RaceMoves;
    match i {
      case 0 => BatchStarts(k);
      case 1 => BatchSkipsTheWait(k);
      case 2 => BatchConfiguresKernel(k);
      case 3 => PassStarts(k);
      case 4 => PassSkipsTheWait(k);
      case 5 => PassReadsKernel(k);
      case 6 => PassReadsRows(k);
      case 7 => BatchInserts(k);
      case _ => BatchSucceeds(k);
    }
    assert Moved(k, i);
  }

  /** If the handlers did not pause the reconciler, a pass could remove a key a batch has just created. */
  lemma PauseNeeded(k: Key)
    ensures Initial(EmptyState()) && Possible(EmptyState(), RaceMoves(k), false)
    ensures var t := After(EmptyState(), RaceMoves(k), false);
      Can(t, Go(1, true, k), false) && k in Kept(t) && Do(t, Go(1, true, k), false).1 == PassRemoves(k)
  {
    hide Can, Do, Race;
    var states := seq(10, i requires 0 <= i < 10 => Race(k, i));
    forall i | 0 <= i < 9
      ensures Can(states[i], RaceMoves(k)[i], false) && states[i + 1] == Do(states[i], RaceMoves(k)[i], false).0
    {
      RaceStep(k, i);
    }
    RaceEnds(k);
    RunTo(EmptyState(), RaceMoves(k), states);
  }

  lemma RaceEnds(k: Key)
    ensures Race(k, 0) == EmptyState()
    ensures Can(Race(k, 9), Go(1, true, k), false) && k in Kept(Race(k, 9))
    ensures Do(Race(k, 9), Go(1, true, k), false).1 == PassRemoves(k)
  {
  }

  /** A run given state by state. */
  lemma {:induction false} RunTo(s: State, moves: seq<Move>, states: seq<State>)
    requires |states| == |moves| + 1 && states[0] == s
    requires forall i :: 0 <= i < |moves| ==>
      Can(states[i], moves[i], false) && states[i + 1] == Do(states[i], moves[i], false).0
    ensures Possible(s, moves, false) && After(s, moves, false) == states[|moves|]
    decreases |moves|
  {
    hide Can, Do;
    if moves != [] {
      RunTo(states[1], moves[1..], states[1..]);
    }
  }
}
