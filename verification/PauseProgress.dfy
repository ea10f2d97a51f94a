/** What passes, batches and deletions achieve when their calls succeed and nobody comes in between. */
module PauseProgress {
  import opened PauseLock

  /** The thread's own moves, every call of which succeeds. */
  ghost predicate Own(ms: seq<Move>, id: nat) {
    forall m :: m in ms ==> m.Go? && m.id == id && m.ok
  }

  function EnabledOf(rows: map<Key, bool>): set<Key> {
    set k | k in rows && rows[k]
  }

  /** The rows after a pass over kernel k0: each unknown key recorded as disabled. */
  function WithUnknown(rows: map<Key, bool>, keys: set<Key>): map<Key, bool> {
    map k | k in rows.Keys + keys :: k in rows && rows[k]
  }

  /** How far a pass that found kernel k0 and rows r0 has come. */
  ghost predicate OnTrack(s: State, t: Thread, k0: set<Key>, r0: map<Key, bool>) {
    match t
    case PassLocked => s.kernel == k0 && s.rows == r0
    case PassDevice(seen) => seen == k0 && s.kernel == k0 && s.rows == r0
    case PassUnknown(seen, rows, todo) =>
      && seen == k0 && rows == r0 && todo <= k0
      && s.kernel == todo + k0 * EnabledOf(r0) && s.rows == WithUnknown(r0, k0 - todo)
    case PassRecord(seen, rows, todo, cur) =>
      && seen == k0 && rows == r0 && todo <= k0 && cur in k0 - todo && cur !in r0
      && s.kernel == todo + k0 * EnabledOf(r0) && s.rows == WithUnknown(r0, k0 - todo - {cur})
    case PassMissing(seen, rows, todo) =>
      && seen == k0 && rows == r0 && todo <= r0.Keys
      && s.kernel == k0 * EnabledOf(r0) + (EnabledOf(r0) - todo) && s.rows == WithUnknown(r0, k0)
    case Finished => s.kernel == EnabledOf(r0) && s.rows == WithUnknown(r0, k0)
    case _ => false
  }

  lemma UnknownKept(s: State, id: nat, key: Key, k0: set<Key>, r0: map<Key, bool>)
    requires id in s.threads && s.threads[id].PassUnknown? && OnTrack(s, s.threads[id], k0, r0)
    requires Can(s, Go(id, true, key), true)
    ensures var s' := Advance(s, id, true, key).0; id in s'.threads && OnTrack(s', s'.threads[id], k0, r0)
  {
    var s' := Advance(s, id, true, key).0;
    var todo := s.threads[id].todo;
    if todo == {} {
      assert k0 - todo == k0 && s'.kernel == k0 * EnabledOf(r0) + (EnabledOf(r0) - r0.Keys);
    } else {
      var rest := todo - {key};
      assert s'.kernel == rest + k0 * EnabledOf(r0);
      if key in r0 {
        assert s.rows == WithUnknown(r0, k0 - rest);
      } else {
        assert k0 - rest - {key} == k0 - todo;
      }
    }
  }

  lemma OnTrackKept(s: State, id: nat, key: Key, k0: set<Key>, r0: map<Key, bool>)
    requires id in s.threads && OnTrack(s, s.threads[id], k0, r0) && Can(s, Go(id, true, key), true)
    ensures var s' := Advance(s, id, true, key).0; id in s'.threads && OnTrack(s', s'.threads[id], k0, r0)
  {
    if s.threads[id].PassUnknown? {
      UnknownKept(s, id, key, k0, r0);
    } else {
      OthersKept(s, id, key, k0, r0);
    }
  }

  lemma OthersKept(s: State, id: nat, key: Key, k0: set<Key>, r0: map<Key, bool>)
    requires id in s.threads && !s.threads[id].PassUnknown? && OnTrack(s, s.threads[id], k0, r0)
    requires Can(s, Go(id, true, key), true)
    ensures var s' := Advance(s, id, true, key).0; id in s'.threads && OnTrack(s', s'.threads[id], k0, r0)
  {
    var s' := Advance(s, id, true, key).0;
    match s.threads[id]
    case PassDevice(seen) => assert s'.rows == WithUnknown(r0, k0 - seen);
    case PassRecord(_, _, todo, cur) => assert s'.rows == WithUnknown(r0, k0 - todo);
    case PassMissing(_, _, todo) =>
      if todo == {} {
        assert s'.kernel == EnabledOf(r0);
      } else {
        assert s'.kernel == k0 * EnabledOf(r0) + (EnabledOf(r0) - (todo - {key}));
      }
    case _ =>
  }

  /**
   * A pass whose calls succeed and which runs undisturbed: when it is over, the kernel has exactly the enabled keys,
   * and every key it found there without a row has a disabled one.
   */
  lemma {:induction false} PassAchieves(s: State, id: nat, ms: seq<Move>, k0: set<Key>, r0: map<Key, bool>)
    requires id in s.threads && OnTrack(s, s.threads[id], k0, r0) && Own(ms, id) && Possible(s, ms, true)
    ensures var s' := After(s, ms, true);
      && id in s'.threads
      && (s'.threads[id].Finished? ==> s'.kernel == EnabledOf(r0) && s'.rows == WithUnknown(r0, k0))
    decreases |ms|
  {
    hide Can, Advance;
    if ms != [] {
      assert ms[0] in ms && ms == [ms[0]] + ms[1..];
      OnTrackKept(s, id, ms[0].key, k0, r0);
      PassAchieves(Do(s, ms[0], true).0, id, ms[1..], k0, r0);
    }
  }

  /** How far a running pass is from its end: its stage, and what its loop has left. */
  function Stage(t: Thread): nat {
    if t.PassLocked? then 4 else if t.PassDevice? then 3 else if t.PassUnknown? || t.PassRecord? then 2
    else if t.PassMissing? then 1 else 0
  }

  function LoopLeft(t: Thread): nat {
    if t.PassUnknown? then 2 * |t.todo| else if t.PassRecord? then 2 * |t.todo| + 1
    else if t.PassMissing? then |t.todo| else 0
  }

  lemma Closer(s: State, id: nat, key: Key)
    requires id in s.threads && IsPass(s.threads[id]) && Can(s, Go(id, true, key), true)
    ensures var t, s' := s.threads[id], Do(s, Go(id, true, key), true).0;
      && id in s'.threads && (IsPass(s'.threads[id]) || s'.threads[id].Finished?)
      && (Stage(s'.threads[id]) < Stage(t)
          || (Stage(s'.threads[id]) == Stage(t) && LoopLeft(s'.threads[id]) < LoopLeft(t)))
  {
  }

  lemma NextKey(s: State, id: nat) returns (key: Key)
    requires id in s.threads && IsPass(s.threads[id])
    ensures Can(s, Go(id, true, key), true)
  {
    var t := s.threads[id];
    key := "";
    if (t.PassUnknown? || t.PassMissing?) && t.todo != {} {
      key :| key in t.todo;
    }
  }

  /** Such a pass always comes to its end. */
  lemma {:induction false} PassEnds(s: State, id: nat) returns (ms: seq<Move>)
    requires id in s.threads && (IsPass(s.threads[id]) || s.threads[id].Finished?)
    ensures Own(ms, id) && Possible(s, ms, true)
    ensures id in After(s, ms, true).threads && After(s, ms, true).threads[id].Finished?
    decreases Stage(s.threads[id]), LoopLeft(s.threads[id])
  {
    hide Can, Do, Stage, LoopLeft;
    ms := [];
    if IsPass(s.threads[id]) {
      var key := NextKey(s, id);
      Closer(s, id, key);
      var rest := PassEnds(Do(s, Go(id, true, key), true).0, id);
      ms := [Go(id, true, key)] + rest;
      assert ms[1..] == rest;
    }
  }

  /** A batch on its own: its keys are in the kernel, their rows are there and enabled, and nothing else changes. */
  lemma BatchAchieves(s: State, id: nat, key: Key)
    requires id in s.threads && s.threads[id].BatchPaused? && s.threads[id].keys !! s.rows.Keys
    ensures var keys, ms := s.threads[id].keys, [Go(id, true, key), Go(id, true, key), Go(id, true, key)];
      && Possible(s, ms, true)
      && var s' := After(s, ms, true);
         && s'.kernel == s.kernel + keys && s'.rows.Keys == s.rows.Keys + keys && s'.created == s.created + keys
         && (forall k :: k in keys ==> s'.rows[k]) && (forall k :: k in s.rows ==> s'.rows[k] == s.rows[k])
  {
    var m := Go(id, true, key);
    var s1 := Do(s, m, true).0;
    var s2 := Do(s1, m, true).0;
    ThreeMoves(s, m, s1, s2, Do(s2, m, true).0);
  }

  lemma ThreeMoves(s: State, m: Move, s1: State, s2: State, s3: State)
    requires Can(s, m, true) && s1 == Do(s, m, true).0
    requires Can(s1, m, true) && s2 == Do(s1, m, true).0
    requires Can(s2, m, true) && s3 == Do(s2, m, true).0
    ensures Possible(s, [m, m, m], true) && After(s, [m, m, m], true) == s3
  {
    hide Can, Do;
    assert [m, m, m][1..] == [m, m] && [m, m][1..] == [m] && [m][1..] == [];
    assert Possible(s2, [m], true) && After(s2, [m], true) == s3 by {
      assert Possible(s3, [], true) && After(s3, [], true) == s3;
    }
    assert Possible(s1, [m, m], true) && After(s1, [m, m], true) == s3;
  }

  /** A deletion on its own: the key is in neither copy, and nothing else changes. */
  lemma DeleteAchieves(s: State, id: nat, key: Key)
    requires id in s.threads && s.threads[id].DeletePaused? && s.threads[id].key in s.rows
    ensures var k, m := s.threads[id].key, Go(id, true, key);
      && Can(s, m, true) && Can(Do(s, m, true).0, m, true)
      && var s' := Do(Do(s, m, true).0, m, true).0;
         && s'.kernel == s.kernel - {k} && s'.rows == s.rows - {k}
         && s'.deleted == s.deleted + {k} && s'.gone == s.gone + {k}
  {
    var m := Go(id, true, key);
    var s1 := Do(s, m, true).0;
    assert s1.threads[id] == DeleteUnkernelled(s.threads[id].key, true);
  }
}
