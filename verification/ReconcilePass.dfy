/** The pass as it runs: loops over the kernel's peers and the rows, in any order, with failing calls. */
module ReconcilePass {
  import opened Text
  import opened Storage
  import opened Iptables
  import opened Firewall
  import opened FirewallEffects
  import opened FirewallMeaning
  import opened FirewallTheorems
  import opened Collections
  import opened Kernel
  import opened Reconciler

  // ---------------------------------------------------------------- the firewall and the rows

  function RowSet(rows: map<string, Peer>): set<Peer> {
    set key | key in rows :: rows[key]
  }

  ghost predicate OwnChains(rows: map<string, Peer>) {
    forall a, b :: a in rows && b in rows && a != b ==> Chain(rows[a]) != Chain(rows[b])
  }

  /** The table enforces the rows. */
  ghost predicate InStep(e: Env, t: Table, rows: map<string, Peer>) {
    OwnChains(rows) && Synced(e, t, RowSet(rows))
  }

  /** The firewall call of the pass for one row: a zombie's rules are removed, a missing peer's applied. */
  function Touched(e: Env, t: Table, row: Peer): Table {
    if row.enabled then ApplyT(e, t, row) else RemoveT(e, t, row)
  }

  lemma TouchedIsApplied(e: Env, t: Table, row: Peer)
    ensures Touched(e, t, row) == ApplyT(e, t, row)
  {
    if !row.enabled {
      DisabledIsRemoved(e, t, row);
    }
  }

  /** The table after the firewall calls of a pass, in the order in which its loops came to the rows. */
  function Reapplied(e: Env, t: Table, rows: map<string, Peer>, keys: seq<string>): Table {
    if keys == [] then t
    else
      var n := |keys| - 1;
      var t1 := Reapplied(e, t, rows, keys[..n]);
      if keys[n] in rows then Touched(e, t1, rows[keys[n]]) else t1
  }

  lemma ReappliedSnoc(e: Env, t: Table, rows: map<string, Peer>, keys: seq<string>, key: string)
    requires key in rows
    ensures Reapplied(e, t, rows, keys + [key]) == Touched(e, Reapplied(e, t, rows, keys), rows[key])
  {
    hide Touched;
    assert (keys + [key])[..|keys|] == keys;
  }

  lemma ReappliedNone(e: Env, t: Table, rows: map<string, Peer>)
    ensures Reapplied(e, t, rows, []) == t
  {
  }

  lemma {:induction false} ReappliedInStep(e: Env, t: Table, rows: map<string, Peer>, keys: seq<string>)
    requires InStep(e, t, rows)
    ensures InStep(e, Reapplied(e, t, rows, keys), rows)
  {
    hide InStep, Touched, ApplyT;
    if keys != [] {
      var n := |keys| - 1;
      ReappliedInStep(e, t, rows, keys[..n]);
      if keys[n] in rows {
        var t1 := Reapplied(e, t, rows, keys[..n]);
        TouchedIsApplied(e, t1, rows[keys[n]]);
        ReapplyInStep(e, t1, rows, keys[n]);
      }
    }
  }

  /** A disabled peer that the kernel still has. */
  predicate Zombie(s: State, key: string) {
    key in s.kernel && key in s.rows && !s.rows[key].enabled
  }

  /** The rows whose rules a pass touches: zombies, and missing peers it manages to add. */
  predicate TouchedBy(ps: Parsers, s: State, f: Faults, key: string) {
    && key in s.rows
    && if s.rows[key].enabled then key !in s.kernel && ps.validKey(key) && key !in f.add else key in s.kernel
  }

  /** Applying a row again, for a zombie or a missing peer, keeps the table in step. */
  lemma ReapplyInStep(e: Env, t: Table, rows: map<string, Peer>, key: string)
    requires InStep(e, t, rows) && key in rows
    ensures InStep(e, ApplyT(e, t, rows[key]), rows)
  {
    hide SourceCidr, ChainName, ApplyT, Synced;
    var p := rows[key];
    assert p in RowSet(rows);
    forall q | q in RowSet(rows) && Chain(q) == Chain(p) ensures q == p {
      var k :| k in rows && rows[k] == q;
    }
    assert Without(RowSet(rows), Chain(p)) + {p} == RowSet(rows);
    ApplyKeeps(e, t, RowSet(rows), p);
  }

  /** The rows after a pass have the same peers in force. */
  lemma PassInStep(e: Env, t: Table, ps: Parsers, s: State, f: Faults)
    requires Synced(e, t, RowSet(s.rows))
    ensures Synced(e, t, RowSet(RowsAfter(s, f)))
  {
    hide Synced, Active, Discovered;
    var rows := RowsAfter(s, f);
    forall p | p in RowSet(s.rows) ensures exists q :: q in RowSet(rows) && SameForce(p, q) {
      var key :| key in s.rows && s.rows[key] == p;
      assert rows[key] in RowSet(rows) && SameForce(p, rows[key]);
    }
    forall q | q in RowSet(rows) && Active(e, q) ensures exists p :: p in RowSet(s.rows) && SameForce(p, q) {
      var key :| key in rows && rows[key] == q;
      if key in s.rows {
        assert s.rows[key] in RowSet(s.rows) && SameForce(s.rows[key], q);
      } else {
        DiscoveredDisabled(key, s);
        ActiveIsEnabled(e, q);
      }
    }
    SyncedTransfer(e, t, RowSet(s.rows), RowSet(rows));
  }

  lemma ActiveIsEnabled(e: Env, q: Peer)
    ensures Active(e, q) ==> q.enabled
  {
  }

  // ---------------------------------------------------------------- after step 1, key by key

  function Survivor(s: State, f: Faults, key: string): Option<KernelPeer> {
    if Unwanted(s, key) && key !in f.remove then None else At(s.kernel, key)
  }

  function Kept(s: State, f: Faults, key: string): Option<Peer> {
    if Adopted(s, f, key) then Some(Discovered(key, s.kernel[key])) else At(s.rows, key)
  }

  /** Survivor and Kept at a key of the kernel, and at one that is not. */
  lemma StepOneAt(s: State, f: Faults, key: string)
    ensures key in s.kernel ==>
      && Survivor(s, f, key) == (if (key in s.rows && s.rows[key].enabled) || key in f.remove
                                 then Some(s.kernel[key]) else None)
      && Kept(s, f, key) == (if key in s.rows then Some(s.rows[key])
                             else if key in f.upsert then None else Some(Discovered(key, s.kernel[key])))
    ensures key !in s.kernel ==>
      Survivor(s, f, key) == At(s.kernel, key) == None && Kept(s, f, key) == At(s.rows, key) && !Zombie(s, key)
  {
    hide Discovered;
  }

  lemma StepTwoAt(ps: Parsers, s: State, f: Faults, key: string)
    ensures At(KernelAfter(ps, s, f), key) ==
      if key in s.rows && s.rows[key].enabled && key !in s.kernel && ps.validKey(key) && key !in f.add
      then Some(Readded(ps, key, s.rows[key])) else Survivor(s, f, key)
  {
    hide Readded;
  }

  // ---------------------------------------------------------------- the class

  class ReconcileLoop {
    const ps: Parsers
    const e: Env
    var kernel: Peers
    var rows: map<string, Peer>
    var conf: set<ConfEntry>
    var table: Table

    constructor (ps: Parsers, e: Env, kernel: Peers, rows: map<string, Peer>, conf: set<ConfEntry>, table: Table)
      ensures this.ps == ps && this.e == e && this.table == table && Current() == State(kernel, rows, conf)
    {
      this.ps, this.e, this.kernel, this.rows, this.conf, this.table := ps, e, kernel, rows, conf, table;
    }

    function Current(): State
      reads this
    {
      State(kernel, rows, conf)
    }

    /**
     * One pass. Whatever the iteration order of the maps and whichever calls fail, the result is Pass, and
     * the rules of exactly the zombies and the missing peers are gone over; a table in step stays so.
     */
    method ReconcileOnce(deviceFails: bool, listFails: bool, f: Faults) returns (ok: bool, ghost touched: seq<string>)
      modifies this
      ensures ok <==> !deviceFails && !listFails
      ensures !ok ==> Current() == old(Current()) && table == old(table)
      ensures ok ==> Current() == Pass(ps, old(Current()), f)
      ensures ok ==> table == Reapplied(e, old(table), old(rows), touched)
      ensures ok ==> forall key :: key in touched <==> TouchedBy(ps, old(Current()), f, key)
      ensures ok && old(InStep(e, table, rows)) ==> Synced(e, table, RowSet(rows))
    {
      hide Readded, Discovered, ConfOf, InStep, ApplyT, Synced, Seen, EndpointText, Reapplied;
      touched := [];
      if deviceFails || listFails {
        return false, [];
      }
      var kernelPeers, dbPeers := kernel, rows;
      ghost var s, t := Current(), table;
      touched := RemoveUnwanted(kernelPeers, dbPeers, f, s);
      touched := AddMissing(kernelPeers, dbPeers, f, s, t, touched);
      ghost var adopted := rows;
      if !f.conf {
        conf := RewriteConf();
      }
      forall key | key in dbPeers ensures key in rows && rows[key] == dbPeers[key] {
        assert At(rows, key) == Kept(s, f, key);
      }
      RecordEndpoints(kernelPeers, dbPeers, f);
      ok := true;
      forall key ensures At(rows, key) == At(RowsAfter(s, f), key) {
        assert At(adopted, key) == Kept(s, f, key);
        PassAt(ps, s, f, key);
      }
      SameMap(rows, RowsAfter(s, f));
      assert ConfOf(adopted) == ConfOf(s.rows) by {
        AdoptedConf(s, f, adopted);
      }
      if old(InStep(e, table, rows)) {
        ReappliedInStep(e, t, s.rows, touched);
        StepSynced(e, table, s.rows);
        PassInStep(e, table, ps, s, f);
      }
    }

    /** Step 1: unknown peers and zombies leave the kernel; unknown peers are recorded as disabled rows. */
    method RemoveUnwanted(kernelPeers: Peers, dbPeers: map<string, Peer>, f: Faults, ghost s: State)
      returns (ghost touched: seq<string>)
      requires s == Current() && kernelPeers == kernel && dbPeers == rows
      modifies this
      ensures conf == s.conf
      ensures forall key :: At(kernel, key) == Survivor(s, f, key)
      ensures forall key :: At(rows, key) == Kept(s, f, key)
      ensures table == Reapplied(e, old(table), s.rows, touched)
      ensures forall key :: key in touched <==> Zombie(s, key)
    {
      hide Reapplied, Survivor, Kept, Zombie, At;
      touched := [];
      ReappliedNone(e, table, s.rows);
      forall key | key !in s.kernel
        ensures At(kernel, key) == Survivor(s, f, key) && At(rows, key) == Kept(s, f, key) && !Zombie(s, key)
      {
        StepOneAt(s, f, key);
      }
      var todo := kernelPeers.Keys;
      while todo != {}
        invariant todo <= s.kernel.Keys && conf == s.conf
        invariant forall key :: At(kernel, key) == (if key in todo then At(s.kernel, key) else Survivor(s, f, key))
        invariant forall key :: At(rows, key) == (if key in todo then At(s.rows, key) else Kept(s, f, key))
        invariant table == Reapplied(e, old(table), s.rows, touched)
        invariant forall key :: key in touched <==> key !in todo && Zombie(s, key)
      {
        var key :| key in todo;
        todo := todo - {key};
        touched := VisitKernelPeer(key, kernelPeers[key], dbPeers, f, s, old(table), touched);
      }
    }

    /** The body of that loop. */
    method VisitKernelPeer(key: string, wgPeer: KernelPeer, dbPeers: map<string, Peer>, f: Faults,
                           ghost s: State, ghost t: Table, ghost before: seq<string>)
      returns (ghost touched: seq<string>)
      requires dbPeers == s.rows && key in s.kernel && wgPeer == s.kernel[key]
      requires At(kernel, key) == At(s.kernel, key) && At(rows, key) == At(s.rows, key)
      requires table == Reapplied(e, t, s.rows, before)
      modifies this`kernel, this`rows, this`table
      ensures At(kernel, key) == Survivor(s, f, key) && At(rows, key) == Kept(s, f, key)
      ensures forall x :: x != key ==> At(kernel, x) == old(At(kernel, x)) && At(rows, x) == old(At(rows, x))
      ensures table == Reapplied(e, t, s.rows, touched)
      ensures touched == if Zombie(s, key) then before + [key] else before
    {
      hide Discovered, RemoveT, Reapplied, Survivor, Kept;
      StepOneAt(s, f, key);
      touched := before;
      if key in dbPeers {
        if !dbPeers[key].enabled {
          if key !in f.remove {
            kernel := kernel - {key};
          }
          ReappliedSnoc(e, t, s.rows, before, key);
          table := RemoveT(e, table, dbPeers[key]);
          touched := before + [key];
        }
      } else {
        if key !in f.remove {
          kernel := kernel - {key};
        }
        if key !in f.upsert && key !in rows {
          rows := rows[key := Discovered(key, wgPeer)];
        }
      }
    }

    /** Step 2: enabled rows the kernel did not have are added, each failure by itself. */
    method AddMissing(
      kernelPeers: Peers, dbPeers: map<string, Peer>, f: Faults,
      ghost s: State, ghost t: Table, ghost before: seq<string>)
      returns (ghost touched: seq<string>)
      requires kernelPeers == s.kernel && dbPeers == s.rows
      requires forall key :: At(kernel, key) == Survivor(s, f, key)
      requires table == Reapplied(e, t, s.rows, before)
      requires forall key :: key in before <==> Zombie(s, key)
      modifies this`kernel, this`table
      ensures kernel == KernelAfter(ps, s, f)
      ensures table == Reapplied(e, t, s.rows, touched)
      ensures forall key :: key in touched <==> TouchedBy(ps, s, f, key)
    {
      hide Readded, Desired, ApplyT, Reapplied, KernelAfter, Survivor;
      ghost var k1, target := kernel, KernelAfter(ps, s, f);
      forall key | key !in s.rows ensures At(k1, key) == At(target, key) {
        assert At(k1, key) == Survivor(s, f, key);
        StepTwoAt(ps, s, f, key);
      }
      touched := before;
      var todo := dbPeers.Keys;
      while todo != {}
        invariant todo <= dbPeers.Keys
        invariant forall key :: At(kernel, key) == (if key in todo then At(k1, key) else At(target, key))
        invariant table == Reapplied(e, t, s.rows, touched)
        invariant forall key :: key in touched <==> key in before || (key !in todo && TouchedBy(ps, s, f, key))
      {
        var key :| key in todo;
        todo := todo - {key};
        StepOneAt(s, f, key);
        StepTwoAt(ps, s, f, key);
        assert At(kernel, key) == At(k1, key) == Survivor(s, f, key);
        if dbPeers[key].enabled && key !in kernelPeers && ps.validKey(key) && key !in f.add {
          AddedEntry(ps, kernel, key, dbPeers[key]);
          kernel := Configure(kernel, Desired(ps, key, dbPeers[key]));
          ReappliedSnoc(e, t, s.rows, touched, key);
          table := ApplyT(e, table, dbPeers[key]);
          touched := touched + [key];
        }
      }
      SameMap(kernel, target);
    }

    /** Step 3: the conf lists the enabled rows. */
    method RewriteConf() returns (entries: set<ConfEntry>)
      ensures entries == ConfOf(rows)
    {
      hide Entry;
      entries := {};
      var todo := rows.Keys;
      while todo != {}
        invariant todo <= rows.Keys
        invariant entries == set key | key in rows && key !in todo && rows[key].enabled :: Entry(rows[key])
      {
        var key :| key in todo;
        todo := todo - {key};
        if rows[key].enabled {
          entries := entries + {Entry(rows[key])};
        }
      }
    }

    /** Step 4: changed endpoints of peers known at the start of the pass, in one transaction. */
    method RecordEndpoints(kernelPeers: Peers, dbPeers: map<string, Peer>, f: Faults)
      requires dbPeers.Keys <= rows.Keys
      requires forall key :: key in dbPeers ==> rows[key] == dbPeers[key]
      modifies this`rows
      ensures rows == map key | key in old(rows) ::
        if key in kernelPeers && key in dbPeers && !f.lastSeen
        then old(rows)[key].(lastSeenEndpoint := EndpointText(kernelPeers[key])) else old(rows)[key]
    {
      hide EndpointText;
      var deltas: map<string, string> := map[];
      var todo := kernelPeers.Keys;
      while todo != {}
        invariant todo <= kernelPeers.Keys
        invariant deltas == map key | key in kernelPeers && key !in todo && key in dbPeers
          && EndpointText(kernelPeers[key]) != dbPeers[key].lastSeenEndpoint :: EndpointText(kernelPeers[key])
      {
        var key :| key in todo;
        todo := todo - {key};
        if key in dbPeers && EndpointText(kernelPeers[key]) != dbPeers[key].lastSeenEndpoint {
          deltas := deltas[key := EndpointText(kernelPeers[key])];
        }
      }
      if !f.lastSeen {
        rows := map key | key in rows ::
          if key in deltas then rows[key].(lastSeenEndpoint := deltas[key]) else rows[key];
      }
    }
  }

  lemma AddedEntry(ps: Parsers, k: Peers, key: string, row: Peer)
    requires key !in k
    ensures Configure(k, Desired(ps, key, row)) == k[key := Readded(ps, key, row)]
  {
  }

  lemma StepSynced(e: Env, t: Table, rows: map<string, Peer>)
    ensures InStep(e, t, rows) ==> Synced(e, t, RowSet(rows))
  {
  }

  lemma AdoptedConf(s: State, f: Faults, adopted: map<string, Peer>)
    requires forall key :: At(adopted, key) == Kept(s, f, key)
    ensures ConfOf(adopted) == ConfOf(s.rows)
  {
    hide Discovered, Entry, ConfOf;
    forall key
      ensures key in adopted && adopted[key].enabled <==> key in s.rows && s.rows[key].enabled
      ensures key in adopted && adopted[key].enabled ==> Entry(adopted[key]) == Entry(s.rows[key])
    {
      assert At(adopted, key) == Kept(s, f, key);
      DiscoveredDisabled(key, s);
    }
    SameConf(adopted, s.rows);
  }
}
