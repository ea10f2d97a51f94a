/** The mutating handlers as sequences of effectful calls, with the compensating calls of each failure branch. */
module Sagas {
  import opened Text
  import opened Storage
  import opened Iptables
  import opened Firewall
  import opened FirewallEffects
  import opened FirewallMeaning
  import opened FirewallTheorems
  import opened FirewallRuns
  import opened Collections
  import opened Kernel
  import opened PeersTable
  import opened ReconcilePass
  import opened Requests
  import opened RowsInStep
  import opened AgentRuns

  /** Generated keys are fresh, and no two requests share one. */
  ghost predicate FreshKeys(kernel: Peers, rows: map<string, Peer>, reqs: seq<Peer>) {
    && (forall r :: r in reqs ==> r.publicKey !in kernel && r.publicKey !in rows)
    && (forall i, j :: 0 <= i < j < |reqs| ==> reqs[i].publicKey != reqs[j].publicKey)
  }

  /** The table is set up, and the chains of the new keys are not in use. */
  ghost predicate RoomFor(e: Env, t: Table, reqs: seq<Peer>) {
    && Ready(e, t) && DistinctChains(TempPeers(reqs))
    && forall r :: r in reqs ==> Unused(e, t, Chain(TempPeer(r)))
  }

  lemma {:induction false} ConfigureAllKeys(k: Peers, cs: seq<PeerConfig>)
    ensures var k' := ConfigureAll(k, cs);
      forall key :: (forall c :: c in cs ==> c.key != key) ==> At(k', key) == At(k, key)
    decreases |cs|
  {
    hide Configure;
    if cs != [] {
      ConfigureAllKeys(Configure(k, cs[0]), cs[1..]);
      forall key | forall c :: c in cs ==> c.key != key ensures At(ConfigureAll(k, cs), key) == At(k, key) {
        assert forall c :: c in cs[1..] ==> c in cs;
        assert cs[0] in cs;
        ConfigureOther(k, cs[0], key);
      }
    }
  }

  lemma ConfigureOther(k: Peers, c: PeerConfig, key: string)
    requires key != c.key
    ensures At(Configure(k, c), key) == At(k, key)
  {
  }

  // ---------------------------------------------------------------- key rotation

  /** What a rollback restores of a kernel: keys, allowed addresses and preshared keys. */
  function View(k: Peers): map<string, (set<Cidr>, Option<string>)> {
    map key | key in k :: (k[key].allowed, k[key].psk)
  }

  /** Exactly when a compensated rotation leaves the kernel as it was: the kernel held what the row says. */
  predicate Restorable(c: Config, k: Peers, row: Peer, removeFails: bool) {
    && row.publicKey in k
    && var was := k[row.publicKey];
       if removeFails then RowNets(c, row) <= was.allowed && (RowPsk(c, row).Some? ==> was.psk == RowPsk(c, row))
       else was.allowed == RowNets(c, row) && was.psk == RowPsk(c, row)
  }

  /** Key and PSK set back one after the other, whether or not the PSK had been replaced. */
  lemma PskBack(rows: map<string, Peer>, from: string, onto: string, psk: string)
    requires from in rows && onto !in rows && rows[from].publicKey == from
    ensures var moved := Renamed(rows, from, onto);
      var now := moved[onto := moved[onto].(presharedKey := psk)];
      var back := Renamed(now, onto, from);
      && (psk == rows[from].presharedKey ==> now == moved && back == rows)
      && from !in now && back == rows[from := rows[from].(presharedKey := psk)]
      && back[from := back[from].(presharedKey := rows[from].presharedKey)] == rows
  {
    var moved := Renamed(rows, from, onto);
    var back := Renamed(moved[onto := moved[onto].(presharedKey := psk)], onto, from);
    assert back[from].(presharedKey := rows[from].presharedKey) == rows[from];
  }

  /** The kernel after the compensating calls of a failed rotation. */
  function RolledBack(c: Config, k: Peers, row: Peer, removeFails: bool): Peers {
    WithOld(c, if removeFails then k else k - {row.publicKey}, row)
  }

  lemma RestorableExactly(c: Config, k: Peers, row: Peer, removeFails: bool)
    ensures View(RolledBack(c, k, row, removeFails)) == View(k) <==> Restorable(c, k, row, removeFails)
  {
    hide RowNets, RowPsk;
    var key := row.publicKey;
    var k' := RolledBack(c, k, row, removeFails);
    assert forall x :: x != key ==> At(k', x) == At(k, x);
    if Restorable(c, k, row, removeFails) {
      assert removeFails ==> k[key].allowed + RowNets(c, row) == k[key].allowed;
      assert View(k')[key] == View(k)[key];
      forall x ensures At(View(k'), x) == At(View(k), x) {
        assert At(k', x).Some? <==> At(k, x).Some?;
      }
      SameMap(View(k'), View(k));
    } else if key in k {
      assert removeFails ==> (k[key].allowed + RowNets(c, row) == k[key].allowed ==> RowNets(c, row) <= k[key].allowed);
      assert View(k')[key] != View(k)[key];
    } else {
      assert key in View(k') && key !in View(k);
    }
  }

  /** The peer of a disabled row is not in the kernel; a failed rotation whose rollback succeeds puts it there. */
  lemma RollbackRevives(c: Config, k: Peers, row: Peer, removeFails: bool)
    requires row.publicKey !in k
    ensures row.publicKey in RolledBack(c, k, row, removeFails)
    ensures View(RolledBack(c, k, row, removeFails)) != View(k)
  {
    hide RolledBack;
    RestorableExactly(c, k, row, removeFails);
    RolledBackHas(c, k, row, removeFails);
  }

  lemma RolledBackHas(c: Config, k: Peers, row: Peer, removeFails: bool)
    ensures row.publicKey in RolledBack(c, k, row, removeFails)
  {
  }

  lemma NothingRecorded(rows: map<string, Peer>, key: string, newKey: string, newPsk: string, f: RotateFaults)
    requires key in rows && f.addNew
    ensures RotatedRows(rows, key, newKey, newPsk, f) == rows
  {
  }

  lemma RotatedWhole(rows: map<string, Peer>, key: string, newKey: string, newPsk: string, f: RotateFaults)
    requires key in rows && !RotationFails(rows[key], f)
    ensures RotatedRows(rows, key, newKey, newPsk, f) == Rotated(rows, key, newKey, newPsk)
    ensures Rotated(rows, key, newKey, newPsk) == (rows - {key})[newKey := rows[key].(
      publicKey := newKey, presharedKey := if rows[key].presharedKey != "" then newPsk else "")]
  {
  }

  /** A failed rotation undone in the kernel: it is as before exactly if it held what the row says. */
  lemma RotationRestores(
    c: Config, k: Peers, rows: map<string, Peer>, key: string, newKey: string, newPsk: string, f: RotateFaults)
    requires key in rows && rows[key].publicKey == key && c.ps.validKey(key) && newKey !in k
    requires RotationFails(rows[key], f) && !f.undoRemove && !f.undoAdd
    ensures View(RotatedKernel(c, k, rows, key, newKey, newPsk, f)) == View(k) <==>
            Restorable(c, k, rows[key], f.removeOld)
  {
    hide View, Restorable, WithOld, NewKeyConfig;
    RestorableExactly(c, k, rows[key], f.removeOld);
    NewKeyName(c, rows[key], newKey, newPsk);
    AddThenRemove(if f.removeOld then k else k - {key}, NewKeyConfig(c, rows[key], newKey, newPsk));
  }

  lemma NewKeyName(c: Config, row: Peer, newKey: string, newPsk: string)
    ensures NewKeyConfig(c, row, newKey, newPsk).key == newKey
  {
  }

  lemma AddThenRemove(k: Peers, c: PeerConfig)
    requires c.key !in k
    ensures Configure(k, c) - {c.key} == k
  {
  }

  // ---------------------------------------------------------------- the handlers

  class Handlers {
    const c: Config
    var kernel: Peers
    var rows: map<string, Peer>
    var conf: string
    var table: Table

    constructor (c: Config, kernel: Peers, rows: map<string, Peer>, conf: string, table: Table)
      ensures this.c == c && this.kernel == kernel && this.rows == rows && this.conf == conf && this.table == table
    {
      this.c, this.kernel, this.rows, this.conf, this.table := c, kernel, rows, conf, table;
    }

    /** What the firewall must be in step with, and the firewall. */
    function Ledger(): Books
      reads this
    {
      Books(rows, table)
    }

    /** rewriteConf replaces the file by rename: on failure the old file stays. */
    method RewriteConf(fails: bool) returns (ok: bool)
      modifies this`conf
      ensures ok <==> !fails
      ensures conf == if fails then old(conf) else c.render(old(conf), rows)
    {
      if !fails {
        conf := c.render(conf, rows);
      }
      ok := !fails;
    }

    /**
     * One peer. Success does everything; a failure whose compensating calls succeed leaves rows, conf
     * and kernel as they were, and restores the very firewall table.
     */
    method CreatePeer(req: Peer, f: CreateFaults) returns (r: Outcome)
      requires FreshKeys(kernel, rows, [req])
      modifies this
      ensures r == Rejected <==> !Insertable(old(rows), NewRow(c, req))
      ensures r == Rejected ==>
        kernel == old(kernel) && rows == old(rows) && conf == old(conf) && table == old(table)
      ensures r == Failed <==> r != Rejected && (f.kernel || f.insert || f.conf)
      ensures r == Done ==>
        && kernel == Configure(old(kernel), NewConfig(c, req))
        && rows == old(rows)[req.publicKey := NewRow(c, req)] && RowFrom(c, rows[req.publicKey], req)
        && conf == c.render(old(conf), rows)
        && table == ApplyT(c.e, old(table), TempPeer(req))
      ensures r == Failed ==> conf == old(conf)
      ensures r == Failed && f.undoRow == {} ==> rows == old(rows)
      ensures r == Failed && f.undoKernel == {} ==> kernel == old(kernel)
      ensures r == Failed && old(RoomFor(c.e, table, [req])) ==> table == old(table)
      ensures kernel == CreatedKernel(c, old(kernel), old(rows), req, f)
      ensures Ledger() == Created(c, old(Ledger()), req, f)
      ensures InStepUnlessBreak(c, old(Ledger()), Act.Create(req, f), Ledger())
    {
      hide NewRow, NewConfig, ApplyT, RemoveT, Configure, RoomFor, FreshKeys, Insertable, TempPeer, InStepUnlessBreak;
      hide RowFrom;
      FreshOne(kernel, rows, req);
      Judged(c, Ledger(), Act.Create(req, f));
      ghost var t0 := table;
      var row, temp := NewRow(c, req), TempPeer(req);
      NewRowKey(c, req);
      NewRowFrom(c, req);
      AddThenRemove(kernel, NewConfig(c, req));
      r := Rejected;
      // IsClientAddressTaken, before anything happens
      if Insertable(rows, row) {
        table := ApplyT(c.e, table, temp);
        var written := ConfigureInsertWrite(req, row, f);
        r := if written then Done else Failed;
        if !written {
          if RoomFor(c.e, t0, [req]) {
            UndoOne(c.e, t0, req);
          }
          var key := req.publicKey;
          UndoCreation(key, temp, !f.kernel && !f.insert && key !in f.undoRow, !f.kernel && key !in f.undoKernel);
        }
      }
    }

    /** The forward calls of a creation, up to the first that fails. */
    method ConfigureInsertWrite(req: Peer, row: Peer, f: CreateFaults) returns (written: bool)
      modifies this`kernel, this`rows, this`conf
      ensures written <==> !f.kernel && !f.insert && !f.conf
      ensures kernel == if f.kernel then old(kernel) else Configure(old(kernel), NewConfig(c, req))
      ensures rows == if f.kernel || f.insert then old(rows) else old(rows)[req.publicKey := row]
      ensures conf == if written then c.render(old(conf), rows) else old(conf)
    {
      hide Configure, NewConfig;
      written := false;
      if !f.kernel {
        kernel := Configure(kernel, NewConfig(c, req));
        if !f.insert {
          rows := rows[req.publicKey := row];
          written := RewriteConf(f.conf);
        }
      }
    }

    /** The compensating calls, as far as they are made and succeed. */
    method UndoCreation(key: string, temp: Peer, dropRow: bool, dropEntry: bool)
      modifies this`kernel, this`rows, this`table
      ensures table == RemoveT(c.e, old(table), temp)
      ensures rows == if dropRow then old(rows) - {key} else old(rows)
      ensures kernel == if dropEntry then old(kernel) - {key} else old(kernel)
    {
      hide RemoveT;
      table := RemoveT(c.e, table, temp);
      if dropRow {
        rows := rows - {key};
      }
      if dropEntry {
        kernel := kernel - {key};
      }
    }

    /**
     * Many peers: one kernel call, one transaction, one conf write. The same atomicity, for any number
     * of peers; the insertion also fails when two requests ask for one address.
     */
    method BatchCreatePeers(reqs: seq<Peer>, f: CreateFaults) returns (r: Outcome)
      requires FreshKeys(kernel, rows, reqs)
      modifies this
      ensures r == Done ==>
        && InsertAll(old(rows), NewRows(c, reqs)) == Some(rows)
        && rows.Keys == old(rows).Keys + Keys(reqs)
        && (forall r :: r in reqs ==> RowFrom(c, rows[r.publicKey], r))
        && (forall k :: k in old(rows) ==> rows[k] == old(rows)[k])
        && kernel == ConfigureAll(old(kernel), NewConfigs(c, reqs))
        && conf == c.render(old(conf), rows)
        && table == ApplyAll(c.e, old(table), TempPeers(reqs))
      ensures r == Rejected ==> reqs == [] && kernel == old(kernel) && rows == old(rows) && table == old(table)
      ensures r == Done ==> !f.kernel && !f.insert && !f.conf
      ensures r == Failed ==> f.kernel || f.insert || f.conf || InsertAll(old(rows), NewRows(c, reqs)).None?
      ensures r != Done ==> conf == old(conf)
      ensures r == Failed && f.undoRow == {} ==> rows == old(rows)
      ensures r == Failed && f.undoKernel == {} ==> kernel == old(kernel)
      ensures r == Failed && old(RoomFor(c.e, table, reqs)) ==> table == old(table)
      ensures kernel == BatchKernel(c, old(kernel), old(rows), reqs, f)
      ensures Ledger() == BatchCreated(c, old(Ledger()), reqs, f)
      ensures InStepUnlessBreak(c, old(Ledger()), Act.Batch(reqs, f), Ledger())
    {
      hide NewRows, NewConfigs, TempPeers, Keys, ApplyAll, RemoveAll, RoomFor, InsertAll, ConfigureAll, FreshKeys;
      hide InStepUnlessBreak, RowFrom;
      Judged(c, Ledger(), Act.Batch(reqs, f));
      r := Rejected;
      if reqs != [] {
        ghost var t0 := table;
        var temps, configs, newRows := TempPeers(reqs), NewConfigs(c, reqs), NewRows(c, reqs);
        BatchUndone(c, kernel, rows, reqs);
        BatchRows(c, rows, reqs);
        table := ApplyEach(temps);
        var written, inserted := ConfigureInsertWriteAll(configs, newRows, f);
        r := if written then Done else Failed;
        if !written {
          if RoomFor(c.e, t0, reqs) {
            UndoBatch(c.e, t0, reqs);
          }
          UndoBatchCreation(Keys(newRows), temps, !f.kernel, inserted, f);
        }
      }
    }

    method ConfigureInsertWriteAll(configs: seq<PeerConfig>, newRows: seq<Peer>, f: CreateFaults)
      returns (written: bool, inserted: bool)
      modifies this`kernel, this`rows, this`conf
      ensures inserted <==> !f.kernel && !f.insert && InsertAll(old(rows), newRows).Some?
      ensures written <==> inserted && !f.conf
      ensures kernel == if f.kernel then old(kernel) else ConfigureAll(old(kernel), configs)
      ensures rows == if inserted then InsertAll(old(rows), newRows).value else old(rows)
      ensures conf == if written then c.render(old(conf), rows) else old(conf)
    {
      hide ConfigureAll, InsertAll;
      written, inserted := false, false;
      if !f.kernel {
        kernel := ConfigureAll(kernel, configs);
        var all := InsertAll(rows, newRows);
        if !f.insert && all.Some? {
          inserted := true;
          rows := all.value;
          written := RewriteConf(f.conf);
        }
      }
    }

    method UndoBatchCreation(
      keys: set<string>, temps: seq<Peer>, inKernel: bool, inRows: bool, f: CreateFaults)
      modifies this`kernel, this`rows, this`table
      ensures table == RemoveAll(c.e, old(table), temps)
      ensures rows == if inRows then old(rows) - (keys - f.undoRow) else old(rows)
      ensures kernel == if inKernel then old(kernel) - (keys - f.undoKernel) else old(kernel)
    {
      hide RemoveAll;
      if inRows {
        rows := rows - (keys - f.undoRow);
      }
      table := RemoveEach(temps);
      if inKernel {
        kernel := kernel - (keys - f.undoKernel);
      }
    }

    method ApplyEach(peers: seq<Peer>) returns (t: Table)
      ensures t == ApplyAll(c.e, table, peers)
    {
      hide ApplyT;
      t := table;
      for i := 0 to |peers|
        invariant ApplyAll(c.e, t, peers[i..]) == ApplyAll(c.e, table, peers)
      {
        assert peers[i..][1..] == peers[i + 1..];
        t := ApplyT(c.e, t, peers[i]);
      }
    }

    method RemoveEach(peers: seq<Peer>) returns (t: Table)
      ensures t == RemoveAll(c.e, table, peers)
    {
      hide RemoveT;
      t := table;
      for i := 0 to |peers|
        invariant RemoveAll(c.e, t, peers[i..]) == RemoveAll(c.e, table, peers)
      {
        assert peers[i..][1..] == peers[i + 1..];
        t := RemoveT(c.e, t, peers[i]);
      }
    }

    /**
     * Rotation, with any of its calls and of the four compensating ones failing. After a failure the conf is as
     * before; so are the rows when their two compensating calls succeed, and, when the kernel's two do, the
     * kernel exactly if it held what the row says (chains, endpoint and keepalive are not restored).
     */
    method RotateKeys(key: string, newKey: string, newPsk: string, f: RotateFaults) returns (r: Outcome)
      requires newKey !in kernel && newKey !in rows && newKey != key
      requires key in rows ==> rows[key].publicKey == key
      modifies this
      ensures r == Rejected <==> key !in old(rows) || !c.ps.validKey(key)
      ensures r == Rejected ==> kernel == old(kernel) && rows == old(rows) && conf == old(conf) && table == old(table)
      ensures r == Done ==>
        && rows == Rotated(old(rows), key, newKey, newPsk)
        && rows == (old(rows) - {key})[newKey := old(rows[key]).(
             publicKey := newKey, presharedKey := if old(rows[key]).presharedKey != "" then newPsk else "")]
        && conf == c.render(old(conf), rows)
        && newKey in kernel && (!f.removeOld ==> key !in kernel)
        && table == ApplyT(c.e, RemoveT(c.e, old(table), old(rows[key])), old(rows[key]).(publicKey := newKey))
      ensures r == Failed ==> table == RemoveT(c.e, old(table), old(rows[key]))
      ensures Ledger() == RotatedBooks(c, old(Ledger()), key, newKey, newPsk, f)
      ensures InStepUnlessBreak(c, old(Ledger()), Act.Rotate(key, newKey, newPsk, f), Ledger())
      ensures r != Rejected ==> (r == Failed <==> RotationFails(old(rows[key]), f))
      ensures r == Failed ==> conf == old(conf)
      ensures r == Failed && !f.undoKey && !f.undoPsk ==> rows == old(rows)
      ensures kernel == RotatedKernel(c, old(kernel), old(rows), key, newKey, newPsk, f)
      ensures r == Failed && !f.undoRemove && !f.undoAdd ==>
        (View(kernel) == View(old(kernel)) <==> Restorable(c, old(kernel), old(rows[key]), f.removeOld))
    {
      hide ApplyT, RemoveT, View, Restorable, Rotated, RotatedRows, RotationFails, InStepUnlessBreak;
      hide Configure, NewKeyConfig, WithOld;
      Judged(c, Ledger(), Act.Rotate(key, newKey, newPsk, f));
      r := Rejected;
      if key in rows && c.ps.validKey(key) {
        var row := rows[key];
        if !RotationFails(row, f) {
          RotatedWhole(rows, key, newKey, newPsk, f);
        } else if !f.undoRemove && !f.undoAdd {
          RotationRestores(c, kernel, rows, key, newKey, newPsk, f);
        }
        table := RemoveT(c.e, table, row);
        var replaced := ReplaceKey(key, newKey, newPsk, f);
        r := Failed;
        if replaced {
          table := ApplyT(c.e, table, row.(publicKey := newKey));
          r := Done;
        }
      }
    }

    /** The new key in kernel, rows and conf; each failure undoes the earlier steps as far as that goes. */
    method ReplaceKey(key: string, newKey: string, newPsk: string, f: RotateFaults) returns (ok: bool)
      requires key in rows && rows[key].publicKey == key && c.ps.validKey(key)
      requires newKey !in kernel && newKey !in rows && newKey != key
      modifies this`kernel, this`rows, this`conf
      ensures ok <==> !RotationFails(old(rows[key]), f)
      ensures kernel == RotatedKernel(c, old(kernel), old(rows), key, newKey, newPsk, f)
      ensures ok ==> newKey in kernel && (!f.removeOld ==> key !in kernel)
      ensures rows == RotatedRows(old(rows), key, newKey, newPsk, f)
      ensures !ok && !f.undoKey && !f.undoPsk ==> rows == old(rows)
      ensures conf == if ok then c.render(old(conf), rows) else old(conf)
    {
      hide Configure, WithOld, RowNets, RotatedRows;
      var row := rows[key];
      if !f.removeOld {
        kernel := kernel - {key};
      }
      ok := false;
      if f.addNew {
        NothingRecorded(rows, key, newKey, newPsk, f);
        AddOldBack(row, f.undoAdd);
      } else {
        var newCfg := NewKeyConfig(c, row, newKey, newPsk);
        ConfiguredIsThere(kernel, newCfg);
        kernel := Configure(kernel, newCfg);
        ok := RecordRotation(key, newKey, newPsk, f);
        if !ok {
          if !f.undoRemove {
            kernel := kernel - {newKey};
          }
          AddOldBack(row, f.undoAdd);
        }
      }
    }

    /** The database and conf steps of a rotation, undone in the database, as far as that goes, when one fails. */
    method RecordRotation(key: string, newKey: string, newPsk: string, f: RotateFaults) returns (ok: bool)
      requires key in rows && newKey !in rows && rows[key].publicKey == key && !f.addNew
      modifies this`rows, this`conf
      ensures !ok <==> RotationFails(old(rows[key]), f)
      ensures rows == RotatedRows(old(rows), key, newKey, newPsk, f)
      ensures conf == if ok then c.render(old(conf), rows) else old(conf)
      ensures !ok && !f.undoKey && !f.undoPsk ==> rows == old(rows)
    {
      hide Renamed;
      ghost var r0 := rows;
      var oldPsk := rows[key].presharedKey;
      RenameBack(rows, key, newKey);
      ok := false;
      if !f.updateKey {
        rows := Renamed(rows, key, newKey);
        if oldPsk != "" && f.updatePsk {
          RestoreRow(newKey, key, f.undoKey);
        } else {
          if oldPsk != "" {
            rows := rows[newKey := rows[newKey].(presharedKey := newPsk)];
          }
          PskBack(r0, key, newKey, rows[newKey].presharedKey);
          ok := RewriteConf(f.conf);
          if !ok {
            RestoreRow(newKey, key, f.undoKey);
            if key in rows && !f.undoPsk {
              rows := rows[key := rows[key].(presharedKey := oldPsk)];
            }
          }
        }
      }
    }

    /** The compensating rename. */
    method RestoreRow(newKey: string, key: string, fails: bool)
      requires newKey in rows
      modifies this`rows
      ensures rows == if fails then old(rows) else Renamed(old(rows), newKey, key)
    {
      hide Renamed;
      if !fails {
        rows := Renamed(rows, newKey, key);
      }
    }

    method AddOldBack(row: Peer, fails: bool)
      modifies this`kernel
      ensures kernel == if fails then old(kernel) else WithOld(c, old(kernel), row)
    {
      hide WithOld;
      if !fails {
        kernel := WithOld(c, kernel, row);
      }
    }

    /**
     * UpdatePeer: the kernel first, then the row, then the firewall when a column it depends on is in the
     * request. A change of address takes the old jump away first. What comes after the network call, a malformed
     * setting or a failing statement, leaves the kernel changed; a row that cannot be read back gets no rules.
     */
    method UpdatePeer(key: string, req: PeerUpdate, profile: bool, f: UpdateFaults) returns (r: Outcome)
      requires key in rows && rows[key].publicKey == key
      requires req.allowedIPs.None? && req.presharedKey.None?
      modifies this`kernel, this`rows, this`table
      ensures r == Done <==> Saved(c, old(rows), key, req, f)
      ensures r == Rejected <==>
        UpdateRejected(c, old(rows), key, req) || (PastNetwork(c, old(rows), key, req, f) && Malformed(c, req))
      ensures r != Done ==> Ledger() == old(Ledger())
      ensures r == Done ==>
        && (req.endpoint.Some? && req.endpoint.value != "" ==> c.validEndpoint(req.endpoint.value))
        && (req.keepalive.Some? && req.keepalive.value.Some? ==> 0 <= req.keepalive.value.value <= 65535)
      ensures r == Done ==>
        && key in rows
        && Shows(rows[key], old(rows[key]),
                 if Moves(old(rows[key]), req) then req.(allowedIPs := Some(c.serverIPs(req.clientAddress.value)))
                 else req)
        && rows == old(rows)[key := rows[key]]
      ensures !PastNetwork(c, old(rows), key, req, f) ==> kernel == old(kernel)
      ensures PastNetwork(c, old(rows), key, req, f) && Malformed(c, req) && Moves(old(rows[key]), req) ==>
        kernel == Configure(old(kernel), NetworkConfig(c, key, req.clientAddress.value))
      ensures kernel == UpdatedKernel(c, old(kernel), old(rows), key, req, f)
      ensures Ledger() == UpdatedBooks(c, old(Ledger()), key, req, profile, f)
      ensures InStepUnlessBreak(c, old(Ledger()), Act.Update(key, req, profile, f), Ledger())
    {
      hide ApplyT, RemoveT, Edited, AddressFree, Configure, NetworkConfig, SettingsConfig, Malformed;
      hide InStepUnlessBreak, Shows;
      Judged(c, Ledger(), Act.Update(key, req, profile, f));
      EditedShows(c, rows[key], req);
      WellFormedIff(c, req);
      var taken := req.clientAddress.Some? && !AddressFree(rows, key, req.clientAddress.value);
      var moves := Moves(rows[key], req);
      r := Rejected;
      // clearing the address leaves no network to configure: the handler dereferences nil and is aborted
      if !taken && (moves ==> c.ps.validKey(key) && req.clientAddress.value != "") {
        if moves && f.network {
          r := Failed;
        } else {
          if moves {
            kernel := Configure(kernel, NetworkConfig(c, key, req.clientAddress.value));
          }
          if !Malformed(c, req) && (AsksSettings(req) ==> c.ps.validKey(key)) {
            r := Failed;
            ConfigureSettings(key, req, f);
            if !f.update {
              SaveAndEnforce(key, req, profile, f.read);
              r := Done;
            }
          }
        }
      }
    }

    /** The kernel call for endpoint and keepalive, made when there is something to tell: its failure is only logged. */
    method ConfigureSettings(key: string, req: PeerUpdate, f: UpdateFaults)
      requires !Malformed(c, req)
      modifies this`kernel
      ensures kernel ==
        if SettingsSent(c, req, f) then Configure(old(kernel), SettingsConfig(c, key, req)) else old(kernel)
    {
      hide Configure, Malformed;
      if AsksSettings(req) {
        var cfg := SettingsConfig(c, key, req);
        if (cfg.endpoint.Some? || cfg.keepalive.Some?) && !f.settings {
          kernel := Configure(kernel, cfg);
        }
      }
    }

    /** The statement, and the firewall calls after it. */
    method SaveAndEnforce(key: string, req: PeerUpdate, profile: bool, readFails: bool)
      requires key in rows
      modifies this`rows, this`table
      ensures var was := old(rows[key]);
        var row := Edited(c, was, req);
        var cleared := if Moves(was, req) then RemoveT(c.e, old(table), was) else old(table);
        && rows == old(rows)[key := row]
        && table ==
             if !Relevant(req, profile) then old(table) else if readFails then cleared else ApplyT(c.e, cleared, row)
    {
      hide ApplyT, RemoveT, Updated;
      var existing := rows[key];
      var moves := Moves(existing, req);
      var u := req;
      if moves {
        u := u.(allowedIPs := Some(c.serverIPs(req.clientAddress.value)));
      }
      rows := rows[key := Updated(existing, u)];
      if Relevant(req, profile) {
        if moves {
          table := RemoveT(c.e, table, existing);
        }
        if !readFails {
          table := ApplyT(c.e, table, rows[key]);
        }
      }
    }

    /**
     * ApprovePeer: a discovered, disabled peer is filled in and enabled by two statements, given to the kernel,
     * and its rules applied. A failure after the first statement leaves an enabled row without rules.
     */
    method ApprovePeer(key: string, req: PeerUpdate, f: ApproveFaults) returns (r: Outcome)
      requires key in rows ==> rows[key].publicKey == key
      modifies this`kernel, this`rows, this`table
      ensures r == Rejected <==> ApprovalRejected(c, old(rows), key, req)
      ensures r == Rejected || f.update ==> kernel == old(kernel) && Ledger() == old(Ledger())
      ensures r == Done <==> r != Rejected && !f.update && !ApprovalBreaksOff(c, key, f)
      ensures r == Done && key in rows && key in old(rows) && req.clientAddress.Some? ==>
        && !rows[key].autoDiscovered
        && Shows(rows[key].(autoDiscovered := true), old(rows[key]),
                 req.(enabled := Some(true), allowedIPs := Some(c.serverIPs(req.clientAddress.value))))
        && rows[key].enabled && rows[key].clientAddress == req.clientAddress.value
      ensures r == Failed ==> table == old(table)
      ensures kernel == ApprovedKernel(c, old(kernel), old(rows), key, req, f)
      ensures Ledger() == ApprovedBooks(c, old(Ledger()), key, req, f)
      ensures InStepUnlessBreak(c, old(Ledger()), Act.Approve(key, req, f), Ledger())
    {
      hide ApplyT, Configure, ApprovalRejected, Onboarded, InStepUnlessBreak, Shows;
      Judged(c, Ledger(), Act.Approve(key, req, f));
      r := Rejected;
      if !ApprovalRejected(c, rows, key, req) {
        ApprovableRow(c, rows, key, req);
        OnboardedRow(c, rows[key], req);
        OnboardedShows(c, rows[key], req);
        r := Failed;
        if !f.update {
          var row := Onboarded(c, rows[key], req);
          rows := rows[key := row];
          if !f.approve {
            row := row.(enabled := true, autoDiscovered := false);
            rows := rows[key := row];
            if c.ps.validKey(key) {
              ConfigureApproved(key, req, f.kernel);
              if !f.read {
                table := ApplyT(c.e, table, row);
                r := Done;
              }
            }
          }
        }
      }
    }

    /** The kernel call of an approval: its failure is only logged. */
    method ConfigureApproved(key: string, req: PeerUpdate, fails: bool)
      requires req.clientAddress.Some?
      modifies this`kernel
      ensures kernel == if fails then old(kernel) else Configure(old(kernel), PeerConfig(
        key, {c.serverNet(req.clientAddress.value)}, None, AskedEndpoint(c, req), AskedKeepalive(req), true))
    {
      hide Configure;
      if !fails {
        kernel := Configure(kernel, PeerConfig(
          key, {c.serverNet(req.clientAddress.value)}, None, AskedEndpoint(c, req), AskedKeepalive(req), true));
      }
    }

    /** Deletion: the row goes, and with it the peer's rules, whatever the kernel call does. */
    method DeletePeer(key: string, kernelFails: bool, dbFails: bool) returns (ok: bool)
      requires key in rows ==> rows[key].publicKey == key
      modifies this
      ensures ok <==> key in old(rows) && c.ps.validKey(key) && !dbFails
      ensures conf == old(conf)
      ensures rows == if ok then old(rows) - {key} else old(rows)
      ensures kernel == DeletedKernel(c, old(kernel), old(rows), key, kernelFails)
      ensures ok && !kernelFails ==> key !in kernel
      ensures ok && old(InStep(c.e, table, rows)) ==> InStep(c.e, table, rows)
      ensures !ok ==> table == old(table)
      ensures Ledger() == DeletedBooks(c, old(Ledger()), key, dbFails)
    {
      hide InStep, RemoveT;
      if key !in rows || !c.ps.validKey(key) {
        return false;
      }
      var row := rows[key];
      if !kernelFails {
        kernel := kernel - {key};
      }
      if dbFails {
        return false;
      }
      ghost var r0 := rows;
      rows := rows - {key};
      if InStep(c.e, table, r0) {
        RemoveInStep(c.e, table, r0, key);
      }
      table := RemoveT(c.e, table, row);
      ok := true;
    }
  }

  lemma WellFormedIff(c: Config, req: PeerUpdate)
    ensures !Malformed(c, req) <==>
      && (req.endpoint.Some? && req.endpoint.value != "" ==> c.validEndpoint(req.endpoint.value))
      && (req.keepalive.Some? && req.keepalive.value.Some? ==> 0 <= req.keepalive.value.value <= 65535)
  {
  }

  lemma EditedShows(c: Config, row: Peer, req: PeerUpdate)
    ensures Shows(Edited(c, row, req), row,
                  if Moves(row, req) then req.(allowedIPs := Some(c.serverIPs(req.clientAddress.value))) else req)
  {
  }

  lemma OnboardedShows(c: Config, row: Peer, req: PeerUpdate)
    requires req.clientAddress.Some? && row.autoDiscovered
    ensures var p := Onboarded(c, row, req).(enabled := true, autoDiscovered := false);
      Shows(p.(autoDiscovered := true), row,
            req.(enabled := Some(true), allowedIPs := Some(c.serverIPs(req.clientAddress.value))))
  {
  }

  lemma ConfiguredIsThere(k: Peers, cfg: PeerConfig)
    ensures cfg.key in Configure(k, cfg)
    ensures forall x :: x != cfg.key ==> (x in Configure(k, cfg) <==> x in k)
  {
  }

  lemma NewRowKey(c: Config, req: Peer)
    ensures NewRow(c, req).publicKey == req.publicKey && NewConfig(c, req).key == req.publicKey
  {
  }

  lemma FreshOne(kernel: Peers, rows: map<string, Peer>, req: Peer)
    requires FreshKeys(kernel, rows, [req])
    ensures req.publicKey !in kernel && req.publicKey !in rows
  {
    assert req in [req];
  }

  lemma UndoOne(e: Env, t: Table, req: Peer)
    requires RoomFor(e, t, [req])
    ensures RemoveT(e, ApplyT(e, t, TempPeer(req)), TempPeer(req)) == t
  {
    hide ApplyT, RemoveT, Ready, Unused, ChainName;
    assert req in [req];
    UndoFirst(e, t, TempPeer(req), []);
  }

  lemma UndoBatch(e: Env, t: Table, reqs: seq<Peer>)
    requires RoomFor(e, t, reqs)
    ensures RemoveAll(e, ApplyAll(e, t, TempPeers(reqs)), TempPeers(reqs)) == t
  {
    hide ApplyT, RemoveT, Unused, ChainName, DistinctChains, Wired;
    forall p | p in TempPeers(reqs) ensures p.enabled && Unused(e, t, Chain(p)) {
      var i :| 0 <= i < |reqs| && p == TempPeer(reqs[i]);
      assert reqs[i] in reqs;
    }
    UndoAll(e, t, TempPeers(reqs));
  }

  lemma BatchKeys(c: Config, reqs: seq<Peer>)
    ensures Keys(NewRows(c, reqs)) == Keys(reqs)
    ensures forall cfg :: cfg in NewConfigs(c, reqs) ==> cfg.key in Keys(reqs)
  {
    forall k | k in Keys(reqs) ensures k in Keys(NewRows(c, reqs)) {
      var i :| 0 <= i < |reqs| && reqs[i].publicKey == k;
      assert NewRows(c, reqs)[i].publicKey == k;
    }
    forall k | k in Keys(NewRows(c, reqs)) ensures k in Keys(reqs) {
      var i :| 0 <= i < |reqs| && NewRows(c, reqs)[i].publicKey == k;
      assert reqs[i] in reqs;
    }
    forall cfg | cfg in NewConfigs(c, reqs) ensures cfg.key in Keys(reqs) {
      var i :| 0 <= i < |reqs| && cfg == NewConfig(c, reqs[i]);
      assert reqs[i] in reqs;
    }
  }

  /** The rows after a batch: the old ones, and one for each request. */
  lemma BatchRows(c: Config, rows: map<string, Peer>, reqs: seq<Peer>)
    ensures InsertAll(rows, NewRows(c, reqs)).Some? ==> var rows' := InsertAll(rows, NewRows(c, reqs)).value;
      && rows'.Keys == rows.Keys + Keys(reqs)
      && (forall r :: r in reqs ==> r.publicKey in rows' && RowFrom(c, rows'[r.publicKey], r))
      && (forall k :: k in rows ==> rows'[k] == rows[k])
  {
    hide InsertAll, NewRow, NewRows, Keys, RowFrom;
    var newRows := NewRows(c, reqs);
    InsertAllRows(rows, newRows);
    BatchKeys(c, reqs);
    if InsertAll(rows, newRows).Some? {
      forall r | r in reqs
        ensures r.publicKey in InsertAll(rows, newRows).value
        ensures RowFrom(c, InsertAll(rows, newRows).value[r.publicKey], r)
      {
        var i :| 0 <= i < |reqs| && reqs[i] == r;
        NewRowAt(c, reqs, i);
        NewRowFrom(c, r);
        assert newRows[i] in newRows;
        KeyOf(newRows, newRows[i]);
      }
    }
  }

  lemma NewRowAt(c: Config, reqs: seq<Peer>, i: nat)
    requires i < |reqs|
    ensures |NewRows(c, reqs)| == |reqs| && NewRows(c, reqs)[i] == NewRow(c, reqs[i])
    ensures NewRow(c, reqs[i]).publicKey == reqs[i].publicKey
  {
  }

  lemma KeyOf(ps: seq<Peer>, p: Peer)
    requires p in ps
    ensures p.publicKey in Keys(ps)
  {
  }

  /** Taking away all that a batch added. */
  lemma BatchUndone(c: Config, k: Peers, rows: map<string, Peer>, reqs: seq<Peer>)
    requires FreshKeys(k, rows, reqs)
    ensures ConfigureAll(k, NewConfigs(c, reqs)) - Keys(NewRows(c, reqs)) == k
    ensures InsertAll(rows, NewRows(c, reqs)).Some? ==>
      InsertAll(rows, NewRows(c, reqs)).value - Keys(NewRows(c, reqs)) == rows
    ensures Keys(NewRows(c, reqs)) - {} == Keys(NewRows(c, reqs))
  {
    hide ConfigureAll, NewConfigs, NewRows, InsertAll, Keys, FreshKeys;
    OnlyNewKeys(c, k, ConfigureAll(k, NewConfigs(c, reqs)), rows, reqs);
    InsertUndone(rows, NewRows(c, reqs));
  }

  lemma OnlyNewKeys(c: Config, k0: Peers, k1: Peers, rows: map<string, Peer>, reqs: seq<Peer>)
    requires k1 == ConfigureAll(k0, NewConfigs(c, reqs)) && FreshKeys(k0, rows, reqs)
    ensures k1 - Keys(NewRows(c, reqs)) == k0
  {
    hide ConfigureAll, NewConfigs, NewRows;
    BatchKeys(c, reqs);
    ConfigureAllKeys(k0, NewConfigs(c, reqs));
    forall k ensures At(k1 - Keys(reqs), k) == At(k0, k) {
      assert k !in Keys(reqs) ==> At(k1, k) == At(k0, k);
    }
    SameMap(k1 - Keys(reqs), k0);
  }
}
