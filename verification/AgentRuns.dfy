/** Whole runs of the agent, with any failures: exactly which requests put rules and rows out of step. */
module AgentRuns {
  import opened Text
  import opened Storage
  import opened Iptables
  import opened Firewall
  import opened FirewallEffects
  import opened FirewallMeaning
  import opened FirewallTheorems
  import FirewallRuns
  import opened Kernel
  import opened PeersTable
  import opened Reconciler
  import opened ReconcilePass
  import opened Requests
  import opened RowsInStep

  /** A request with the failures it meets, or a pass with the kernel it finds and the rows it goes over. */
  datatype Act =
    | Create(creation: Peer, createFaults: CreateFaults)
    | Batch(creations: seq<Peer>, batchFaults: CreateFaults)
    | Rotate(key: string, newKey: string, newPsk: string, rotateFaults: RotateFaults)
    | Update(key: string, update: PeerUpdate, profile: bool, updateFaults: UpdateFaults)
    | Approve(key: string, approval: PeerUpdate, approveFaults: ApproveFaults)
    | Delete(key: string, kernelFails: bool, dbFails: bool)
    | Pass(kernel: Peers, faults: Faults, touched: seq<string>)

  function WithKey(p: Peer, key: string): Peer {
    p.(publicKey := key)
  }

  /** Generated keys are new and have chain names of their own, as have the peers a pass discovers. */
  ghost predicate Sensible(b: Books, a: Act) {
    match a
    case Create(req, _) => req.publicKey !in b.rows && NewChain(b.rows, TempPeer(req))
    case Batch(reqs, _) =>
      && (forall r :: r in reqs ==> r.publicKey !in b.rows)
      && (forall i, j :: 0 <= i < j < |reqs| ==> reqs[i].publicKey != reqs[j].publicKey)
      && NewChains(RowSet(b.rows), TempPeers(reqs))
    case Rotate(key, newKey, _, _) =>
      newKey !in b.rows && (key in b.rows ==> NewChain(b.rows, WithKey(b.rows[key], newKey)))
    case Update(key, req, _, _) => key in b.rows && req.allowedIPs.None? && req.presharedKey.None?
    case Approve(_, _, _) => true
    case Delete(_, _, _) => true
    case Pass(kernel, f, _) => OwnChains(RowsAfter(State(kernel, b.rows, {}), f))
  }

  function AfterAct(c: Config, b: Books, a: Act): Books
    requires a.Update? ==> a.key in b.rows
  {
    match a
    case Create(req, f) => Created(c, b, req, f)
    case Batch(reqs, f) => BatchCreated(c, b, reqs, f)
    case Rotate(key, newKey, newPsk, f) => RotatedBooks(c, b, key, newKey, newPsk, f)
    case Update(key, req, profile, f) => UpdatedBooks(c, b, key, req, profile, f)
    case Approve(key, req, f) => ApprovedBooks(c, b, key, req, f)
    case Delete(key, _, dbFails) => DeletedBooks(c, b, key, dbFails)
    case Pass(kernel, f, touched) =>
      Books(RowsAfter(State(kernel, b.rows, {}), f), Reapplied(c.e, b.table, b.rows, touched))
  }

  /**
   * What puts the rules out of step: a row in force that stays although its creation was undone, a failed
   * rotation of a peer in force, an approval that breaks off after its first statement, and an update whose
   * row cannot be read back, when that row needs other rules than the ones that are left.
   */
  predicate Breaks(c: Config, b: Books, a: Act) {
    match a
    case Create(req, f) =>
      && Insertable(b.rows, NewRow(c, req)) && !f.kernel && !f.insert && f.conf
      && req.publicKey in f.undoRow && Active(c.e, NewRow(c, req))
    case Batch(reqs, f) =>
      && !f.kernel && !f.insert && InsertAll(b.rows, NewRows(c, reqs)).Some? && f.conf
      && exists r :: r in reqs && r.publicKey in f.undoRow && Active(c.e, NewRow(c, r))
    case Rotate(key, _, _, f) =>
      key in b.rows && c.ps.validKey(key) && RotationFails(b.rows[key], f) && Active(c.e, b.rows[key])
    case Update(key, req, profile, f) =>
      && key in b.rows && Saved(c, b.rows, key, req, f) && Relevant(req, profile) && f.read
      && var was, row := b.rows[key], Edited(c, b.rows[key], req);
         if Moves(was, req) then Active(c.e, row) else !SameRules(c.e, was, row)
    case Approve(key, req, f) =>
      && !ApprovalRejected(c, b.rows, key, req) && ApprovalBreaksOff(c, key, f)
      && Active(c.e, Onboarded(c, b.rows[key], req))
    case _ => false
  }

  /** Rules and rows in step. */
  ghost predicate Settled(c: Config, b: Books) {
    InStep(c.e, b.table, b.rows)
  }

  // ---------------------------------------------------------------- creations

  lemma NewRowIsTemp(c: Config, req: Peer)
    ensures SameForce(TempPeer(req), NewRow(c, req)) && SameForce(NewRow(c, req), TempPeer(req))
    ensures Active(c.e, NewRow(c, req)) <==> Active(c.e, TempPeer(req))
    ensures Chain(NewRow(c, req)) == Chain(TempPeer(req)) && NewRow(c, req).publicKey == req.publicKey
  {
  }

  lemma InStepSynced(e: Env, t: Table, rows: Rows)
    requires InStep(e, t, rows)
    ensures Synced(e, t, RowSet(rows)) && OwnChains(rows)
  {
  }

  /** One new row, whose rules are there or not. */
  lemma OneNew(c: Config, t: Table, rows: Rows, key: string, row: Peer)
    requires Synced(c.e, t, RowSet(rows)) && OwnChains(rows) && key !in rows && NewChain(rows, row)
    ensures InStep(c.e, t, rows)
    ensures InStep(c.e, t, rows[key := row]) <==> !Active(c.e, row)
  {
    hide Synced, Active, ChainName;
    AddedRow(rows, key, row);
    NotThere(rows, row);
    Extras(c.e, t, RowSet(rows), rows);
    Extras(c.e, t, RowSet(rows), rows[key := row]);
  }

  lemma NotThere(rows: Rows, p: Peer)
    requires NewChain(rows, p)
    ensures p !in RowSet(rows) && forall q :: q in RowSet(rows) ==> Chain(q) != Chain(p)
  {
    hide ChainName;
  }

  lemma CreateIff(c: Config, b: Books, req: Peer, f: CreateFaults)
    requires Settled(c, b) && Sensible(b, Create(req, f))
    ensures InStep(c.e, Created(c, b, req, f).table, Created(c, b, req, f).rows) <==> !Breaks(c, b, Create(req, f))
  {
    hide Synced, Active, Chain, ApplyT, RemoveT, NewRow, TempPeer, Insertable, InStep;
    var row, temp := NewRow(c, req), TempPeer(req);
    InStepSynced(c.e, b.table, b.rows);
    NewRowIsTemp(c, req);
    NewInSet(b.rows, temp);
    NewApplied(c.e, b.table, RowSet(b.rows), temp);
    assert NewChain(b.rows, row);
    OneNew(c, RemoveT(c.e, ApplyT(c.e, b.table, temp), temp), b.rows, req.publicKey, row);
    NewFits(c, ApplyT(c.e, b.table, temp), b.rows, req);
  }

  lemma NewFits(c: Config, t: Table, rows: Rows, req: Peer)
    requires Synced(c.e, t, RowSet(rows) + {TempPeer(req)}) && OwnChains(rows)
    requires req.publicKey !in rows && NewChain(rows, NewRow(c, req))
    ensures InStep(c.e, t, rows[req.publicKey := NewRow(c, req)])
  {
    hide Synced, Active, Chain, NewRow, TempPeer, SameForce;
    var row, temp := NewRow(c, req), TempPeer(req);
    AddedRow(rows, req.publicKey, row);
    NewRowIsTemp(c, req);
    FirewallRuns.SameForceRefl(RowSet(rows));
    var more := rows[req.publicKey := row];
    forall p | p in RowSet(rows) + {temp} ensures exists q :: q in RowSet(more) && SameForce(p, q) {
      assert (if p in RowSet(rows) then p else row) in RowSet(more);
    }
    forall q | q in RowSet(more) ensures exists p :: p in RowSet(rows) + {temp} && SameForce(p, q) {
      assert (if q in RowSet(rows) then q else temp) in RowSet(rows) + {temp};
    }
    Fits(c.e, t, RowSet(rows) + {temp}, more);
  }

  // ---------------------------------------------------------------- batches

  /** The new rows among those of a batch whose removal fails, or all of them. */
  function Staying(c: Config, reqs: seq<Peer>, undo: set<string>): set<Peer> {
    set i | 0 <= i < |reqs| && reqs[i].publicKey in undo :: NewRow(c, reqs[i])
  }

  lemma NewKeys(c: Config, reqs: seq<Peer>, k: string)
    ensures k in Keys(NewRows(c, reqs)) <==> exists i :: 0 <= i < |reqs| && reqs[i].publicKey == k
    ensures |NewRows(c, reqs)| == |reqs| && forall i :: 0 <= i < |reqs| ==> NewRows(c, reqs)[i] == NewRow(c, reqs[i])
  {
    var rows := NewRows(c, reqs);
    forall i | 0 <= i < |reqs| ensures rows[i].publicKey == reqs[i].publicKey && rows[i] in rows {
    }
    if k in Keys(rows) {
      var p :| p in rows && p.publicKey == k;
      var i :| 0 <= i < |rows| && rows[i] == p;
      assert reqs[i].publicKey == k;
    }
  }

  /** Each row left by a batch is an old one or one of the new. */
  lemma BatchRow(c: Config, rows: Rows, reqs: seq<Peer>, undo: set<string>, k: string)
    requires InsertAll(rows, NewRows(c, reqs)).Some?
    requires forall i, j :: 0 <= i < j < |reqs| ==> reqs[i].publicKey != reqs[j].publicKey
    ensures var kept := InsertAll(rows, NewRows(c, reqs)).value - (Keys(NewRows(c, reqs)) - undo);
      && (k in rows ==> k in kept && kept[k] == rows[k])
      && (k in kept && k !in rows ==>
            exists i :: 0 <= i < |reqs| && reqs[i].publicKey == k && k in undo && kept[k] == NewRow(c, reqs[i]))
      && (forall i :: 0 <= i < |reqs| && reqs[i].publicKey == k && k in undo ==>
            k in kept && k !in rows && kept[k] == NewRow(c, reqs[i]))
  {
    hide InsertAll, NewRow, NewRows, Keys;
    var newRows := NewRows(c, reqs);
    InsertAllRows(rows, newRows);
    NewKeys(c, reqs, k);
    forall i | 0 <= i < |reqs| && reqs[i].publicKey == k
      ensures InsertAll(rows, newRows).value[k] == NewRow(c, reqs[i])
    {
      assert newRows[i] in newRows && newRows[i].publicKey == k by { NewRowIsTemp(c, reqs[i]); }
    }
  }

  lemma BatchSet(c: Config, rows: Rows, reqs: seq<Peer>, undo: set<string>)
    requires InsertAll(rows, NewRows(c, reqs)).Some?
    requires forall i, j :: 0 <= i < j < |reqs| ==> reqs[i].publicKey != reqs[j].publicKey
    ensures var kept := InsertAll(rows, NewRows(c, reqs)).value - (Keys(NewRows(c, reqs)) - undo);
      RowSet(kept) == RowSet(rows) + Staying(c, reqs, undo)
  {
    hide InsertAll, NewRow, NewRows, Keys;
    var kept := InsertAll(rows, NewRows(c, reqs)).value - (Keys(NewRows(c, reqs)) - undo);
    forall q | q in RowSet(kept) ensures q in RowSet(rows) + Staying(c, reqs, undo) {
      var k :| k in kept && kept[k] == q;
      BatchRow(c, rows, reqs, undo, k);
    }
    forall q | q in RowSet(rows) ensures q in RowSet(kept) {
      var k :| k in rows && rows[k] == q;
      BatchRow(c, rows, reqs, undo, k);
    }
    forall q | q in Staying(c, reqs, undo) ensures q in RowSet(kept) {
      var i :| 0 <= i < |reqs| && reqs[i].publicKey in undo && q == NewRow(c, reqs[i]);
      BatchRow(c, rows, reqs, undo, reqs[i].publicKey);
      assert kept[reqs[i].publicKey] == q;
    }
  }

  /** A new row of the batch has another chain than the old rows, and than the other new ones. */
  lemma BatchChains(c: Config, rows: Rows, reqs: seq<Peer>, i: nat)
    requires NewChains(RowSet(rows), TempPeers(reqs)) && i < |reqs|
    ensures forall k :: k in rows ==> Chain(rows[k]) != Chain(NewRow(c, reqs[i]))
    ensures forall j :: 0 <= j < |reqs| && j != i ==> Chain(NewRow(c, reqs[j])) != Chain(NewRow(c, reqs[i]))
  {
    hide Chain, NewRow, TempPeer;
    var temps := TempPeers(reqs);
    NewRowIsTemp(c, reqs[i]);
    assert temps[i] in temps;
    forall k | k in rows ensures Chain(rows[k]) != Chain(NewRow(c, reqs[i])) {
      assert rows[k] in RowSet(rows);
    }
    forall j | 0 <= j < |reqs| && j != i ensures Chain(NewRow(c, reqs[j])) != Chain(NewRow(c, reqs[i])) {
      NewRowIsTemp(c, reqs[j]);
      assert Chain(temps[if i < j then i else j]) != Chain(temps[if i < j then j else i]);
    }
  }

  lemma BatchOwn(c: Config, rows: Rows, reqs: seq<Peer>, undo: set<string>)
    requires OwnChains(rows) && InsertAll(rows, NewRows(c, reqs)).Some?
    requires forall i, j :: 0 <= i < j < |reqs| ==> reqs[i].publicKey != reqs[j].publicKey
    requires NewChains(RowSet(rows), TempPeers(reqs))
    ensures OwnChains(InsertAll(rows, NewRows(c, reqs)).value - (Keys(NewRows(c, reqs)) - undo))
  {
    hide InsertAll, NewRow, NewRows, Keys, Chain, NewChains;
    var kept := InsertAll(rows, NewRows(c, reqs)).value - (Keys(NewRows(c, reqs)) - undo);
    forall a, b | a in kept && b in kept && a != b ensures Chain(kept[a]) != Chain(kept[b]) {
      BatchRow(c, rows, reqs, undo, a);
      BatchRow(c, rows, reqs, undo, b);
      if a !in rows {
        var i :| 0 <= i < |reqs| && reqs[i].publicKey == a && kept[a] == NewRow(c, reqs[i]);
        BatchChains(c, rows, reqs, i);
      }
      if b !in rows {
        var j :| 0 <= j < |reqs| && reqs[j].publicKey == b && kept[b] == NewRow(c, reqs[j]);
        BatchChains(c, rows, reqs, j);
      }
    }
  }

  lemma BatchFits(c: Config, t: Table, rows: Rows, reqs: seq<Peer>)
    requires Synced(c.e, t, RowSet(rows) + Members(TempPeers(reqs))) && OwnChains(rows)
    requires InsertAll(rows, NewRows(c, reqs)).Some?
    requires forall i, j :: 0 <= i < j < |reqs| ==> reqs[i].publicKey != reqs[j].publicKey
    requires NewChains(RowSet(rows), TempPeers(reqs))
    ensures InStep(c.e, t, InsertAll(rows, NewRows(c, reqs)).value)
  {
    hide InsertAll, NewRow, NewRows, Keys, Chain, NewChains, Synced, Active, SameForce, TempPeer;
    var all, was, temps := InsertAll(rows, NewRows(c, reqs)).value, RowSet(rows), Members(TempPeers(reqs));
    var keys := Keys(NewRows(c, reqs));
    assert all - (keys - keys) == all;
    BatchSet(c, rows, reqs, keys);
    BatchOwn(c, rows, reqs, keys);
    FirewallRuns.SameForceRefl(was);
    forall p | p in was + temps ensures exists q :: q in RowSet(all) && SameForce(p, q) {
      if p in was {
        assert p in RowSet(all);
      } else {
        var i :| 0 <= i < |reqs| && TempPeers(reqs)[i] == p;
        NewKeys(c, reqs, reqs[i].publicKey);
        NewRowIsTemp(c, reqs[i]);
        assert NewRow(c, reqs[i]) in RowSet(all);
      }
    }
    forall q | q in RowSet(all) ensures exists p :: p in was + temps && SameForce(p, q) {
      if q in was {
        assert q in was + temps;
      } else {
        var i :| 0 <= i < |reqs| && q == NewRow(c, reqs[i]);
        NewRowIsTemp(c, reqs[i]);
        assert TempPeers(reqs)[i] in temps;
      }
    }
    Fits(c.e, t, was + temps, all);
  }

  lemma BatchStays(c: Config, t: Table, rows: Rows, reqs: seq<Peer>, undo: set<string>)
    requires Synced(c.e, t, RowSet(rows)) && OwnChains(rows)
    requires InsertAll(rows, NewRows(c, reqs)).Some?
    requires forall i, j :: 0 <= i < j < |reqs| ==> reqs[i].publicKey != reqs[j].publicKey
    requires NewChains(RowSet(rows), TempPeers(reqs))
    ensures InStep(c.e, t, InsertAll(rows, NewRows(c, reqs)).value - (Keys(NewRows(c, reqs)) - undo)) <==>
            !exists r :: r in reqs && r.publicKey in undo && Active(c.e, NewRow(c, r))
  {
    hide InsertAll, NewRow, NewRows, Keys, Chain, NewChains, Synced, Active, InStep;
    var kept := InsertAll(rows, NewRows(c, reqs)).value - (Keys(NewRows(c, reqs)) - undo);
    BatchSet(c, rows, reqs, undo);
    BatchOwn(c, rows, reqs, undo);
    forall q | q in Staying(c, reqs, undo) ensures q !in RowSet(rows)
      && forall p :: p in RowSet(rows) ==> Chain(p) != Chain(q)
    {
      var i :| 0 <= i < |reqs| && reqs[i].publicKey in undo && q == NewRow(c, reqs[i]);
      BatchChains(c, rows, reqs, i);
    }
    Extras(c.e, t, RowSet(rows), kept);
    forall r | r in reqs && r.publicKey in undo ensures NewRow(c, r) in Staying(c, reqs, undo) {
      var i :| 0 <= i < |reqs| && reqs[i] == r;
    }
  }

  lemma BatchIff(c: Config, b: Books, reqs: seq<Peer>, f: CreateFaults)
    requires Settled(c, b) && Sensible(b, Batch(reqs, f))
    ensures var b' := BatchCreated(c, b, reqs, f); InStep(c.e, b'.table, b'.rows) <==> !Breaks(c, b, Batch(reqs, f))
  {
    hide Synced, Active, Chain, ApplyT, RemoveT, NewRow, TempPeer, InsertAll, NewRows, TempPeers, Keys, InStep;
    hide NewChains, FirewallRuns.ApplyAll, FirewallRuns.RemoveAll;
    InStepSynced(c.e, b.table, b.rows);
    var temps := TempPeers(reqs);
    if reqs == [] {
      NoneAtAll(c, b, f);
    } else {
      AllApplied(c.e, b.table, RowSet(b.rows), temps);
      var applied := FirewallRuns.ApplyAll(c.e, b.table, temps);
      AllRemoved(c.e, applied, RowSet(b.rows), temps);
      var removed := FirewallRuns.RemoveAll(c.e, applied, temps);
      SyncedInStep(c.e, removed, b.rows);
      if InsertAll(b.rows, NewRows(c, reqs)).Some? {
        BatchFits(c, applied, b.rows, reqs);
        BatchStays(c, removed, b.rows, reqs, f.undoRow);
      }
    }
  }

  lemma SyncedInStep(e: Env, t: Table, rows: Rows)
    requires Synced(e, t, RowSet(rows)) && OwnChains(rows)
    ensures InStep(e, t, rows)
  {
  }

  lemma NoneAtAll(c: Config, b: Books, f: CreateFaults)
    ensures BatchCreated(c, b, [], f) == b && !Breaks(c, b, Batch([], f))
  {
  }

  // ---------------------------------------------------------------- rotations

  lemma OtherKeySameForce(e: Env, p: Peer, key: string, psk: string)
    ensures SameForce(WithKey(p, key), WithKey(p, key).(presharedKey := psk))
    ensures SameForce(WithKey(p, key).(presharedKey := psk), WithKey(p, key))
    ensures Active(e, WithKey(p, key)) == Active(e, p) == Active(e, WithKey(p, key).(presharedKey := psk))
    ensures Chain(WithKey(p, key).(presharedKey := psk)) == Chain(WithKey(p, key))
  {
  }

  /** The rows under a new key: the others, and the peer itself. */
  lemma RenamedSet(rows: Rows, key: string, newKey: string, p: Peer)
    requires OwnChains(rows) && key in rows && newKey !in rows && NewChain(rows, p)
    ensures RowSet((rows - {key})[newKey := p]) == RowSet(rows - {key}) + {p}
    ensures OwnChains((rows - {key})[newKey := p]) && OwnChains(rows - {key})
    ensures forall q :: q in RowSet(rows - {key}) ==> Chain(q) != Chain(p)
  {
    hide Chain;
    assert OwnChains(rows - {key}) && NewChain(rows - {key}, p);
    AddedRow(rows - {key}, newKey, p);
  }

  /** Once a peer's rules are gone, a row of its is out of step exactly when it is in force. */
  lemma RemovedIff(c: Config, t: Table, rows: Rows, key: string, p: Peer)
    requires InStep(c.e, t, rows) && key in rows && p.publicKey == rows[key].publicKey
    ensures InStep(c.e, RemoveT(c.e, t, rows[key]), rows[key := p]) <==> !Active(c.e, p)
  {
    hide Synced, Active, Chain, RemoveT, InStep;
    var rest, t1 := rows - {key}, RemoveT(c.e, t, rows[key]);
    RemoveInStep(c.e, t, rows, key);
    InStepSynced(c.e, t, rows);
    InStepSynced(c.e, t1, rest);
    RestSet(rows, key);
    ReplacedRow(rows, key, p);
    SameChain(p, rows[key]);
    Extras(c.e, t1, RowSet(rest), rows[key := p]);
  }

  lemma RestSet(rows: Rows, key: string)
    requires OwnChains(rows) && key in rows
    ensures RowSet(rows) == RowSet(rows - {key}) + {rows[key]} && rows[key] !in RowSet(rows - {key})
    ensures forall q :: q in RowSet(rows - {key}) ==> Chain(q) != Chain(rows[key])
  {
    hide Chain;
    forall q | q in RowSet(rows) && q != rows[key] ensures q in RowSet(rows - {key}) {
      var k :| k in rows && rows[k] == q;
      assert k in rows - {key};
    }
  }

  lemma RenamedIff(c: Config, t: Table, rows: Rows, key: string, newKey: string, psk: string)
    requires InStep(c.e, t, rows) && key in rows && newKey !in rows && NewChain(rows, WithKey(rows[key], newKey))
    ensures var p := WithKey(rows[key], newKey).(presharedKey := psk);
      InStep(c.e, RemoveT(c.e, t, rows[key]), (rows - {key})[newKey := p]) <==> !Active(c.e, rows[key])
  {
    hide Synced, Active, Chain, RemoveT, InStep, SameForce;
    var p := WithKey(rows[key], newKey).(presharedKey := psk);
    var t1 := RemoveT(c.e, t, rows[key]);
    OtherKeySameForce(c.e, rows[key], newKey, psk);
    InStepSynced(c.e, t, rows);
    RemoveInStep(c.e, t, rows, key);
    InStepSynced(c.e, t1, rows - {key});
    RenamedSet(rows, key, newKey, p);
    Extras(c.e, t1, RowSet(rows - {key}), (rows - {key})[newKey := p]);
  }

  lemma RotatedFits(c: Config, t: Table, rows: Rows, key: string, newKey: string, psk: string)
    requires InStep(c.e, t, rows) && key in rows && newKey !in rows && NewChain(rows, WithKey(rows[key], newKey))
    ensures var p := WithKey(rows[key], newKey);
      InStep(c.e, ApplyT(c.e, RemoveT(c.e, t, rows[key]), p), (rows - {key})[newKey := p.(presharedKey := psk)])
  {
    hide Synced, Active, Chain, RemoveT, ApplyT, InStep, SameForce;
    var p := WithKey(rows[key], newKey);
    var q := p.(presharedKey := psk);
    var t1, rest := RemoveT(c.e, t, rows[key]), RowSet(rows - {key});
    OtherKeySameForce(c.e, rows[key], newKey, psk);
    InStepSynced(c.e, t, rows);
    RemoveInStep(c.e, t, rows, key);
    InStepSynced(c.e, t1, rows - {key});
    RenamedSet(rows, key, newKey, q);
    assert Without(rest, Chain(p)) == rest;
    NewApplied(c.e, t1, rest, p);
    FirewallRuns.SameForceRefl(rest);
    forall x | x in rest + {p} ensures exists y :: y in rest + {q} && SameForce(x, y) {
      assert (if x in rest then x else q) in rest + {q};
    }
    forall y | y in rest + {q} ensures exists x :: x in rest + {p} && SameForce(x, y) {
      assert (if y in rest then y else p) in rest + {p};
    }
    Fits(c.e, ApplyT(c.e, t1, p), rest + {p}, (rows - {key})[newKey := q]);
  }

  /** The four shapes that the rows can have after a rotation. */
  lemma RotationRows(rows: Rows, key: string, newKey: string, newPsk: string, f: RotateFaults)
    requires key in rows && newKey !in rows
    ensures var row, after := rows[key], RotatedRows(rows, key, newKey, newPsk, f);
      var moved := (psk: string) => (rows - {key})[newKey := WithKey(row, newKey).(presharedKey := psk)];
      && rows[key := row] == rows
      && (RotationFails(row, f) ==>
            || after == rows || after == rows[key := row.(presharedKey := newPsk)]
            || after == moved(row.presharedKey) || after == moved(newPsk))
      && (!RotationFails(row, f) ==> after == moved(if row.presharedKey != "" then newPsk else row.presharedKey))
  {
  }

  lemma OtherPskActive(e: Env, p: Peer, psk: string)
    ensures Active(e, p.(presharedKey := psk)) == Active(e, p)
  {
  }

  lemma RotateIff(c: Config, b: Books, key: string, newKey: string, newPsk: string, f: RotateFaults)
    requires Settled(c, b) && Sensible(b, Rotate(key, newKey, newPsk, f))
    ensures var b' := RotatedBooks(c, b, key, newKey, newPsk, f);
      InStep(c.e, b'.table, b'.rows) <==> !Breaks(c, b, Rotate(key, newKey, newPsk, f))
  {
    hide Synced, Active, Chain, RemoveT, ApplyT, InStep, RotatedRows, RotationFails, NewChain;
    if key in b.rows {
      RotationRows(b.rows, key, newKey, newPsk, f);
      var row := b.rows[key];
      RemovedIff(c, b.table, b.rows, key, row);
      RemovedIff(c, b.table, b.rows, key, row.(presharedKey := newPsk));
      OtherPskActive(c.e, row, newPsk);
      RenamedIff(c, b.table, b.rows, key, newKey, row.presharedKey);
      RenamedIff(c, b.table, b.rows, key, newKey, newPsk);
      RotatedFits(c, b.table, b.rows, key, newKey, if row.presharedKey != "" then newPsk else row.presharedKey);
    }
  }

  // ---------------------------------------------------------------- updates, approvals, deletions, passes

  lemma EditedRow(c: Config, row: Peer, req: PeerUpdate)
    ensures Edited(c, row, req).publicKey == row.publicKey
    ensures Moves(row, req) <==> Edited(c, row, req).clientAddress != row.clientAddress
  {
  }

  lemma IrrelevantSameForce(c: Config, row: Peer, req: PeerUpdate, profile: bool)
    requires !Relevant(req, profile)
    ensures SameForce(row, Edited(c, row, req))
  {
  }

  lemma UpdateIff(c: Config, b: Books, key: string, req: PeerUpdate, profile: bool, f: UpdateFaults)
    requires Settled(c, b) && Sensible(b, Update(key, req, profile, f))
    ensures var b' := UpdatedBooks(c, b, key, req, profile, f);
      InStep(c.e, b'.table, b'.rows) <==> !Breaks(c, b, Update(key, req, profile, f))
  {
    hide InStep, RemoveT, ApplyT, Edited, Moves, Saved, Relevant, SameForce, SameRules, Active;
    var was := b.rows[key];
    var row := Edited(c, was, req);
    EditedRow(c, was, req);
    if !Relevant(req, profile) {
      IrrelevantSameForce(c, was, req, profile);
    }
    UpdateInStep(c.e, b.table, b.rows, key, row, Relevant(req, profile));
    RemovedIff(c, b.table, b.rows, key, row);
    UnappliedIff(c.e, b.table, b.rows, key, row);
  }

  lemma OnboardedRow(c: Config, row: Peer, req: PeerUpdate)
    requires req.clientAddress.Some?
    ensures var p := Onboarded(c, row, req);
      && p.publicKey == row.publicKey && p.enabled && p.autoDiscovered == row.autoDiscovered
      && p.clientAddress == req.clientAddress.value
      && Active(c.e, p.(enabled := true, autoDiscovered := false)) == Active(c.e, p)
  {
  }

  lemma ApproveIff(c: Config, b: Books, key: string, req: PeerUpdate, f: ApproveFaults)
    requires Settled(c, b)
    ensures var b' := ApprovedBooks(c, b, key, req, f);
      InStep(c.e, b'.table, b'.rows) <==> !Breaks(c, b, Approve(key, req, f))
  {
    hide InStep, ApplyT, Active, Onboarded, AddressFree;
    if !ApprovalRejected(c, b.rows, key, req) && !f.update {
      var row := Onboarded(c, b.rows[key], req);
      OnboardedRow(c, b.rows[key], req);
      var approved := row.(enabled := true, autoDiscovered := false);
      DisabledRow(c.e, b.rows, key);
      UnappliedIff(c.e, b.table, b.rows, key, row);
      UnappliedIff(c.e, b.table, b.rows, key, approved);
      RowInStep(c.e, b.table, b.rows, key, approved);
    }
  }

  lemma PassStays(c: Config, b: Books, kernel: Peers, f: Faults, touched: seq<string>)
    requires Settled(c, b) && Sensible(b, Pass(kernel, f, touched))
    ensures var b' := AfterAct(c, b, Pass(kernel, f, touched)); InStep(c.e, b'.table, b'.rows)
  {
    hide Reapplied, Synced, Discovered, Seen;
    ReappliedInStep(c.e, b.table, b.rows, touched);
    PassInStep(c.e, Reapplied(c.e, b.table, b.rows, touched), c.ps, State(kernel, b.rows, {}), f);
  }

  // ---------------------------------------------------------------- every step

  /**
   * Exactly when a request or a pass leaves rules and rows in step, whatever fails: when it is not one of the
   * four kinds of Breaks.
   */
  lemma StepIff(c: Config, b: Books, a: Act)
    requires Settled(c, b) && Sensible(b, a)
    ensures var b' := AfterAct(c, b, a); InStep(c.e, b'.table, b'.rows) <==> !Breaks(c, b, a)
  {
    hide InStep, Breaks, Created, BatchCreated, RotatedBooks, UpdatedBooks, ApprovedBooks, RowsAfter, Reapplied;
    match a {
      case Create(req, f) => CreateIff(c, b, req, f);
      case Batch(reqs, f) => BatchIff(c, b, reqs, f);
      case Rotate(key, newKey, newPsk, f) => RotateIff(c, b, key, newKey, newPsk, f);
      case Update(key, req, profile, f) => UpdateIff(c, b, key, req, profile, f);
      case Approve(key, req, f) => ApproveIff(c, b, key, req, f);
      case Delete(key, _, dbFails) =>
        if key in b.rows {
          RemoveInStep(c.e, b.table, b.rows, key);
        }
        HarmlessKind(c, b, a);
      case Pass(kernel, f, touched) =>
        PassStays(c, b, kernel, f, touched);
        HarmlessKind(c, b, a);
    }
  }

  /** Rules and rows, if in step before and given new names where names are new, are in step after iff no break. */
  ghost predicate InStepUnlessBreak(c: Config, b: Books, a: Act, b': Books) {
    Settled(c, b) && Sensible(b, a) ==> (Settled(c, b') <==> !Breaks(c, b, a))
  }

  lemma Judged(c: Config, b: Books, a: Act)
    requires a.Update? ==> a.key in b.rows
    ensures InStepUnlessBreak(c, b, a, AfterAct(c, b, a))
  {
    hide InStep, Sensible, AfterAct, Breaks;
    if Settled(c, b) && Sensible(b, a) {
      StepIff(c, b, a);
    }
  }

  lemma HarmlessKind(c: Config, b: Books, a: Act)
    requires a.Delete? || a.Pass?
    ensures !Breaks(c, b, a)
  {
  }

  // ---------------------------------------------------------------- whole runs

  ghost predicate Possible(c: Config, b: Books, acts: seq<Act>)
    decreases |acts|
  {
    acts == [] || (Sensible(b, acts[0]) && Possible(c, AfterAct(c, b, acts[0]), acts[1..]))
  }

  ghost function AfterAll(c: Config, b: Books, acts: seq<Act>): Books
    requires Possible(c, b, acts)
    decreases |acts|
  {
    if acts == [] then b else AfterAll(c, AfterAct(c, b, acts[0]), acts[1..])
  }

  /** In step at every moment of the run. */
  ghost predicate AlwaysSettled(c: Config, b: Books, acts: seq<Act>)
    requires Possible(c, b, acts)
    decreases |acts|
  {
    Settled(c, b) && (acts != [] ==> AlwaysSettled(c, AfterAct(c, b, acts[0]), acts[1..]))
  }

  ghost predicate Harmless(c: Config, b: Books, acts: seq<Act>)
    requires Possible(c, b, acts)
    decreases |acts|
  {
    acts != [] ==> !Breaks(c, b, acts[0]) && Harmless(c, AfterAct(c, b, acts[0]), acts[1..])
  }

  /** Over any run, with any failures: rules and rows are in step throughout iff no act is a break. */
  lemma {:induction false} RunIff(c: Config, b: Books, acts: seq<Act>)
    requires Settled(c, b) && Possible(c, b, acts)
    ensures AlwaysSettled(c, b, acts) <==> Harmless(c, b, acts)
    decreases |acts|
  {
    hide InStep, Sensible, AfterAct, Breaks;
    if acts != [] {
      UpdatedIsThere(b, acts[0]);
      var b' := AfterAct(c, b, acts[0]);
      StepIff(c, b, acts[0]);
      if Settled(c, b') {
        RunIff(c, b', acts[1..]);
      }
    }
  }

  /** And then every packet of the dispatch chain gets the verdict of the rows. */
  lemma {:induction false} HarmlessRunDecides(
    c: Config, b: Books, acts: seq<Act>, peers: seq<Peer>, pkt: Packet, depth: nat)
    requires Settled(c, b) && Possible(c, b, acts) && Harmless(c, b, acts)
    requires Members(peers) == RowSet(AfterAll(c, b, acts).rows) && PoliciesAgree(c.e, Members(peers)) && depth > 0
    ensures Eval(AfterAll(c, b, acts).table, c.e.managed, pkt, depth) == PolicyVerdict(c.e, peers, pkt)
    decreases |acts|
  {
    hide InStep, Sensible, AfterAct, Breaks, PoliciesAgree, PolicyVerdict, Eval, Synced;
    if acts == [] {
      InStepSynced(c.e, b.table, b.rows);
      SyncedMeansPolicy(c.e, b.table, peers, pkt, depth);
    } else {
      UpdatedIsThere(b, acts[0]);
      StepIff(c, b, acts[0]);
      HarmlessRunDecides(c, AfterAct(c, b, acts[0]), acts[1..], peers, pkt, depth);
    }
  }

  // ---------------------------------------------------------------- breaks and repairs

  /**
   * No break is repaired by a pass: where the kernel has exactly the enabled keys, as after a rotation rolled
   * back or an update not read back, the pass touches no rules, and they stay out of step.
   */
  lemma GapStays(c: Config, b: Books, act: Act, kernel: Peers, f: Faults, touched: seq<string>)
    requires Settled(c, b) && Sensible(b, act) && Breaks(c, b, act)
    requires var b1 := AfterAct(c, b, act);
      && OwnChains(b1.rows)
      && (forall k :: k in b1.rows ==> (b1.rows[k].enabled <==> k in kernel))
      && (forall k :: k in touched ==> TouchedBy(c.ps, State(kernel, b1.rows, {}), f, k))
    ensures var b1 := AfterAct(c, b, act);
      var b2 := AfterAct(c, b1, Pass(kernel, f, touched));
      b2.table == b1.table && !InStep(c.e, b2.table, b2.rows)
  {
    hide InStep, Breaks, RowsAfter, Reapplied, OwnChains;
    hide Created, BatchCreated, RotatedBooks, UpdatedBooks, ApprovedBooks, DeletedBooks;
    var b1 := AfterAct(c, b, act);
    StepIff(c, b, act);
    if touched != [] {
      SomeMember(touched);
    }
    ReappliedNone(c.e, b1.table, b1.rows);
    if InStep(c.e, b1.table, RowsAfter(State(kernel, b1.rows, {}), f)) {
      PassBack(c.e, b1.table, b1.rows, kernel, f);
    }
  }

  lemma SomeMember(s: seq<string>)
    requires s != []
    ensures exists k :: k in s
  {
    assert s[0] in s;
  }

  lemma UpdatedIsThere(b: Books, a: Act)
    requires Sensible(b, a)
    ensures a.Update? ==> a.key in b.rows
  {
  }

  /** The rows before a pass are enforced if those after it are. */
  lemma PassBack(e: Env, t: Table, rows: Rows, kernel: Peers, f: Faults)
    requires OwnChains(rows) && InStep(e, t, RowsAfter(State(kernel, rows, {}), f))
    ensures InStep(e, t, rows)
  {
    hide Synced, Active, Discovered, Chain, SameForce, RowsAfter, InStep, OwnChains;
    var s := State(kernel, rows, {});
    var later := RowsAfter(s, f);
    InStepSynced(e, t, later);
    forall q | q in RowSet(rows) ensures exists p :: p in RowSet(later) && SameForce(p, q) {
      var k :| k in rows && rows[k] == q;
      LaterRow(s, f, k);
      assert later[k] in RowSet(later);
    }
    forall p | p in RowSet(later) && Active(e, p) ensures exists q :: q in RowSet(rows) && SameForce(p, q) {
      var k :| k in later && later[k] == p;
      LaterRow(s, f, k);
      ActiveIsEnabled(e, p);
      assert k in rows && rows[k] in RowSet(rows);
    }
    Fits(e, t, RowSet(later), rows);
  }

  /** A row of before is there with the same rules; a row that is new is disabled. */
  lemma LaterRow(s: State, f: Faults, k: string)
    ensures k in s.rows ==> k in RowsAfter(s, f) && SameForce(RowsAfter(s, f)[k], s.rows[k])
    ensures k in RowsAfter(s, f) && k !in s.rows ==> !RowsAfter(s, f)[k].enabled
  {
    hide Discovered, EndpointText;
    DiscoveredDisabled(k, s);
  }

  lemma WiredApplied(e: Env, t: Table, p: Peer)
    requires Wired(e, t)
    ensures Wired(e, ApplyT(e, t, p))
  {
    hide SourceCidr, ChainName, RunAll, PolicyRules, Fields, InstallPlan, JumpsTo, RemovePlan;
    if !p.enabled {
      DisabledIsRemoved(e, t, p);
      WiredRemoved(e, t, p);
    } else if |Source(e, p)| == 0 {
      RunAllNil(e, t);
    } else {
      var c, src, cidrs := Chain(p), Source(e, p), Fields(p.clientAllowedIPs);
      InstallEffect(e, t, c, src, cidrs);
      WiredEnsured(e, t);
      InstallWired(e, Ensured(e, t), p);
      EnsuredFirst(e, t, c, PolicyOf(e, p));
    }
  }

  lemma WiredEnsured(e: Env, t: Table)
    requires Wired(e, t)
    ensures Wired(e, Ensured(e, t)) && e.managed in Ensured(e, t)
  {
  }

  /** Filling the peer's chain and setting up the dispatch chain do not disturb each other. */
  lemma EnsuredFirst(e: Env, t: Table, c: string, rules: seq<Rule>)
    requires ValidEnv(e) && "FORWARD" in t && IsPeerChain(c)
    ensures Ensured(e, t[c := rules]) == Ensured(e, t)[c := rules]
  {
  }

  lemma WiredRemoved(e: Env, t: Table, p: Peer)
    requires Wired(e, t)
    ensures Wired(e, RemoveT(e, t, p))
  {
    hide SourceCidr, ChainName, RemoveT, Detached, JumpsTo;
    RemoveEffect(e, t, p);
    EmptyJumpsNowhere();
  }

  lemma EmptyJumpsNowhere()
    ensures forall x :: !JumpsTo([], x)
  {
  }

  lemma {:induction false} WiredAll(e: Env, t: Table, peers: seq<Peer>)
    requires Wired(e, t)
    ensures Wired(e, FirewallRuns.ApplyAll(e, t, peers)) && Wired(e, FirewallRuns.RemoveAll(e, t, peers))
    decreases |peers|
  {
    hide Wired, ApplyT, RemoveT;
    if peers != [] {
      WiredApplied(e, t, peers[0]);
      WiredRemoved(e, t, peers[0]);
      WiredAll(e, ApplyT(e, t, peers[0]), peers[1..]);
      WiredAll(e, RemoveT(e, t, peers[0]), peers[1..]);
    }
  }

  lemma {:induction false} WiredReapplied(e: Env, t: Table, rows: Rows, keys: seq<string>)
    requires Wired(e, t)
    ensures Wired(e, Reapplied(e, t, rows, keys))
  {
    hide Wired, ApplyT, RemoveT;
    if keys != [] {
      var n := |keys| - 1;
      var t1 := Reapplied(e, t, rows, keys[..n]);
      WiredReapplied(e, t, rows, keys[..n]);
      if keys[n] in rows {
        WiredApplied(e, t1, rows[keys[n]]);
        WiredRemoved(e, t1, rows[keys[n]]);
      }
    }
  }

  /** Whatever fails, only the dispatch chain ever jumps to peer chains. */
  lemma StepWired(c: Config, b: Books, a: Act)
    requires Wired(c.e, b.table) && Sensible(b, a)
    ensures Wired(c.e, AfterAct(c, b, a).table)
  {
    hide Wired, ApplyT, RemoveT, Reapplied, InsertAll, Insertable, NewRow, NewRows, RotatedRows, Edited;
    hide Saved, Moves, Relevant, RotationFails, ApprovalRejected, Onboarded, RowsAfter, OwnChains, NewChain, NewChains;
    match a {
      case Create(req, _) =>
        WiredApplied(c.e, b.table, TempPeer(req));
        WiredRemoved(c.e, ApplyT(c.e, b.table, TempPeer(req)), TempPeer(req));
      case Batch(reqs, _) =>
        WiredAll(c.e, b.table, TempPeers(reqs));
        WiredAll(c.e, FirewallRuns.ApplyAll(c.e, b.table, TempPeers(reqs)), TempPeers(reqs));
      case Rotate(key, newKey, _, _) =>
        if key in b.rows {
          WiredRemoved(c.e, b.table, b.rows[key]);
          WiredApplied(c.e, RemoveT(c.e, b.table, b.rows[key]), b.rows[key].(publicKey := newKey));
        }
      case Update(key, req, _, _) =>
        var row := Edited(c, b.rows[key], req);
        WiredRemoved(c.e, b.table, b.rows[key]);
        WiredApplied(c.e, RemoveT(c.e, b.table, b.rows[key]), row);
        WiredApplied(c.e, b.table, row);
      case Approve(key, req, _) =>
        if !ApprovalRejected(c, b.rows, key, req) {
          ApprovableRow(c, b.rows, key, req);
          WiredApplied(c.e, b.table, Onboarded(c, b.rows[key], req).(enabled := true, autoDiscovered := false));
        }
      case Delete(key, _, _) =>
        if key in b.rows {
          WiredRemoved(c.e, b.table, b.rows[key]);
        }
      case Pass(_, _, touched) =>
        WiredReapplied(c.e, b.table, b.rows, touched);
    }
  }

  lemma ApprovableRow(c: Config, rows: Rows, key: string, req: PeerUpdate)
    requires !ApprovalRejected(c, rows, key, req)
    ensures key in rows && rows[key].autoDiscovered && req.clientAddress.Some?
  {
  }

  lemma {:induction false} RunWired(c: Config, b: Books, acts: seq<Act>)
    requires Wired(c.e, b.table) && Possible(c, b, acts)
    ensures Wired(c.e, AfterAll(c, b, acts).table)
    decreases |acts|
  {
    hide Wired, Sensible, AfterAct;
    if acts != [] {
      UpdatedIsThere(b, acts[0]);
      StepWired(c, b, acts[0]);
      RunWired(c, AfterAct(c, b, acts[0]), acts[1..]);
    }
  }

  /** Sync repairs whatever a run has done: after any run, breaks included, its rows decide every packet. */
  lemma SyncRepairs(
    c: Config, b: Books, acts: seq<Act>, peers: seq<Peer>, names: seq<string>, pkt: Packet, depth: nat)
    requires Wired(c.e, b.table) && Possible(c, b, acts) && depth > 0
    requires Members(peers) == RowSet(AfterAll(c, b, acts).rows) && DistinctChains(peers)
    requires Listing(c.e, AfterAll(c, b, acts).table, peers, names)
    ensures var t := SyncT(c.e, AfterAll(c, b, acts).table, peers, names);
      && Synced(c.e, t, RowSet(AfterAll(c, b, acts).rows))
      && Eval(t, c.e.managed, pkt, depth) == PolicyVerdict(c.e, peers, pkt)
  {
    hide Wired, Possible, AfterAll, DistinctChains, Listing, SyncT, Eval, PolicyVerdict, Synced;
    RunWired(c, b, acts);
    SyncRebuilds(c.e, AfterAll(c, b, acts).table, peers, names);
  }
}
