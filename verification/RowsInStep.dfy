/** Changes of rows and rules together: when the table still enforces the rows, and when it does not. */
module RowsInStep {
  import opened Storage
  import opened Iptables
  import opened Firewall
  import opened FirewallEffects
  import opened FirewallMeaning
  import opened FirewallTheorems
  import opened FirewallRuns
  import opened PeersTable
  import opened ReconcilePass

  lemma RemoveInStep(e: Env, t: Table, rows: map<string, Peer>, key: string)
    requires InStep(e, t, rows) && key in rows
    ensures InStep(e, RemoveT(e, t, rows[key]), rows - {key})
  {
    hide ChainName, SourceCidr, RemoveT, Synced;
    OneRow(rows, key);
    RemoveKeeps(e, t, RowSet(rows), rows[key]);
  }

  lemma DisabledRow(e: Env, rows: map<string, Peer>, key: string)
    requires key in rows && !rows[key].enabled
    ensures !Active(e, rows[key])
  {
  }

  /** Replacing a row whose source stays the same, or that was not in force. */
  lemma RowInStep(e: Env, t: Table, rows: map<string, Peer>, key: string, p: Peer)
    requires InStep(e, t, rows) && key in rows && p.publicKey == rows[key].publicKey
    requires Active(e, rows[key]) ==> Source(e, p) == Source(e, rows[key])
    ensures InStep(e, ApplyT(e, t, p), rows[key := p])
  {
    hide ChainName, SourceCidr, ApplyT, Synced, Active;
    OneRow(rows, key);
    ReplacedRow(rows, key, p);
    ApplyKeeps(e, t, RowSet(rows), p);
  }

  /** The other rows, by their chains. */
  lemma OneRow(rows: map<string, Peer>, key: string)
    requires OwnChains(rows) && key in rows
    ensures forall q :: q in RowSet(rows) && Chain(q) == Chain(rows[key]) ==> q == rows[key]
    ensures Without(RowSet(rows), Chain(rows[key])) == RowSet(rows - {key})
  {
    hide ChainName;
    forall q | q in RowSet(rows) && Chain(q) == Chain(rows[key]) ensures q == rows[key] {
      var k :| k in rows && rows[k] == q;
    }
    forall q | q in Without(RowSet(rows), Chain(rows[key])) ensures q in RowSet(rows - {key}) {
      var k :| k in rows && rows[k] == q;
      assert k in rows - {key};
    }
    forall q | q in RowSet(rows - {key}) ensures q in Without(RowSet(rows), Chain(rows[key])) {
      var k :| k in rows - {key} && rows[k] == q;
      assert k in rows && k != key;
    }
  }

  lemma ReplacedRow(rows: map<string, Peer>, key: string, p: Peer)
    requires OwnChains(rows) && key in rows && p.publicKey == rows[key].publicKey
    ensures OwnChains(rows[key := p])
    ensures RowSet(rows[key := p]) == RowSet(rows - {key}) + {p}
  {
    hide ChainName;
    var more := rows[key := p];
    forall q | q in RowSet(rows - {key}) + {p} ensures q in RowSet(more) {
      if q == p {
        assert more[key] == p;
      } else {
        var k :| k in rows - {key} && rows[k] == q;
        assert k in more && more[k] == q;
      }
    }
    forall q | q in RowSet(more) ensures q in RowSet(rows - {key}) + {p} {
      var k :| k in more && more[k] == q;
      assert k != key ==> k in rows - {key};
    }
    assert Chain(p) == Chain(rows[key]);
    forall a, b | a in more && b in more && a != b ensures Chain(more[a]) != Chain(more[b]) {
      assert a in rows && b in rows;
    }
  }

  lemma UpdateInStep(e: Env, t: Table, rows: map<string, Peer>, key: string, p: Peer, relevant: bool)
    requires InStep(e, t, rows) && key in rows && p.publicKey == rows[key].publicKey
    requires !relevant ==> SameForce(rows[key], p)
    ensures var t' :=
        if !relevant then t
        else if p.clientAddress != rows[key].clientAddress then ApplyT(e, RemoveT(e, t, rows[key]), p)
        else ApplyT(e, t, p);
      InStep(e, t', rows[key := p])
  {
    hide InStep, ApplyT, RemoveT, SameForce, Active;
    if !relevant {
      SameRowInStep(e, t, rows, key, p);
    } else if p.clientAddress != rows[key].clientAddress {
      MovedInStep(e, t, rows, key, p);
    } else {
      RowInStep(e, t, rows, key, p);
    }
  }

  lemma MovedInStep(e: Env, t: Table, rows: map<string, Peer>, key: string, p: Peer)
    requires InStep(e, t, rows) && key in rows && p.publicKey == rows[key].publicKey
    ensures InStep(e, ApplyT(e, RemoveT(e, t, rows[key]), p), rows[key := p])
  {
    hide ChainName, SourceCidr, ApplyT, RemoveT, Synced, Active;
    OneRow(rows, key);
    ReplacedRow(rows, key, p);
    RemoveKeeps(e, t, RowSet(rows), rows[key]);
    var rest := RowSet(rows - {key});
    assert forall q :: q in rest ==> Chain(q) != Chain(p);
    assert Without(rest, Chain(p)) == rest;
    ApplyKeeps(e, RemoveT(e, t, rows[key]), rest, p);
  }

  lemma SameRowInStep(e: Env, t: Table, rows: map<string, Peer>, key: string, p: Peer)
    requires InStep(e, t, rows) && key in rows && SameForce(rows[key], p)
    ensures InStep(e, t, rows[key := p])
  {
    hide ChainName, SourceCidr, Synced, Active, OwnChains, RowSet;
    SameForceKey(rows[key], p);
    ReplacedRow(rows, key, p);
    ReplacedRow(rows, key, rows[key]);
    assert rows[key := rows[key]] == rows;
    var rest := RowSet(rows - {key});
    SameForceRefl(rest);
    hide SameForce;
    forall q | q in rest + {rows[key]} ensures exists q' :: q' in rest + {p} && SameForce(q, q') {
      assert (if q in rest then q else p) in rest + {p};
    }
    forall q' | q' in rest + {p} ensures exists q :: q in rest + {rows[key]} && SameForce(q, q') {
      assert (if q' in rest then q' else rows[key]) in rest + {rows[key]};
    }
    SyncedTransfer(e, t, rest + {rows[key]}, rest + {p});
  }

  lemma SameForceKey(p: Peer, q: Peer)
    requires SameForce(p, q)
    ensures p.publicKey == q.publicKey
  {
  }

  // ---------------------------------------------------------------- a row changed, and no rules applied

  /** Two rows of one peer that ask for the same rules. */
  predicate SameRules(e: Env, p: Peer, q: Peer) {
    && (Active(e, p) <==> Active(e, q))
    && (Active(e, p) ==> SrcOf(e, p) == SrcOf(e, q) && PolicyOf(e, p) == PolicyOf(e, q))
  }

  /** In a table in step a peer has one jump if it is in force, and none otherwise; its chain is its policy. */
  lemma RuledIff(e: Env, t: Table, rows: Rows, key: string)
    requires InStep(e, t, rows) && key in rows
    ensures var p := rows[key];
      && (forall r :: r in t[e.managed] && r.target == Jump(Chain(p)) ==> Active(e, p) && r == JumpOf(e, p))
      && (Active(e, p) ==> JumpOf(e, p) in t[e.managed] && Chain(p) in t && t[Chain(p)] == PolicyOf(e, p))
  {
    hide ChainName, SourceCidr, PolicyRules;
    OneRow(rows, key);
    var p := rows[key];
    assert p in RowSet(rows);
    forall r | r in t[e.managed] && r.target == Jump(Chain(p)) ensures Active(e, p) && r == JumpOf(e, p) {
      var q :| q in RowSet(rows) && Active(e, q) && r == JumpOf(e, q);
    }
  }

  /** The rules that serve one row serve another that asks for the same. */
  lemma SameRulesInStep(e: Env, t: Table, rows: Rows, key: string, p: Peer)
    requires InStep(e, t, rows) && key in rows && p.publicKey == rows[key].publicKey && SameRules(e, rows[key], p)
    ensures InStep(e, t, rows[key := p])
  {
    hide Chain, Active, PolicyOf, SrcOf, RowSet, OwnChains;
    var was, rest := rows[key], RowSet(rows - {key});
    ReplacedRow(rows, key, p);
    ReplacedRow(rows, key, was);
    assert rows[key := was] == rows;
    SameChain(p, was);
    forall r | r in t[e.managed] ensures exists q :: q in rest + {p} && Active(e, q) && r == JumpOf(e, q) {
      var q :| q in rest + {was} && Active(e, q) && r == JumpOf(e, q);
      assert (if q in rest then q else p) in rest + {p};
    }
  }

  lemma SameChain(p: Peer, q: Peer)
    requires p.publicKey == q.publicKey
    ensures Chain(p) == Chain(q)
  {
  }

  /** A row changed without applying its rules: in step exactly when it asks for the rules that are there. */
  lemma UnappliedIff(e: Env, t: Table, rows: Rows, key: string, p: Peer)
    requires InStep(e, t, rows) && key in rows && p.publicKey == rows[key].publicKey
    ensures InStep(e, t, rows[key := p]) <==> SameRules(e, rows[key], p)
  {
    hide InStep, Chain, Active, PolicyOf, SrcOf;
    SameChain(p, rows[key]);
    if InStep(e, t, rows[key := p]) {
      RuledIff(e, t, rows, key);
      RuledIff(e, t, rows[key := p], key);
      assert Active(e, p) ==> JumpOf(e, p).target == Jump(Chain(rows[key]));
      assert Active(e, rows[key]) ==> JumpOf(e, rows[key]).target == Jump(Chain(p));
    } else if SameRules(e, rows[key], p) {
      SameRulesInStep(e, t, rows, key, p);
    }
  }

  // ---------------------------------------------------------------- a table in step with other peers

  /** The peers in force are the same, as far as rules depend on them. */
  lemma Fits(e: Env, t: Table, ps: set<Peer>, rows: Rows)
    requires Synced(e, t, ps) && OwnChains(rows)
    requires forall p :: p in ps && Active(e, p) ==> exists q :: q in RowSet(rows) && SameForce(p, q)
    requires forall q :: q in RowSet(rows) && Active(e, q) ==> exists p :: p in ps && SameForce(p, q)
    ensures InStep(e, t, rows)
  {
    hide Synced, SourceCidr, Active, SameForce;
    SyncedTransfer(e, t, ps, RowSet(rows));
  }

  lemma NoJump(e: Env, t: Table, ps: set<Peer>, p: Peer)
    requires Synced(e, t, ps) && Active(e, p)
    requires forall q :: q in ps && Active(e, q) ==> Chain(q) != Chain(p)
    ensures JumpOf(e, p) !in t[e.managed]
  {
    hide SourceCidr, ChainName, Filled;
  }

  /**
   * A table in step with `ps`, and rows that hold at least the peers of `ps` in force: it is in step with
   * the rows exactly when they have no other peer in force.
   */
  lemma Extras(e: Env, t: Table, ps: set<Peer>, rows: Rows)
    requires Synced(e, t, ps) && OwnChains(rows)
    requires forall p :: p in ps && Active(e, p) ==> p in RowSet(rows)
    requires forall q :: q in RowSet(rows) && Active(e, q) && q !in ps ==>
      forall p :: p in ps && Active(e, p) ==> Chain(p) != Chain(q)
    ensures InStep(e, t, rows) <==> forall q :: q in RowSet(rows) && Active(e, q) ==> q in ps
  {
    hide SourceCidr, Active, Chain, RowSet, OwnChains;
    if forall q :: q in RowSet(rows) && Active(e, q) ==> q in ps {
      hide Synced;
      SameForceRefl(ps);
      Fits(e, t, ps, rows);
    } else {
      var q :| q in RowSet(rows) && Active(e, q) && q !in ps;
      NoJump(e, t, ps, q);
      WantsJump(e, t, rows, q);
    }
  }

  lemma WantsJump(e: Env, t: Table, rows: Rows, q: Peer)
    requires q in RowSet(rows) && Active(e, q) && e.managed in t && JumpOf(e, q) !in t[e.managed]
    ensures !InStep(e, t, rows)
  {
    hide SourceCidr, ChainName, Filled, Wired;
  }

  // ---------------------------------------------------------------- new peers

  ghost predicate NewChain(rows: Rows, p: Peer) {
    forall k :: k in rows ==> Chain(rows[k]) != Chain(p)
  }

  lemma NewInSet(rows: Rows, p: Peer)
    requires NewChain(rows, p)
    ensures Without(RowSet(rows), Chain(p)) == RowSet(rows)
  {
    hide ChainName;
  }

  lemma AddedRow(rows: Rows, key: string, p: Peer)
    requires key !in rows
    ensures RowSet(rows[key := p]) == RowSet(rows) + {p}
    ensures OwnChains(rows) && NewChain(rows, p) ==> OwnChains(rows[key := p])
  {
    hide ChainName;
    var more := rows[key := p];
    forall q | q in RowSet(rows) + {p} ensures q in RowSet(more) {
      if q == p {
        assert more[key] == p;
      } else {
        var k :| k in rows && rows[k] == q;
        assert more[k] == q;
      }
    }
  }

  /** Applying a new peer, and taking it away again. */
  lemma NewApplied(e: Env, t: Table, ps: set<Peer>, p: Peer)
    requires Synced(e, t, ps) && Without(ps, Chain(p)) == ps
    ensures Synced(e, ApplyT(e, t, p), ps + {p})
    ensures Synced(e, RemoveT(e, ApplyT(e, t, p), p), ps)
  {
    hide SourceCidr, ChainName, ApplyT, RemoveT, Synced, Active;
    ApplyKeeps(e, t, ps, p);
    RemoveKeeps(e, ApplyT(e, t, p), ps + {p}, p);
    assert Without(ps + {p}, Chain(p)) == ps;
  }

  ghost predicate NewChains(ps: set<Peer>, peers: seq<Peer>) {
    && (forall p, q :: p in ps && q in peers ==> Chain(p) != Chain(q))
    && DistinctChains(peers)
  }

  lemma NewChainsTail(ps: set<Peer>, peers: seq<Peer>)
    requires peers != [] && NewChains(ps, peers)
    ensures NewChains(ps + {peers[0]}, peers[1..]) && NewChains(ps, peers[1..])
    ensures Without(ps, Chain(peers[0])) == ps
    ensures Without(ps + Members(peers), Chain(peers[0])) == ps + Members(peers[1..])
    ensures ps + Members(peers) == ps + {peers[0]} + Members(peers[1..])
  {
    hide ChainName;
    var p, rest := peers[0], peers[1..];
    assert peers == [p] + rest;
    forall q | q in rest ensures Chain(q) != Chain(p) {
      var i :| 0 <= i < |rest| && rest[i] == q;
      assert peers[i + 1] == q;
    }
  }

  lemma {:induction false} AllApplied(e: Env, t: Table, ps: set<Peer>, peers: seq<Peer>)
    requires Synced(e, t, ps) && NewChains(ps, peers)
    ensures Synced(e, ApplyAll(e, t, peers), ps + Members(peers))
    decreases |peers|
  {
    hide SourceCidr, Chain, ApplyT, Synced, NewChains, Without;
    if peers == [] {
      assert ps + Members(peers) == ps;
    } else {
      NewChainsTail(ps, peers);
      NewApplied(e, t, ps, peers[0]);
      AllApplied(e, ApplyT(e, t, peers[0]), ps + {peers[0]}, peers[1..]);
    }
  }

  lemma {:induction false} AllRemoved(e: Env, t: Table, ps: set<Peer>, peers: seq<Peer>)
    requires Synced(e, t, ps + Members(peers)) && NewChains(ps, peers)
    ensures Synced(e, RemoveAll(e, t, peers), ps)
    decreases |peers|
  {
    hide SourceCidr, Chain, RemoveT, Synced, NewChains, Without, Active;
    if peers == [] {
      assert ps + Members(peers) == ps;
    } else {
      NewChainsTail(ps, peers);
      OwnSourceOnly(e, ps, peers);
      RemoveKeeps(e, t, ps + Members(peers), peers[0]);
      AllRemoved(e, RemoveT(e, t, peers[0]), ps, peers[1..]);
    }
  }

  lemma OwnSourceOnly(e: Env, ps: set<Peer>, peers: seq<Peer>)
    requires peers != [] && NewChains(ps, peers)
    ensures SameSource(e, ps + Members(peers), peers[0])
  {
    hide ChainName, SourceCidr;
    assert peers == [peers[0]] + peers[1..];
    forall q | q in peers[1..] ensures Chain(q) != Chain(peers[0]) {
      var i :| 0 <= i < |peers[1..]| && peers[1..][i] == q;
      assert peers[i + 1] == q;
    }
  }
}
