/** Runs of handler calls: incremental edits against a rebuild, and undo. */
module FirewallRuns {
  import opened Text
  import opened Storage
  import opened Iptables
  import opened Firewall
  import opened FirewallEffects
  import opened FirewallMeaning
  import opened FirewallTheorems

  // ---------------------------------------------------------------- the handlers' firewall calls

  datatype Call =
    | Create(p: Peer)
    | Update(i: nat, p: Peer)        // the row after the update
    | Approve(i: nat, p: Peer)       // the row after the approval
    | Rotate(i: nat, key: string)
    | DeleteRow(i: nat)
    | Reapply(i: nat)                // the reconciler, for a zombie or a missing peer
    | Edit(i: nat, p: Peer)          // an update of other columns, or a recorded endpoint: no firewall call
    | Discover(p: Peer)              // the reconciler records an unknown peer, disabled: no firewall call

  predicate Valid(peers: seq<Peer>, call: Call) {
    match call
    case Create(p) => true
    case Update(i, p) => i < |peers| && p.publicKey == peers[i].publicKey
    case Approve(i, p) => i < |peers| && p.publicKey == peers[i].publicKey && !peers[i].enabled
    case Rotate(i, _) => i < |peers|
    case DeleteRow(i) => i < |peers|
    case Reapply(i) => i < |peers|
    case Edit(i, p) => i < |peers| && SameForce(peers[i], p)
    case Discover(p) => !p.enabled
  }

  function RowsAfter(peers: seq<Peer>, call: Call): seq<Peer>
    requires Valid(peers, call)
  {
    match call
    case Create(p) => peers + [p]
    case Update(i, p) => peers[i := p]
    case Approve(i, p) => peers[i := p]
    case Rotate(i, key) => peers[i := peers[i].(publicKey := key)]
    case DeleteRow(i) => peers[..i] + peers[i + 1..]
    case Reapply(i) => peers
    case Edit(i, p) => peers[i := p]
    case Discover(p) => peers + [p]
  }

  function TableAfter(e: Env, t: Table, peers: seq<Peer>, call: Call): Table
    requires Valid(peers, call)
  {
    match call
    case Create(p) => ApplyT(e, t, p)
    case Update(i, p) =>
      if p.clientAddress != peers[i].clientAddress then ApplyT(e, RemoveT(e, t, peers[i]), p) else ApplyT(e, t, p)
    case Approve(i, p) => ApplyT(e, t, p)
    case Rotate(i, key) => ApplyT(e, RemoveT(e, t, peers[i]), peers[i].(publicKey := key))
    case DeleteRow(i) => RemoveT(e, t, peers[i])
    case Reapply(i) => ApplyT(e, t, peers[i])
    case Edit(_, _) => t
    case Discover(_) => t
  }

  /** Rows other than `i`, as a set. */
  lemma OtherRows(peers: seq<Peer>, i: nat)
    requires i < |peers| && DistinctChains(peers)
    ensures Without(Members(peers), Chain(peers[i])) == Members(peers[..i] + peers[i + 1..])
    ensures forall p :: Members(peers[i := p]) == Members(peers[..i] + peers[i + 1..]) + {p}
    ensures Members(peers[..i] + peers[i + 1..]) + {peers[i]} == Members(peers)
  {
    hide ChainName;
    var rest := peers[..i] + peers[i + 1..];
    forall q | q in Without(Members(peers), Chain(peers[i])) ensures q in rest {
      var j :| 0 <= j < |peers| && peers[j] == q;
      assert j != i;
      assert rest[if j < i then j else j - 1] == q;
    }
    forall q | q in rest ensures q in Without(Members(peers), Chain(peers[i])) {
      var j :| 0 <= j < |rest| && rest[j] == q;
      assert peers[if j < i then j else j + 1] == q;
    }
    forall p ensures Members(peers[i := p]) == Members(rest) + {p} {
      assert peers[i := p] == peers[..i] + [p] + peers[i + 1..];
    }
    assert peers[i := peers[i]] == peers;
  }

  lemma OwnSource(e: Env, peers: seq<Peer>, i: nat, p: Peer)
    requires i < |peers| && DistinctChains(peers) && Chain(p) == Chain(peers[i])
    requires Active(e, peers[i]) ==> Source(e, p) == Source(e, peers[i])
    ensures SameSource(e, Members(peers), p)
  {
    hide ChainName, SourceCidr;
  }

  /** A chain name that is free once row `i` is gone. */
  lemma FreshChain(e: Env, peers: seq<Peer>, i: nat, p: Peer)
    requires i < |peers| && DistinctChains(peers[i := p])
    ensures var rest := Members(peers[..i] + peers[i + 1..]);
      SameSource(e, rest, p) && Without(rest, Chain(p)) == rest
  {
    hide ChainName, SourceCidr;
    var rest := peers[..i] + peers[i + 1..];
    forall q | q in rest ensures Chain(q) != Chain(p) {
      var j :| 0 <= j < |rest| && rest[j] == q;
      assert peers[i := p][if j < i then j else j + 1] == q && peers[i := p][i] == p;
    }
  }

  lemma RemoveThenApply(e: Env, t: Table, peers: seq<Peer>, i: nat, p: Peer)
    requires Synced(e, t, Members(peers)) && i < |peers|
    requires DistinctChains(peers) && DistinctChains(peers[i := p])
    ensures Synced(e, ApplyT(e, RemoveT(e, t, peers[i]), p), Members(peers[i := p]))
    ensures ApplyT(e, RemoveT(e, t, peers[i]), p).Keys <= t.Keys - {Chain(peers[i])} + {Chain(p)}
  {
    hide ChainName, SourceCidr, Synced, ApplyT, RemoveT, DistinctChains, SameSource;
    OtherRows(peers, i);
    OwnSource(e, peers, i, peers[i]);
    RemoveKeeps(e, t, Members(peers), peers[i]);
    FreshChain(e, peers, i, p);
    ApplyKeeps(e, RemoveT(e, t, peers[i]), Members(peers[..i] + peers[i + 1..]), p);
  }

  lemma ApplyInPlace(e: Env, t: Table, peers: seq<Peer>, i: nat, p: Peer)
    requires Synced(e, t, Members(peers)) && i < |peers| && DistinctChains(peers)
    requires Chain(p) == Chain(peers[i]) && (Active(e, peers[i]) ==> Source(e, p) == Source(e, peers[i]))
    ensures Synced(e, ApplyT(e, t, p), Members(peers[i := p]))
    ensures ApplyT(e, t, p).Keys <= t.Keys + {Chain(p)}
  {
    hide ChainName, SourceCidr, Synced, ApplyT, DistinctChains, SameSource;
    OtherRows(peers, i);
    OwnSource(e, peers, i, p);
    ApplyKeeps(e, t, Members(peers), p);
  }

  lemma EditInPlace(e: Env, t: Table, peers: seq<Peer>, i: nat, p: Peer)
    requires Synced(e, t, Members(peers)) && i < |peers| && DistinctChains(peers) && SameForce(peers[i], p)
    ensures Synced(e, t, Members(peers[i := p]))
  {
    hide ChainName, SourceCidr, Synced, Active, SameForce, DistinctChains;
    OtherRows(peers, i);
    var rest := Members(peers[..i] + peers[i + 1..]);
    SameForceRefl(rest);
    assert Members(peers) == rest + {peers[i]} && Members(peers[i := p]) == rest + {p};
    forall q | q in rest + {peers[i]} ensures exists q' :: q' in rest + {p} && SameForce(q, q') {
      assert (if q in rest then q else p) in rest + {p};
    }
    forall q' | q' in rest + {p} ensures exists q :: q in rest + {peers[i]} && SameForce(q, q') {
      assert (if q' in rest then q' else peers[i]) in rest + {peers[i]};
    }
    SyncedTransfer(e, t, rest + {peers[i]}, rest + {p});
  }

  lemma SameForceRefl(ps: set<Peer>)
    ensures forall p :: p in ps ==> SameForce(p, p)
  {
  }

  lemma DisabledIsFree(e: Env, t: Table, ps: set<Peer>, p: Peer)
    requires Synced(e, t, ps) && !p.enabled
    ensures Synced(e, t, ps + {p})
  {
    hide Synced, SourceCidr;
    InactiveIsFree(e, t, ps, p);
  }

  /** Every call keeps the table in step with the rows. */
  lemma CallKeeps(e: Env, t: Table, peers: seq<Peer>, call: Call)
    requires Synced(e, t, Members(peers)) && Valid(peers, call)
    requires DistinctChains(peers) && DistinctChains(RowsAfter(peers, call))
    ensures Synced(e, TableAfter(e, t, peers, call), Members(RowsAfter(peers, call)))
  {
    hide ChainName, SourceCidr, Synced, ApplyT, RemoveT;
    match call
    case Create(p) =>
      assert Members(peers + [p]) == Members(peers) + {p};
      assert forall q :: q in peers ==> Chain(q) != Chain(p) by {
        forall q | q in peers ensures Chain(q) != Chain(p) {
          var j :| 0 <= j < |peers| && peers[j] == q;
          assert (peers + [p])[j] == q && (peers + [p])[|peers|] == p;
        }
      }
      assert Without(Members(peers), Chain(p)) == Members(peers);
      ApplyKeeps(e, t, Members(peers), p);
    case Update(i, p) =>
      if p.clientAddress != peers[i].clientAddress {
        RemoveThenApply(e, t, peers, i, p);
      } else {
        ApplyInPlace(e, t, peers, i, p);
      }
    case Approve(i, p) =>
      ApplyInPlace(e, t, peers, i, p);
    case Rotate(i, key) =>
      RemoveThenApply(e, t, peers, i, peers[i].(publicKey := key));
    case DeleteRow(i) =>
      OtherRows(peers, i);
      OwnSource(e, peers, i, peers[i]);
      RemoveKeeps(e, t, Members(peers), peers[i]);
    case Reapply(i) =>
      assert peers[i := peers[i]] == peers;
      ApplyInPlace(e, t, peers, i, peers[i]);
    case Edit(i, p) =>
      EditInPlace(e, t, peers, i, p);
    case Discover(p) =>
      assert Members(peers + [p]) == Members(peers) + {p};
      DisabledIsFree(e, t, Members(peers), p);
  }

  // ---------------------------------------------------------------- whole runs

  datatype World = World(t: Table, peers: seq<Peer>)

  /** The run is possible, and at every moment the rows have distinct chain names. */
  ghost predicate RunOk(e: Env, w: World, calls: seq<Call>)
    decreases |calls|
  {
    && DistinctChains(w.peers)
    && (calls != [] ==>
          && Valid(w.peers, calls[0])
          && RunOk(e, Next(e, w, calls[0]), calls[1..]))
  }

  function Next(e: Env, w: World, call: Call): World
    requires Valid(w.peers, call)
  {
    World(TableAfter(e, w.t, w.peers, call), RowsAfter(w.peers, call))
  }

  ghost function RunCalls(e: Env, w: World, calls: seq<Call>): World
    requires RunOk(e, w, calls)
    decreases |calls|
  {
    if calls == [] then w else RunCalls(e, Next(e, w, calls[0]), calls[1..])
  }

  lemma {:induction false} RunKeeps(e: Env, w: World, calls: seq<Call>)
    requires RunOk(e, w, calls) && Synced(e, w.t, Members(w.peers))
    ensures var w' := RunCalls(e, w, calls);
      Synced(e, w'.t, Members(w'.peers)) && DistinctChains(w'.peers)
    decreases |calls|
  {
    hide Synced, DistinctChains, TableAfter, RowsAfter, Valid;
    if calls != [] {
      assert DistinctChains(Next(e, w, calls[0]).peers);
      CallKeeps(e, w.t, w.peers, calls[0]);
      RunKeeps(e, Next(e, w, calls[0]), calls[1..]);
    }
  }

  /**
   * Incremental equals rebuild: from a synced table, after any run of handler calls, every packet
   * of the dispatch chain gets the verdict it would get after Sync on the rows then in force.
   */
  lemma IncrementalEqualsRebuild(
    e: Env, t0: Table, peers0: seq<Peer>, names0: seq<string>, calls: seq<Call>, names1: seq<string>,
    pkt: Packet, depth: nat)
    requires Wired(e, t0) && DistinctChains(peers0) && Listing(e, t0, peers0, names0)
    requires RunOk(e, World(SyncT(e, t0, peers0, names0), peers0), calls)
    requires var w := RunCalls(e, World(SyncT(e, t0, peers0, names0), peers0), calls);
      PoliciesAgree(e, Members(w.peers)) && Listing(e, w.t, w.peers, names1)
    requires depth > 0
    ensures var w := RunCalls(e, World(SyncT(e, t0, peers0, names0), peers0), calls);
      && Eval(w.t, e.managed, pkt, depth) == Eval(SyncT(e, w.t, w.peers, names1), e.managed, pkt, depth)
      && Eval(w.t, e.managed, pkt, depth) == PolicyVerdict(e, w.peers, pkt)
  {
    hide DistinctChains, Listing, SyncT, RunOk, RunCalls, PoliciesAgree, PolicyVerdict, Eval;
    SyncRebuilds(e, t0, peers0, names0);
    var w0 := World(SyncT(e, t0, peers0, names0), peers0);
    RunKeeps(e, w0, calls);
    var w := RunCalls(e, w0, calls);
    SyncedMeansPolicy(e, w.t, w.peers, pkt, depth);
    SyncRebuilds(e, w.t, w.peers, names1);
  }

  // ---------------------------------------------------------------- undo

  function ApplyAll(e: Env, t: Table, peers: seq<Peer>): Table
    decreases |peers|
  {
    if peers == [] then t else ApplyAll(e, ApplyT(e, t, peers[0]), peers[1..])
  }

  function RemoveAll(e: Env, t: Table, peers: seq<Peer>): Table
    decreases |peers|
  {
    if peers == [] then t else RemoveAll(e, RemoveT(e, t, peers[0]), peers[1..])
  }

  /** The table is ready for new peers: both dispatch jumps exist and peer chains are reached only from there. */
  ghost predicate Ready(e: Env, t: Table) {
    Wired(e, t) && e.managed in t && FwdRule(e) in t["FORWARD"]
  }

  lemma ApplyNew(e: Env, t: Table, p: Peer)
    requires Ready(e, t) && p.enabled
    ensures Ready(e, ApplyT(e, t, p))
    ensures ApplyT(e, t, p)
         == if |Source(e, p)| == 0 then t else Jumped(e, t[Chain(p) := PolicyOf(e, p)], Chain(p), Source(e, p))
  {
    hide SourceCidr, ChainName, RunAll, Fields, InstallPlan, PolicyRules, JumpsTo;
    if |Source(e, p)| == 0 {
      RunAllNil(e, t);
    } else {
      InstallEffect(e, t, Chain(p), Source(e, p), Fields(p.clientAllowedIPs));
      EnsuredStill(e, t[Chain(p) := PolicyOf(e, p)]);
      InstallWired(e, t, p);
    }
  }

  lemma {:induction false} RemoveFirstEarlier<T>(s: seq<T>, x: T, y: T)
    requires x != y
    ensures RemoveFirst(s + [y], x) == RemoveFirst(s, x) + [y]
  {
    if s == [] {
      assert [y][1..] == [];
      assert [] + [y] == [y];
    } else {
      assert (s + [y])[1..] == s[1..] + [y];
      RemoveFirstEarlier(s[1..], x, y);
      assert s[0] != x ==> [s[0]] + (RemoveFirst(s[1..], x) + [y]) == RemoveFirst(s, x) + [y];
    }
  }

  lemma {:induction false} RemoveFirstKeeps<T>(s: seq<T>, x: T, y: T)
    requires x != y
    ensures y in RemoveFirst(s, x) <==> y in s
  {
    if s != [] {
      assert s == [s[0]] + s[1..];
      RemoveFirstKeeps(s[1..], x, y);
    }
  }

  /** Detaching one peer and adding the jump of another commute. */
  lemma DetachCommutes(e: Env, rules: seq<Rule>, p: Peer, c: string, src: string)
    requires c != Chain(p)
    ensures Detached(e, WithJump(e, rules, c, src), p) == WithJump(e, Detached(e, rules, p), c, src)
  {
    hide SourceCidr, ChainName;
    if e.read(src).Some? {
      var j := JumpRule(e.read(src).value, c);
      UnjumpedAbsent(rules, Chain(p));
      assert (rules + [j])[..|rules|] == rules;
      if e.read(Source(e, p)).Some? {
        var x := JumpRule(e.read(Source(e, p)).value, Chain(p));
        RemoveFirstEarlier(rules, x, j);
        RemoveFirstKeeps(rules, x, j);
      }
    }
  }

  /** The one jump of a chain that was unused: detaching restores the dispatch chain exactly. */
  lemma DetachUndoes(e: Env, rules: seq<Rule>, p: Peer)
    requires !JumpsTo(rules, Chain(p))
    ensures Detached(e, WithJump(e, rules, Chain(p), Source(e, p)), p) == rules
  {
    hide SourceCidr, ChainName;
    DetachedUnused(e, rules, p);
    if e.read(Source(e, p)).Some? {
      var j := JumpRule(e.read(Source(e, p)).value, Chain(p));
      assert j !in rules by { UnusedRule(rules, j, Chain(p)); }
      UnjumpedAbsent(rules, Chain(p));
      assert (rules + [j])[..|rules|] == rules;
      assert Unjumped(rules, Chain(p)) + [] == rules;
      RemoveFirstAfter(rules, j, []);
      assert rules + [j] + [] == rules + [j] && rules + [] == rules;
    }
  }

  lemma UnusedRule(rules: seq<Rule>, j: Rule, c: string)
    requires !JumpsTo(rules, c) && j.target == Jump(c)
    ensures j !in rules
  {
  }

  ghost predicate Unused(e: Env, t: Table, c: string)
    requires e.managed in t
  {
    c !in t && !JumpsTo(t[e.managed], c)
  }

  /** RemovePeer undoes ApplyPeer of a new peer, and leaves peers applied in between alone. */
  lemma {:induction false} UndoFirst(e: Env, t: Table, p: Peer, others: seq<Peer>)
    requires Ready(e, t) && p.enabled && Unused(e, t, Chain(p))
    requires forall q :: q in others ==> q.enabled && Chain(q) != Chain(p)
    ensures RemoveT(e, ApplyAll(e, ApplyT(e, t, p), others), p) == ApplyAll(e, t, others)
  {
    hide SourceCidr, ChainName, ApplyT, RemoveT, PolicyRules, Fields, JumpsTo, Detached;
    var c := Chain(p);
    var t1 := ApplyT(e, t, p);
    ApplyNew(e, t, p);
    DetachUndoes(e, t[e.managed], p);
    DetachedUnused(e, t[e.managed], p);
    assert Detached(e, t1[e.managed], p) == t[e.managed];
    assert t1[e.managed := t[e.managed]] - {c} == t;
    UndoUnder(e, t, t1, p, others);
  }

  lemma {:induction false} UndoUnder(e: Env, t: Table, t1: Table, p: Peer, others: seq<Peer>)
    requires Ready(e, t) && Ready(e, t1) && Unused(e, t, Chain(p))
    requires forall q :: q in others ==> q.enabled && Chain(q) != Chain(p)
    requires t == t1[e.managed := Detached(e, t1[e.managed], p)] - {Chain(p)}
    ensures RemoveT(e, ApplyAll(e, t1, others), p) == ApplyAll(e, t, others)
    decreases |others|
  {
    hide SourceCidr, ChainName, ApplyT, RemoveT, PolicyRules, Fields, JumpsTo, Detached;
    if others == [] {
      RemovedCompletely(e, t1, p);
    } else {
      var q := others[0];
      assert q in others;
      ApplyNew(e, t, q);
      ApplyNew(e, t1, q);
      DetachCommutes(e, t1[e.managed], p, Chain(q), Source(e, q));
      var u, u1 := ApplyT(e, t, q), ApplyT(e, t1, q);
      assert u == u1[e.managed := Detached(e, u1[e.managed], p)] - {Chain(p)};
      assert Unused(e, u, Chain(p)) by { StillUnused(e, t[e.managed], q, Chain(p)); }
      UndoUnder(e, u, u1, p, others[1..]);
    }
  }

  lemma StillUnused(e: Env, rules: seq<Rule>, q: Peer, c: string)
    requires !JumpsTo(rules, c) && Chain(q) != c
    ensures !JumpsTo(WithJump(e, rules, Chain(q), Source(e, q)), c)
  {
    hide SourceCidr, ChainName;
  }

  /** A failed batch leaves no trace: removing the new peers restores the very same table. */
  lemma {:induction false} UndoAll(e: Env, t: Table, peers: seq<Peer>)
    requires Ready(e, t) && DistinctChains(peers)
    requires forall p :: p in peers ==> p.enabled && Unused(e, t, Chain(p))
    ensures RemoveAll(e, ApplyAll(e, t, peers), peers) == t
  {
    hide SourceCidr, ChainName, ApplyT, RemoveT, JumpsTo, Wired;
    if peers != [] {
      var p, rest := peers[0], peers[1..];
      assert p in peers;
      forall q | q in rest ensures q.enabled && Chain(q) != Chain(p) && Unused(e, t, Chain(q)) {
        var j :| 0 <= j < |rest| && rest[j] == q;
        assert peers[j + 1] == q;
      }
      UndoFirst(e, t, p, rest);
      UndoAll(e, t, rest);
    }
  }
}
