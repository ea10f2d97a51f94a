/** From the FORWARD chain on: which packets reach the dispatch chain, and what becomes of them there. */
module ForwardVerdict {
  import opened Text
  import opened Storage
  import opened Iptables
  import opened Firewall
  import opened FirewallEffects
  import opened FirewallMeaning
  import opened FirewallTheorems
  import opened FirewallRuns

  /** FORWARD first sends every packet of the WireGuard interface, and no other, to the dispatch chain. */
  predicate Guards(e: Env, rules: seq<Rule>) {
    rules != [] && rules[0] == Rule(Some(e.wgIface), None, None, Jump(e.managed))
  }

  /** When FORWARD has no jump to the dispatch chain yet, one is put before everything that was there. */
  lemma EnsurePutsJumpFirst(e: Env, t: Table)
    requires ValidEnv(e) && "FORWARD" in t && !JumpsTo(t["FORWARD"], e.managed)
    ensures var t' := RunAll(e, t, EnsurePlan(e, t).cmds);
      && "FORWARD" in t'
      && t'["FORWARD"] == [Rule(Some(e.wgIface), None, None, Jump(e.managed))] + t["FORWARD"]
  {
    hide RunAll, EnsurePlan;
    EnsureEffect(e, t);
  }

  /**
   * In a guarded table in step: a packet of the WireGuard interface gets the verdict of the policy where the
   * policy decides, and every other packet what the remaining rules of FORWARD give it.
   */
  lemma ForwardDecides(e: Env, t: Table, peers: seq<Peer>, pkt: Packet, depth: nat)
    requires Synced(e, t, Members(peers)) && PoliciesAgree(e, Members(peers)) && depth > 1
    requires Guards(e, t["FORWARD"])
    ensures Eval(t, "FORWARD", pkt, depth) ==
      if pkt.iface == e.wgIface && PolicyVerdict(e, peers, pkt) != Returned then PolicyVerdict(e, peers, pkt)
      else Walk(t, t["FORWARD"][1..], pkt, depth)
  {
    hide PoliciesAgree, PolicyVerdict, InCidr, Dispatches, Filled, JumpsTo;
    SyncedMeansPolicy(e, t, peers, pkt, depth - 1);
  }

  // ---------------------------------------------------------------- FORWARD under the agent's operations

  lemma ForwardIsNoPeerChain(p: Peer)
    ensures Chain(p) != "FORWARD"
  {
    hide ChainName;
    assert CHAIN_PREFIX[0] == 'W' && "FORWARD"[0] == 'F';
    assert Chain(p)[..|CHAIN_PREFIX|] == CHAIN_PREFIX;
  }

  lemma RemoveKeepsForward(e: Env, t: Table, p: Peer)
    requires ValidEnv(e) && "FORWARD" in t
    ensures "FORWARD" in RemoveT(e, t, p) && RemoveT(e, t, p)["FORWARD"] == t["FORWARD"]
  {
    hide ChainName, SourceCidr, RemoveT, Detached, Referenced;
    RemoveEffect(e, t, p);
    ForwardIsNoPeerChain(p);
  }

  lemma ApplyKeepsForward(e: Env, t: Table, p: Peer)
    requires ValidEnv(e) && "FORWARD" in t && FwdRule(e) in t["FORWARD"]
    ensures "FORWARD" in ApplyT(e, t, p) && ApplyT(e, t, p)["FORWARD"] == t["FORWARD"]
  {
    hide ChainName, SourceCidr, RunAll, PolicyRules, InstallPlan, RemovePlan, WithJump;
    ForwardIsNoPeerChain(p);
    if !p.enabled {
      DisabledIsRemoved(e, t, p);
      RemoveKeepsForward(e, t, p);
    } else if |Source(e, p)| == 0 {
      RunAllNil(e, t);
    } else {
      InstallEffect(e, t, Chain(p), Source(e, p), Fields(p.clientAllowedIPs));
    }
  }

  /** One handler call leaves FORWARD as it is. */
  lemma CallKeepsForward(e: Env, t: Table, peers: seq<Peer>, call: Call)
    requires Synced(e, t, Members(peers)) && Valid(peers, call)
    ensures var t' := TableAfter(e, t, peers, call); "FORWARD" in t' && t'["FORWARD"] == t["FORWARD"]
  {
    hide ApplyT, RemoveT, Chain, Dispatches, Filled;
    match call {
      case Create(p) => ApplyKeepsForward(e, t, p);
      case Update(i, p) =>
        RemoveKeepsForward(e, t, peers[i]);
        ApplyKeepsForward(e, RemoveT(e, t, peers[i]), p);
        ApplyKeepsForward(e, t, p);
      case Approve(_, p) => ApplyKeepsForward(e, t, p);
      case Rotate(i, key) =>
        RemoveKeepsForward(e, t, peers[i]);
        ApplyKeepsForward(e, RemoveT(e, t, peers[i]), peers[i].(publicKey := key));
      case DeleteRow(i) => RemoveKeepsForward(e, t, peers[i]);
      case Reapply(i) => ApplyKeepsForward(e, t, peers[i]);
      case Edit(_, _) =>
      case Discover(_) =>
    }
  }

  lemma {:induction false} RunKeepsForward(e: Env, w: World, calls: seq<Call>)
    requires RunOk(e, w, calls) && Synced(e, w.t, Members(w.peers))
    ensures var t' := RunCalls(e, w, calls).t; "FORWARD" in t' && t'["FORWARD"] == w.t["FORWARD"]
    decreases |calls|
  {
    hide DistinctChains, TableAfter, RowsAfter, Valid, Dispatches, Filled;
    if calls != [] {
      assert DistinctChains(Next(e, w, calls[0]).peers);
      CallKeeps(e, w.t, w.peers, calls[0]);
      CallKeepsForward(e, w.t, w.peers, calls[0]);
      RunKeepsForward(e, Next(e, w, calls[0]), calls[1..]);
    }
  }

  // ---------------------------------------------------------------- FORWARD under Sync

  lemma {:induction false} PeersKeepForward(e: Env, t: Table, peers: seq<Peer>)
    requires Synced(e, t, {}) && DistinctChains(peers)
    ensures var t' := RunAll(e, t, PeersPlan(e, t, peers).cmds); "FORWARD" in t' && t'["FORWARD"] == t["FORWARD"]
  {
    hide ChainName, SourceCidr, Run, RunAll, Filled, ApplyPlan, RemovePlan, Dispatches, JumpsTo;
    if peers == [] {
      RunAllNil(e, t);
    } else {
      var n := |peers| - 1;
      var p := peers[n];
      var before := PeersPlan(e, t, peers[..n]).cmds;
      var t1 := RunAll(e, t, before);
      PeersKeepForward(e, t, peers[..n]);
      if !p.enabled {
        DisabledIsRemoved(e, t1, p);
      }
      RunAllConcat(e, t, before, ApplyPlan(e, t1, p).cmds);
      ApplyKeepsForward(e, t1, p);
    }
  }

  /** Sync puts the jump before everything that FORWARD held, and changes nothing else there. */
  lemma SyncGuards(e: Env, t: Table, peers: seq<Peer>, names: seq<string>)
    requires Wired(e, t) && DistinctChains(peers) && Listing(e, t, peers, names)
    requires !JumpsTo(t["FORWARD"], e.managed)
    ensures var t' := SyncT(e, t, peers, names);
      "FORWARD" in t' && t'["FORWARD"] == [Rule(Some(e.wgIface), None, None, Jump(e.managed))] + t["FORWARD"]
  {
    hide ChainName, SourceCidr, RunAll, PeersPlan, EnsurePlan, CleanupCmds, JumpsTo, Orphans, DistinctChains;
    EnsureEffect(e, t);
    EnsurePutsJumpFirst(e, t);
    var ens := EnsurePlan(e, t).cmds;
    RunAllSnoc(e, t, ens, Flush(e.managed));
    FlushedSynced(e, t);
    var t0 := Flushed(e, t);
    PeersKeepForward(e, t0, peers);
    RunAllConcat(e, t, ens + [Flush(e.managed)], PeersPlan(e, t0, peers).cmds);
    SyncCoreEffect(e, t, peers);
    var core := SyncCore(e, t, peers).cmds;
    var t1 := RunAll(e, t, core);
    CleanupEffect(e, t1, peers, names);
    RunAllConcat(e, t, core, CleanupCmds(e.managed, names, t1[e.managed], Expected(peers)));
    NoOrphanForward(names, Expected(peers));
  }

  lemma NoOrphanForward(names: seq<string>, expected: set<string>)
    ensures "FORWARD" !in Orphans(names, expected)
  {
    assert CHAIN_PREFIX[0] == 'W' && "FORWARD"[0] == 'F';
    assert !IsPeerChain("FORWARD");
  }

  /**
   * From any machine whose FORWARD does not jump to the dispatch chain: after Sync and any run of handler calls,
   * a packet of the WireGuard interface gets the verdict of the rows then in force, where they decide, and any
   * other packet goes through the rules that FORWARD held before the agent came.
   */
  lemma ForwardAfterRun(
    e: Env, t0: Table, peers0: seq<Peer>, names: seq<string>, calls: seq<Call>, pkt: Packet, depth: nat)
    requires Wired(e, t0) && DistinctChains(peers0) && Listing(e, t0, peers0, names) && depth > 1
    requires !JumpsTo(t0["FORWARD"], e.managed)
    requires RunOk(e, World(SyncT(e, t0, peers0, names), peers0), calls)
    requires PoliciesAgree(e, Members(RunCalls(e, World(SyncT(e, t0, peers0, names), peers0), calls).peers))
    ensures var w := RunCalls(e, World(SyncT(e, t0, peers0, names), peers0), calls);
      Eval(w.t, "FORWARD", pkt, depth) ==
        if pkt.iface == e.wgIface && PolicyVerdict(e, w.peers, pkt) != Returned then PolicyVerdict(e, w.peers, pkt)
        else Walk(w.t, t0["FORWARD"], pkt, depth)
  {
    hide DistinctChains, Listing, SyncT, RunOk, RunCalls, PoliciesAgree, PolicyVerdict, Eval, Walk, JumpsTo;
    hide Dispatches, Filled;
    SyncRebuilds(e, t0, peers0, names);
    SyncGuards(e, t0, peers0, names);
    var w0 := World(SyncT(e, t0, peers0, names), peers0);
    RunKeeps(e, w0, calls);
    RunKeepsForward(e, w0, calls);
    var w := RunCalls(e, w0, calls);
    assert w.t["FORWARD"][1..] == t0["FORWARD"];
    ForwardDecides(e, w.t, w.peers, pkt, depth);
  }
}
