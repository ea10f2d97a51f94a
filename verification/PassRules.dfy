/** The firewall calls of a pass: what they put right in a table that had lost its rules. */
module PassRules {
  import opened Text
  import opened Storage
  import opened Iptables
  import opened Firewall
  import opened FirewallEffects
  import opened FirewallMeaning
  import opened FirewallTheorems
  import opened FirewallRuns
  import opened Kernel
  import opened Reconciler
  import opened ReconcilePass
  import opened AgentRuns
  import opened ForwardVerdict

  /** A peer in force has its jump and its policy; the chain of a disabled one holds nothing. */
  ghost predicate Served(e: Env, t: Table, row: Peer) {
    && (Active(e, row) ==>
          && e.managed in t && JumpOf(e, row) in t[e.managed]
          && Chain(row) in t && t[Chain(row)] == PolicyOf(e, row))
    && (!row.enabled && Chain(row) in t ==> t[Chain(row)] == [])
  }

  lemma AppliedServes(e: Env, t: Table, p: Peer)
    requires Wired(e, t)
    ensures Served(e, ApplyT(e, t, p), p)
  {
    hide ChainName, SourceCidr, RunAll, PolicyRules, InstallPlan, RemovePlan, Detached, Referenced, Fields;
    ForwardIsNoPeerChain(p);
    if !p.enabled {
      DisabledIsRemoved(e, t, p);
      RemoveEffect(e, t, p);
    } else if |Source(e, p)| > 0 {
      InstallEffect(e, t, Chain(p), Source(e, p), Fields(p.clientAllowedIPs));
    }
  }

  /** Going over one peer leaves the others as they are served. */
  lemma OthersServed(e: Env, t: Table, p: Peer, q: Peer)
    requires Wired(e, t) && Served(e, t, q) && Chain(p) != Chain(q)
    ensures Served(e, ApplyT(e, t, p), q)
  {
    hide ChainName, SourceCidr, RunAll, PolicyRules, InstallPlan, RemovePlan, Detached, Referenced, Fields, PolicyOf;
    ForwardIsNoPeerChain(q);
    if !p.enabled {
      DisabledIsRemoved(e, t, p);
      RemoveEffect(e, t, p);
      if Active(e, q) {
        DetachedKeeps(e, t[e.managed], p, JumpOf(e, q));
      }
    } else if |Source(e, p)| == 0 {
      RunAllNil(e, t);
    } else {
      InstallEffect(e, t, Chain(p), Source(e, p), Fields(p.clientAllowedIPs));
    }
  }

  lemma DetachedKeeps(e: Env, rules: seq<Rule>, p: Peer, r: Rule)
    requires r in rules && r.target != Jump(Chain(p))
    ensures r in Detached(e, rules, p)
  {
    hide ChainName, SourceCidr;
    UnjumpedAbsent(rules, Chain(p));
    if e.read(Source(e, p)).Some? {
      RemoveFirstKeeps(rules, JumpRule(e.read(Source(e, p)).value, Chain(p)), r);
    }
  }

  lemma {:induction false} ReappliedServes(e: Env, t: Table, rows: map<string, Peer>, keys: seq<string>, key: string)
    requires Wired(e, t) && OwnChains(rows) && key in keys && key in rows
    ensures Served(e, Reapplied(e, t, rows, keys), rows[key])
  {
    hide Wired, Served, ApplyT, RemoveT, Touched, Chain;
    var n := |keys| - 1;
    var t1 := Reapplied(e, t, rows, keys[..n]);
    assert keys == keys[..n] + [keys[n]];
    WiredReapplied(e, t, rows, keys[..n]);
    if keys[n] in rows {
      TouchedIsApplied(e, t1, rows[keys[n]]);
    }
    if key == keys[n] {
      AppliedServes(e, t1, rows[key]);
    } else {
      ReappliedServes(e, t, rows, keys[..n], key);
      if keys[n] in rows {
        OthersServed(e, t1, rows[keys[n]], rows[key]);
      }
    }
  }

  /**
   * Whatever the table had lost, and in whatever order the pass goes: a peer that the pass puts back into the kernel
   * has its jump and its policy afterwards, and the chain of a disabled peer that it found in the kernel is empty.
   */
  lemma PassServes(
    e: Env, t: Table, ps: Parsers, kernel: Peers, rows: map<string, Peer>, f: Faults, touched: seq<string>, key: string)
    requires Wired(e, t) && OwnChains(rows) && key in rows
    requires forall k :: k in touched <==> TouchedBy(ps, State(kernel, rows, {}), f, k)
    ensures var row, t', k' := rows[key], Reapplied(e, t, rows, touched), KernelAfter(ps, State(kernel, rows, {}), f);
      && (row.enabled && key !in kernel && key in k' && Active(e, row) ==>
            && e.managed in t' && JumpOf(e, row) in t'[e.managed]
            && Chain(row) in t' && t'[Chain(row)] == PolicyOf(e, row))
      && (!row.enabled && key in kernel && Chain(row) in t' ==> t'[Chain(row)] == [])
  {
    hide Wired, Reapplied, OwnChains, Active, Chain, PolicyOf, JumpOf, Readded;
    if key in touched {
      ReappliedServes(e, t, rows, touched, key);
    }
  }
}
