/** What packets see while ApplyPeer runs, command by command, and exactly when that is atomic. */
module FirewallActivation {
  import opened Text
  import opened Storage
  import opened Iptables
  import opened Firewall
  import opened FirewallEffects
  import opened FirewallMeaning
  import opened FirewallTheorems

  /** Commands that leave every chain but `c` as it is, once the dispatch chain exists. */
  predicate Quiet(e: Env, cmd: Cmd, c: string) {
    match cmd
    case New(x) => x == c || x == e.managed
    case Flush(x) => x == c
    case Append(x, _) => x == c
    case Check(_, _) => true
    case _ => false
  }

  lemma {:induction false} QuietRun(e: Env, t: Table, c: string, cmds: seq<Cmd>)
    requires e.managed in t && e.managed != c
    requires forall cmd :: cmd in cmds ==> Quiet(e, cmd, c)
    ensures RunAll(e, t, cmds) - {c} == t - {c} && e.managed in RunAll(e, t, cmds)
  {
    if cmds != [] {
      var n := |cmds| - 1;
      QuietRun(e, t, c, cmds[..n]);
      QuietStep(e, RunAll(e, t, cmds[..n]), c, cmds[n]);
    }
  }

  lemma QuietStep(e: Env, t: Table, c: string, cmd: Cmd)
    requires e.managed in t && e.managed != c && Quiet(e, cmd, c)
    ensures Run(e, t, cmd).0 - {c} == t - {c} && e.managed in Run(e, t, cmd).0
  {
  }

  /** All commands of ApplyPeer but the last are quiet when both jumps' targets are in place. */
  lemma InstallQuiet(e: Env, t: Table, c: string, src: string, cidrs: seq<string>)
    requires ValidEnv(e) && IsPeerChain(c)
    requires "FORWARD" in t && e.managed in t && FwdRule(e) in t["FORWARD"]
    ensures var cmds := InstallPlan(e, t, c, src, cidrs).cmds;
      |cmds| > 0 && forall cmd :: cmd in cmds[..|cmds| - 1] ==> Quiet(e, cmd, c)
  {
    hide RunAll, PolicyRules, FillCmds, JumpSpec;
    FillEffect(e, t, c, src, cidrs);
    var t1 := t[c := PolicyRules(e, src, cidrs)];
    EnsureEffect(e, t1);
    EnsuredStill(e, t1);
    FillQuiet(e, c, src, cidrs);
    var build := FillCmds(c, src, cidrs);
    var start := [New(e.managed), Check("FORWARD", FwdSpec(e))];
    assert EnsurePlan(e, t1).cmds == start by { EnsureFindsJump(e, t1); }
    var jump := JumpPlan(e, t1, c, src);
    var cmds := InstallPlan(e, t, c, src, cidrs).cmds;
    assert cmds == build + start + jump.cmds;
    assert cmds[..|cmds| - 1] == build + start + jump.cmds[..|jump.cmds| - 1];
  }

  lemma EnsureFindsJump(e: Env, t: Table)
    requires "FORWARD" in t && e.managed in t && FwdRule(e) in t["FORWARD"]
    ensures EnsurePlan(e, t).cmds == [New(e.managed), Check("FORWARD", FwdSpec(e))]
  {
    hide RunAll;
    var first := [New(e.managed)];
    RunAllNil(e, t);
    RunAllSnoc(e, t, [], New(e.managed));
    assert [] + first == first && first + [Check("FORWARD", FwdSpec(e))] == [New(e.managed), Check("FORWARD", FwdSpec(e))];
    RunAllSnoc(e, t, first, Check("FORWARD", FwdSpec(e)));
  }

  lemma FillQuiet(e: Env, c: string, src: string, cidrs: seq<string>)
    ensures forall cmd :: cmd in FillCmds(c, src, cidrs) ==> Quiet(e, cmd, c)
  {
  }

  /** Neither `c` nor the dispatch chain itself can be reached from the dispatch chain. */
  ghost predicate Layered(e: Env, t: Table, c: string)
    requires e.managed in t
  {
    exists s: set<string> :: Within(t[e.managed], s) && Closed(t, s) && c !in s && e.managed !in s
  }

  /**
   * Atomic activation: ApplyPeer of a peer whose chain the dispatch chain does not reach yet. After every single
   * command, foreign packets keep their verdict and the peer's packets have either the old verdict
   * or the complete policy; when the plan is done they have the policy, unless decided before.
   */
  lemma AtomicActivation(e: Env, t: Table, p: Peer, i: nat, pkt: Packet, depth: nat)
    requires ValidEnv(e) && "FORWARD" in t && e.managed in t && FwdRule(e) in t["FORWARD"]
    requires Layered(e, t, Chain(p)) && p.enabled && |Source(e, p)| > 0
    requires depth > 0
    ensures var cmds := ApplyPlan(e, t, p).cmds;
      var before := Eval(t, e.managed, pkt, depth);
      i <= |cmds| ==>
      var now := Eval(RunAll(e, t, cmds[..i]), e.managed, pkt, depth);
      && (!Owns(e, p, pkt) ==> now == before)
      && (Owns(e, p, pkt) ==> now == before || now == PeerVerdict(e, p, pkt))
      && (Owns(e, p, pkt) && i == |cmds| ==> now == if before == Returned then PeerVerdict(e, p, pkt) else before)
  {
    hide SourceCidr, ChainName, RunAll, Fields, InstallPlan, Quiet, Walk, InCidr, AllowedTo, JumpsTo;
    var c, src, cidrs := Chain(p), Source(e, p), Fields(p.clientAllowedIPs);
    var cmds := InstallPlan(e, t, c, src, cidrs).cmds;
    InstallQuiet(e, t, c, src, cidrs);
    if i < |cmds| {
      assert forall cmd :: cmd in cmds[..i] ==> cmd in cmds[..|cmds| - 1];
      QuietRun(e, t, c, cmds[..i]);
      OffChain(e, t, RunAll(e, t, cmds[..i]), c, pkt, depth);
    } else if i == |cmds| {
      assert cmds[..i] == cmds;
      InstallEffect(e, t, c, src, cidrs);
      EnsuredStill(e, t[c := PolicyOf(e, p)]);
      Activated(e, t, p, pkt, depth);
    }
  }

  lemma OffChain(e: Env, t: Table, t': Table, c: string, pkt: Packet, depth: nat)
    requires e.managed in t && e.managed in t' && e.managed != c
    requires t - {c} == t' - {c} && Layered(e, t, c)
    ensures Eval(t', e.managed, pkt, depth) == Eval(t, e.managed, pkt, depth)
  {
    hide Walk, Within, Closed;
    var s: set<string> :| Within(t[e.managed], s) && Closed(t, s) && c !in s && e.managed !in s;
    forall d | d != c ensures (d in t <==> d in t') && (d in t ==> t[d] == t'[d]) {
      assert d in t <==> d in t - {c};
      assert d in t' <==> d in t' - {c};
      assert d in t ==> (t - {c})[d] == t[d] && (t' - {c})[d] == t'[d];
    }
    WalkWithin(t, t', s, t[e.managed], pkt, depth);
  }

  lemma Unreached(e: Env, t: Table, c: string)
    requires e.managed in t && Layered(e, t, c)
    ensures !JumpsTo(t[e.managed], c)
  {
  }

  lemma Activated(e: Env, t: Table, p: Peer, pkt: Packet, depth: nat)
    requires ValidEnv(e) && e.managed in t && Layered(e, t, Chain(p)) && depth > 0
    requires p.enabled && |Source(e, p)| > 0
    ensures var t' := Jumped(e, t[Chain(p) := PolicyOf(e, p)], Chain(p), Source(e, p));
      var before := Eval(t, e.managed, pkt, depth);
      Eval(t', e.managed, pkt, depth)
        == if Owns(e, p, pkt) && before == Returned then PeerVerdict(e, p, pkt) else before
  {
    hide SourceCidr, ChainName, PolicyOf, InCidr, PeerVerdict, Within, Closed, JumpsTo;
    var c := Chain(p);
    var rules := t[e.managed];
    var t1 := t[c := PolicyOf(e, p)];
    var t' := Jumped(e, t1, c, Source(e, p));
    Unreached(e, t, c);
    UnusedJump(e, rules, p);
    var last := if Active(e, p) then [JumpOf(e, p)] else [];
    assert rules + [] == rules;
    assert t'[e.managed] == rules + last;
    WalkConcat(t', rules, last, pkt, depth);
    assert Walk(t', rules, pkt, depth) == Walk(t, rules, pkt, depth) by {
      var s: set<string> :| Within(rules, s) && Closed(t, s) && c !in s && e.managed !in s;
      WalkWithin(t, t', s, rules, pkt, depth);
    }
    if Owns(e, p, pkt) {
      PolicyDecides(e, t', p, pkt, depth - 1);
    }
  }

  /**
   * On a chain already in use the same commands are not atomic, whatever the new row says: right after -F
   * every packet of the old row falls through the empty chain and leaves the dispatch chain undecided.
   */
  lemma LiveUpdateGap(e: Env, t: Table, ps: set<Peer>, q: Peer, p: Peer, pkt: Packet, depth: nat)
    requires Synced(e, t, ps) && DisjointSources(e, ps) && q in ps && Owns(e, q, pkt)
    requires p.enabled && |Source(e, p)| > 0 && Chain(p) == Chain(q)
    ensures var cmds := ApplyPlan(e, t, p).cmds;
      |cmds| > 2 && Eval(RunAll(e, t, cmds[..2]), e.managed, pkt, depth) == Returned
  {
    hide SourceCidr, ChainName, RunAll, Fields, Walk, InCidr, PolicyRules, JumpsTo;
    var c, src, cidrs := Chain(p), Source(e, p), Fields(p.clientAllowedIPs);
    var cmds := ApplyPlan(e, t, p).cmds;
    assert cmds[..2] == [New(c), Flush(c)] && |cmds| > 2 by { InstallStart(e, t, c, src, cidrs); }
    RunAllNil(e, t);
    RunAllSnoc(e, t, [], New(c));
    RunAllSnoc(e, t, [New(c)], Flush(c));
    assert [] + [New(c)] == [New(c)] && [New(c)] + [Flush(c)] == [New(c), Flush(c)];
    EmptyChainReturns(e, t[c := []], t[e.managed], ps, q, pkt, depth);
  }

  // ---------------------------------------------------------------- exactly when it is atomic

  /** After every command: packets of others keep their verdict, the peer's have the old one or the new policy. */
  ghost predicate Atomic(e: Env, t: Table, p: Peer) {
    forall i: nat, pkt, depth: nat | i <= |ApplyPlan(e, t, p).cmds| && depth > 0 ::
      var before := Eval(t, e.managed, pkt, depth);
      var now := Eval(RunAll(e, t, ApplyPlan(e, t, p).cmds[..i]), e.managed, pkt, depth);
      now == before || (Owns(e, p, pkt) && now == PeerVerdict(e, p, pkt))
  }

  /** The chain of `p` is in use: some peer in force has it. */
  ghost predicate InUse(e: Env, ps: set<Peer>, p: Peer) {
    exists q :: q in ps && Active(e, q) && Chain(q) == Chain(p)
  }

  /** In a synced table only the chains of peers in force can be reached, and they jump nowhere. */
  lemma SyncedLayered(e: Env, t: Table, ps: set<Peer>, p: Peer)
    requires Synced(e, t, ps) && !InUse(e, ps, p)
    ensures Layered(e, t, Chain(p))
  {
    hide SourceCidr, ChainName, PolicyRules, InCidr, Fields;
    var s := set q | q in ps && Active(e, q) :: Chain(q);
    forall x | JumpsTo(t[e.managed], x) ensures x in s {
      var r :| r in t[e.managed] && r.target == Jump(x);
      var q :| q in ps && Active(e, q) && r == JumpOf(e, q);
    }
    forall d | d in t && d in s ensures Within(t[d], s) {
      var q :| q in ps && Active(e, q) && Chain(q) == d;
      forall x ensures !JumpsTo(t[d], x) {
        PolicyJumpsNowhere(e, Source(e, q), Fields(q.clientAllowedIPs), x);
      }
    }
    assert Within(t[e.managed], s) && Closed(t, s);
  }

  lemma AtomicUnused(e: Env, t: Table, ps: set<Peer>, p: Peer)
    requires Synced(e, t, ps) && !InUse(e, ps, p) && p.enabled && |Source(e, p)| > 0
    ensures Atomic(e, t, p)
  {
    hide SourceCidr, ChainName, RunAll, ApplyPlan, Eval, Owns, PeerVerdict, Layered, JumpsTo, Dispatches;
    SyncedLayered(e, t, ps, p);
    forall i: nat, pkt, depth: nat | i <= |ApplyPlan(e, t, p).cmds| && depth > 0
      ensures var before := Eval(t, e.managed, pkt, depth);
        var now := Eval(RunAll(e, t, ApplyPlan(e, t, p).cmds[..i]), e.managed, pkt, depth);
        now == before || (Owns(e, p, pkt) && now == PeerVerdict(e, p, pkt))
    {
      AtomicActivation(e, t, p, i, pkt, depth);
    }
  }

  lemma OwnNet(c: Cidr)
    requires c.bits <= 32
    ensures InCidr(c.net, c)
  {
  }

  lemma Witness(e: Env, t: Table, p: Peer, i: nat, pkt: Packet, depth: nat)
    requires i <= |ApplyPlan(e, t, p).cmds| && depth > 0
    requires Eval(t, e.managed, pkt, depth) != Returned
    requires Eval(RunAll(e, t, ApplyPlan(e, t, p).cmds[..i]), e.managed, pkt, depth) == Returned
    ensures !Atomic(e, t, p)
  {
    hide ApplyPlan, Eval, RunAll, InCidr, SourceCidr, AllowedTo, Fields;
  }

  /** A packet of a peer in force is decided before, and not after the second command. */
  lemma NotAtomic(e: Env, t: Table, ps: set<Peer>, q: Peer, p: Peer)
    requires Synced(e, t, ps) && DisjointSources(e, ps) && q in ps && Active(e, q) && SrcOf(e, q).bits <= 32
    requires p.enabled && |Source(e, p)| > 0 && Chain(p) == Chain(q)
    ensures !Atomic(e, t, p)
  {
    hide SourceCidr, ChainName, RunAll, ApplyPlan, Eval, JumpsTo, DisjointSources, Synced, InCidr, Atomic, AllowedTo;
    var pkt := Packet("", SrcOf(e, q).net, 0);
    OwnNet(SrcOf(e, q));
    LiveUpdateGap(e, t, ps, q, p, pkt, 1);
    DecidedBefore(e, t, ps, q, pkt);
    Witness(e, t, p, 2, pkt, 1);
  }

  lemma DecidedBefore(e: Env, t: Table, ps: set<Peer>, q: Peer, pkt: Packet)
    requires Synced(e, t, ps) && DisjointSources(e, ps) && q in ps && Owns(e, q, pkt)
    ensures Eval(t, e.managed, pkt, 1) == PeerVerdict(e, q, pkt)
  {
    hide SourceCidr, ChainName, PolicyRules, JumpsTo, InCidr, Walk, DisjointSources;
    DisjointAgree(e, ps);
    DispatchWalk(e, t, t[e.managed], ps, q, pkt, 1);
  }

  /** ApplyPeer on a table in step is atomic exactly when no peer in force uses the chain. */
  lemma AtomicIff(e: Env, t: Table, ps: set<Peer>, p: Peer)
    requires Synced(e, t, ps) && DisjointSources(e, ps) && p.enabled && |Source(e, p)| > 0
    requires forall q :: q in ps && Active(e, q) ==> SrcOf(e, q).bits <= 32
    ensures Atomic(e, t, p) <==> !InUse(e, ps, p)
  {
    hide SourceCidr, ChainName, Synced, DisjointSources, Atomic;
    if InUse(e, ps, p) {
      var q :| q in ps && Active(e, q) && Chain(q) == Chain(p);
      NotAtomic(e, t, ps, q, p);
    } else {
      AtomicUnused(e, t, ps, p);
    }
  }

  lemma InstallStart(e: Env, t: Table, c: string, src: string, cidrs: seq<string>)
    ensures var cmds := InstallPlan(e, t, c, src, cidrs).cmds;
      |cmds| > 2 && cmds[..2] == [New(c), Flush(c)]
  {
    hide RunAll;
    assert FillCmds(c, src, cidrs)[..2] == [New(c), Flush(c)];
  }

  lemma {:induction false} EmptyChainReturns(
    e: Env, t: Table, rules: seq<Rule>, ps: set<Peer>, p: Peer, pkt: Packet, depth: nat)
    requires JumpsOf(e, rules, ps) && DisjointSources(e, ps) && p in ps && Owns(e, p, pkt)
    requires Chain(p) in t && t[Chain(p)] == []
    ensures Walk(t, rules, pkt, depth) == Returned
  {
    hide InCidr, SourceCidr, ChainName;
    if rules != [] {
      assert rules[0] in rules;
      var q :| q in ps && Active(e, q) && rules[0] == JumpOf(e, q);
      assert forall x :: x in rules[1..] ==> x in rules;
      EmptyChainReturns(e, t, rules[1..], ps, p, pkt, depth);
    }
  }
}
