/** The main results on the firewall: policy, rebuild, incremental edits, atomic activation. */
module FirewallTheorems {
  import opened Text
  import opened TextLaws
  import opened Storage
  import opened Iptables
  import opened Firewall
  import opened FirewallEffects
  import opened FirewallMeaning

  // ---------------------------------------------------------------- what a chain decides

  lemma {:induction false} AcceptsWalk(e: Env, t: Table, src: string, cidrs: seq<string>, pkt: Packet, depth: nat)
    requires e.read(src).Some? && InCidr(pkt.src, e.read(src).value)
    ensures Walk(t, AcceptRules(e, src, cidrs), pkt, depth)
         == if AllowedTo(e, cidrs, pkt.dst) then Accepted else Returned
  {
    hide InCidr;
    if cidrs != [] {
      var n := |cidrs| - 1;
      AcceptsWalk(e, t, src, cidrs[..n], pkt, depth);
      var r := ReadSpec(e, AcceptCmd("", src, cidrs[n]).spec);
      var last := if r.Some? then [r.value] else [];
      WalkConcat(t, AcceptRules(e, src, cidrs[..n]), last, pkt, depth);
      assert AllowedTo(e, cidrs, pkt.dst) <==>
        AllowedTo(e, cidrs[..n], pkt.dst) || (e.read(cidrs[n]).Some? && InCidr(pkt.dst, e.read(cidrs[n]).value));
    }
  }

  /**
   * Whose a packet is: the peer's, if it is enabled and has an address, and the packet comes from the host of that
   * address, or from what the address reads as when it cannot be parsed.
   */
  lemma OwnsIff(e: Env, p: Peer, pkt: Packet)
    ensures Owns(e, p, pkt) <==>
      && p.enabled && p.clientAddress != ""
      && var host := e.parseHost(p.clientAddress);
         var text := if host.Some? then host.value + "/32" else p.clientAddress;
         e.read(text).Some? && InCidr(pkt.src, e.read(text).value)
  {
    hide InCidr;
  }

  /** A peer's chain decides every packet that reaches it from the peer's own source. */
  lemma PolicyDecides(e: Env, t: Table, p: Peer, pkt: Packet, depth: nat)
    requires Owns(e, p, pkt)
    ensures Walk(t, PolicyOf(e, p), pkt, depth) == PeerVerdict(e, p, pkt)
  {
    hide InCidr, SourceCidr, Fields, AllowedTo;
    var src, cidrs := Source(e, p), Fields(p.clientAllowedIPs);
    AcceptsWalk(e, t, src, cidrs, pkt, depth);
    WalkConcat(t, AcceptRules(e, src, cidrs), [DROP_RULE], pkt, depth);
  }

  /**
   * The same from the text of the list: a peer whose destinations are written with commas, with or without a blank
   * after each, reaches exactly what the readable ones among them hold.
   */
  lemma ListDecides(e: Env, t: Table, p: Peer, cidrs: seq<string>, gap: string, pkt: Packet, depth: nat)
    requires Owns(e, p, pkt) && gap in {"", " "} && p.clientAllowedIPs == Joined(cidrs, gap)
    requires forall s :: s in cidrs ==> IsItem(s)
    ensures Walk(t, PolicyOf(e, p), pkt, depth) ==
      if exists s :: s in cidrs && e.read(s).Some? && InCidr(pkt.dst, e.read(s).value) then Accepted else Dropped
  {
    hide InCidr, Owns, PolicyOf, Fields, IsItem, Joined;
    FieldsOfList(cidrs, gap);
    PolicyDecides(e, t, p, pkt, depth);
    assert AllowedTo(e, cidrs, pkt.dst) <==>
      exists s :: s in cidrs && e.read(s).Some? && InCidr(pkt.dst, e.read(s).value);
  }

  // ---------------------------------------------------------------- incremental tables

  /** No address belongs to two peers in force. */
  ghost predicate DisjointSources(e: Env, ps: set<Peer>) {
    forall p, q, a: nat | p in ps && q in ps && Active(e, p) && Active(e, q) ::
      InCidr(a, SrcOf(e, p)) && InCidr(a, SrcOf(e, q)) ==> p == q
  }

  /** Peers that share an address treat its packets alike. */
  ghost predicate PoliciesAgree(e: Env, ps: set<Peer>) {
    forall p, q, pkt | p in ps && q in ps && Owns(e, p, pkt) && Owns(e, q, pkt) ::
      PeerVerdict(e, p, pkt) == PeerVerdict(e, q, pkt)
  }

  lemma DisjointAgree(e: Env, ps: set<Peer>)
    requires DisjointSources(e, ps)
    ensures PoliciesAgree(e, ps)
  {
    hide InCidr, SourceCidr, PeerVerdict;
  }

  /** A printed host followed by "/32" is read as one host, and different hosts as different ones. */
  ghost predicate PrintsHosts(e: Env) {
    forall x, y | e.parseHost(x).Some? && e.parseHost(y).Some? ::
      var a, b := e.read(e.parseHost(x).value + "/32"), e.read(e.parseHost(y).value + "/32");
      && (a.Some? ==> a.value.bits == 32)
      && (a.Some? && a == b ==> e.parseHost(x) == e.parseHost(y))
  }

  /** Parsed client addresses of different hosts, whatever mask they carry, are disjoint sources. */
  lemma HostsAreDisjoint(e: Env, ps: set<Peer>)
    requires PrintsHosts(e)
    requires forall p :: p in ps && Active(e, p) ==> e.parseHost(p.clientAddress).Some?
    requires forall p, q | p in ps && q in ps && Active(e, p) && Active(e, q) ::
      e.parseHost(p.clientAddress) == e.parseHost(q.clientAddress) ==> p == q
    ensures DisjointSources(e, ps)
  {
    hide PrintsHosts, Active;
    forall p | p in ps && Active(e, p)
      ensures SrcOf(e, p).bits == 32 && e.read(e.parseHost(p.clientAddress).value + "/32") == Some(SrcOf(e, p))
    {
      HostSource(e, p);
    }
    forall p, q, a: nat | p in ps && q in ps && Active(e, p) && Active(e, q)
      && InCidr(a, SrcOf(e, p)) && InCidr(a, SrcOf(e, q))
      ensures p == q
    {
      OneHost(a, SrcOf(e, p));
      OneHost(a, SrcOf(e, q));
      SameHost(e, p.clientAddress, q.clientAddress);
    }
  }

  lemma HostSource(e: Env, p: Peer)
    requires PrintsHosts(e) && Active(e, p) && e.parseHost(p.clientAddress).Some?
    ensures SrcOf(e, p).bits == 32 && e.read(e.parseHost(p.clientAddress).value + "/32") == Some(SrcOf(e, p))
  {
  }

  lemma SameHost(e: Env, x: string, y: string)
    requires PrintsHosts(e) && e.parseHost(x).Some? && e.parseHost(y).Some?
    requires e.read(e.parseHost(x).value + "/32").Some?
    requires e.read(e.parseHost(x).value + "/32") == e.read(e.parseHost(y).value + "/32")
    ensures e.parseHost(x) == e.parseHost(y)
  {
  }

  lemma OneHost(a: nat, c: Cidr)
    requires c.bits == 32 && InCidr(a, c)
    ensures c == Cidr(a, 32)
  {
    assert Shifted(a, 0) == a && Shifted(c.net, 0) == c.net;
  }

  function Members(peers: seq<Peer>): set<Peer> {
    set p | p in peers
  }

  lemma {:induction false} DispatchWalk(
    e: Env, t: Table, rules: seq<Rule>, ps: set<Peer>, p: Peer, pkt: Packet, depth: nat)
    requires Filled(e, t, ps) && PoliciesAgree(e, ps)
    requires JumpsOf(e, rules, ps)
    requires p in ps && Owns(e, p, pkt) && JumpOf(e, p) in rules
    requires depth > 0
    ensures Walk(t, rules, pkt, depth) == PeerVerdict(e, p, pkt)
  {
    hide InCidr, SourceCidr, ChainName, Fields, PolicyRules;
    var r := rules[0];
    assert r in rules;
    assert rules == [r] + rules[1..];
    var q :| q in ps && Active(e, q) && r == JumpOf(e, q);
    if Matches(r, pkt) {
      assert Owns(e, q, pkt);
      PolicyDecides(e, t, q, pkt, depth - 1);
    } else {
      assert forall x :: x in rules[1..] ==> x in rules;
      DispatchWalk(e, t, rules[1..], ps, p, pkt, depth);
    }
  }

  lemma {:induction false} DispatchSkips(
    e: Env, t: Table, rules: seq<Rule>, ps: set<Peer>, pkt: Packet, depth: nat)
    requires JumpsOf(e, rules, ps)
    requires forall q :: q in ps ==> !Owns(e, q, pkt)
    ensures Walk(t, rules, pkt, depth) == Returned
  {
    hide InCidr, SourceCidr, ChainName;
    if rules != [] {
      assert rules[0] in rules;
      var q :| q in ps && Active(e, q) && rules[0] == JumpOf(e, q);
      assert forall x :: x in rules[1..] ==> x in rules;
      DispatchSkips(e, t, rules[1..], ps, pkt, depth);
    }
  }

  lemma {:induction false} PolicyVerdictOf(e: Env, peers: seq<Peer>, pkt: Packet)
    ensures (forall q :: q in peers ==> !Owns(e, q, pkt)) ==> PolicyVerdict(e, peers, pkt) == Returned
    ensures PoliciesAgree(e, Members(peers)) ==>
      forall p :: p in peers && Owns(e, p, pkt) ==> PolicyVerdict(e, peers, pkt) == PeerVerdict(e, p, pkt)
  {
    hide InCidr, SourceCidr, Fields, AllowedTo;
    if peers != [] {
      PolicyVerdictOf(e, peers[1..], pkt);
      assert peers == [peers[0]] + peers[1..];
      assert Members(peers[1..]) <= Members(peers);
    }
  }

  /** Where policies agree, a synced table gives every packet its verdict, whatever the order of its jumps. */
  lemma SyncedMeansPolicy(e: Env, t: Table, peers: seq<Peer>, pkt: Packet, depth: nat)
    requires Synced(e, t, Members(peers)) && PoliciesAgree(e, Members(peers)) && depth > 0
    ensures Eval(t, e.managed, pkt, depth) == PolicyVerdict(e, peers, pkt)
  {
    hide InCidr, SourceCidr, ChainName, Fields, PolicyRules, Walk, PolicyVerdict, JumpsTo;
    var ps := Members(peers);
    PolicyVerdictOf(e, peers, pkt);
    if p :| p in ps && Owns(e, p, pkt) {
      DispatchWalk(e, t, t[e.managed], ps, p, pkt, depth);
    } else {
      DispatchSkips(e, t, t[e.managed], ps, pkt, depth);
    }
  }

  // ---------------------------------------------------------------- Sync

  ghost predicate DistinctChains(peers: seq<Peer>) {
    forall i, j :: 0 <= i < j < |peers| ==> Chain(peers[i]) != Chain(peers[j])
  }

  /** The chains of other owners: neither ours nor FORWARD. */
  function Foreign(e: Env, t: Table): Table {
    map d | d in t && !IsPeerChain(d) && d != e.managed && d != "FORWARD" :: t[d]
  }

  function Jumps(e: Env, peers: seq<Peer>): seq<Rule> {
    if peers == [] then []
    else (if Active(e, peers[0]) then [JumpOf(e, peers[0])] else []) + Jumps(e, peers[1..])
  }

  lemma {:induction false} JumpsSnoc(e: Env, peers: seq<Peer>, p: Peer)
    ensures Jumps(e, peers + [p]) == Jumps(e, peers) + (if Active(e, p) then [JumpOf(e, p)] else [])
  {
    hide SourceCidr, ChainName;
    if peers == [] {
      assert [] + [p] == [p];
    } else {
      assert (peers + [p])[1..] == peers[1..] + [p];
      JumpsSnoc(e, peers[1..], p);
    }
  }

  lemma {:induction false} JumpsWalk(e: Env, t: Table, peers: seq<Peer>, pkt: Packet, depth: nat)
    requires Filled(e, t, Members(peers)) && depth > 0
    ensures Walk(t, Jumps(e, peers), pkt, depth) == PolicyVerdict(e, peers, pkt)
  {
    hide InCidr, SourceCidr, ChainName, Fields, PolicyRules;
    if peers != [] {
      assert peers[0] in peers;
      assert forall q :: q in peers[1..] ==> q in peers;
      JumpsWalk(e, t, peers[1..], pkt, depth);
      if Active(e, peers[0]) {
        assert Jumps(e, peers)[1..] == Jumps(e, peers[1..]);
        if Owns(e, peers[0], pkt) {
          PolicyDecides(e, t, peers[0], pkt, depth - 1);
        }
      } else {
        assert [] + Jumps(e, peers[1..]) == Jumps(e, peers[1..]);
      }
    }
  }

  /** A peer whose chain is not in use: its jump, if any, goes to the end of the dispatch chain. */
  lemma OneSync(e: Env, t: Table, ps: set<Peer>, p: Peer)
    requires Synced(e, t, ps) && forall q :: q in ps ==> Chain(q) != Chain(p)
    ensures var t' := ApplyT(e, t, p);
      && Synced(e, t', ps + {p})
      && t'.Keys <= t.Keys + {Chain(p)}
      && t'[e.managed] == t[e.managed] + (if Active(e, p) then [JumpOf(e, p)] else [])
      && Foreign(e, t') == Foreign(e, t)
  {
    hide SourceCidr, ChainName, PolicyRules, Fields, RunAll, InstallPlan, JumpsTo, InCidr;
    ApplyKeeps(e, t, ps, p);
    assert Without(ps, Chain(p)) == ps;
    assert !JumpsTo(t[e.managed], Chain(p)) by { UnusedChain(e, t[e.managed], ps, Chain(p)); }
    if !p.enabled {
      assert Detached(e, t[e.managed], p) == t[e.managed] by { DetachedUnused(e, t[e.managed], p); }
      RemovedCompletely(e, t, p);
      assert t[e.managed] + [] == t[e.managed];
    } else if |Source(e, p)| > 0 {
      InstallKeeps(e, t, ps, p);
      assert Active(e, p) ==> JumpOf(e, p) !in t[e.managed] by { UnusedJump(e, t[e.managed], p); }
      assert t[e.managed] + [] == t[e.managed];
    } else {
      RunAllNil(e, t);
      assert t[e.managed] + [] == t[e.managed];
    }
  }

  lemma UnusedChain(e: Env, rules: seq<Rule>, ps: set<Peer>, c: string)
    requires JumpsOf(e, rules, ps) && forall q :: q in ps ==> Chain(q) != c
    ensures !JumpsTo(rules, c)
  {
  }

  lemma UnusedJump(e: Env, rules: seq<Rule>, p: Peer)
    requires !JumpsTo(rules, Chain(p))
    ensures Active(e, p) ==> JumpOf(e, p) !in rules
  {
  }

  lemma DetachedUnused(e: Env, rules: seq<Rule>, p: Peer)
    requires !JumpsTo(rules, Chain(p))
    ensures Detached(e, rules, p) == rules
  {
    hide SourceCidr, ChainName;
    UnjumpedAbsent(rules, Chain(p));
    if e.read(Source(e, p)).Some? {
      RemoveFirstAbsent(rules, JumpRule(e.read(Source(e, p)).value, Chain(p)));
    }
  }

  lemma {:induction false} PeersSync(e: Env, t: Table, peers: seq<Peer>)
    requires Synced(e, t, {}) && DistinctChains(peers)
    ensures var t' := RunAll(e, t, PeersPlan(e, t, peers).cmds);
      && Synced(e, t', Members(peers))
      && t'.Keys <= t.Keys + Expected(peers)
      && t'[e.managed] == Jumps(e, peers)
      && Foreign(e, t') == Foreign(e, t)
  {
    hide ChainName, SourceCidr, Run, Filled, Wired, ApplyPlan, Foreign, Source;
    if peers == [] {
      RunAllNil(e, t);
      assert Members(peers) == {};
      JumpsNeedPeers(e, t[e.managed], {});
    } else {
      var n := |peers| - 1;
      var p := peers[n];
      PeersSync(e, t, peers[..n]);
      var before := PeersPlan(e, t, peers[..n]).cmds;
      var t1 := RunAll(e, t, before);
      assert peers == peers[..n] + [p];
      assert Members(peers) == Members(peers[..n]) + {p};
      ExpectedSnoc(peers[..n], p);
      OneSync(e, t1, Members(peers[..n]), p);
      if !p.enabled {
        DisabledIsRemoved(e, t1, p);
      }
      RunAllConcat(e, t, before, ApplyPlan(e, t1, p).cmds);
      JumpsSnoc(e, peers[..n], p);
    }
  }

  lemma DisabledIsRemoved(e: Env, t: Table, p: Peer)
    requires !p.enabled
    ensures ApplyPlan(e, t, p) == RemovePlan(e, t, p)
  {
  }

  lemma JumpsNeedPeers(e: Env, rules: seq<Rule>, ps: set<Peer>)
    requires JumpsOf(e, rules, ps)
    ensures ps == {} ==> rules == []
  {
    if |rules| > 0 {
      var r := rules[0];
      assert r in rules;
      var p :| p in ps && Active(e, p) && r == JumpOf(e, p);
    }
  }

  // ---------------------------------------------------------------- orphan cleanup

  /** The chains among `names` that no listed peer owns. */
  function Orphans(names: seq<string>, expected: set<string>): set<string> {
    set c | c in names && IsPeerChain(c) && c !in expected
  }

  lemma UnjumpNothing(managed: string, listed: seq<Rule>, c: string)
    requires !JumpsTo(listed, c)
    ensures UnjumpCmds(managed, listed, c) == []
  {
    if listed != [] {
      var n := |listed| - 1;
      assert listed == listed[..n] + [listed[n]];
      UnjumpNothing(managed, listed[..n], c);
    }
  }

  lemma OrphanEffect(e: Env, t: Table, ps: set<Peer>, gone: set<string>, c: string)
    requires Synced(e, t, ps) && IsPeerChain(c) && forall p :: p in ps ==> Chain(p) != c
    requires c !in gone && e.managed !in gone
    ensures RunAll(e, t - gone, OrphanCmds(e.managed, t[e.managed], c)) == t - (gone + {c})
  {
    hide ChainName, SourceCidr, RunAll, JumpsTo;
    UnusedChain(e, t[e.managed], ps, c);
    UnjumpNothing(e.managed, t[e.managed], c);
    assert [] + [Flush(c), Delete(c)] == [Flush(c), Delete(c)];
    EmptyJumps(c);
    FlushDeleteEffect(e, t - gone, c);
    assert (t - gone) - {c} == t - (gone + {c});
    assert c !in t ==> t - gone == t - (gone + {c});
    assert !Referenced((t - gone)[c := []], c);
  }

  lemma {:induction false} CleanupEffect(e: Env, t: Table, peers: seq<Peer>, names: seq<string>)
    requires Synced(e, t, Members(peers))
    ensures RunAll(e, t, CleanupCmds(e.managed, names, t[e.managed], Expected(peers)))
         == t - Orphans(names, Expected(peers))
  {
    hide ChainName, SourceCidr, Run, RunAll, OrphanCmds, Filled, Dispatches;
    var expected := Expected(peers);
    if names == [] {
      RunAllNil(e, t);
      assert t - {} == t;
      assert Orphans(names, expected) == {};
    } else {
      var n := |names| - 1;
      var c := names[n];
      CleanupEffect(e, t, peers, names[..n]);
      var before := CleanupCmds(e.managed, names[..n], t[e.managed], expected);
      var gone := Orphans(names[..n], expected);
      assert names == names[..n] + [c];
      if Orphan(names, n, expected) {
        assert Orphans(names, expected) == gone + {c};
        OrphanEffect(e, t, Members(peers), gone, c);
        RunAllConcat(e, t, before, OrphanCmds(e.managed, t[e.managed], c));
      } else {
        assert Orphans(names, expected) == gone;
        assert before + [] == before;
      }
    }
  }

  lemma SweptStillSynced(e: Env, t: Table, peers: seq<Peer>, names: seq<string>)
    requires Synced(e, t, Members(peers))
    ensures var t' := t - Orphans(names, Expected(peers));
      Synced(e, t', Members(peers)) && t'[e.managed] == t[e.managed] && Foreign(e, t') == Foreign(e, t)
  {
    hide ChainName, SourceCidr, JumpsTo, PolicyRules, Fields, Dispatches;
    var gone := Orphans(names, Expected(peers));
    forall p | p in Members(peers) ensures Chain(p) !in gone {
      assert Chain(p) in Expected(peers);
    }
  }

  // ---------------------------------------------------------------- Sync as a whole

  function SyncT(e: Env, t: Table, peers: seq<Peer>, names: seq<string>): Table {
    RunAll(e, t, SyncPlan(e, t, peers, names).cmds)
  }

  /** `names` is what -S lists when the orphan cleanup starts. */
  ghost predicate Listing(e: Env, t: Table, peers: seq<Peer>, names: seq<string>) {
    forall c :: c in names <==> c in RunAll(e, t, SyncCore(e, t, peers).cmds)
  }

  function Flushed(e: Env, t: Table): Table
    requires "FORWARD" in t
  {
    Ensured(e, t)[e.managed := []]
  }

  lemma FlushedSynced(e: Env, t: Table)
    requires Wired(e, t)
    ensures Synced(e, Flushed(e, t), {}) && Foreign(e, Flushed(e, t)) == Foreign(e, t)
  {
    hide ChainName, SourceCidr;
  }

  lemma SyncCoreEffect(e: Env, t: Table, peers: seq<Peer>)
    requires Wired(e, t) && DistinctChains(peers)
    ensures EnsurePlan(e, t).ok
    ensures var t' := RunAll(e, t, SyncCore(e, t, peers).cmds);
      && Synced(e, t', Members(peers))
      && t'[e.managed] == Jumps(e, peers)
      && Foreign(e, t') == Foreign(e, t)
  {
    hide ChainName, SourceCidr, RunAll, PeersPlan, EnsurePlan, Jumps, Synced, DistinctChains;
    EnsureEffect(e, t);
    var ens := EnsurePlan(e, t).cmds;
    RunAllSnoc(e, t, ens, Flush(e.managed));
    FlushedSynced(e, t);
    PeersSync(e, Flushed(e, t), peers);
    RunAllConcat(e, t, ens + [Flush(e.managed)], PeersPlan(e, Flushed(e, t), peers).cmds);
  }

  /**
   * Sync forgets history. From any wired table: the policy of the list decides every packet of
   * the dispatch chain, no chain is left over, and chains of other owners are untouched.
   */
  lemma SyncRebuilds(e: Env, t: Table, peers: seq<Peer>, names: seq<string>)
    requires Wired(e, t) && DistinctChains(peers) && Listing(e, t, peers, names)
    ensures var t' := SyncT(e, t, peers, names);
      && Synced(e, t', Members(peers)) && NoOrphans(t', Members(peers))
      && Foreign(e, t') == Foreign(e, t)
      && forall pkt, depth: nat :: depth > 0 ==>
           Eval(t', e.managed, pkt, depth) == PolicyVerdict(e, peers, pkt)
  {
    hide ChainName, SourceCidr, RunAll, SyncCore, CleanupCmds, Jumps, Walk, PolicyVerdict, Foreign, EnsurePlan;
    SyncCoreEffect(e, t, peers);
    var t1 := RunAll(e, t, SyncCore(e, t, peers).cmds);
    var t' := t1 - Orphans(names, Expected(peers));
    CleanupEffect(e, t1, peers, names);
    RunAllConcat(e, t, SyncCore(e, t, peers).cmds, CleanupCmds(e.managed, names, t1[e.managed], Expected(peers)));
    assert SyncT(e, t, peers, names) == t';
    SweptStillSynced(e, t1, peers, names);
    forall c | c in t' && IsPeerChain(c) ensures exists p :: p in Members(peers) && Chain(p) == c {
      assert c in Expected(peers);
      var p :| p in peers && Chain(p) == c;
      assert p in Members(peers);
    }
    forall pkt, depth: nat | depth > 0 ensures Eval(t', e.managed, pkt, depth) == PolicyVerdict(e, peers, pkt) {
      JumpsWalk(e, t', peers, pkt, depth);
    }
  }
}
