/** What the compiled chains mean for packets, and the invariant every handler call keeps. */
module FirewallMeaning {
  import opened Text
  import opened Storage
  import opened Iptables
  import opened Firewall
  import opened FirewallEffects

  // ---------------------------------------------------------------- the policy of a peer list

  predicate Active(e: Env, p: Peer) {
    p.enabled && |Source(e, p)| > 0 && e.read(Source(e, p)).Some?
  }

  function SrcOf(e: Env, p: Peer): Cidr
    requires Active(e, p)
  {
    e.read(Source(e, p)).value
  }

  predicate AllowedTo(e: Env, cidrs: seq<string>, dst: nat) {
    exists i :: 0 <= i < |cidrs| && e.read(cidrs[i]).Some? && InCidr(dst, e.read(cidrs[i]).value)
  }

  /** What a peer may reach: exactly its readable destinations. */
  function PeerVerdict(e: Env, p: Peer, pkt: Packet): Verdict {
    if AllowedTo(e, Fields(p.clientAllowedIPs), pkt.dst) then Accepted else Dropped
  }

  predicate Owns(e: Env, p: Peer, pkt: Packet) {
    Active(e, p) && InCidr(pkt.src, SrcOf(e, p))
  }

  /** The first active peer with the packet's source decides; packets of no peer are left alone. */
  function PolicyVerdict(e: Env, peers: seq<Peer>, pkt: Packet): Verdict {
    if peers == [] then Returned
    else if Owns(e, peers[0], pkt) then PeerVerdict(e, peers[0], pkt)
    else PolicyVerdict(e, peers[1..], pkt)
  }

  // ---------------------------------------------------------------- the invariant

  function JumpOf(e: Env, p: Peer): Rule
    requires Active(e, p)
  {
    JumpRule(SrcOf(e, p), Chain(p))
  }

  function PolicyOf(e: Env, p: Peer): seq<Rule> {
    PolicyRules(e, Source(e, p), Fields(p.clientAllowedIPs))
  }

  /** Only the dispatch chain jumps to peer chains. */
  ghost predicate Wired(e: Env, t: Table) {
    && ValidEnv(e) && "FORWARD" in t
    && forall d, c :: d in t && d != e.managed && IsPeerChain(c) ==> !JumpsTo(t[d], c)
  }

  ghost predicate NoDup<T>(s: seq<T>) {
    forall i, j :: 0 <= i < j < |s| ==> s[i] != s[j]
  }

  /** Every rule is the jump of one of the peers. */
  ghost predicate JumpsOf(e: Env, rules: seq<Rule>, ps: set<Peer>) {
    forall r :: r in rules ==> exists p :: p in ps && Active(e, p) && r == JumpOf(e, p)
  }

  ghost predicate Dispatches(e: Env, rules: seq<Rule>, ps: set<Peer>) {
    && NoDup(rules)
    && JumpsOf(e, rules, ps)
    && (forall p :: p in ps && Active(e, p) ==> JumpOf(e, p) in rules)
  }

  ghost predicate Filled(e: Env, t: Table, ps: set<Peer>) {
    forall p :: p in ps && Active(e, p) ==> Chain(p) in t && t[Chain(p)] == PolicyOf(e, p)
  }

  /** The table enforces the policy of the peers `ps`. */
  ghost predicate Synced(e: Env, t: Table, ps: set<Peer>) {
    && Wired(e, t)
    && FwdRule(e) in t["FORWARD"]
    && e.managed in t && Dispatches(e, t[e.managed], ps)
    && Filled(e, t, ps)
  }

  ghost predicate NoOrphans(t: Table, ps: set<Peer>) {
    forall c :: c in t && IsPeerChain(c) ==> exists p :: p in ps && Chain(p) == c
  }

  function Without(ps: set<Peer>, c: string): set<Peer> {
    set p | p in ps && Chain(p) != c
  }

  /** The old rows of this chain, if in force, were reached from the same source. */
  ghost predicate SameSource(e: Env, ps: set<Peer>, p: Peer) {
    forall q :: q in ps && Chain(q) == Chain(p) && Active(e, q) ==> Source(e, q) == Source(e, p)
  }

  // ---------------------------------------------------------------- removing and installing

  lemma {:induction false} RemoveFirstSet<T>(s: seq<T>, x: T)
    requires NoDup(s)
    ensures NoDup(RemoveFirst(s, x))
    ensures forall y :: y in RemoveFirst(s, x) <==> y in s && y != x
  {
    if s != [] {
      assert s == [s[0]] + s[1..];
      assert forall j :: 0 < j < |s| ==> s[j] == s[1..][j - 1];
      RemoveFirstSet(s[1..], x);
      if s[0] != x {
        var r := RemoveFirst(s[1..], x);
        assert RemoveFirst(s, x) == [s[0]] + r;
        assert s[0] !in r;
      }
    }
  }

  lemma {:induction false} UnjumpedNoDup(s: seq<Rule>, c: string)
    requires NoDup(s)
    ensures NoDup(Unjumped(s, c))
  {
    if s != [] {
      var n := |s| - 1;
      UnjumpedNoDup(s[..n], c);
      UnjumpedAbsent(s[..n], c);
    }
  }

  lemma DetachedDispatch(e: Env, rules: seq<Rule>, ps: set<Peer>, p: Peer)
    requires Dispatches(e, rules, ps)
    requires |Source(e, p)| > 0 ==> SameSource(e, ps, p)
    ensures Dispatches(e, Detached(e, rules, p), Without(ps, Chain(p)))
    ensures forall r :: r in Detached(e, rules, p) <==> r in rules && r.target != Jump(Chain(p))
  {
    hide SourceCidr, ChainName, InCidr;
    var c := Chain(p);
    var rest := Detached(e, rules, p);
    if |Source(e, p)| == 0 {
      UnjumpedNoDup(rules, c);
      UnjumpedAbsent(rules, c);
    } else if e.read(Source(e, p)).Some? {
      RemoveFirstSet(rules, JumpRule(e.read(Source(e, p)).value, c));
    }
  }

  /** In a wired table -X never fails: nothing refers to the chain any more. */
  lemma RemovedCompletely(e: Env, t: Table, p: Peer)
    requires Wired(e, t) && e.managed in t
    requires !JumpsTo(Detached(e, t[e.managed], p), Chain(p))
    ensures RemoveT(e, t, p) == t[e.managed := Detached(e, t[e.managed], p)] - {Chain(p)}
  {
    hide SourceCidr, ChainName, Detached, RemoveT, JumpsTo;
    var c := Chain(p);
    RemoveEffect(e, t, p);
    var t1 := t[e.managed := Detached(e, t[e.managed], p)];
    assert !JumpsTo([], c) by { EmptyJumps(c); }
  }

  lemma EmptyJumps(c: string)
    ensures !JumpsTo([], c)
  {
  }

  lemma RemoveKeeps(e: Env, t: Table, ps: set<Peer>, p: Peer)
    requires Synced(e, t, ps)
    requires |Source(e, p)| > 0 ==> SameSource(e, ps, p)
    ensures Synced(e, RemoveT(e, t, p), Without(ps, Chain(p)))
    ensures RemoveT(e, t, p).Keys == t.Keys - {Chain(p)}
  {
    hide SourceCidr, ChainName, PolicyRules, Fields, Dispatches, Detached, RemoveT, JumpsTo;
    DetachedDispatch(e, t[e.managed], ps, p);
    DetachedForgets(e, t[e.managed], ps, p);
    RemovedCompletely(e, t, p);
  }

  lemma DetachedForgets(e: Env, rules: seq<Rule>, ps: set<Peer>, p: Peer)
    requires Dispatches(e, rules, ps)
    requires |Source(e, p)| > 0 ==> SameSource(e, ps, p)
    ensures !JumpsTo(Detached(e, rules, p), Chain(p))
  {
    hide SourceCidr, ChainName, Detached, Dispatches;
    DetachedDispatch(e, rules, ps, p);
  }

  /** A peer that is not in force demands nothing of the table. */
  lemma InactiveIsFree(e: Env, t: Table, ps: set<Peer>, p: Peer)
    requires Synced(e, t, ps) && !Active(e, p)
    ensures Synced(e, t, ps + {p})
  {
  }

  /** In a synced table ensureDispatchChain finds both the chain and the jump. */
  lemma EnsuredStill(e: Env, t: Table)
    requires "FORWARD" in t && e.managed in t && FwdRule(e) in t["FORWARD"]
    ensures Ensured(e, t) == t
  {
  }

  lemma InstallKeeps(e: Env, t: Table, ps: set<Peer>, p: Peer)
    requires Synced(e, t, ps) && SameSource(e, ps, p)
    requires p.enabled && |Source(e, p)| > 0
    ensures ApplyT(e, t, p) == Jumped(e, t[Chain(p) := PolicyOf(e, p)], Chain(p), Source(e, p))
    ensures Synced(e, ApplyT(e, t, p), Without(ps, Chain(p)) + {p})
    ensures ApplyT(e, t, p).Keys == t.Keys + {Chain(p)}
  {
    hide SourceCidr, ChainName, PolicyRules, Fields, RunAll, InstallPlan, JumpsTo, WithJump, Dispatches;
    var c, src := Chain(p), Source(e, p);
    InstallEffect(e, t, c, src, Fields(p.clientAllowedIPs));
    var t1 := t[c := PolicyOf(e, p)];
    EnsuredStill(e, t1);
    var t2 := Jumped(e, t1, c, src);
    var ps' := Without(ps, c) + {p};
    assert ApplyT(e, t, p) == t2;
    assert Wired(e, t2) by { InstallWired(e, t, p); }
    assert Filled(e, t2, ps');
    InstallDispatches(e, t[e.managed], ps, p);
  }

  lemma {:induction false} PolicyJumpsNowhere(e: Env, src: string, cidrs: seq<string>, c: string)
    ensures !JumpsTo(PolicyRules(e, src, cidrs), c)
  {
    if cidrs != [] {
      PolicyJumpsNowhere(e, src, cidrs[..|cidrs| - 1], c);
      var before := PolicyRules(e, src, cidrs[..|cidrs| - 1]);
      forall r | r in AcceptRules(e, src, cidrs) ensures r.target != Jump(c) {
        assert r.target == Accept || r in before;
      }
    }
  }

  lemma InstallWired(e: Env, t: Table, p: Peer)
    requires Wired(e, t) && e.managed in t
    ensures Wired(e, Jumped(e, t[Chain(p) := PolicyOf(e, p)], Chain(p), Source(e, p)))
  {
    hide SourceCidr, ChainName, PolicyRules, Fields, JumpsTo;
    var t2 := Jumped(e, t[Chain(p) := PolicyOf(e, p)], Chain(p), Source(e, p));
    forall d, c | d in t2 && d != e.managed && IsPeerChain(c) ensures !JumpsTo(t2[d], c) {
      PolicyJumpsNowhere(e, Source(e, p), Fields(p.clientAllowedIPs), c);
    }
  }

  lemma InstallDispatches(e: Env, rules: seq<Rule>, ps: set<Peer>, p: Peer)
    requires Dispatches(e, rules, ps) && SameSource(e, ps, p)
    requires p.enabled && |Source(e, p)| > 0
    ensures Dispatches(e, WithJump(e, rules, Chain(p), Source(e, p)), Without(ps, Chain(p)) + {p})
  {
    hide SourceCidr, ChainName;
    var c := Chain(p);
    var ps' := Without(ps, c) + {p};
    forall r | r in WithJump(e, rules, c, Source(e, p))
      ensures exists q :: q in ps' && Active(e, q) && r == JumpOf(e, q)
    {
      if r in rules {
        var q :| q in ps && Active(e, q) && r == JumpOf(e, q);
        assert (if Chain(q) == c then p else q) in ps';
      } else {
        assert Active(e, p) && r == JumpOf(e, p);
      }
    }
  }

  /** One call of ApplyPeer, whatever the peer: its own chain now enforces the new row. */
  lemma ApplyKeeps(e: Env, t: Table, ps: set<Peer>, p: Peer)
    requires Synced(e, t, ps) && SameSource(e, ps, p)
    ensures Synced(e, ApplyT(e, t, p), Without(ps, Chain(p)) + {p})
    ensures ApplyT(e, t, p).Keys <= t.Keys + {Chain(p)}
  {
    hide SourceCidr, ChainName, RunAll, PolicyRules, Fields;
    if !p.enabled {
      RemoveKeeps(e, t, ps, p);
      InactiveIsFree(e, RemoveT(e, t, p), Without(ps, Chain(p)), p);
    } else if |Source(e, p)| == 0 {
      RunAllNil(e, t);
      NoneActive(e, t, ps, p);
    } else {
      InstallKeeps(e, t, ps, p);
    }
  }

  /** With an empty source nothing of this chain can have been in force. */
  lemma NoneActive(e: Env, t: Table, ps: set<Peer>, p: Peer)
    requires Synced(e, t, ps) && SameSource(e, ps, p) && |Source(e, p)| == 0
    ensures Synced(e, t, Without(ps, Chain(p)) + {p})
  {
    hide SourceCidr, ChainName, PolicyRules, Fields, JumpsTo, InCidr;
    var ps' := Without(ps, Chain(p)) + {p};
    forall r | r in t[e.managed] ensures exists q :: q in ps' && Active(e, q) && r == JumpOf(e, q) {
      var q :| q in ps && Active(e, q) && r == JumpOf(e, q);
      assert q in ps';
    }
  }

  // ---------------------------------------------------------------- what the rules depend on

  predicate SameForce(p: Peer, q: Peer) {
    && p.publicKey == q.publicKey && p.enabled == q.enabled
    && p.clientAddress == q.clientAddress && p.clientAllowedIPs == q.clientAllowedIPs
  }

  /** The rules depend on the peers in force only, and only on four of their columns. */
  lemma SyncedTransfer(e: Env, t: Table, ps: set<Peer>, qs: set<Peer>)
    requires Synced(e, t, ps)
    requires forall p :: p in ps && Active(e, p) ==> exists q :: q in qs && SameForce(p, q)
    requires forall q :: q in qs && Active(e, q) ==> exists p :: p in ps && SameForce(p, q)
    ensures Synced(e, t, qs)
  {
    hide SourceCidr, ChainName, PolicyRules, Fields, JumpsTo, InCidr;
    forall r | r in t[e.managed] ensures exists q :: q in qs && Active(e, q) && r == JumpOf(e, q) {
      var p :| p in ps && Active(e, p) && r == JumpOf(e, p);
      var q :| q in qs && SameForce(p, q);
      assert Active(e, q) && r == JumpOf(e, q);
    }
    forall q | q in qs && Active(e, q)
      ensures JumpOf(e, q) in t[e.managed] && Chain(q) in t && t[Chain(q)] == PolicyOf(e, q)
    {
      var p :| p in ps && SameForce(p, q);
      assert Active(e, p) && JumpOf(e, p) == JumpOf(e, q);
    }
  }
}
