/** The order of the jumps depends on the history; exactly when packets can tell. */
module FirewallOrder {
  import opened Text
  import opened Storage
  import opened Iptables
  import opened Firewall
  import opened FirewallEffects
  import opened FirewallMeaning
  import opened FirewallTheorems
  import opened FirewallRuns

  // ---------------------------------------------------------------- what stands before a rule

  function Ahead(rules: seq<Rule>, a: Rule): set<Rule> {
    if rules == [] || rules[0] == a then {} else {rules[0]} + Ahead(rules[1..], a)
  }

  lemma {:induction false} AheadIn(rules: seq<Rule>, a: Rule)
    ensures forall r :: r in Ahead(rules, a) ==> r in rules && r != a
    ensures rules != [] && Ahead(rules, a) == {} ==> rules[0] == a
  {
    if rules != [] && rules[0] != a {
      AheadIn(rules[1..], a);
      assert rules[0] in Ahead(rules, a);
    }
  }

  lemma {:induction false} AheadSnoc(rules: seq<Rule>, a: Rule, r: Rule)
    requires a in rules
    ensures Ahead(rules + [r], a) == Ahead(rules, a)
  {
    assert (rules + [r])[0] == rules[0];
    if rules[0] != a {
      assert (rules + [r])[1..] == rules[1..] + [r];
      assert rules == [rules[0]] + rules[1..];
      AheadSnoc(rules[1..], a, r);
    }
  }

  lemma {:induction false} AheadRemove(rules: seq<Rule>, a: Rule, r: Rule)
    requires a != r
    ensures Ahead(RemoveFirst(rules, r), a) <= Ahead(rules, a)
  {
    if rules != [] && rules[0] != r {
      AheadRemove(rules[1..], a, r);
      var rest := RemoveFirst(rules[1..], r);
      assert ([rules[0]] + rest)[1..] == rest;
    }
  }

  // ---------------------------------------------------------------- disabling and enabling one row

  function Off(p: Peer): Peer {
    p.(enabled := false)
  }

  function Toggled(e: Env, t: Table, peers: seq<Peer>, j: nat): World
    requires j < |peers|
  {
    var w1 := Next(e, World(t, peers), Update(j, Off(peers[j])));
    Next(e, w1, Update(j, peers[j]))
  }

  lemma OffKeepsChains(peers: seq<Peer>, j: nat)
    requires j < |peers| && DistinctChains(peers)
    ensures DistinctChains(peers[j := Off(peers[j])]) && peers[j := Off(peers[j])][j := peers[j]] == peers
  {
    hide ChainName;
  }

  /** Disabling takes the row's own jump out of the dispatch chain. */
  lemma OffEffect(e: Env, t: Table, peers: seq<Peer>, j: nat)
    requires Synced(e, t, Members(peers)) && DistinctChains(peers) && j < |peers| && Active(e, peers[j])
    ensures var t1 := TableAfter(e, t, peers, Update(j, Off(peers[j])));
      && e.managed in t1 && t1[e.managed] == RemoveFirst(t[e.managed], JumpOf(e, peers[j]))
  {
    hide ChainName, SourceCidr, RunAll, JumpsTo, Detached, RemovePlan, InstallPlan, Filled, Dispatches;
    var off := Off(peers[j]);
    OwnSource(e, peers, j, off);
    DetachedForgets(e, t[e.managed], Members(peers), off);
    RemovedCompletely(e, t, off);
    OffDetached(e, t[e.managed], peers[j]);
  }

  lemma OffDetached(e: Env, rules: seq<Rule>, p: Peer)
    requires Active(e, p)
    ensures Detached(e, rules, Off(p)) == RemoveFirst(rules, JumpOf(e, p))
  {
    hide ChainName, SourceCidr, RemoveFirst;
  }

  /** Enabling it again puts the jump at the end. */
  lemma OnEffect(e: Env, t: Table, peers: seq<Peer>, j: nat)
    requires j < |peers| && DistinctChains(peers) && Active(e, peers[j])
    requires Synced(e, t, Members(peers[j := Off(peers[j])])) && JumpOf(e, peers[j]) !in t[e.managed]
    ensures var t1 := TableAfter(e, t, peers[j := Off(peers[j])], Update(j, peers[j]));
      && e.managed in t1 && t1[e.managed] == t[e.managed] + [JumpOf(e, peers[j])]
  {
    hide ChainName, SourceCidr, RunAll, JumpsTo, PolicyRules, Fields, InstallPlan, Filled, Dispatches;
    hide ApplyT, DistinctChains;
    var off := Off(peers[j]);
    var rows := peers[j := off];
    OffKeepsChains(peers, j);
    OffInactive(e, peers[j]);
    OwnSource(e, rows, j, peers[j]);
    InstallKeeps(e, t, Members(rows), peers[j]);
  }

  lemma OffInactive(e: Env, p: Peer)
    ensures !Active(e, Off(p)) && Chain(Off(p)) == Chain(p)
  {
  }

  /** Both together: the table stays in step, and the row's jump is no longer ahead of another's. */
  lemma ToggleEffect(e: Env, t: Table, peers: seq<Peer>, j: nat, a: Rule)
    requires Synced(e, t, Members(peers)) && DistinctChains(peers) && j < |peers| && Active(e, peers[j])
    requires a in t[e.managed] && a != JumpOf(e, peers[j])
    ensures var w := Toggled(e, t, peers, j);
      && w.peers == peers && Synced(e, w.t, Members(peers)) && a in w.t[e.managed]
      && Ahead(w.t[e.managed], a) <= Ahead(t[e.managed], a) - {JumpOf(e, peers[j])}
  {
    hide Synced, TableAfter, DistinctChains, ChainName, SourceCidr, RemoveFirst, Ahead, Active;
    NoDuplicates(e, t, Members(peers));
    var off, jump := Off(peers[j]), JumpOf(e, peers[j]);
    var rules := t[e.managed];
    OffKeepsChains(peers, j);
    CallKeeps(e, t, peers, Update(j, off));
    var t1 := TableAfter(e, t, peers, Update(j, off));
    OffEffect(e, t, peers, j);
    RemoveFirstSet(rules, jump);
    AheadRemove(rules, a, jump);
    AheadIn(t1[e.managed], a);
    CallKeeps(e, t1, peers[j := off], Update(j, peers[j]));
    OnEffect(e, t1, peers, j);
    AheadSnoc(t1[e.managed], a, jump);
  }

  lemma NoDuplicates(e: Env, t: Table, ps: set<Peer>)
    requires Synced(e, t, ps)
    ensures e.managed in t && NoDup(t[e.managed])
  {
  }

  lemma TwoCalls(e: Env, t: Table, peers: seq<Peer>, j: nat, calls: seq<Call>)
    requires DistinctChains(peers) && j < |peers|
    requires Toggled(e, t, peers, j).peers == peers && RunOk(e, Toggled(e, t, peers, j), calls)
    ensures var all := [Update(j, Off(peers[j])), Update(j, peers[j])] + calls;
      && RunOk(e, World(t, peers), all)
      && RunCalls(e, World(t, peers), all) == RunCalls(e, Toggled(e, t, peers, j), calls)
  {
    hide TableAfter, DistinctChains;
    OffKeepsChains(peers, j);
    var one, two := Update(j, Off(peers[j])), Update(j, peers[j]);
    var all := [one, two] + calls;
    assert all[1..] == [two] + calls && ([two] + calls)[1..] == calls;
    var w1 := Next(e, World(t, peers), one);
    assert RunOk(e, w1, [two] + calls);
  }

  // ---------------------------------------------------------------- the run

  /** The rules ahead of the jump of row x that belong to rows from j on. */
  ghost predicate Behind(e: Env, rules: seq<Rule>, peers: seq<Peer>, x: nat, j: nat)
    requires x < |peers| && Active(e, peers[x])
  {
    forall i :: j <= i < |peers| && i != x && Active(e, peers[i]) ==>
      JumpOf(e, peers[i]) !in Ahead(rules, JumpOf(e, peers[x]))
  }

  /** The run keeps rows and table in step, and leaves ahead of row x at most what was there, from no row from j on. */
  ghost predicate MovesBack(e: Env, t: Table, peers: seq<Peer>, x: nat, j: nat, calls: seq<Call>) {
    && x < |peers| && Active(e, peers[x]) && e.managed in t
    && RunOk(e, World(t, peers), calls)
    && var w := RunCalls(e, World(t, peers), calls);
       && w.peers == peers && Synced(e, w.t, Members(peers)) && Behind(e, w.t[e.managed], peers, x, j)
       && Ahead(w.t[e.managed], JumpOf(e, peers[x])) <= Ahead(t[e.managed], JumpOf(e, peers[x]))
  }

  lemma AllDone(e: Env, t: Table, peers: seq<Peer>, x: nat)
    requires Synced(e, t, Members(peers)) && DistinctChains(peers) && x < |peers| && Active(e, peers[x])
    ensures MovesBack(e, t, peers, x, |peers|, [])
  {
    hide DistinctChains, ChainName, SourceCidr, Active, Ahead, JumpOf, Behind, RunOk, RunCalls, Filled, Dispatches;
    NoCalls(e, World(t, peers));
    NoneBehind(e, t[e.managed], peers, x);
  }

  lemma RowPassed(e: Env, t: Table, peers: seq<Peer>, x: nat, j: nat, calls: seq<Call>)
    requires MovesBack(e, t, peers, x, j + 1, calls) && j < |peers| && (j == x || !Active(e, peers[j]))
    ensures MovesBack(e, t, peers, x, j, calls)
  {
    hide DistinctChains, ChainName, SourceCidr, Active, Ahead, JumpOf, Behind, RunOk, RunCalls, Filled, Dispatches;
    OneMoreBehind(e, RunCalls(e, World(t, peers), calls).t[e.managed], peers, x, j);
  }

  lemma RowToggled(e: Env, t: Table, peers: seq<Peer>, x: nat, j: nat, calls: seq<Call>)
    requires Synced(e, t, Members(peers)) && DistinctChains(peers)
    requires x < |peers| && j < |peers| && j != x && Active(e, peers[x]) && Active(e, peers[j])
    requires MovesBack(e, Toggled(e, t, peers, j).t, peers, x, j + 1, calls)
    ensures MovesBack(e, t, peers, x, j, [Update(j, Off(peers[j])), Update(j, peers[j])] + calls)
  {
    hide DistinctChains, ChainName, SourceCidr, Active, Ahead, JumpOf, Behind, RunOk, RunCalls, Synced, Toggled;
    OwnJump(e, t, peers, x);
    OtherJump(e, peers, x, j);
    ToggleEffect(e, t, peers, j, JumpOf(e, peers[x]));
    var w := Toggled(e, t, peers, j);
    assert w == World(w.t, peers);
    TwoCalls(e, t, peers, j, calls);
    OwnJump(e, RunCalls(e, w, calls).t, peers, x);
    OneMoreBehind(e, RunCalls(e, w, calls).t[e.managed], peers, x, j);
  }

  lemma ToggledSynced(e: Env, t: Table, peers: seq<Peer>, x: nat, j: nat)
    requires Synced(e, t, Members(peers)) && DistinctChains(peers)
    requires x < |peers| && j < |peers| && j != x && Active(e, peers[x]) && Active(e, peers[j])
    ensures Synced(e, Toggled(e, t, peers, j).t, Members(peers))
  {
    hide DistinctChains, ChainName, SourceCidr, Active, Ahead, JumpOf, Synced, Toggled;
    OwnJump(e, t, peers, x);
    OtherJump(e, peers, x, j);
    ToggleEffect(e, t, peers, j, JumpOf(e, peers[x]));
  }

  /** Toggling the rows from j on, all but x, moves their jumps behind that of x. */
  lemma {:induction false} ToggleRest(e: Env, t: Table, peers: seq<Peer>, x: nat, j: nat) returns (calls: seq<Call>)
    requires Synced(e, t, Members(peers)) && DistinctChains(peers)
    requires x < |peers| && j <= |peers| && Active(e, peers[x])
    ensures MovesBack(e, t, peers, x, j, calls)
    decreases |peers| - j
  {
    hide Synced, DistinctChains, Active, Toggled, MovesBack;
    if j == |peers| {
      calls := [];
      AllDone(e, t, peers, x);
    } else if j == x || !Active(e, peers[j]) {
      calls := ToggleRest(e, t, peers, x, j + 1);
      RowPassed(e, t, peers, x, j, calls);
    } else {
      ToggledSynced(e, t, peers, x, j);
      calls := ToggleRest(e, Toggled(e, t, peers, j).t, peers, x, j + 1);
      RowToggled(e, t, peers, x, j, calls);
      calls := [Update(j, Off(peers[j])), Update(j, peers[j])] + calls;
    }
  }

  lemma NoCalls(e: Env, w: World)
    requires DistinctChains(w.peers)
    ensures RunOk(e, w, []) && RunCalls(e, w, []) == w
  {
  }

  lemma NoneBehind(e: Env, rules: seq<Rule>, peers: seq<Peer>, x: nat)
    requires x < |peers| && Active(e, peers[x])
    ensures Behind(e, rules, peers, x, |peers|)
  {
  }

  lemma OneMoreBehind(e: Env, rules: seq<Rule>, peers: seq<Peer>, x: nat, j: nat)
    requires x < |peers| && j < |peers| && Active(e, peers[x]) && Behind(e, rules, peers, x, j + 1)
    requires j != x && Active(e, peers[j]) ==> JumpOf(e, peers[j]) !in Ahead(rules, JumpOf(e, peers[x]))
    ensures Behind(e, rules, peers, x, j)
  {
  }

  lemma OwnJump(e: Env, t: Table, peers: seq<Peer>, x: nat)
    requires Synced(e, t, Members(peers)) && x < |peers| && Active(e, peers[x])
    ensures e.managed in t && JumpOf(e, peers[x]) in t[e.managed]
    ensures Chain(peers[x]) in t && t[Chain(peers[x])] == PolicyOf(e, peers[x])
  {
    hide ChainName, SourceCidr, JumpsTo;
    assert peers[x] in Members(peers);
  }

  lemma OtherJump(e: Env, peers: seq<Peer>, x: nat, j: nat)
    requires DistinctChains(peers) && x < |peers| && j < |peers| && x != j
    requires Active(e, peers[x]) && Active(e, peers[j])
    ensures JumpOf(e, peers[x]) != JumpOf(e, peers[j])
  {
    hide ChainName, SourceCidr;
    var i, k := if x < j then x else j, if x < j then j else x;
    assert Chain(peers[i]) != Chain(peers[k]);
  }

  /** With every other row behind it, the jump comes first. */
  lemma NothingAhead(e: Env, t: Table, peers: seq<Peer>, x: nat)
    requires Synced(e, t, Members(peers)) && x < |peers| && Active(e, peers[x])
    requires Behind(e, t[e.managed], peers, x, 0)
    ensures |t[e.managed]| > 0 && t[e.managed][0] == JumpOf(e, peers[x])
  {
    hide ChainName, SourceCidr, Ahead, JumpsTo, Active, Synced, JumpOf;
    OwnJump(e, t, peers, x);
    var rules, a := t[e.managed], JumpOf(e, peers[x]);
    AheadIn(rules, a);
    if r :| r in Ahead(rules, a) {
      var i := AheadIsOther(e, t, peers, x, r);
      assert false;
    }
    assert Ahead(rules, a) == {};
  }

  lemma AheadIsOther(e: Env, t: Table, peers: seq<Peer>, x: nat, r: Rule) returns (i: nat)
    requires Synced(e, t, Members(peers)) && x < |peers| && Active(e, peers[x])
    requires r in Ahead(t[e.managed], JumpOf(e, peers[x]))
    ensures i < |peers| && i != x && Active(e, peers[i]) && r == JumpOf(e, peers[i])
  {
    hide ChainName, SourceCidr, Ahead, JumpsTo, Active, Filled;
    AheadIn(t[e.managed], JumpOf(e, peers[x]));
    var p :| p in Members(peers) && Active(e, p) && r == JumpOf(e, p);
    i :| 0 <= i < |peers| && peers[i] == p;
  }

  /**
   * The order of the jumps is history: by disabling and enabling the other rows, which changes no row in
   * the end, any owner of a packet can be made the one whose policy decides it.
   */
  lemma SharedSourceDiverges(e: Env, t: Table, peers: seq<Peer>, x: nat, pkt: Packet) returns (calls: seq<Call>)
    requires Synced(e, t, Members(peers)) && DistinctChains(peers) && x < |peers| && Owns(e, peers[x], pkt)
    ensures RunOk(e, World(t, peers), calls) && RunCalls(e, World(t, peers), calls).peers == peers
    ensures forall depth: nat :: depth > 0 ==>
      Eval(RunCalls(e, World(t, peers), calls).t, e.managed, pkt, depth) == PeerVerdict(e, peers[x], pkt)
  {
    hide Synced, DistinctChains, ChainName, SourceCidr, RunOk, RunCalls, PeerVerdict, InCidr, PolicyOf, Walk;
    calls := ToggleRest(e, t, peers, x, 0);
    var t' := RunCalls(e, World(t, peers), calls).t;
    OwnerActive(e, peers[x], pkt);
    NothingAhead(e, t', peers, x);
    OwnJump(e, t', peers, x);
    forall depth: nat | depth > 0 ensures Eval(t', e.managed, pkt, depth) == PeerVerdict(e, peers[x], pkt) {
      FirstJumpDecides(e, t', t'[e.managed], peers[x], pkt, depth);
    }
  }

  lemma OwnerActive(e: Env, p: Peer, pkt: Packet)
    requires Owns(e, p, pkt)
    ensures Active(e, p)
  {
  }

  /** Every run of handler calls that ends in the same rows gives every packet the verdict of a rebuild. */
  ghost predicate AlwaysAsRebuilt(e: Env, t: Table, peers: seq<Peer>) {
    forall calls, pkt, depth: nat | RunOk(e, World(t, peers), calls) && depth > 0 ::
      RunCalls(e, World(t, peers), calls).peers == peers ==>
        Eval(RunCalls(e, World(t, peers), calls).t, e.managed, pkt, depth) == PolicyVerdict(e, peers, pkt)
  }

  /**
   * Exactly when incremental edits cannot be told from a rebuild: when peers that share an address treat
   * its packets alike. Distinct hosts are such peers; client_address is UNIQUE only as text.
   */
  lemma RebuildIff(e: Env, t: Table, peers: seq<Peer>)
    requires Synced(e, t, Members(peers)) && DistinctChains(peers)
    ensures AlwaysAsRebuilt(e, t, peers) <==> PoliciesAgree(e, Members(peers))
  {
    hide Synced, DistinctChains, ChainName, SourceCidr, RunOk, RunCalls, PolicyVerdict, PeerVerdict, Eval, Owns;
    if PoliciesAgree(e, Members(peers)) {
      forall calls, pkt, depth: nat | RunOk(e, World(t, peers), calls) && depth > 0
        && RunCalls(e, World(t, peers), calls).peers == peers
        ensures Eval(RunCalls(e, World(t, peers), calls).t, e.managed, pkt, depth) == PolicyVerdict(e, peers, pkt)
      {
        RunKeeps(e, World(t, peers), calls);
        SyncedMeansPolicy(e, RunCalls(e, World(t, peers), calls).t, peers, pkt, depth);
      }
    } else {
      var p, q, pkt :| p in Members(peers) && q in Members(peers) && Owns(e, p, pkt) && Owns(e, q, pkt)
        && PeerVerdict(e, p, pkt) != PeerVerdict(e, q, pkt);
      var other := if PeerVerdict(e, p, pkt) == PolicyVerdict(e, peers, pkt) then q else p;
      var x :| 0 <= x < |peers| && peers[x] == other;
      var calls := SharedSourceDiverges(e, t, peers, x, pkt);
      assert Eval(RunCalls(e, World(t, peers), calls).t, e.managed, pkt, 1) != PolicyVerdict(e, peers, pkt);
    }
  }

  // ---------------------------------------------------------------- the simplest case

  /** Two rows on one source: enabling the older one puts its jump last, while a rebuild would put it first. */
  lemma EnabledGoesLast(e: Env, t: Table, a: Peer, b: Peer, pkt: Packet, depth: nat)
    requires Active(e, a) && Active(e, b) && SrcOf(e, a) == SrcOf(e, b) && Chain(a) != Chain(b)
    requires Synced(e, t, Members([a.(enabled := false), b]))
    requires Owns(e, a, pkt) && depth > 0
    ensures var t' := TableAfter(e, t, [a.(enabled := false), b], Update(0, a));
      Eval(t', e.managed, pkt, depth) == PeerVerdict(e, b, pkt)
    ensures PolicyVerdict(e, [a, b], pkt) == PeerVerdict(e, a, pkt)
  {
    hide ChainName, SourceCidr, Fields, PolicyRules, InCidr, ApplyT, AllowedTo, JumpsTo, Walk;
    var off := a.(enabled := false);
    var ps := Members([off, b]);
    assert ps == {off, b};
    assert t[e.managed] == [JumpOf(e, b)] by { OnlyJump(e, t[e.managed], ps, b); }
    InstallKeeps(e, t, ps, a);
    var t' := ApplyT(e, t, a);
    assert t'[e.managed] == [JumpOf(e, b), JumpOf(e, a)];
    assert t'[Chain(b)] == PolicyOf(e, b);
    FirstJumpDecides(e, t', t'[e.managed], b, pkt, depth);
  }

  lemma FirstJumpDecides(e: Env, t: Table, rules: seq<Rule>, b: Peer, pkt: Packet, depth: nat)
    requires Owns(e, b, pkt) && |rules| > 0 && rules[0] == JumpOf(e, b)
    requires Chain(b) in t && t[Chain(b)] == PolicyOf(e, b) && depth > 0
    ensures Walk(t, rules, pkt, depth) == PeerVerdict(e, b, pkt)
  {
    hide ChainName, SourceCidr, Fields, PolicyRules, InCidr, AllowedTo;
    PolicyDecides(e, t, b, pkt, depth - 1);
  }

  lemma OnlyJump(e: Env, rules: seq<Rule>, ps: set<Peer>, b: Peer)
    requires Dispatches(e, rules, ps) && b in ps && Active(e, b)
    requires forall p :: p in ps && Active(e, p) ==> p == b
    ensures rules == [JumpOf(e, b)]
  {
    hide ChainName, SourceCidr;
    forall i | 0 <= i < |rules| ensures rules[i] == JumpOf(e, b) {
      assert rules[i] in rules;
      var p :| p in ps && Active(e, p) && rules[i] == JumpOf(e, p);
    }
    assert JumpOf(e, b) in rules;
    if |rules| > 1 {
      RepeatsItself(rules, JumpOf(e, b));
    }
  }

  lemma RepeatsItself<T>(s: seq<T>, x: T)
    requires |s| > 1 && forall i :: 0 <= i < |s| ==> s[i] == x
    ensures !NoDup(s)
  {
    assert s[0] == s[1];
  }
}
