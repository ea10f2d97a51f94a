/** Two concrete rows on one host: where incremental edits and a rebuild part, and what a live update lets through. */
module FirewallExample {
  import opened Text
  import opened TextLaws
  import opened Storage
  import opened Iptables
  import opened Firewall
  import opened FirewallEffects
  import opened FirewallMeaning
  import opened FirewallTheorems
  import opened FirewallRuns
  import opened FirewallOrder
  import opened FirewallActivation

  const HOST := 0x0A00_0002   // 10.0.0.2

  function ReadText(s: string): Option<Cidr> {
    if s == "10.0.0.2/32" then Some(Cidr(HOST, 32)) else if s == "0.0.0.0/0" then Some(Cidr(0, 0)) else None
  }

  function ParseHost(s: string): Option<string> {
    if s == "10.0.0.2/32" || s == "10.0.0.2/24" then Some("10.0.0.2") else None
  }

  const E := Env("WG_SOCKD_FORWARD", "wg0", s => ReadText(s), s => ParseHost(s))

  function Row(key: string, address: string, destinations: string): Peer {
    Peer(key, "", "", true, false, "", "", None, address, "", "", destinations)
  }

  /** The older row may reach everything, the younger one nothing. The two addresses differ as texts. */
  const OLDER := Row("A", "10.0.0.2/32", "0.0.0.0/0")
  const YOUNGER := Row("B", "10.0.0.2/24", "")
  const ROWS := [OLDER.(enabled := false), YOUNGER]

  const PACKET := Packet("wg0", HOST, 1)

  /** A fresh machine after a rebuild with the older row disabled. */
  const START := RunAll(E, map["FORWARD" := []], SyncCore(E, map["FORWARD" := []], ROWS).cmds)

  lemma Names()
    ensures Chain(OLDER) == "WG_PEER_A" && Chain(ROWS[0]) == "WG_PEER_A" && Chain(YOUNGER) == "WG_PEER_B"
    ensures ValidEnv(E)
  {
    assert Alnums("A") == "A" && Alnums("B") == "B";
    assert E.managed[3] == 'S' && CHAIN_PREFIX[3] == 'P' && E.managed[0] == 'W';
  }

  lemma Sources()
    ensures Source(E, OLDER) == "10.0.0.2/32" && Source(E, YOUNGER) == "10.0.0.2/32"
    ensures Active(E, OLDER) && Active(E, YOUNGER) && SrcOf(E, OLDER) == SrcOf(E, YOUNGER)
    ensures Owns(E, OLDER, PACKET) && Owns(E, YOUNGER, PACKET)
  {
    assert "10.0.0.2" + "/32" == "10.0.0.2/32";
    assert Shifted(HOST, 0) == HOST;
  }

  lemma AllFields()
    ensures Fields("0.0.0.0/0") == ["0.0.0.0/0"]
  {
    hide Fields;
    var all := "0.0.0.0/0";
    assert !IsSpace(all[0]) && !IsSpace(all[|all| - 1]);
    assert TrimSpace(all) == all;
    FieldsOne(all);
  }

  lemma NoFields()
    ensures Fields("") == []
  {
    hide Fields;
    TrimBlank();
    FieldsOne("");
  }

  lemma {:induction false} ZeroShifted(n: nat)
    ensures Shifted(0, n) == 0
  {
    if n > 0 {
      ZeroShifted(n - 1);
    }
  }

  /** 0.0.0.0/0 holds every address, here the packet's. */
  lemma Everything()
    ensures InCidr(PACKET.dst, Cidr(0, 0))
  {
    ZeroShifted(31);
    ZeroShifted(32);
    assert Shifted(1, 32) == Shifted(0, 31);
  }

  lemma Policies()
    ensures PeerVerdict(E, OLDER, PACKET) == Accepted && PeerVerdict(E, YOUNGER, PACKET) == Dropped
  {
    hide Fields, InCidr;
    AllFields();
    NoFields();
    Everything();
    assert E.read(Fields(OLDER.clientAllowedIPs)[0]) == Some(Cidr(0, 0));
  }

  lemma StartIsSynced()
    ensures Synced(E, START, Members(ROWS))
  {
    hide Chain, RunAll, SyncCore, Synced;
    var t0: Table := map["FORWARD" := []];
    Names();
    assert Wired(E, t0);
    SyncCoreEffect(E, t0, ROWS);
  }

  const NOW := [OLDER, YOUNGER]

  /** The incremental table after the older row is enabled. */
  const EDITED := TableAfter(E, START, ROWS, Update(0, OLDER))

  lemma EditedIsSynced()
    ensures Valid(ROWS, Update(0, OLDER)) && RowsAfter(ROWS, Update(0, OLDER)) == NOW
    ensures Synced(E, EDITED, Members(NOW)) && DistinctChains(NOW)
  {
    hide Chain, RunAll, SyncCore, Synced, TableAfter;
    StartIsSynced();
    Names();
    CallKeeps(E, START, ROWS, Update(0, OLDER));
  }

  lemma {:induction false} AnyListing(chains: set<string>) returns (names: seq<string>)
    ensures forall c :: c in names <==> c in chains
  {
    names := [];
    if chains != {} {
      var c :| c in chains;
      names := AnyListing(chains - {c});
      names := names + [c];
    }
  }

  /** Enabling the older row gives its packets the younger row's policy; a rebuild gives them their own. */
  lemma SharedHost() returns (names: seq<string>)
    ensures Synced(E, START, Members(ROWS)) && RowsAfter(ROWS, Update(0, OLDER)) == NOW
    ensures Eval(EDITED, E.managed, PACKET, 1) == Dropped
    ensures Listing(E, EDITED, NOW, names)
    ensures Eval(SyncT(E, EDITED, NOW, names), E.managed, PACKET, 1) == Accepted
  {
    hide Chain, RunAll, SyncCore, Synced, Eval, PolicyVerdict, TableAfter, Active, SrcOf, Owns, PeerVerdict, SyncT;
    StartIsSynced();
    EditedIsSynced();
    Names();
    Sources();
    Policies();
    EnabledGoesLast(E, START, OLDER, YOUNGER, PACKET, 1);
    names := AnyListing(RunAll(E, EDITED, SyncCore(E, EDITED, NOW).cmds).Keys);
    SyncedIsWired(E, EDITED, Members(NOW));
    SyncRebuilds(E, EDITED, NOW, names);
  }

  lemma SyncedIsWired(e: Env, t: Table, ps: set<Peer>)
    requires Synced(e, t, ps)
    ensures Wired(e, t)
  {
  }

  /** Re-applying the younger row, which may reach nothing, leaves its packets undecided after the second command. */
  lemma GapOpens()
    ensures PeerVerdict(E, YOUNGER, PACKET) == Dropped
    ensures Eval(START, E.managed, PACKET, 1) == Dropped
    ensures |ApplyPlan(E, START, YOUNGER).cmds| > 2
    ensures Eval(RunAll(E, START, ApplyPlan(E, START, YOUNGER).cmds[..2]), E.managed, PACKET, 1) == Returned
  {
    hide Chain, RunAll, SyncCore, Synced, Eval, PolicyVerdict, ApplyPlan, SrcOf, Owns, PeerVerdict, DisjointSources;
    StartIsSynced();
    Names();
    Sources();
    Policies();
    OnlyOneInForce();
    assert YOUNGER in Members(ROWS);
    DisjointAgree(E, Members(ROWS));
    SyncedMeansPolicy(E, START, ROWS, PACKET, 1);
    PolicyVerdictOf(E, ROWS, PACKET);
    assert YOUNGER in ROWS;
    LiveUpdateGap(E, START, Members(ROWS), YOUNGER, YOUNGER, PACKET, 1);
  }

  lemma OnlyOneInForce()
    ensures DisjointSources(E, Members(ROWS))
  {
    forall p | p in Members(ROWS) && Active(E, p) ensures p == YOUNGER {
      assert p == ROWS[0] || p == ROWS[1];
    }
  }
}
