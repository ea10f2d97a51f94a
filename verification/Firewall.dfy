/**
 * The per-peer firewall compiler. Every operation is specified by a plan: the exact commands it
 * issues on a given table, and whether it reports success. The class issues them one at a time.
 */
module Firewall {
  import opened Text
  import opened Storage
  import opened Iptables

  datatype Plan = Plan(cmds: seq<Cmd>, ok: bool)

  // ---------------------------------------------------------------- names and sources

  predicate IsAlnum(c: char) {
    'a' <= c <= 'z' || 'A' <= c <= 'Z' || '0' <= c <= '9'
  }

  function Alnums(s: string): string {
    if s == "" then "" else (if IsAlnum(s[0]) then [s[0]] else "") + Alnums(s[1..])
  }

  function Take(s: string, n: nat): string {
    if |s| <= n then s else s[..n]
  }

  const CHAIN_PREFIX := "WG_PEER_"

  function ChainName(pubKey: string): string {
    CHAIN_PREFIX + Take(Alnums(pubKey), 16)
  }

  predicate IsPeerChain(c: string) {
    HasPrefix(c, CHAIN_PREFIX)
  }

  function Chain(p: Peer): (c: string)
    ensures IsPeerChain(c)
  {
    ChainName(p.publicKey)
  }

  function SourceCidr(e: Env, clientAddress: string): string {
    if clientAddress == "" then ""
    else
      match e.parseHost(clientAddress)
      case None => clientAddress
      case Some(ip) => ip + "/32"
  }

  function Source(e: Env, p: Peer): string {
    SourceCidr(e, p.clientAddress)
  }

  /** The ASCII letters and digits, by code. */
  predicate LetterOrDigit(c: char) {
    48 <= c as int <= 57 || 65 <= c as int <= 90 || 97 <= c as int <= 122
  }

  /** How many letters and digits a key has. */
  function AlnumCount(s: string): nat {
    if s == "" then 0 else (if LetterOrDigit(s[0]) then 1 else 0) + AlnumCount(s[1..])
  }

  lemma AlnumIff(c: char)
    ensures IsAlnum(c) <==> LetterOrDigit(c)
  {
  }

  lemma {:induction false} AlnumsLength(s: string)
    ensures |Alnums(s)| == AlnumCount(s)
    ensures forall c :: c in Alnums(s) ==> LetterOrDigit(c)
  {
    hide IsAlnum;
    if s != "" {
      AlnumIff(s[0]);
      AlnumsLength(s[1..]);
    }
  }

  /** A chain name is the prefix and letters and digits: 16 of them if the key has as many, else all it has. */
  lemma ChainNameLength(key: string)
    ensures |ChainName(key)| == |"WG_PEER_"| + if AlnumCount(key) >= 16 then 16 else AlnumCount(key)
    ensures ChainName(key)[..8] == "WG_PEER_"
    ensures forall i :: 8 <= i < |ChainName(key)| ==> LetterOrDigit(ChainName(key)[i])
  {
    hide Alnums;
    AlnumsLength(key);
    var name := ChainName(key);
    forall i | 8 <= i < |name| ensures LetterOrDigit(name[i]) {
      assert name[i] == Alnums(key)[i - 8];
    }
  }

  lemma {:induction false} AlnumsConcat(a: string, b: string)
    ensures Alnums(a + b) == Alnums(a) + Alnums(b)
  {
    hide IsAlnum;
    if a == "" {
      assert a + b == b;
    } else {
      assert (a + b)[1..] == a[1..] + b;
      AlnumsConcat(a[1..], b);
    }
  }

  /** Other characters do not bear on it, wherever they stand. */
  lemma ChainNameSkips(a: string, c: char, b: string)
    requires !LetterOrDigit(c)
    ensures ChainName(a + [c] + b) == ChainName(a + b)
  {
    hide IsAlnum;
    AlnumIff(c);
    AlnumsConcat(a + [c], b);
    AlnumsConcat(a, [c]);
    AlnumsConcat(a, b);
    assert Alnums([c]) == "" by { assert [c][1..] == ""; }
    assert Alnums(a) + "" == Alnums(a);
  }

  /** And letters and digits are taken from the front, as they are. */
  lemma ChainNameTakes(key: string)
    requires forall c :: c in key ==> LetterOrDigit(c)
    ensures ChainName(key) == "WG_PEER_" + if |key| <= 16 then key else key[..16]
  {
    AllAlnums(key);
  }

  lemma {:induction false} AllAlnums(s: string)
    requires forall c :: c in s ==> LetterOrDigit(c)
    ensures Alnums(s) == s
  {
    hide IsAlnum;
    if s != "" {
      assert s[0] in s;
      AlnumIff(s[0]);
      AllAlnums(s[1..]);
    }
  }

  // ---------------------------------------------------------------- plans

  function FwdSpec(e: Env): Spec {
    Spec(Some(e.wgIface), None, None, Jump(e.managed))
  }

  function JumpSpec(src: string, c: string): Spec {
    Spec(None, Some(src), None, Jump(c))
  }

  function EnsurePlan(e: Env, t: Table): Plan {
    var start := [New(e.managed), Check("FORWARD", FwdSpec(e))];
    var t1 := RunAll(e, t, start);
    if Present(e, t1, "FORWARD", FwdSpec(e)) then Plan(start, true)
    else Plan(start + [InsertFirst("FORWARD", FwdSpec(e))], CanAdd(e, t1, "FORWARD", FwdSpec(e)))
  }

  function AcceptCmds(c: string, src: string, cidrs: seq<string>): seq<Cmd> {
    seq(|cidrs|, i requires 0 <= i < |cidrs| => AcceptCmd(c, src, cidrs[i]))
  }

  function AcceptCmd(c: string, src: string, cidr: string): Cmd {
    Append(c, Spec(None, Some(src), Some(cidr), Accept))
  }

  function FillCmds(c: string, src: string, cidrs: seq<string>): seq<Cmd> {
    [New(c), Flush(c)] + AcceptCmds(c, src, cidrs) + [Append(c, DropSpec())]
  }

  function DropSpec(): Spec {
    Spec(None, None, None, Drop)
  }

  function ApplyPlan(e: Env, t: Table, p: Peer): Plan {
    if !p.enabled then RemovePlan(e, t, p)
    else if |Source(e, p)| == 0 then Plan([], true)
    else InstallPlan(e, t, Chain(p), Source(e, p), Fields(p.clientAllowedIPs))
  }

  /** Fill the peer's chain, then make sure both jumps are there. */
  function InstallPlan(e: Env, t: Table, c: string, src: string, cidrs: seq<string>): Plan {
    var build := FillCmds(c, src, cidrs);
    var t0 := RunAll(e, t, build[..|build| - 1]);
    if !CanAdd(e, t0, c, DropSpec()) then Plan(build, false)
    else
      var t1 := RunAll(e, t, build);
      var ens := EnsurePlan(e, t1);
      if !ens.ok then Plan(build + ens.cmds, false)
      else
        var jump := JumpPlan(e, RunAll(e, t1, ens.cmds), c, src);
        Plan(build + ens.cmds + jump.cmds, jump.ok)
  }

  function JumpPlan(e: Env, t: Table, c: string, src: string): Plan {
    var spec := JumpSpec(src, c);
    if Present(e, t, e.managed, spec) then Plan([Check(e.managed, spec)], true)
    else Plan([Check(e.managed, spec), Append(e.managed, spec)], CanAdd(e, t, e.managed, spec))
  }

  /** -D for every listed rule of the dispatch chain that targets `c`. */
  function UnjumpCmds(managed: string, listed: seq<Rule>, c: string): seq<Cmd> {
    if listed == [] then []
    else
      var n := |listed| - 1;
      UnjumpCmds(managed, listed[..n], c)
      + (if listed[n].target == Jump(c) then [RemoveListed(managed, listed[n])] else [])
  }

  function RemovePlan(e: Env, t: Table, p: Peer): Plan {
    var unjump :=
      if |Source(e, p)| > 0 then [Remove(e.managed, JumpSpec(Source(e, p), Chain(p)))]
      else if e.managed in t then UnjumpCmds(e.managed, t[e.managed], Chain(p))
      else [];
    Plan(unjump + [Flush(Chain(p)), Delete(Chain(p))], true)
  }

  function Expected(peers: seq<Peer>): set<string> {
    set p | p in peers :: Chain(p)
  }

  lemma ExpectedSnoc(peers: seq<Peer>, p: Peer)
    ensures Expected(peers + [p]) == Expected(peers) + {Chain(p)}
  {
    forall c | c in Expected(peers) + {Chain(p)} ensures c in Expected(peers + [p]) {
      if c == Chain(p) {
        assert p in peers + [p];
      } else {
        var q :| q in peers && Chain(q) == c;
        assert q in peers + [p];
      }
    }
  }

  function PeersPlan(e: Env, t: Table, peers: seq<Peer>): Plan {
    if peers == [] then Plan([], true)
    else
      var n := |peers| - 1;
      var before := PeersPlan(e, t, peers[..n]);
      var t1 := RunAll(e, t, before.cmds);
      var one := if peers[n].enabled then ApplyPlan(e, t1, peers[n]) else RemovePlan(e, t1, peers[n]);
      Plan(before.cmds + one.cmds, before.ok && one.ok)
  }

  predicate Orphan(names: seq<string>, i: nat, expected: set<string>)
    requires i < |names|
  {
    IsPeerChain(names[i]) && names[i] !in expected && names[i] !in names[..i]
  }

  function OrphanCmds(managed: string, listed: seq<Rule>, c: string): seq<Cmd> {
    UnjumpCmds(managed, listed, c) + [Flush(c), Delete(c)]
  }

  /** `names` are the chains printed by -S, `listed` the rules of the dispatch chain at that moment. */
  function CleanupCmds(managed: string, names: seq<string>, listed: seq<Rule>, expected: set<string>): seq<Cmd> {
    if names == [] then []
    else
      var n := |names| - 1;
      CleanupCmds(managed, names[..n], listed, expected)
      + (if Orphan(names, n, expected)
         then OrphanCmds(managed, listed, names[n])
         else [])
  }

  function Listed(t: Table, c: string): seq<Rule> {
    if c in t then t[c] else []
  }

  /** The plan of Sync up to the orphan cleanup. */
  function SyncCore(e: Env, t: Table, peers: seq<Peer>): Plan {
    var ens := EnsurePlan(e, t);
    if !ens.ok then ens
    else
      var start := ens.cmds + [Flush(e.managed)];
      var body := PeersPlan(e, RunAll(e, t, start), peers);
      Plan(start + body.cmds, body.ok)
  }

  function SyncPlan(e: Env, t: Table, peers: seq<Peer>, names: seq<string>): Plan {
    var core := SyncCore(e, t, peers);
    if !EnsurePlan(e, t).ok then core
    else
      var t1 := RunAll(e, t, core.cmds);
      Plan(core.cmds + CleanupCmds(e.managed, names, Listed(t1, e.managed), Expected(peers)), core.ok)
  }

  // ---------------------------------------------------------------- the class

  method PeerChainName(pubKey: string) returns (name: string)
    ensures name == ChainName(pubKey)
    ensures IsPeerChain(name) && |name| <= 24
  {
    var safe := "";
    var i := 0;
    while i < |pubKey|
      invariant 0 <= i <= |pubKey|
      invariant |safe| < 16
      invariant Alnums(pubKey) == safe + Alnums(pubKey[i..])
    {
      var c := pubKey[i];
      assert pubKey[i..][1..] == pubKey[i + 1..];
      if IsAlnum(c) {
        safe := safe + [c];
        if |safe| == 16 {
          break;
        }
      }
      i := i + 1;
    }
    assert Take(Alnums(pubKey), 16) == safe;
    name := CHAIN_PREFIX + safe;
  }

  method SplitFields(s: string) returns (items: seq<string>)
    ensures items == Fields(s)
  {
    var parts := Split(s, ',');
    items := [];
    for i := 0 to |parts|
      invariant items == Trimmed(parts[..i])
    {
      var item := TrimSpace(parts[i]);
      assert parts[..i + 1][..i] == parts[..i];
      if |item| > 0 {
        items := items + [item];
      }
    }
    assert parts[..|parts|] == parts;
  }

  class IptablesFirewall {
    const e: Env
    var table: Table
    ghost var log: seq<Cmd>   // every command issued so far

    constructor (e: Env, kernelTable: Table)
      ensures this.e == e && log == [New(e.managed)]
      ensures table == RunAll(e, kernelTable, log)
    {
      this.e := e;
      table := Run(e, kernelTable, New(e.managed)).0;
      log := [New(e.managed)];
    }

    /** What the commands issued since `since` have done to the table they started from. */
    twostate predicate Issued(cmds: seq<Cmd>)
      reads this
    {
      log == old(log) + cmds && table == RunAll(e, old(table), cmds)
    }

    /** Runs one command; `t` is the table before `done`, the commands issued since. */
    method Exec(cmd: Cmd, ghost t: Table, ghost done: seq<Cmd>) returns (ok: bool)
      requires table == RunAll(e, t, done)
      modifies this
      ensures log == old(log) + [cmd]
      ensures table == RunAll(e, t, done + [cmd]) && ok == Run(e, old(table), cmd).1
    {
      RunAllSnoc(e, t, done, cmd);
      var r := Run(e, table, cmd);
      table, ok := r.0, r.1;
      log := log + [cmd];
    }

    method EnsureDispatchChain() returns (ok: bool)
      modifies this
      ensures Issued(EnsurePlan(e, old(table)).cmds) && ok == EnsurePlan(e, old(table)).ok
      ensures var jump := Spec(Some(e.wgIface), None, None, Jump(e.managed));
        || log == old(log) + [New(e.managed), Check("FORWARD", jump)]
        || log == old(log) + [New(e.managed), Check("FORWARD", jump), InsertFirst("FORWARD", jump)]
    {
      ghost var t := table;
      ghost var first := [New(e.managed)];
      var _ := Exec(New(e.managed), t, []);
      assert [] + first == first;
      var present := Exec(Check("FORWARD", FwdSpec(e)), t, first);
      assert first + [Check("FORWARD", FwdSpec(e))] == [New(e.managed), Check("FORWARD", FwdSpec(e))];
      ok := true;
      if !present {
        ok := Exec(InsertFirst("FORWARD", FwdSpec(e)), t, [New(e.managed), Check("FORWARD", FwdSpec(e))]);
      }
    }

    method ApplyPeer(p: Peer) returns (ok: bool)
      modifies this
      ensures Issued(ApplyPlan(e, old(table), p).cmds) && ok == ApplyPlan(e, old(table), p).ok
    {
      if !p.enabled {
        ok := RemovePeer(p);
        return;
      }
      var src := SourceCidr(e, p.clientAddress);
      if |src| == 0 {
        return true;
      }
      var c := PeerChainName(p.publicKey);
      var cidrs := SplitFields(p.clientAllowedIPs);
      ok := Install(c, src, cidrs);
    }

    method Install(c: string, src: string, cidrs: seq<string>) returns (ok: bool)
      modifies this
      ensures Issued(InstallPlan(e, old(table), c, src, cidrs).cmds)
      ensures ok == InstallPlan(e, old(table), c, src, cidrs).ok
    {
      hide Iptables.Run, Iptables.RunAll, EnsurePlan, JumpPlan, FillCmds;
      ghost var t := table;
      ghost var build := FillCmds(c, src, cidrs);
      ok := FillPeerChain(c, src, cidrs);
      if !ok {
        return;
      }
      ghost var ens := EnsurePlan(e, table);
      ok := EnsureDispatchChain();
      RunAllConcat(e, t, build, ens.cmds);
      if !ok {
        return;
      }
      ghost var jump := JumpPlan(e, table, c, src);
      ok := EnsureJump(c, src);
      RunAllConcat(e, t, build + ens.cmds, jump.cmds);
    }

    method FillPeerChain(c: string, src: string, cidrs: seq<string>) returns (ok: bool)
      modifies this
      ensures Issued(FillCmds(c, src, cidrs))
      ensures var cmds := FillCmds(c, src, cidrs);
        ok == CanAdd(e, RunAll(e, old(table), cmds[..|cmds| - 1]), c, DropSpec())
    {
      hide Iptables.RunAll;
      ghost var t, l, build := table, log, [];
      RunAllNil(e, t);
      var _ := Exec(New(c), t, build);
      build := build + [New(c)];
      var _ := Exec(Flush(c), t, build);
      build := build + [Flush(c)];
      for i := 0 to |cidrs|
        invariant log == l + build && table == RunAll(e, t, build)
        invariant build == [New(c), Flush(c)] + AcceptCmds(c, src, cidrs[..i])
      {
        assert AcceptCmds(c, src, cidrs[..i + 1]) == AcceptCmds(c, src, cidrs[..i]) + [AcceptCmd(c, src, cidrs[i])];
        var _ := Exec(AcceptCmd(c, src, cidrs[i]), t, build);
        build := build + [AcceptCmd(c, src, cidrs[i])];
      }
      assert cidrs[..|cidrs|] == cidrs;
      assert FillCmds(c, src, cidrs)[..|build|] == build;
      ok := Exec(Append(c, DropSpec()), t, build);
    }

    method EnsureJump(c: string, src: string) returns (ok: bool)
      modifies this
      ensures Issued(JumpPlan(e, old(table), c, src).cmds) && ok == JumpPlan(e, old(table), c, src).ok
    {
      ghost var t := table;
      var spec := JumpSpec(src, c);
      var present := Exec(Check(e.managed, spec), t, []);
      assert [] + [Check(e.managed, spec)] == [Check(e.managed, spec)];
      ok := true;
      if !present {
        ok := Exec(Append(e.managed, spec), t, [Check(e.managed, spec)]);
      }
    }

    method RemoveAllDispatchJumpsTo(c: string)
      modifies this
      ensures Issued(if e.managed in old(table) then UnjumpCmds(e.managed, old(table[e.managed]), c) else [])
    {
      if e.managed !in table {
        return;
      }
      DeleteListed(table[e.managed], c);
    }

    /** The loop shared by removeAllDispatchJumpsTo and cleanupOrphanChains. */
    method DeleteListed(listed: seq<Rule>, c: string)
      modifies this
      ensures Issued(UnjumpCmds(e.managed, listed, c))
    {
      for i := 0 to |listed|
        invariant Issued(UnjumpCmds(e.managed, listed[..i], c))
      {
        assert listed[..i + 1][..i] == listed[..i];
        if listed[i].target == Jump(c) {
          var _ := Exec(RemoveListed(e.managed, listed[i]), old(table), UnjumpCmds(e.managed, listed[..i], c));
        } else {
          assert UnjumpCmds(e.managed, listed[..i], c) + [] == UnjumpCmds(e.managed, listed[..i], c);
        }
      }
      assert listed[..|listed|] == listed;
    }

    /** -F then -X: the last two commands of every removal. */
    method FlushAndDelete(c: string)
      modifies this
      ensures Issued([Flush(c), Delete(c)])
    {
      ghost var t := table;
      var _ := Exec(Flush(c), t, []);
      assert [] + [Flush(c)] == [Flush(c)];
      var _ := Exec(Delete(c), t, [Flush(c)]);
    }

    method RemovePeer(p: Peer) returns (ok: bool)
      modifies this
      ensures Issued(RemovePlan(e, old(table), p).cmds) && ok == RemovePlan(e, old(table), p).ok
    {
      hide Iptables.Run, Iptables.RunAll, SourceCidr, ChainName, UnjumpCmds;
      RunAllNil(e, table);
      var src := SourceCidr(e, p.clientAddress);
      var c := PeerChainName(p.publicKey);
      ghost var unjump := [Remove(e.managed, JumpSpec(src, c))];
      if |src| > 0 {
        var _ := Exec(Remove(e.managed, JumpSpec(src, c)), table, []);
        assert [] + unjump == unjump;
      } else {
        unjump := if e.managed in table then UnjumpCmds(e.managed, table[e.managed], c) else [];
        RemoveAllDispatchJumpsTo(c);
      }
      FlushAndDelete(c);
      RunAllConcat(e, old(table), unjump, [Flush(c), Delete(c)]);
      ok := true;
    }

    /** -S: the chains of the table, each once, in an order iptables chooses. */
    method ListChains() returns (names: seq<string>)
      ensures forall c :: c in names <==> c in table
    {
      names := [];
      var todo := table.Keys;
      while todo != {}
        invariant todo <= table.Keys
        invariant forall c :: c in names <==> c in table.Keys - todo
      {
        var c :| c in todo;
        todo := todo - {c};
        names := names + [c];
      }
    }

    method DropOrphan(listed: seq<Rule>, c: string)
      modifies this
      ensures Issued(OrphanCmds(e.managed, listed, c))
    {
      hide Iptables.Run, Iptables.RunAll;
      ghost var t, unjump := table, UnjumpCmds(e.managed, listed, c);
      DeleteListed(listed, c);
      FlushAndDelete(c);
      RunAllConcat(e, t, unjump, [Flush(c), Delete(c)]);
    }

    method CleanupOrphanChains(expected: set<string>) returns (ghost names: seq<string>)
      modifies this
      ensures forall c :: c in names <==> c in old(table)
      ensures Issued(CleanupCmds(e.managed, names, Listed(old(table), e.managed), expected))
    {
      hide Iptables.Run, Iptables.RunAll, OrphanCmds, IsPeerChain;
      RunAllNil(e, table);
      var output := ListChains();
      names := output;
      var listed := Listed(table, e.managed);
      var seen: set<string> := {};
      ghost var t := table;
      for i := 0 to |output|
        invariant Issued(CleanupCmds(e.managed, output[..i], listed, expected))
        invariant forall c :: c in seen <==> c in output[..i] && IsPeerChain(c) && c !in expected
      {
        var c := output[i];
        assert output[..i + 1][..i] == output[..i] && output[..i + 1] == output[..i] + [c];
        ghost var before := CleanupCmds(e.managed, output[..i], listed, expected);
        if IsPeerChain(c) && c !in expected && c !in seen {
          seen := seen + {c};
          DropOrphan(listed, c);
          RunAllConcat(e, t, before, OrphanCmds(e.managed, listed, c));
        } else {
          assert before + [] == before;
        }
      }
      assert output[..|output|] == output;
    }

    method Sync(peers: seq<Peer>) returns (ok: bool, ghost names: seq<string>)
      modifies this
      ensures Issued(SyncPlan(e, old(table), peers, names).cmds) && ok == SyncPlan(e, old(table), peers, names).ok
      ensures EnsurePlan(e, old(table)).ok ==>
        forall c :: c in names <==> c in RunAll(e, old(table), SyncCore(e, old(table), peers).cmds)
    {
      hide PeersPlan, EnsurePlan, CleanupCmds, ChainName, Iptables.Run, Iptables.RunAll;
      ghost var t := table;
      names := [];
      ok := EnsureDispatchChain();
      if !ok {
        return;
      }
      ghost var start := EnsurePlan(e, t).cmds + [Flush(e.managed)];
      var _ := Exec(Flush(e.managed), t, EnsurePlan(e, t).cmds);
      ghost var t1 := table;
      var expected: set<string> := {};
      for i := 0 to |peers|
        modifies {}
        invariant expected == Expected(peers[..i])
      {
        var c := PeerChainName(peers[i].publicKey);
        ExpectedSnoc(peers[..i], peers[i]);
        assert peers[..i + 1] == peers[..i] + [peers[i]];
        expected := expected + {c};
      }
      assert peers[..|peers|] == peers;
      ok := ApplyOrRemoveAll(peers);
      RunAllConcat(e, t, start, PeersPlan(e, t1, peers).cmds);
      ghost var core := SyncCore(e, t, peers).cmds;
      ghost var t2 := table;
      names := CleanupOrphanChains(expected);
      RunAllConcat(e, t, core, CleanupCmds(e.managed, names, Listed(t2, e.managed), expected));
    }

    /** Step 2 of Sync: errors are remembered, and the loop goes on. */
    method ApplyOrRemoveAll(peers: seq<Peer>) returns (ok: bool)
      modifies this
      ensures Issued(PeersPlan(e, old(table), peers).cmds) && ok == PeersPlan(e, old(table), peers).ok
    {
      hide ApplyPlan, RemovePlan, Iptables.Run, Iptables.RunAll;
      RunAllNil(e, table);
      ghost var t := table;
      ok := true;
      for i := 0 to |peers|
        invariant Issued(PeersPlan(e, t, peers[..i]).cmds) && ok == PeersPlan(e, t, peers[..i]).ok
      {
        ghost var before, ti := PeersPlan(e, t, peers[..i]).cmds, table;
        assert peers[..i + 1][..i] == peers[..i];
        var okOne;
        if peers[i].enabled {
          okOne := ApplyPeer(peers[i]);
        } else {
          okOne := RemovePeer(peers[i]);
        }
        ok := ok && okOne;
        ghost var one := if peers[i].enabled then ApplyPlan(e, ti, peers[i]) else RemovePlan(e, ti, peers[i]);
        RunAllConcat(e, t, before, one.cmds);
      }
      assert peers[..|peers|] == peers;
    }
  }
}
