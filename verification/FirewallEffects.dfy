/** What the plans of module Firewall do to a table, in closed form. */
module FirewallEffects {
  import opened Text
  import opened Storage
  import opened Iptables
  import opened Firewall

  predicate ValidEnv(e: Env) {
    e.managed != "FORWARD" && !IsPeerChain(e.managed)
  }

  function ApplyT(e: Env, t: Table, p: Peer): Table {
    RunAll(e, t, ApplyPlan(e, t, p).cmds)
  }

  function RemoveT(e: Env, t: Table, p: Peer): Table {
    RunAll(e, t, RemovePlan(e, t, p).cmds)
  }

  function FwdRule(e: Env): Rule {
    Rule(Some(e.wgIface), None, None, Jump(e.managed))
  }

  function JumpRule(src: Cidr, c: string): Rule {
    Rule(None, Some(src), None, Jump(c))
  }

  const DROP_RULE := Rule(None, None, None, Drop)

  function AcceptRules(e: Env, src: string, cidrs: seq<string>): seq<Rule> {
    if cidrs == [] then []
    else
      var n := |cidrs| - 1;
      var r := ReadSpec(e, AcceptCmd("", src, cidrs[n]).spec);
      AcceptRules(e, src, cidrs[..n]) + (if r.Some? then [r.value] else [])
  }

  function PolicyRules(e: Env, src: string, cidrs: seq<string>): seq<Rule> {
    AcceptRules(e, src, cidrs) + [DROP_RULE]
  }

  function Ensured(e: Env, t: Table): Table
    requires "FORWARD" in t
  {
    var t1 := if e.managed in t then t else t[e.managed := []];
    if FwdRule(e) in t1["FORWARD"] then t1 else t1["FORWARD" := [FwdRule(e)] + t1["FORWARD"]]
  }

  /** The dispatch chain after the last step of ApplyPeer. */
  function WithJump(e: Env, rules: seq<Rule>, c: string, src: string): seq<Rule> {
    if e.read(src).None? || JumpRule(e.read(src).value, c) in rules then rules
    else rules + [JumpRule(e.read(src).value, c)]
  }

  function Jumped(e: Env, t: Table, c: string, src: string): Table
    requires e.managed in t
  {
    t[e.managed := WithJump(e, t[e.managed], c, src)]
  }

  function Installed(e: Env, t: Table, c: string, src: string, cidrs: seq<string>): Table
    requires "FORWARD" in t
  {
    Jumped(e, Ensured(e, t[c := PolicyRules(e, src, cidrs)]), c, src)
  }

  function Unjumped(rules: seq<Rule>, c: string): seq<Rule> {
    if rules == [] then []
    else
      var n := |rules| - 1;
      Unjumped(rules[..n], c) + (if rules[n].target == Jump(c) then [] else [rules[n]])
  }

  /** The dispatch chain after the first half of RemovePeer. */
  function Detached(e: Env, rules: seq<Rule>, p: Peer): seq<Rule> {
    if |Source(e, p)| == 0 then Unjumped(rules, Chain(p))
    else if e.read(Source(e, p)).None? then rules
    else RemoveFirst(rules, JumpRule(e.read(Source(e, p)).value, Chain(p)))
  }

  function Removed(e: Env, t: Table, p: Peer): Table {
    var t1 := if e.managed in t then t[e.managed := Detached(e, t[e.managed], p)] else t;
    var c := Chain(p);
    if c !in t1 then t1
    else if Referenced(t1[c := []], c) then t1[c := []]
    else t1 - {c}
  }

  // ---------------------------------------------------------------- effects of the pieces

  lemma {:induction false} AcceptsEffect(e: Env, t: Table, c: string, src: string, cidrs: seq<string>)
    requires c in t
    ensures RunAll(e, t, AcceptCmds(c, src, cidrs)) == t[c := t[c] + AcceptRules(e, src, cidrs)]
  {
    if cidrs == [] {
      assert t[c] + [] == t[c];
    } else {
      var n := |cidrs| - 1;
      AcceptsEffect(e, t, c, src, cidrs[..n]);
      assert AcceptCmds(c, src, cidrs) == AcceptCmds(c, src, cidrs[..n]) + [AcceptCmd(c, src, cidrs[n])];
      RunAllSnoc(e, t, AcceptCmds(c, src, cidrs[..n]), AcceptCmd(c, src, cidrs[n]));
      var rules := t[c] + AcceptRules(e, src, cidrs[..n]);
      assert rules + [] == rules;
      assert t[c] + AcceptRules(e, src, cidrs)
          == rules + (if ReadSpec(e, AcceptCmd("", src, cidrs[n]).spec).Some?
                      then [ReadSpec(e, AcceptCmd("", src, cidrs[n]).spec).value] else []);
    }
  }

  lemma FillEffect(e: Env, t: Table, c: string, src: string, cidrs: seq<string>)
    ensures var cmds := FillCmds(c, src, cidrs);
      && RunAll(e, t, cmds[..|cmds| - 1]) == t[c := AcceptRules(e, src, cidrs)]
      && CanAdd(e, RunAll(e, t, cmds[..|cmds| - 1]), c, DropSpec())
      && RunAll(e, t, cmds) == t[c := PolicyRules(e, src, cidrs)]
  {
    hide AcceptRules, AcceptCmds, RunAll;
    var cmds := FillCmds(c, src, cidrs);
    var start := [New(c), Flush(c)];
    var body := start + AcceptCmds(c, src, cidrs);
    RunAllNil(e, t);
    RunAllSnoc(e, t, [], New(c));
    RunAllSnoc(e, t, [New(c)], Flush(c));
    assert RunAll(e, t, start) == t[c := []] by {
      assert [] + [New(c)] == [New(c)] && [New(c)] + [Flush(c)] == start;
    }
    RunAllConcat(e, t, start, AcceptCmds(c, src, cidrs));
    AcceptsEffect(e, t[c := []], c, src, cidrs);
    assert [] + AcceptRules(e, src, cidrs) == AcceptRules(e, src, cidrs);
    assert cmds == body + [Append(c, DropSpec())] && cmds[..|cmds| - 1] == body;
    RunAllSnoc(e, t, body, Append(c, DropSpec()));
  }

  lemma EnsureEffect(e: Env, t: Table)
    requires ValidEnv(e) && "FORWARD" in t
    ensures EnsurePlan(e, t).ok && RunAll(e, t, EnsurePlan(e, t).cmds) == Ensured(e, t)
  {
    hide RunAll;
    var first := [New(e.managed)];
    var start := [New(e.managed), Check("FORWARD", FwdSpec(e))];
    RunAllNil(e, t);
    RunAllSnoc(e, t, [], New(e.managed));
    assert [] + first == first && first + [Check("FORWARD", FwdSpec(e))] == start;
    RunAllSnoc(e, t, first, Check("FORWARD", FwdSpec(e)));
    RunAllSnoc(e, t, start, InsertFirst("FORWARD", FwdSpec(e)));
  }

  lemma JumpEffect(e: Env, t: Table, c: string, src: string)
    requires e.managed in t && c in t
    ensures RunAll(e, t, JumpPlan(e, t, c, src).cmds) == Jumped(e, t, c, src)
    ensures JumpPlan(e, t, c, src).ok == e.read(src).Some?
  {
    hide RunAll;
    var spec := JumpSpec(src, c);
    assert t[e.managed := t[e.managed]] == t;
    RunAllNil(e, t);
    RunAllSnoc(e, t, [], Check(e.managed, spec));
    assert [] + [Check(e.managed, spec)] == [Check(e.managed, spec)];
    RunAllSnoc(e, t, [Check(e.managed, spec)], Append(e.managed, spec));
    assert [Check(e.managed, spec)] + [Append(e.managed, spec)] == [Check(e.managed, spec), Append(e.managed, spec)];
  }

  lemma InstallEffect(e: Env, t: Table, c: string, src: string, cidrs: seq<string>)
    requires ValidEnv(e) && "FORWARD" in t && IsPeerChain(c)
    ensures RunAll(e, t, InstallPlan(e, t, c, src, cidrs).cmds) == Installed(e, t, c, src, cidrs)
    ensures InstallPlan(e, t, c, src, cidrs).ok == e.read(src).Some?
  {
    hide Run, RunAll, FillCmds, EnsurePlan, JumpPlan, PolicyRules;
    var build := FillCmds(c, src, cidrs);
    FillEffect(e, t, c, src, cidrs);
    var t1 := t[c := PolicyRules(e, src, cidrs)];
    EnsureEffect(e, t1);
    RunAllConcat(e, t, build, EnsurePlan(e, t1).cmds);
    var t2 := Ensured(e, t1);
    JumpEffect(e, t2, c, src);
    RunAllConcat(e, t, build + EnsurePlan(e, t1).cmds, JumpPlan(e, t2, c, src).cmds);
  }

  lemma {:induction false} RemoveFirstAbsent<T>(s: seq<T>, x: T)
    requires x !in s
    ensures RemoveFirst(s, x) == s
  {
    if s != [] {
      RemoveFirstAbsent(s[1..], x);
    }
  }

  lemma {:induction false} RemoveFirstAfter<T>(a: seq<T>, x: T, b: seq<T>)
    requires x !in a
    ensures RemoveFirst(a + [x] + b, x) == a + b
  {
    if a == [] {
      assert a + [x] + b == [x] + b;
      assert a + b == b;
    } else {
      assert (a + [x] + b)[1..] == a[1..] + [x] + b;
      RemoveFirstAfter(a[1..], x, b);
    }
  }

  lemma {:induction false} UnjumpedAbsent(rules: seq<Rule>, c: string)
    ensures !JumpsTo(Unjumped(rules, c), c)
    ensures forall r :: r in Unjumped(rules, c) <==> r in rules && r.target != Jump(c)
    ensures !JumpsTo(rules, c) ==> Unjumped(rules, c) == rules
  {
    if rules != [] {
      var n := |rules| - 1;
      UnjumpedAbsent(rules[..n], c);
      assert rules == rules[..n] + [rules[n]];
    }
  }

  /** Deleting the listed jumps one line at a time: `rest` is the part of the listing not yet reached. */
  lemma {:induction false} UnjumpEffect(e: Env, t: Table, listed: seq<Rule>, rest: seq<Rule>, c: string)
    requires e.managed in t && t[e.managed] == listed + rest
    ensures RunAll(e, t, UnjumpCmds(e.managed, listed, c)) == t[e.managed := Unjumped(listed, c) + rest]
  {
    hide Run, RunAll;
    if listed == [] {
      RunAllNil(e, t);
      assert [] + rest == rest;
    } else {
      var n := |listed| - 1;
      var r := listed[n];
      assert listed + rest == listed[..n] + ([r] + rest);
      UnjumpEffect(e, t, listed[..n], [r] + rest, c);
      var before := UnjumpCmds(e.managed, listed[..n], c);
      if r.target == Jump(c) {
        assert UnjumpCmds(e.managed, listed, c) == before + [RemoveListed(e.managed, r)];
        RunAllSnoc(e, t, before, RemoveListed(e.managed, r));
        UnjumpedAbsent(listed[..n], c);
        RemoveListedEffect(e, RunAll(e, t, before), Unjumped(listed[..n], c), r, rest);
        assert Unjumped(listed, c) == Unjumped(listed[..n], c) + [] == Unjumped(listed[..n], c);
        assert RunAll(e, t, before)[e.managed := Unjumped(listed, c) + rest] == t[e.managed := Unjumped(listed, c) + rest];
      } else {
        assert before + [] == before;
        assert Unjumped(listed[..n], c) + ([r] + rest) == Unjumped(listed, c) + rest;
      }
    }
  }

  lemma RemoveListedEffect(e: Env, t: Table, a: seq<Rule>, r: Rule, b: seq<Rule>)
    requires e.managed in t && t[e.managed] == a + ([r] + b) && r !in a
    ensures Run(e, t, RemoveListed(e.managed, r)).0 == t[e.managed := a + b]
  {
    RemoveFirstAfter(a, r, b);
    assert a + [r] + b == a + ([r] + b);
  }

  lemma FlushDeleteEffect(e: Env, t: Table, c: string)
    requires c != "FORWARD"
    ensures RunAll(e, t, [Flush(c), Delete(c)])
         == if c !in t then t else if Referenced(t[c := []], c) then t[c := []] else t - {c}
  {
    RunAllNil(e, t);
    RunAllSnoc(e, t, [], Flush(c));
    assert [] + [Flush(c)] == [Flush(c)];
    RunAllSnoc(e, t, [Flush(c)], Delete(c));
    assert [Flush(c)] + [Delete(c)] == [Flush(c), Delete(c)];
    assert t[c := []] - {c} == t - {c};
  }

  lemma RemoveEffect(e: Env, t: Table, p: Peer)
    requires ValidEnv(e)
    ensures RemoveT(e, t, p) == Removed(e, t, p)
  {
    hide Run, RunAll, SourceCidr, ChainName, UnjumpCmds;
    var c, src := Chain(p), Source(e, p);
    var t1 := if e.managed in t then t[e.managed := Detached(e, t[e.managed], p)] else t;
    var unjump :=
      if |src| > 0 then [Remove(e.managed, JumpSpec(src, c))]
      else if e.managed in t then UnjumpCmds(e.managed, t[e.managed], c)
      else [];
    assert RunAll(e, t, unjump) == t1 by {
      if |src| > 0 {
        UnjumpOneEffect(e, t, src, c);
      } else if e.managed in t {
        assert t[e.managed] + [] == t[e.managed];
        UnjumpEffect(e, t, t[e.managed], [], c);
        assert Unjumped(t[e.managed], c) + [] == Unjumped(t[e.managed], c);
      } else {
        RunAllNil(e, t);
      }
    }
    RunAllConcat(e, t, unjump, [Flush(c), Delete(c)]);
    FlushDeleteEffect(e, t1, c);
  }

  lemma UnjumpOneEffect(e: Env, t: Table, src: string, c: string)
    ensures RunAll(e, t, [Remove(e.managed, JumpSpec(src, c))])
         == if e.managed !in t || e.read(src).None? then t
            else t[e.managed := RemoveFirst(t[e.managed], JumpRule(e.read(src).value, c))]
  {
    RunAllNil(e, t);
    RunAllSnoc(e, t, [], Remove(e.managed, JumpSpec(src, c)));
    assert [] + [Remove(e.managed, JumpSpec(src, c))] == [Remove(e.managed, JumpSpec(src, c))];
    if e.managed in t && e.read(src).Some? && JumpRule(e.read(src).value, c) !in t[e.managed] {
      RemoveFirstAbsent(t[e.managed], JumpRule(e.read(src).value, c));
    }
  }
}
