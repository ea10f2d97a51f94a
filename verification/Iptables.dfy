/**
 * A small operational semantics of iptables: a table of named chains, the commands the agent
 * issues, and the verdict a packet gets. The text of an address argument is read by `Env.read`,
 * an arbitrary function: `None` stands for an argument that iptables rejects.
 */
module Iptables {
  import opened Text

  datatype Cidr = Cidr(net: nat, bits: nat)

  datatype Target = Accept | Drop | Jump(chain: string)

  datatype Rule = Rule(iface: Option<string>, src: Option<Cidr>, dst: Option<Cidr>, target: Target)

  /** A rule as it is written on the command line. */
  datatype Spec = Spec(iface: Option<string>, src: Option<string>, dst: Option<string>, target: Target)

  type Table = map<string, seq<Rule>>

  /** Configuration of the agent, and the two parsers of address text that it depends on. */
  datatype Env = Env(
    managed: string,                      // the dispatch chain
    wgIface: string,
    read: string -> Option<Cidr>,         // iptables' reading of a -s or -d argument
    parseHost: string -> Option<string>   // net.ParseCIDR: the printed host address
  )

  datatype Cmd =
    | New(chain: string)                        // -N
    | Flush(chain: string)                      // -F
    | Delete(chain: string)                     // -X
    | Append(chain: string, spec: Spec)         // -A
    | InsertFirst(chain: string, spec: Spec)    // -I chain 1
    | Check(chain: string, spec: Spec)          // -C
    | Remove(chain: string, spec: Spec)         // -D
    | RemoveListed(chain: string, rule: Rule)   // -D with the arguments of a line printed by -S

  function Read(e: Env, text: Option<string>): Option<Option<Cidr>> {
    match text
    case None => Some(None)
    case Some(s) => if e.read(s).Some? then Some(e.read(s)) else None
  }

  function ReadSpec(e: Env, s: Spec): Option<Rule> {
    var src, dst := Read(e, s.src), Read(e, s.dst);
    if src.Some? && dst.Some? then Some(Rule(s.iface, src.value, dst.value, s.target)) else None
  }

  predicate JumpsTo(rules: seq<Rule>, c: string) {
    exists r :: r in rules && r.target == Jump(c)
  }

  predicate Referenced(t: Table, c: string) {
    exists d :: d in t && JumpsTo(t[d], c)
  }

  function RemoveFirst<T(==)>(s: seq<T>, x: T): seq<T> {
    if s == [] then [] else if s[0] == x then s[1..] else [s[0]] + RemoveFirst(s[1..], x)
  }

  predicate CanAdd(e: Env, t: Table, c: string, s: Spec) {
    ReadSpec(e, s).Some? && c in t && (s.target.Jump? ==> s.target.chain in t)
  }

  predicate Present(e: Env, t: Table, c: string, s: Spec) {
    ReadSpec(e, s).Some? && c in t && ReadSpec(e, s).value in t[c]
  }

  /** One command: the new table, and whether the command succeeded. A failed command changes nothing. */
  function Run(e: Env, t: Table, cmd: Cmd): (Table, bool) {
    match cmd
    case New(c) => if c in t then (t, false) else (t[c := []], true)
    case Flush(c) => if c in t then (t[c := []], true) else (t, false)
    case Delete(c) =>
      if c in t && c != "FORWARD" && t[c] == [] && !Referenced(t, c) then (t - {c}, true) else (t, false)
    case Append(c, s) =>
      if CanAdd(e, t, c, s) then (t[c := t[c] + [ReadSpec(e, s).value]], true) else (t, false)
    case InsertFirst(c, s) =>
      if CanAdd(e, t, c, s) then (t[c := [ReadSpec(e, s).value] + t[c]], true) else (t, false)
    case Check(c, s) => (t, Present(e, t, c, s))
    case Remove(c, s) =>
      if Present(e, t, c, s) then (t[c := RemoveFirst(t[c], ReadSpec(e, s).value)], true) else (t, false)
    case RemoveListed(c, r) =>
      if c in t && r in t[c] then (t[c := RemoveFirst(t[c], r)], true) else (t, false)
  }

  function RunAll(e: Env, t: Table, cmds: seq<Cmd>): Table {
    if cmds == [] then t
    else Run(e, RunAll(e, t, cmds[..|cmds| - 1]), cmds[|cmds| - 1]).0
  }

  lemma RunAllNil(e: Env, t: Table)
    ensures RunAll(e, t, []) == t
  {
  }

  lemma RunAllSnoc(e: Env, t: Table, cmds: seq<Cmd>, cmd: Cmd)
    ensures RunAll(e, t, cmds + [cmd]) == Run(e, RunAll(e, t, cmds), cmd).0
  {
    hide Run;
    assert (cmds + [cmd])[..|cmds|] == cmds;
  }

  lemma {:induction false} RunAllConcat(e: Env, t: Table, a: seq<Cmd>, b: seq<Cmd>)
    ensures RunAll(e, t, a + b) == RunAll(e, RunAll(e, t, a), b)
  {
    hide Run;
    if b == [] {
      assert a + b == a;
    } else {
      var n := |b| - 1;
      RunAllConcat(e, t, a, b[..n]);
      assert (a + b)[..|a| + n] == a + b[..n];
    }
  }

  // ---------------------------------------------------------------- packets

  datatype Packet = Packet(iface: string, src: nat, dst: nat)

  datatype Verdict = Accepted | Dropped | Returned

  /** a >> n. */
  function Shifted(a: nat, n: nat): nat
    decreases n
  {
    if n == 0 then a else Shifted(a / 2, n - 1)
  }

  predicate InCidr(a: nat, c: Cidr) {
    c.bits <= 32 && Shifted(a, 32 - c.bits) == Shifted(c.net, 32 - c.bits)
  }

  predicate Matches(r: Rule, p: Packet) {
    && (r.iface.Some? ==> r.iface.value == p.iface)
    && (r.src.Some? ==> InCidr(p.src, r.src.value))
    && (r.dst.Some? ==> InCidr(p.dst, r.dst.value))
  }

  /**
   * The first decisive matching rule wins; a chain that is jumped to and decides nothing returns.
   * `depth` bounds nested jumps: iptables keeps its jump graph free of loops.
   */
  function Walk(t: Table, rules: seq<Rule>, p: Packet, depth: nat): Verdict
    decreases depth, |rules|
  {
    if rules == [] then Returned
    else if !Matches(rules[0], p) then Walk(t, rules[1..], p, depth)
    else
      match rules[0].target
      case Accept => Accepted
      case Drop => Dropped
      case Jump(c) =>
        var v := if depth > 0 && c in t then Walk(t, t[c], p, depth - 1) else Returned;
        if v == Returned then Walk(t, rules[1..], p, depth) else v
  }

  function Eval(t: Table, c: string, p: Packet, depth: nat): Verdict {
    if c in t then Walk(t, t[c], p, depth) else Returned
  }

  lemma {:induction false} WalkConcat(t: Table, a: seq<Rule>, b: seq<Rule>, p: Packet, depth: nat)
    ensures Walk(t, a + b, p, depth)
         == if Walk(t, a, p, depth) == Returned then Walk(t, b, p, depth) else Walk(t, a, p, depth)
  {
    if a == [] {
      assert a + b == b;
    } else {
      assert (a + b)[1..] == a[1..] + b;
      WalkConcat(t, a[1..], b, p, depth);
    }
  }

  /** Every chain that the rules jump to is in s. */
  ghost predicate Within(rules: seq<Rule>, s: set<string>) {
    forall x :: JumpsTo(rules, x) ==> x in s
  }

  /** Chains of s jump only to chains of s. */
  ghost predicate Closed(t: Table, s: set<string>) {
    forall d :: d in t && d in s ==> Within(t[d], s)
  }

  /** A verdict depends only on the chains that can be reached. */
  lemma {:induction false} WalkWithin(
    t: Table, t': Table, s: set<string>, rules: seq<Rule>, p: Packet, depth: nat)
    requires Within(rules, s) && Closed(t, s)
    requires forall d :: d in s ==> (d in t <==> d in t') && (d in t ==> t[d] == t'[d])
    ensures Walk(t, rules, p, depth) == Walk(t', rules, p, depth)
    decreases depth, |rules|
  {
    if rules != [] {
      hide Matches;
      assert rules[0] in rules;
      forall x | JumpsTo(rules[1..], x) ensures x in s {
        var r :| r in rules[1..] && r.target == Jump(x);
        assert r in rules && JumpsTo(rules, x);
      }
      WalkWithin(t, t', s, rules[1..], p, depth);
      if rules[0].target.Jump? && depth > 0 {
        var c := rules[0].target.chain;
        assert JumpsTo(rules, c);
        if c in t {
          WalkWithin(t, t', s, t[c], p, depth - 1);
        }
      }
    }
  }
}
