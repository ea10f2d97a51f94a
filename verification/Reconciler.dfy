/** One reconciliation pass: the kernel is brought in line with the enabled rows, never the reverse. */
module Reconciler {
  import opened Text
  import opened TextLaws
  import opened Storage
  import opened Iptables
  import opened Collections
  import opened Kernel

  /**
   * Parsers the pass depends on. A stored public key was printed by Key.String, so it parses to
   * itself whenever it parses at all.
   */
  datatype Parsers = Parsers(
    validKey: string -> bool,
    psk: string -> Option<string>,
    net: string -> Option<Cidr>,
    resolve: string -> Option<string>    // net.ResolveUDPAddr, printed
  )

  /** The calls that fail during one pass, by key where the call is made per key. */
  datatype Faults = Faults(remove: set<string>, upsert: set<string>, add: set<string>, conf: bool, lastSeen: bool)

  const NoFaults := Faults({}, {}, {}, false, false)

  datatype ConfEntry = ConfEntry(key: string, allowedIPs: string, psk: string, name: string, notes: string,
                                 endpoint: string, keepalive: int)

  datatype State = State(kernel: Peers, rows: map<string, Peer>, conf: set<ConfEntry>)

  // ---------------------------------------------------------------- specification, key by key

  function EndpointText(k: KernelPeer): string {
    if k.endpoint.Some? then k.endpoint.value else ""
  }

  function Discovered(key: string, k: KernelPeer): Peer {
    Peer(key, "unknown-" + (if |key| > 8 then key[..8] else key), "", false, true, "", "",
         if k.keepalive > 0 then Some(k.keepalive) else None, "", EndpointText(k), "", "")
  }

  function Nets(ps: Parsers, cidrs: seq<string>): set<Cidr> {
    set i | 0 <= i < |cidrs| && ps.net(cidrs[i]).Some? :: ps.net(cidrs[i]).value
  }

  function Desired(ps: Parsers, key: string, row: Peer): PeerConfig {
    PeerConfig(
      key,
      Nets(ps, Fields(row.allowedIPs)),
      if row.presharedKey != "" then ps.psk(row.presharedKey) else None,
      if row.endpoint != "" then ps.resolve(row.endpoint) else None,
      row.keepalive,
      false)
  }

  /** The kernel entry of a peer that is added back. */
  function Readded(ps: Parsers, key: string, row: Peer): KernelPeer {
    Configure(map[], Desired(ps, key, row))[key]
  }

  predicate Missing(s: State, key: string) {
    key in s.rows && s.rows[key].enabled && key !in s.kernel
  }

  predicate Unwanted(s: State, key: string) {
    key in s.kernel && (key in s.rows ==> !s.rows[key].enabled)
  }

  function KernelAfter(ps: Parsers, s: State, f: Faults): (k: Peers) {
    (map key | key in s.kernel && (Unwanted(s, key) ==> key in f.remove) :: s.kernel[key])
    + (map key | key in s.rows && Missing(s, key) && ps.validKey(key) && key !in f.add ::
         Readded(ps, key, s.rows[key]))
  }

  predicate Adopted(s: State, f: Faults, key: string) {
    key in s.kernel && key !in s.rows && key !in f.upsert
  }

  function Seen(s: State, f: Faults, key: string): Peer
    requires key in s.rows
  {
    if key in s.kernel && !f.lastSeen then s.rows[key].(lastSeenEndpoint := EndpointText(s.kernel[key]))
    else s.rows[key]
  }

  function RowsAfter(s: State, f: Faults): map<string, Peer> {
    (map key | key in s.kernel && Adopted(s, f, key) :: Discovered(key, s.kernel[key]))
    + (map key | key in s.rows :: Seen(s, f, key))
  }

  function Entry(row: Peer): ConfEntry {
    ConfEntry(row.publicKey, row.allowedIPs, row.presharedKey, row.friendlyName, row.notes, row.endpoint,
              if row.keepalive.Some? then row.keepalive.value else 0)
  }

  function ConfOf(rows: map<string, Peer>): set<ConfEntry> {
    set key | key in rows && rows[key].enabled :: Entry(rows[key])
  }

  predicate EntryOf(x: ConfEntry, row: Peer) {
    && x.key == row.publicKey && x.allowedIPs == row.allowedIPs && x.psk == row.presharedKey
    && x.name == row.friendlyName && x.notes == row.notes && x.endpoint == row.endpoint
    && x.keepalive == if row.keepalive.Some? then row.keepalive.value else 0
  }

  /** The conf has an entry for each enabled row, and no other, with the columns of that row. */
  lemma ConfEntries(rows: map<string, Peer>, x: ConfEntry)
    ensures x in ConfOf(rows) <==> exists key :: key in rows && rows[key].enabled && EntryOf(x, rows[key])
  {
    if key :| key in rows && rows[key].enabled && EntryOf(x, rows[key]) {
      assert x == Entry(rows[key]);
    }
    if x in ConfOf(rows) {
      var key :| key in rows && rows[key].enabled && x == Entry(rows[key]);
      assert EntryOf(x, rows[key]);
    }
  }

  /** What wg-quick makes of an entry when the interface comes up; a keepalive of 0 is off. */
  function Booted(ps: Parsers, x: ConfEntry): KernelPeer {
    KernelPeer(Nets(ps, Fields(x.allowedIPs)), if x.psk != "" then ps.psk(x.psk) else None,
               if x.endpoint != "" then ps.resolve(x.endpoint) else None, x.keepalive)
  }

  /** An interface brought up from the conf has exactly the peers that a pass would build, as it would build them. */
  lemma BootsAsRebuilt(ps: Parsers, rows: map<string, Peer>, key: string)
    requires key in rows && rows[key].publicKey == key
    ensures rows[key].enabled ==>
      exists x :: x in ConfOf(rows) && x.key == key && Booted(ps, x) == Readded(ps, key, rows[key])
    ensures (forall k :: k in rows ==> rows[k].publicKey == k) ==>
      forall x :: x in ConfOf(rows) && x.key == key ==>
        rows[key].enabled && Booted(ps, x) == Readded(ps, key, rows[key])
  {
    hide Fields, Nets;
    if rows[key].enabled {
      assert Entry(rows[key]) in ConfOf(rows);
      assert Entry(rows[key]).key == key;
    }
  }

  /** What one pass makes of a state, given the calls that fail. */
  function Pass(ps: Parsers, s: State, f: Faults): State {
    State(KernelAfter(ps, s, f), RowsAfter(s, f), if f.conf then s.conf else ConfOf(s.rows))
  }

  function EnabledKeys(rows: map<string, Peer>): set<string> {
    set key | key in rows && rows[key].enabled
  }

  // ---------------------------------------------------------------- the same, at one key

  function KernelAt(ps: Parsers, k: Option<KernelPeer>, row: Option<Peer>, f: Faults, key: string): Option<KernelPeer> {
    if k.Some? then
      if (row.Some? && row.value.enabled) || key in f.remove then k else None
    else if row.Some? && row.value.enabled && ps.validKey(key) && key !in f.add then
      Some(Readded(ps, key, row.value))
    else None
  }

  function RowAt(k: Option<KernelPeer>, row: Option<Peer>, f: Faults, key: string): Option<Peer> {
    if k.None? then row
    else if row.None? then (if key in f.upsert then None else Some(Discovered(key, k.value)))
    else if f.lastSeen then row
    else Some(row.value.(lastSeenEndpoint := EndpointText(k.value)))
  }

  /** A pass treats every key by itself. */
  lemma PassAt(ps: Parsers, s: State, f: Faults, key: string)
    ensures At(Pass(ps, s, f).kernel, key) == KernelAt(ps, At(s.kernel, key), At(s.rows, key), f, key)
    ensures At(Pass(ps, s, f).rows, key) == RowAt(At(s.kernel, key), At(s.rows, key), f, key)
  {
    hide Readded, Discovered, EndpointText;
  }

  // ---------------------------------------------------------------- convergence

  /** What is kept of an unknown peer: its runtime endpoint and keepalive, but nothing that grants access. */
  predicate Recorded(row: Peer, key: string, was: KernelPeer) {
    && row.publicKey == key && !row.enabled && row.autoDiscovered && row.notes == ""
    && row.friendlyName == "unknown-" + (if |key| > 8 then key[..8] else key)
    && row.lastSeenEndpoint == EndpointText(was) && row.endpoint == ""
    && (row.keepalive == if was.keepalive > 0 then Some(was.keepalive) else None)
    && row.allowedIPs == "" && row.clientAddress == "" && row.presharedKey == "" && row.clientAllowedIPs == ""
  }

  /** Of a row that was there, the endpoint seen in the kernel is recorded, and nothing else changes. */
  predicate EndpointRecorded(row: Peer, was: Peer, entry: Option<KernelPeer>) {
    row == if entry.None? then was
           else was.(lastSeenEndpoint := if entry.value.endpoint.Some? then entry.value.endpoint.value else "")
  }

  /** What a row puts into the kernel: its readable networks, and PSK and endpoint as far as they can be read. */
  ghost predicate Rebuilt(ps: Parsers, now: KernelPeer, row: Peer) {
    && (forall net :: net in now.allowed <==>
          exists i :: 0 <= i < |Fields(row.allowedIPs)| && ps.net(Fields(row.allowedIPs)[i]) == Some(net))
    && now.psk == (if row.presharedKey != "" then ps.psk(row.presharedKey) else None)
    && now.endpoint == (if row.endpoint != "" then ps.resolve(row.endpoint) else None)
    && now.keepalive == (if row.keepalive.Some? then row.keepalive.value else 0)
  }

  lemma ReaddedIsRebuilt(ps: Parsers, key: string, row: Peer)
    ensures Rebuilt(ps, Readded(ps, key, row), row)
  {
    hide Fields;
  }

  /** From the text of the list: a re-added peer gets exactly the networks of its items that can be read. */
  lemma RebuiltFromList(ps: Parsers, key: string, row: Peer, cidrs: seq<string>, gap: string, net: Cidr)
    requires gap in {"", " "} && row.allowedIPs == Joined(cidrs, gap) && forall s :: s in cidrs ==> IsItem(s)
    ensures net in Readded(ps, key, row).allowed <==> exists s :: s in cidrs && ps.net(s) == Some(net)
  {
    hide Fields, IsItem, Joined, Readded;
    FieldsOfList(cidrs, gap);
    ReaddedIsRebuilt(ps, key, row);
    if s :| s in cidrs && ps.net(s) == Some(net) {
      var i :| 0 <= i < |cidrs| && cidrs[i] == s;
      assert ps.net(Fields(row.allowedIPs)[i]) == Some(net);
    }
  }

  lemma DiscoveredIsRecorded(key: string, was: KernelPeer)
    ensures Recorded(Discovered(key, was), key, was)
  {
  }

  /**
   * One pass without failures: the kernel has exactly the enabled keys, unknown peers are recorded without
   * access, missing ones are rebuilt from their rows, and nothing else is disturbed.
   */
  lemma Converges(ps: Parsers, s: State)
    requires forall key :: key in EnabledKeys(s.rows) ==> ps.validKey(key)
    ensures var s' := Pass(ps, s, NoFaults);
      && s'.kernel.Keys == EnabledKeys(s'.rows)
      && EnabledKeys(s'.rows) == EnabledKeys(s.rows)
      && (forall key :: key in s.kernel && key !in s.rows ==>
            key in s'.rows && Recorded(s'.rows[key], key, s.kernel[key]))
      && (forall key :: key in s.kernel && key in s'.kernel ==> s'.kernel[key] == s.kernel[key])
      && (forall key :: key in s.rows && Missing(s, key) ==>
            key in s'.kernel && Rebuilt(ps, s'.kernel[key], s.rows[key]))
      && (forall key :: key in s.rows ==>
            key in s'.rows && EndpointRecorded(s'.rows[key], s.rows[key], At(s.kernel, key)))
  {
    hide Pass, Readded, Discovered, Recorded, Rebuilt;
    var s' := Pass(ps, s, NoFaults);
    forall key
      ensures key in s.rows ==> key in s'.rows && EndpointRecorded(s'.rows[key], s.rows[key], At(s.kernel, key))
      ensures key in s'.kernel <==> key in EnabledKeys(s'.rows)
      ensures key in EnabledKeys(s'.rows) <==> key in EnabledKeys(s.rows)
      ensures key in s.kernel && key in s'.kernel ==> s'.kernel[key] == s.kernel[key]
      ensures key in s.kernel && key !in s.rows ==> key in s'.rows && Recorded(s'.rows[key], key, s.kernel[key])
      ensures key in s.rows && Missing(s, key) ==> key in s'.kernel && Rebuilt(ps, s'.kernel[key], s.rows[key])
    {
      PassAt(ps, s, NoFaults, key);
      DiscoveredDisabled(key, s);
      assert key in s.rows && s.rows[key].enabled ==> key in EnabledKeys(s.rows);
      if key in s.kernel {
        DiscoveredIsRecorded(key, s.kernel[key]);
      }
      if key in s.rows {
        ReaddedIsRebuilt(ps, key, s.rows[key]);
      }
    }
  }

  /** What the second pass may still have to do: record the endpoints of peers the first one re-added. */
  predicate Settled(ps: Parsers, s: State) {
    forall key :: key in s.rows && Missing(s, key) ==>
      EndpointText(Readded(ps, key, s.rows[key])) == s.rows[key].lastSeenEndpoint
  }

  /** Without failures the second pass settles everything: a third pass changes nothing. */
  lemma ThirdPassIdle(ps: Parsers, s: State)
    requires forall key :: key in EnabledKeys(s.rows) ==> ps.validKey(key)
    ensures var s2 := Pass(ps, Pass(ps, s, NoFaults), NoFaults);
      Pass(ps, s2, NoFaults) == s2
  {
    hide Pass, Entry, EndpointText, Discovered, Readded;
    var s1 := Pass(ps, s, NoFaults);
    var s2 := Pass(ps, s1, NoFaults);
    var s3 := Pass(ps, s2, NoFaults);
    forall key ensures At(s3.kernel, key) == At(s2.kernel, key) && At(s3.rows, key) == At(s2.rows, key) {
      PassAt(ps, s, NoFaults, key);
      PassAt(ps, s1, NoFaults, key);
      PassAt(ps, s2, NoFaults, key);
      DiscoveredEndpoint(key, s);
      DiscoveredDisabled(key, s);
      assert At(s.rows, key).Some? && s.rows[key].enabled ==> key in EnabledKeys(s.rows);
    }
    SameMap(s3.kernel, s2.kernel);
    SameMap(s3.rows, s2.rows);
    SecondConf(ps, s1, NoFaults);
    ConfWritten(ps, s1);
    ConfWritten(ps, s2);
  }

  /** The conf depends on the enabled rows only, and a pass does not alter them. */
  lemma SecondConf(ps: Parsers, s: State, f: Faults)
    ensures ConfOf(Pass(ps, s, f).rows) == ConfOf(s.rows)
  {
    var s' := Pass(ps, s, f);
    hide Pass, Readded, EndpointText, ConfOf;
    forall key
      ensures key in s.rows && s.rows[key].enabled <==> key in s'.rows && s'.rows[key].enabled
      ensures key in s.rows && s.rows[key].enabled ==> Entry(s.rows[key]) == Entry(s'.rows[key])
    {
      PassAt(ps, s, f, key);
    }
    SameConf(s.rows, s'.rows);
  }

  lemma SameConf(a: map<string, Peer>, b: map<string, Peer>)
    requires forall key :: key in a && a[key].enabled <==> key in b && b[key].enabled
    requires forall key :: key in a && a[key].enabled ==> Entry(a[key]) == Entry(b[key])
    ensures ConfOf(a) == ConfOf(b)
  {
    forall x | x in ConfOf(a) ensures x in ConfOf(b) {
      var key :| key in a && a[key].enabled && x == Entry(a[key]);
      assert key in b && b[key].enabled;
    }
    forall x | x in ConfOf(b) ensures x in ConfOf(a) {
      var key :| key in b && b[key].enabled && x == Entry(b[key]);
      assert key in a && a[key].enabled;
    }
  }

  lemma ConfWritten(ps: Parsers, s: State)
    ensures Pass(ps, s, NoFaults).conf == ConfOf(s.rows)
  {
  }

  /** The second pass is idle exactly when the re-added peers' endpoints were already on record. */
  lemma SecondPassIdleIff(ps: Parsers, s: State)
    requires forall key :: key in EnabledKeys(s.rows) ==> ps.validKey(key)
    ensures var s1 := Pass(ps, s, NoFaults);
      Pass(ps, s1, NoFaults) == s1 <==> Settled(ps, s)
  {
    hide Pass, EndpointText, Discovered, Readded;
    var s1 := Pass(ps, s, NoFaults);
    var s2 := Pass(ps, s1, NoFaults);
    forall key
      ensures At(s2.kernel, key) == At(s1.kernel, key)
      ensures At(s2.rows, key) == At(s1.rows, key) <==>
        (Missing(s, key) ==> EndpointText(Readded(ps, key, s.rows[key])) == s.rows[key].lastSeenEndpoint)
    {
      PassAt(ps, s, NoFaults, key);
      PassAt(ps, s1, NoFaults, key);
      assert At(s.rows, key).Some? && s.rows[key].enabled ==> key in EnabledKeys(s.rows);
      DiscoveredEndpoint(key, s);
      DiscoveredDisabled(key, s);
    }
    SameMap(s2.kernel, s1.kernel);
    SecondConf(ps, s, NoFaults);
    ConfWritten(ps, s);
    ConfWritten(ps, s1);
    if Settled(ps, s) {
      SameMap(s2.rows, s1.rows);
    }
  }

  lemma DiscoveredEndpoint(key: string, s: State)
    ensures key in s.kernel ==> Discovered(key, s.kernel[key]).lastSeenEndpoint == EndpointText(s.kernel[key])
  {
  }

  // ---------------------------------------------------------------- failures

  function Difference(s: State): set<string> {
    (s.kernel.Keys - EnabledKeys(s.rows)) + (EnabledKeys(s.rows) - s.kernel.Keys)
  }

  /** Whatever fails, a pass never widens the gap between kernel and rows, nor enables or disables a row. */
  lemma NeverWorse(ps: Parsers, s: State, f: Faults)
    ensures Difference(Pass(ps, s, f)) <= Difference(s)
    ensures EnabledKeys(Pass(ps, s, f).rows) == EnabledKeys(s.rows)
    ensures s.rows.Keys <= Pass(ps, s, f).rows.Keys
  {
    hide Pass, EndpointText, Discovered, Readded;
    var s' := Pass(ps, s, f);
    forall key
      ensures key in Difference(s') ==> key in Difference(s)
      ensures key in EnabledKeys(s'.rows) <==> key in EnabledKeys(s.rows)
      ensures key in s.rows ==> key in s'.rows
    {
      PassAt(ps, s, f, key);
      DiscoveredDisabled(key, s);
    }
  }

  lemma DiscoveredDisabled(key: string, s: State)
    ensures key in s.kernel ==> !Discovered(key, s.kernel[key]).enabled
  {
  }

  /** The part of the failures that concerns one key. */
  predicate SameFaults(f: Faults, g: Faults, key: string) {
    && (key in f.remove <==> key in g.remove) && (key in f.upsert <==> key in g.upsert)
    && (key in f.add <==> key in g.add) && f.lastSeen == g.lastSeen
  }

  /** One key's failures, and one key's state, decide that key alone. */
  lemma KeysAreIndependent(ps: Parsers, s: State, t: State, f: Faults, g: Faults, key: string)
    requires At(s.kernel, key) == At(t.kernel, key) && At(s.rows, key) == At(t.rows, key)
    requires SameFaults(f, g, key)
    ensures At(Pass(ps, s, f).kernel, key) == At(Pass(ps, t, g).kernel, key)
    ensures At(Pass(ps, s, f).rows, key) == At(Pass(ps, t, g).rows, key)
  {
    hide Pass, Readded, EndpointText, Discovered;
    PassAt(ps, s, f, key);
    PassAt(ps, t, g, key);
  }

  /** A failed removal is retried: the next pass without failures converges all the same. */
  lemma RecoversAfterFailures(ps: Parsers, s: State, f: Faults)
    requires forall key :: key in EnabledKeys(s.rows) ==> ps.validKey(key)
    ensures var s' := Pass(ps, Pass(ps, s, f), NoFaults);
      s'.kernel.Keys == EnabledKeys(s'.rows) == EnabledKeys(s.rows)
  {
    NeverWorse(ps, s, f);
    Converges(ps, Pass(ps, s, f));
  }
}
