/** Whole runs of the agent and the kernel: exactly which requests leave a peer's entry other than its row says. */
module KernelRuns {
  import opened Text
  import opened Storage
  import opened FirewallEffects
  import opened Collections
  import opened Kernel
  import opened PeersTable
  import opened Reconciler
  import opened Requests
  import opened AgentRuns
  import opened Sagas
  import opened Addresses
  import opened ClientAddresses
  import opened DeriveIPv6

  /** The entry has the networks and the preshared key of the row. */
  predicate Matches(c: Config, entry: KernelPeer, row: Peer) {
    entry.allowed == RowNets(c, row) && entry.psk == RowPsk(c, row)
  }

  /** An entry, if the peer has one and was not merely discovered, says what the row says. */
  predicate Mirrored(c: Config, entry: Option<KernelPeer>, row: Option<Peer>) {
    entry.Some? && row.Some? && !row.value.autoDiscovered ==> Matches(c, entry.value, row.value)
  }

  ghost predicate Mirrors(c: Config, k: Peers, rows: Rows) {
    forall key :: Mirrored(c, At(k, key), At(rows, key))
  }

  /** The kernel is told of one network, and the row lists no other. */
  predicate OneNetwork(c: Config, address: string) {
    Nets(c.ps, Fields(c.serverIPs(address))) == {c.serverNet(address)}
  }

  /** So it is without an IPv6 prefix; another network that can be read spoils it. */
  lemma OneNetworkIff(c: Config, address: string)
    requires Fields(c.serverIPs(address)) != []
    requires c.ps.net(Fields(c.serverIPs(address))[0]) == Some(c.serverNet(address))
    ensures OneNetwork(c, address) <==>
            forall field :: field in Fields(c.serverIPs(address)) && c.ps.net(field).Some? ==>
              c.ps.net(field) == Some(c.serverNet(address))
  {
    hide Fields;
    var fields := Fields(c.serverIPs(address));
    var nets := Nets(c.ps, fields);
    assert c.ps.net(fields[0]).value in nets;
    forall field | field in fields && c.ps.net(field).Some? ensures c.ps.net(field).value in nets {
      var i :| 0 <= i < |fields| && fields[i] == field;
      assert c.ps.net(fields[i]).value in nets;
    }
    if forall field :: field in fields && c.ps.net(field).Some? ==> c.ps.net(field) == Some(c.serverNet(address)) {
      forall net | net in nets ensures net == c.serverNet(address) {
        var i :| 0 <= i < |fields| && c.ps.net(fields[i]) == Some(net);
        assert fields[i] in fields;
      }
    }
  }

  /**
   * With the routes that the agent makes: an IPv4 client has one network unless there is an IPv6 prefix and the derived
   * address can be read.
   */
  lemma PrefixIff(c: Config, address: string, prefix: string, parse: Parse, ipText: string -> string)
    requires c.serverIPs(address) == ServerAllowedIPs(address, prefix, parse, ipText)
    requires parse(address).Some? && parse(address).value.V4?
    requires prefix != "" ==> ',' !in prefix && !IsSpace(prefix[0])
    requires c.ps.net(Dotted(parse(address).value.ip) + "/32") == Some(c.serverNet(address))
    ensures var p := parse(address).value;
      var derived := c.ps.net(prefix + Decimal(SuffixOf(p.ip, p.ones)) + "/128");
      OneNetwork(c, address) <==> prefix == "" || derived.None? || derived == Some(c.serverNet(address))
  {
    hide Fields, ServerAllowedIPs, Dotted, Decimal, SuffixOf, OneNetwork;
    RoutesOf(address, prefix, parse, ipText);
    OneNetworkIff(c, address);
  }

  // ---------------------------------------------------------------- acts

  function KernelAfterAct(c: Config, k: Peers, b: Books, a: Act): Peers
    requires a.Update? ==> a.key in b.rows
  {
    match a
    case Create(req, f) => CreatedKernel(c, k, b.rows, req, f)
    case Batch(reqs, f) => BatchKernel(c, k, b.rows, reqs, f)
    case Rotate(key, newKey, newPsk, f) => RotatedKernel(c, k, b.rows, key, newKey, newPsk, f)
    case Update(key, req, _, f) => UpdatedKernel(c, k, b.rows, key, req, f)
    case Approve(key, req, f) => ApprovedKernel(c, k, b.rows, key, req, f)
    case Delete(key, kernelFails, _) => DeletedKernel(c, k, b.rows, key, kernelFails)
    case Pass(_, f, _) => KernelAfter(c.ps, State(k, b.rows, {}), f)
  }

  /** Rows are stored under their keys, generated keys are in no copy, and a generated PSK parses to itself. */
  ghost predicate Proper(c: Config, k: Peers, b: Books, a: Act) {
    && (forall key :: key in b.rows ==> b.rows[key].publicKey == key)
    && match a
       case Create(req, _) => req.publicKey !in k && req.publicKey !in b.rows
       case Batch(reqs, _) => FreshKeys(k, b.rows, reqs)
       case Rotate(_, newKey, newPsk, _) =>
         newKey !in k && newKey !in b.rows && newPsk != "" && c.ps.psk(newPsk) == Some(newPsk)
       case Update(key, req, _, _) => key in b.rows && req.allowedIPs.None? && req.presharedKey.None?
       case Approve(_, _, _) => true
       case Delete(_, _, _) => true
       case Pass(kernel, _, _) => kernel == k
  }

  /** A created peer stays, in the table and in the kernel. */
  predicate Lasts(key: string, f: CreateFaults) {
    !f.kernel && !f.insert && (f.conf ==> key in f.undoRow && key in f.undoKernel)
  }

  /**
   * What leaves an entry other than its row: more than one network in the row of a peer that is created,
   * approved or moved; a rotation of a peer with a PSK, half undone; an update stopped after its network call, or
   * one that adds a peer by its settings alone; an approval of a peer whose entry has something else.
   */
  predicate Spoils(c: Config, k: Peers, b: Books, a: Act) {
    match a
    case Create(req, f) =>
      Insertable(b.rows, NewRow(c, req)) && Lasts(req.publicKey, f) && !OneNetwork(c, req.clientAddress)
    case Batch(reqs, f) =>
      && InsertAll(b.rows, NewRows(c, reqs)).Some?
      && exists r :: r in reqs && Lasts(r.publicKey, f) && !OneNetwork(c, r.clientAddress)
    case Rotate(key, _, newPsk, f) =>
      && key in b.rows && c.ps.validKey(key) && !b.rows[key].autoDiscovered && b.rows[key].presharedKey != ""
      && RowPsk(c, b.rows[key]) != Some(newPsk) && !f.addNew && !f.updateKey
      && (if f.updatePsk then f.undoKey && f.undoRemove
          else f.conf && !f.undoKey && f.undoPsk && (f.undoAdd ==> f.removeOld && key in k))
    case Update(key, req, _, f) =>
      && key in b.rows && !b.rows[key].autoDiscovered && PastNetwork(c, b.rows, key, req, f)
      && var row := b.rows[key];
         if Moves(row, req) then
           || (key !in k && RowPsk(c, row).Some?)
           || (if Saved(c, b.rows, key, req, f) then !OneNetwork(c, req.clientAddress.value)
               else RowNets(c, row) != {c.serverNet(req.clientAddress.value)})
         else key !in k && SettingsSent(c, req, f) && (RowNets(c, row) != {} || RowPsk(c, row).Some?)
    case Approve(key, req, f) =>
      && !ApprovalRejected(c, b.rows, key, req) && !f.update && !f.approve
      && var row := Onboarded(c, b.rows[key], req);
         if c.ps.validKey(key) && !f.kernel then
           || !OneNetwork(c, req.clientAddress.value)
           || (if key in k then k[key].psk else None) != RowPsk(c, row)
         else key in k && !Matches(c, k[key], row)
    case Delete(_, _, _) => false
    case Pass(_, _, _) => false
  }

  /** When one key at most has changed, that key decides. */
  lemma OneKey(c: Config, k: Peers, rows: Rows, k': Peers, rows': Rows, key: string)
    requires Mirrors(c, k, rows)
    requires forall x :: x != key ==> At(k', x) == At(k, x) && At(rows', x) == At(rows, x)
    ensures Mirrors(c, k', rows') <==> Mirrored(c, At(k', key), At(rows', key))
  {
    hide Mirrored;
    if Mirrored(c, At(k', key), At(rows', key)) {
      forall x ensures Mirrored(c, At(k', x), At(rows', x)) {
        assert Mirrored(c, At(k, x), At(rows, x));
      }
    }
  }

  lemma MirroredAt(c: Config, k: Peers, rows: Rows, key: string)
    requires Mirrors(c, k, rows)
    ensures Mirrored(c, At(k, key), At(rows, key))
  {
  }

  // ---------------------------------------------------------------- creations

  lemma NewMirrored(c: Config, k: Peers, req: Peer)
    requires req.publicKey !in k
    ensures NewRow(c, req).publicKey == req.publicKey == NewConfig(c, req).key
    ensures Mirrored(c, At(Configure(k, NewConfig(c, req)), req.publicKey), Some(NewRow(c, req))) <==>
            OneNetwork(c, req.clientAddress)
  {
    hide Nets;
  }

  lemma CreateMirrors(c: Config, k: Peers, b: Books, req: Peer, f: CreateFaults)
    requires Mirrors(c, k, b.rows) && Proper(c, k, b, Create(req, f))
    ensures Mirrors(c, CreatedKernel(c, k, b.rows, req, f), Created(c, b, req, f).rows) <==>
            !Spoils(c, k, b, Create(req, f))
  {
    hide Mirrors, Matches, NewRow, NewConfig, Insertable, ApplyT, RemoveT, OneNetwork;
    NewMirrored(c, k, req);
    OneKey(c, k, b.rows, CreatedKernel(c, k, b.rows, req, f), Created(c, b, req, f).rows, req.publicKey);
  }

  // ---------------------------------------------------------------- batches

  lemma {:induction false} ConfigureAllAt(k: Peers, cs: seq<PeerConfig>, i: nat)
    requires i < |cs| && cs[i].key !in k
    requires forall j :: 0 <= j < |cs| && j != i ==> cs[j].key != cs[i].key
    ensures At(ConfigureAll(k, cs), cs[i].key) == At(Configure(k, cs[i]), cs[i].key)
    decreases |cs|
  {
    hide Configure;
    var key, rest := cs[i].key, cs[1..];
    if i == 0 {
      assert forall x :: x in rest ==> x.key != key;
      ConfigureAllKeys(Configure(k, cs[0]), rest);
    } else {
      ConfigureOther(k, cs[0], key);
      ConfigureOther(map[], cs[0], key);
      ConfigureAllAt(Configure(k, cs[0]), rest, i - 1);
      NewEntry(k, Configure(k, cs[0]), cs[i]);
    }
  }

  /** The entry of a new peer does not depend on the other peers. */
  lemma NewEntry(k: Peers, l: Peers, cfg: PeerConfig)
    requires cfg.key !in k && cfg.key !in l
    ensures At(Configure(k, cfg), cfg.key) == At(Configure(l, cfg), cfg.key)
  {
  }

  predicate BatchInserted(c: Config, rows: Rows, reqs: seq<Peer>, f: CreateFaults) {
    !f.kernel && !f.insert && InsertAll(rows, NewRows(c, reqs)).Some?
  }

  /** Kernel and rows at the key of one of the requests. */
  lemma BatchAt(c: Config, k: Peers, b: Books, reqs: seq<Peer>, f: CreateFaults, i: nat)
    requires FreshKeys(k, b.rows, reqs) && i < |reqs|
    ensures var key, k', b' := reqs[i].publicKey, BatchKernel(c, k, b.rows, reqs, f), BatchCreated(c, b, reqs, f);
      if BatchInserted(c, b.rows, reqs, f)
      then
        && (At(k', key) ==
              if f.conf && key !in f.undoKernel then None else At(Configure(k, NewConfig(c, reqs[i])), key))
        && (At(b'.rows, key) == if f.conf && key !in f.undoRow then None else Some(NewRow(c, reqs[i])))
      else At(b'.rows, key) == None
  {
    hide InsertAll, NewRow, NewRows, NewConfig, NewConfigs, Keys, ConfigureAll, Configure, ApplyT, RemoveT, TempPeers;
    var key, cs, newRows := reqs[i].publicKey, NewConfigs(c, reqs), NewRows(c, reqs);
    assert reqs[i] in reqs;
    BatchConfig(c, reqs, i);
    forall j | 0 <= j < |cs| && j != i ensures cs[j].key != key {
      BatchConfig(c, reqs, j);
    }
    ConfigureAllAt(k, cs, i);
    NewKeys(c, reqs, key);
    if BatchInserted(c, b.rows, reqs, f) {
      BatchRow(c, b.rows, reqs, Keys(newRows), key);
      BatchRow(c, b.rows, reqs, f.undoRow, key);
      assert InsertAll(b.rows, newRows).value - (Keys(newRows) - Keys(newRows)) == InsertAll(b.rows, newRows).value;
    }
  }

  lemma BatchConfig(c: Config, reqs: seq<Peer>, i: nat)
    requires i < |reqs|
    ensures |NewConfigs(c, reqs)| == |reqs| && NewConfigs(c, reqs)[i] == NewConfig(c, reqs[i])
    ensures NewConfig(c, reqs[i]).key == reqs[i].publicKey
  {
  }

  /** At the other keys nothing changes. */
  lemma BatchElse(c: Config, k: Peers, b: Books, reqs: seq<Peer>, f: CreateFaults, key: string)
    requires FreshKeys(k, b.rows, reqs) && forall r :: r in reqs ==> r.publicKey != key
    ensures At(BatchKernel(c, k, b.rows, reqs, f), key) == At(k, key)
    ensures At(BatchCreated(c, b, reqs, f).rows, key) == At(b.rows, key)
  {
    hide InsertAll, NewRow, NewRows, NewConfig, NewConfigs, Keys, ConfigureAll, Configure, ApplyT, RemoveT, TempPeers;
    var cs, newRows := NewConfigs(c, reqs), NewRows(c, reqs);
    BatchKeys(c, reqs);
    NewKeys(c, reqs, key);
    ConfigureAllKeys(k, cs);
    InsertAllRows(b.rows, newRows);
    assert forall cfg :: cfg in cs ==> cfg.key != key by {
      OtherKey(reqs, key);
    }
  }

  lemma OtherKey(reqs: seq<Peer>, key: string)
    requires forall r :: r in reqs ==> r.publicKey != key
    ensures key !in Keys(reqs)
  {
  }

  lemma BatchMirrors(c: Config, k: Peers, b: Books, reqs: seq<Peer>, f: CreateFaults)
    requires Mirrors(c, k, b.rows) && Proper(c, k, b, Batch(reqs, f))
    ensures Mirrors(c, BatchKernel(c, k, b.rows, reqs, f), BatchCreated(c, b, reqs, f).rows) <==>
            !Spoils(c, k, b, Batch(reqs, f))
  {
    hide Mirrored, NewRow, NewConfig, BatchKernel, BatchCreated, OneNetwork, Configure, InsertAll, NewRows;
    var k', rows' := BatchKernel(c, k, b.rows, reqs, f), BatchCreated(c, b, reqs, f).rows;
    forall i | 0 <= i < |reqs|
      ensures Mirrored(c, At(k', reqs[i].publicKey), At(rows', reqs[i].publicKey)) <==>
              !(InsertAll(b.rows, NewRows(c, reqs)).Some? && Lasts(reqs[i].publicKey, f)
                && !OneNetwork(c, reqs[i].clientAddress))
    {
      assert reqs[i] in reqs;
      BatchAt(c, k, b, reqs, f, i);
      NewMirrored(c, k, reqs[i]);
      NoneMirrored(c, At(k', reqs[i].publicKey), At(rows', reqs[i].publicKey));
    }
    if !Spoils(c, k, b, Batch(reqs, f)) {
      forall key ensures Mirrored(c, At(k', key), At(rows', key)) {
        if r :| r in reqs && r.publicKey == key {
          var i :| 0 <= i < |reqs| && reqs[i] == r;
        } else {
          BatchElse(c, k, b, reqs, f, key);
          MirroredAt(c, k, b.rows, key);
        }
      }
    } else {
      var r :| r in reqs && Lasts(r.publicKey, f) && !OneNetwork(c, r.clientAddress);
      var i :| 0 <= i < |reqs| && reqs[i] == r;
    }
  }

  lemma NoneMirrored(c: Config, entry: Option<KernelPeer>, row: Option<Peer>)
    ensures entry.None? || row.None? ==> Mirrored(c, entry, row)
  {
  }

  // ---------------------------------------------------------------- rotations

  /** The networks and the PSK of the entry that a configuration leaves. */
  lemma Configured(k: Peers, cfg: PeerConfig)
    ensures cfg.key in Configure(k, cfg)
    ensures var now := Configure(k, cfg)[cfg.key];
      if cfg.key !in k then now.allowed == cfg.allowed && now.psk == cfg.psk
      else
        && now.allowed == (if cfg.replaceAllowed then cfg.allowed else k[cfg.key].allowed + cfg.allowed)
        && now.psk == (if cfg.psk.Some? then cfg.psk else k[cfg.key].psk)
    ensures forall x :: x != cfg.key ==> At(Configure(k, cfg), x) == At(k, x)
  {
  }

  /** Adding the old peer back, to an entry that mirrors its row or to none, leaves an entry that mirrors it. */
  lemma OldBack(c: Config, k: Peers, row: Peer)
    requires row.publicKey in k ==> Matches(c, k[row.publicKey], row)
    ensures row.publicKey in WithOld(c, k, row) && Matches(c, WithOld(c, k, row)[row.publicKey], row)
    ensures forall x :: x != row.publicKey ==> At(WithOld(c, k, row), x) == At(k, x)
  {
    hide RowNets, RowPsk, Configure;
    Configured(k, PeerConfig(row.publicKey, RowNets(c, row), RowPsk(c, row), None, None, false));
  }

  /** The two entries after a rotation. */
  lemma RotatedEntries(
    c: Config, k: Peers, rows: Rows, key: string, newKey: string, newPsk: string, f: RotateFaults)
    requires key in rows && rows[key].publicKey == key && c.ps.validKey(key) && newKey !in k && newKey != key
    requires key in k ==> Matches(c, k[key], rows[key])
    ensures var row, k' := rows[key], RotatedKernel(c, k, rows, key, newKey, newPsk, f);
      var fails := RotationFails(row, f);
      && (key in k' <==> (f.removeOld && key in k) || (fails && !f.undoAdd))
      && (key in k' ==> Matches(c, k'[key], row))
      && (newKey in k' <==> !f.addNew && (fails ==> f.undoRemove))
      && (newKey in k' ==> k'[newKey].allowed == RowNets(c, row)
                           && k'[newKey].psk == if row.presharedKey != "" then Some(newPsk) else None)
      && (forall x :: x != key && x != newKey ==> At(k', x) == At(k, x))
  {
    hide Configure, WithOld, RowNets, RowPsk, RotationFails;
    var row := rows[key];
    var cleared := if f.removeOld then k else k - {key};
    Configured(cleared, NewKeyConfig(c, row, newKey, newPsk));
    var added := if f.addNew then cleared else Configure(cleared, NewKeyConfig(c, row, newKey, newPsk));
    assert At(added, key) == At(cleared, key);
    var back := if f.addNew || f.undoRemove then added else added - {newKey};
    assert At(back, key) == At(cleared, key);
    assert newKey !in cleared && (newKey in added <==> !f.addNew);
    OldBack(c, back, row);
    assert At(WithOld(c, back, row), newKey) == At(back, newKey);
    if f.addNew {
      AddNewFails(row, f);
    }
    forall x | x != key && x != newKey ensures At(added, x) == At(k, x) && At(back, x) == At(k, x) {
      assert At(cleared, x) == At(k, x);
    }
    assert RotatedKernel(c, k, rows, key, newKey, newPsk, f) ==
      if !RotationFails(row, f) then added else if f.undoAdd then back else WithOld(c, back, row);
  }

  lemma AddNewFails(row: Peer, f: RotateFaults)
    requires f.addNew
    ensures RotationFails(row, f)
  {
  }

  /** The two rows after it. */
  lemma RotatedAt(rows: Rows, key: string, newKey: string, newPsk: string, f: RotateFaults)
    requires key in rows && newKey !in rows
    ensures var row, rows' := rows[key], RotatedRows(rows, key, newKey, newPsk, f);
      var hasPsk := row.presharedKey != "";
      var renamed := !f.addNew && !f.updateKey && if hasPsk && f.updatePsk then f.undoKey else f.conf ==> f.undoKey;
      var psk :=
        if hasPsk && !f.addNew && !f.updateKey && !f.updatePsk && (f.conf && !f.undoKey ==> f.undoPsk)
        then newPsk else row.presharedKey;
      && (if renamed
          then key !in rows' && newKey in rows' && rows'[newKey] == row.(publicKey := newKey, presharedKey := psk)
          else newKey !in rows' && key in rows' && rows'[key] == row.(presharedKey := psk))
      && (forall x :: x != key && x != newKey ==> At(rows', x) == At(rows, x))
  {
  }

  lemma TwoKeys(c: Config, k: Peers, rows: Rows, k': Peers, rows': Rows, a: string, b: string)
    requires Mirrors(c, k, rows)
    requires forall x :: x != a && x != b ==> At(k', x) == At(k, x) && At(rows', x) == At(rows, x)
    ensures Mirrors(c, k', rows') <==> Mirrored(c, At(k', a), At(rows', a)) && Mirrored(c, At(k', b), At(rows', b))
  {
    hide Mirrored;
    if Mirrored(c, At(k', a), At(rows', a)) && Mirrored(c, At(k', b), At(rows', b)) {
      forall x ensures Mirrored(c, At(k', x), At(rows', x)) {
        assert Mirrored(c, At(k, x), At(rows, x));
      }
    }
  }

  /** Key and PSK do not bear on the networks; the PSK alone bears on the PSK. */
  lemma OtherKeyNets(c: Config, row: Peer, key: string, psk: string)
    ensures var p := row.(publicKey := key, presharedKey := psk);
      RowNets(c, p) == RowNets(c, row) && RowPsk(c, p) == if psk != "" then c.ps.psk(psk) else None
  {
  }

  lemma RotateMirrors(
    c: Config, k: Peers, b: Books, key: string, newKey: string, newPsk: string, f: RotateFaults)
    requires Mirrors(c, k, b.rows) && Proper(c, k, b, Rotate(key, newKey, newPsk, f))
    ensures Mirrors(c, RotatedKernel(c, k, b.rows, key, newKey, newPsk, f),
                    RotatedBooks(c, b, key, newKey, newPsk, f).rows) <==>
            !Spoils(c, k, b, Rotate(key, newKey, newPsk, f))
  {
    hide RotatedKernel, RotatedRows, RowNets, RowPsk, Mirrors, ApplyT, RemoveT;
    if key in b.rows && c.ps.validKey(key) {
      var row := b.rows[key];
      var k', rows' := RotatedKernel(c, k, b.rows, key, newKey, newPsk, f), RotatedRows(b.rows, key, newKey, newPsk, f);
      MirroredAt(c, k, b.rows, key);
      RotatedAt(b.rows, key, newKey, newPsk, f);
      OtherKeyNets(c, row, newKey, newPsk);
      OtherKeyNets(c, row, newKey, row.presharedKey);
      OtherKeyNets(c, row, key, newPsk);
      OtherKeyNets(c, row, key, row.presharedKey);
      if row.autoDiscovered {
        RotatedElse(c, k, b.rows, key, newKey, newPsk, f);
      } else {
        RotatedEntries(c, k, b.rows, key, newKey, newPsk, f);
      }
      TwoKeys(c, k, b.rows, k', rows', key, newKey);
    } else {
      NotRotated(c, k, b.rows, key, newKey, newPsk, f);
    }
  }

  lemma NotRotated(c: Config, k: Peers, rows: Rows, key: string, newKey: string, newPsk: string, f: RotateFaults)
    requires key !in rows || !c.ps.validKey(key)
    ensures RotatedKernel(c, k, rows, key, newKey, newPsk, f) == k
  {
  }

  lemma RotatedElse(
    c: Config, k: Peers, rows: Rows, key: string, newKey: string, newPsk: string, f: RotateFaults)
    requires key in rows && rows[key].publicKey == key
    ensures forall x :: x != key && x != newKey ==> At(RotatedKernel(c, k, rows, key, newKey, newPsk, f), x) == At(k, x)
  {
    hide RowNets, RowPsk, RotationFails;
  }

  // ---------------------------------------------------------------- updates, approvals, deletions, passes

  /** The entry after an update: its networks and PSK. */
  lemma UpdatedEntry(c: Config, k: Peers, rows: Rows, key: string, req: PeerUpdate, f: UpdateFaults)
    requires key in rows
    ensures var k' := UpdatedKernel(c, k, rows, key, req, f);
      var told := PastNetwork(c, rows, key, req, f) && (Moves(rows[key], req) || SettingsSent(c, req, f));
      && (forall x :: x != key ==> At(k', x) == At(k, x))
      && (if !told then k' == k
          else
            && key in k' && k'[key].psk == (if key in k then k[key].psk else None)
            && k'[key].allowed ==
                 if Moves(rows[key], req) then {c.serverNet(req.clientAddress.value)}
                 else if key in k then k[key].allowed else {})
  {
    hide UpdateRejected, Configure, Malformed, AskedEndpoint;
    if PastNetwork(c, rows, key, req, f) {
      if Moves(rows[key], req) {
        var network := NetworkConfig(c, key, req.clientAddress.value);
        Configured(k, network);
        Configured(Configure(k, network), SettingsConfig(c, key, req));
      }
      Configured(k, SettingsConfig(c, key, req));
    }
  }

  /** Its endpoint and keepalive: what the request says of them, if it can be read and is sent. */
  lemma UpdatedSettings(c: Config, k: Peers, rows: Rows, key: string, req: PeerUpdate, f: UpdateFaults)
    requires key in rows
    ensures var k' := UpdatedKernel(c, k, rows, key, req, f);
      var sent := PastNetwork(c, rows, key, req, f) && !Malformed(c, req) && !f.settings;
      var was := if key in k then k[key] else KernelPeer({}, None, None, 0);
      key in k' ==>
        && k'[key].endpoint ==
             (if sent && req.endpoint.Some? && req.endpoint.value != "" && c.ps.resolve(req.endpoint.value).Some?
              then c.ps.resolve(req.endpoint.value) else was.endpoint)
        && k'[key].keepalive ==
             if sent && req.keepalive.Some? && req.keepalive.value.Some?
             then req.keepalive.value.value else was.keepalive
  {
    hide UpdateRejected, Malformed;
  }

  lemma UpdateMirrors(c: Config, k: Peers, b: Books, key: string, req: PeerUpdate, profile: bool, f: UpdateFaults)
    requires Mirrors(c, k, b.rows) && Proper(c, k, b, Update(key, req, profile, f))
    ensures Mirrors(c, UpdatedKernel(c, k, b.rows, key, req, f), UpdatedBooks(c, b, key, req, profile, f).rows) <==>
            !Spoils(c, k, b, Update(key, req, profile, f))
  {
    hide Mirrors, RowNets, RowPsk, ApplyT, RemoveT, UpdatedKernel, PastNetwork, Malformed, Edited, OneNetwork;
    hide Moves, SettingsSent;
    MirroredAt(c, k, b.rows, key);
    EditedNets(c, b.rows[key], req);
    UpdatedEntry(c, k, b.rows, key, req, f);
    OneKey(c, k, b.rows, UpdatedKernel(c, k, b.rows, key, req, f),
           UpdatedBooks(c, b, key, req, profile, f).rows, key);
  }

  lemma EditedNets(c: Config, row: Peer, req: PeerUpdate)
    requires req.allowedIPs.None? && req.presharedKey.None?
    ensures Edited(c, row, req).autoDiscovered == row.autoDiscovered
    ensures RowPsk(c, Edited(c, row, req)) == RowPsk(c, row)
    ensures if Moves(row, req)
      then
        var address := req.clientAddress.value;
        RowNets(c, Edited(c, row, req)) == {c.serverNet(address)} <==> OneNetwork(c, address)
      else RowNets(c, Edited(c, row, req)) == RowNets(c, row)
  {
    hide Nets;
  }

  lemma ApproveMirrors(c: Config, k: Peers, b: Books, key: string, req: PeerUpdate, f: ApproveFaults)
    requires Mirrors(c, k, b.rows) && Proper(c, k, b, Approve(key, req, f))
    ensures Mirrors(c, ApprovedKernel(c, k, b.rows, key, req, f), ApprovedBooks(c, b, key, req, f).rows) <==>
            !Spoils(c, k, b, Approve(key, req, f))
  {
    hide Mirrors, RowNets, RowPsk, ApplyT, Configure, AskedEndpoint, Onboarded, OneNetwork, AddressFree;
    var k', rows' := ApprovedKernel(c, k, b.rows, key, req, f), ApprovedBooks(c, b, key, req, f).rows;
    if !ApprovalRejected(c, b.rows, key, req) {
      MirroredAt(c, k, b.rows, key);
      OnboardedNets(c, b.rows[key], req);
      Configured(k, PeerConfig(
        key, {c.serverNet(req.clientAddress.value)}, None, AskedEndpoint(c, req), AskedKeepalive(req), true));
    }
    OneKey(c, k, b.rows, k', rows', key);
  }

  lemma OnboardedNets(c: Config, row: Peer, req: PeerUpdate)
    requires req.clientAddress.Some?
    ensures var p := Onboarded(c, row, req);
      var q := p.(enabled := true, autoDiscovered := false);
      && p.autoDiscovered == row.autoDiscovered
      && RowPsk(c, q) == RowPsk(c, p) && RowNets(c, q) == RowNets(c, p)
      && (RowNets(c, p) == {c.serverNet(req.clientAddress.value)} <==> OneNetwork(c, req.clientAddress.value))
  {
    hide Nets;
  }

  lemma ReaddedMatches(c: Config, key: string, row: Peer)
    ensures Matches(c, Readded(c.ps, key, row), row)
  {
  }

  predicate MirroredIn(c: Config, s: State, key: string) {
    Mirrored(c, At(s.kernel, key), At(s.rows, key))
  }

  /** Exactly when a pass sets an entry right that is other than its row: when it takes out a disabled peer. */
  lemma PassRepairsIff(c: Config, s: State, f: Faults, key: string)
    ensures MirroredIn(c, Reconciler.Pass(c.ps, s, f), key) <==>
            MirroredIn(c, s, key) || (key in s.rows && !s.rows[key].enabled && key !in f.remove)
  {
    hide Reconciler.Pass, Readded, EndpointText, RowNets, RowPsk;
    PassAt(c.ps, s, f, key);
    if key in s.rows {
      ReaddedMatches(c, key, s.rows[key]);
      if key in s.kernel {
        SeenNets(c, s.rows[key], EndpointText(s.kernel[key]));
      }
    }
  }

  lemma SeenNets(c: Config, row: Peer, endpoint: string)
    ensures var p := row.(lastSeenEndpoint := endpoint);
      RowNets(c, p) == RowNets(c, row) && RowPsk(c, p) == RowPsk(c, row)
  {
  }

  lemma PassMirrors(c: Config, k: Peers, rows: Rows, f: Faults)
    requires Mirrors(c, k, rows)
    ensures Mirrors(c, KernelAfter(c.ps, State(k, rows, {}), f), RowsAfter(State(k, rows, {}), f))
  {
    hide Mirrored, KernelAfter, RowsAfter;
    var s := State(k, rows, {});
    forall key ensures MirroredIn(c, Reconciler.Pass(c.ps, s, f), key) {
      assert MirroredIn(c, s, key) by { MirroredAt(c, k, rows, key); }
      PassRepairsIff(c, s, f, key);
    }
    assert forall key :: Mirrored(c, At(KernelAfter(c.ps, s, f), key), At(RowsAfter(s, f), key)) by {
      forall key ensures Mirrored(c, At(KernelAfter(c.ps, s, f), key), At(RowsAfter(s, f), key)) {
        assert MirroredIn(c, Reconciler.Pass(c.ps, s, f), key);
      }
    }
  }

  lemma DeleteMirrors(c: Config, k: Peers, b: Books, key: string, kernelFails: bool, dbFails: bool)
    requires Mirrors(c, k, b.rows)
    ensures Mirrors(c, DeletedKernel(c, k, b.rows, key, kernelFails), DeletedBooks(c, b, key, dbFails).rows)
  {
    hide Mirrors, Matches, RemoveT;
    MirroredAt(c, k, b.rows, key);
    OneKey(c, k, b.rows, DeletedKernel(c, k, b.rows, key, kernelFails), DeletedBooks(c, b, key, dbFails).rows, key);
  }

  // ---------------------------------------------------------------- runs

  /** Exactly which request or pass, with which failures, leaves some entry other than its row. */
  lemma MirrorIff(c: Config, k: Peers, b: Books, a: Act)
    requires Mirrors(c, k, b.rows) && Proper(c, k, b, a)
    ensures Mirrors(c, KernelAfterAct(c, k, b, a), AfterAct(c, b, a).rows) <==> !Spoils(c, k, b, a)
  {
    hide Mirrors, Created, BatchCreated, RotatedBooks, UpdatedBooks, ApprovedBooks, DeletedBooks, RowsAfter;
    hide CreatedKernel, BatchKernel, RotatedKernel, UpdatedKernel, ApprovedKernel, DeletedKernel, KernelAfter;
    match a {
      case Create(req, f) => CreateMirrors(c, k, b, req, f);
      case Batch(reqs, f) => BatchMirrors(c, k, b, reqs, f);
      case Rotate(key, newKey, newPsk, f) => RotateMirrors(c, k, b, key, newKey, newPsk, f);
      case Update(key, req, profile, f) => UpdateMirrors(c, k, b, key, req, profile, f);
      case Approve(key, req, f) => ApproveMirrors(c, k, b, key, req, f);
      case Delete(key, kernelFails, dbFails) => DeleteMirrors(c, k, b, key, kernelFails, dbFails);
      case Pass(_, f, _) => PassMirrors(c, k, b.rows, f);
    }
  }

  ghost predicate Course(c: Config, k: Peers, b: Books, acts: seq<Act>)
    decreases |acts|
  {
    acts == [] ||
    (Proper(c, k, b, acts[0]) && Course(c, KernelAfterAct(c, k, b, acts[0]), AfterAct(c, b, acts[0]), acts[1..]))
  }

  ghost predicate AlwaysMirrors(c: Config, k: Peers, b: Books, acts: seq<Act>)
    requires Course(c, k, b, acts)
    decreases |acts|
  {
    && Mirrors(c, k, b.rows)
    && (acts != [] ==> AlwaysMirrors(c, KernelAfterAct(c, k, b, acts[0]), AfterAct(c, b, acts[0]), acts[1..]))
  }

  ghost predicate Unspoilt(c: Config, k: Peers, b: Books, acts: seq<Act>)
    requires Course(c, k, b, acts)
    decreases |acts|
  {
    acts != [] ==>
      && !Spoils(c, k, b, acts[0])
      && Unspoilt(c, KernelAfterAct(c, k, b, acts[0]), AfterAct(c, b, acts[0]), acts[1..])
  }

  lemma ProperUpdate(c: Config, k: Peers, b: Books, a: Act)
    requires Proper(c, k, b, a)
    ensures a.Update? ==> a.key in b.rows
  {
  }

  /** Over any run, with any failures: every entry says what its row says throughout iff no act spoils one. */
  lemma {:induction false} RunMirrorsIff(c: Config, k: Peers, b: Books, acts: seq<Act>)
    requires Mirrors(c, k, b.rows) && Course(c, k, b, acts)
    ensures AlwaysMirrors(c, k, b, acts) <==> Unspoilt(c, k, b, acts)
    decreases |acts|
  {
    hide Mirrors, Proper, AfterAct, KernelAfterAct, Spoils;
    if acts != [] {
      ProperUpdate(c, k, b, acts[0]);
      var k', b' := KernelAfterAct(c, k, b, acts[0]), AfterAct(c, b, acts[0]);
      MirrorIff(c, k, b, acts[0]);
      if Mirrors(c, k', b'.rows) {
        RunMirrorsIff(c, k', b', acts[1..]);
      }
    }
  }

  // ---------------------------------------------------------------- what follows, and what does not

  /** While entries say what rows say, a failed rotation undone in the kernel leaves the kernel as it was. */
  lemma MirroredRotationRestores(
    c: Config, k: Peers, rows: Rows, key: string, newKey: string, newPsk: string, f: RotateFaults)
    requires Mirrors(c, k, rows) && key in rows && rows[key].publicKey == key && !rows[key].autoDiscovered
    requires key in k && newKey !in k && c.ps.validKey(key)
    requires RotationFails(rows[key], f) && !f.undoRemove && !f.undoAdd
    ensures View(RotatedKernel(c, k, rows, key, newKey, newPsk, f)) == View(k)
  {
    hide RotatedKernel, RotationFails, View, RowNets, RowPsk;
    MirroredAt(c, k, rows, key);
    RotationRestores(c, k, rows, key, newKey, newPsk, f);
  }

  /** A created peer can be restored exactly when its row lists no second network, such as a derived IPv6 one. */
  lemma CreatedRestorableIff(c: Config, k: Peers, req: Peer)
    requires req.publicKey !in k
    ensures Restorable(c, Configure(k, NewConfig(c, req)), NewRow(c, req), false) <==> OneNetwork(c, req.clientAddress)
  {
    hide Nets, Configure;
    Configured(k, NewConfig(c, req));
  }

  /** A created peer that is lost is rebuilt just as it was, endpoint and keepalive included, exactly then. */
  lemma CreatedRebuiltIff(c: Config, k: Peers, req: Peer)
    requires req.publicKey !in k
    ensures Readded(c.ps, req.publicKey, NewRow(c, req)) == Configure(k, NewConfig(c, req))[req.publicKey] <==>
            OneNetwork(c, req.clientAddress)
  {
    hide Nets;
  }

  /**
   * After an update without failures a peer that the kernel had as its row said is there as its new row says, and so
   * would be rebuilt the same, exactly when the request leaves nothing to be taken back: clearing or not resolving an
   * endpoint, and clearing a keepalive, is not told to the kernel, nor is a second network.
   */
  lemma UpdatedRebuiltIff(c: Config, k: Peers, rows: Rows, key: string, req: PeerUpdate, f: UpdateFaults)
    requires key in rows && key in k && k[key] == Readded(c.ps, key, rows[key])
    requires Saved(c, rows, key, req, f) && !f.settings && req.allowedIPs.None? && req.presharedKey.None?
    ensures UpdatedKernel(c, k, rows, key, req, f)[key] == Readded(c.ps, key, Edited(c, rows[key], req)) <==>
      && (Moves(rows[key], req) ==> OneNetwork(c, req.clientAddress.value))
      && (req.endpoint.Some? && (req.endpoint.value == "" || c.ps.resolve(req.endpoint.value).None?) ==>
            k[key].endpoint == None)
      && (req.keepalive == Some(None) ==> k[key].keepalive == 0)
  {
    hide RowNets, RowPsk, UpdatedKernel, Saved, Moves, Edited, OneNetwork, Readded, Malformed;
    UpdatedEntry(c, k, rows, key, req, f);
    UpdatedSettings(c, k, rows, key, req, f);
    EditedNets(c, rows[key], req);
    ReaddedMatches(c, key, rows[key]);
    ReaddedMatches(c, key, Edited(c, rows[key], req));
    ReaddedSettings(c, key, rows[key]);
    ReaddedSettings(c, key, Edited(c, rows[key], req));
    EditedSettings(c, rows[key], req);
    SavedParts(c, rows, key, req, f);
  }

  lemma SavedParts(c: Config, rows: Rows, key: string, req: PeerUpdate, f: UpdateFaults)
    requires key in rows && Saved(c, rows, key, req, f)
    ensures PastNetwork(c, rows, key, req, f) && !Malformed(c, req)
  {
  }

  lemma EditedSettings(c: Config, row: Peer, req: PeerUpdate)
    ensures Edited(c, row, req).endpoint == (if req.endpoint.Some? then req.endpoint.value else row.endpoint)
    ensures Edited(c, row, req).keepalive == (if req.keepalive.Some? then req.keepalive.value else row.keepalive)
  {
  }

  lemma ReaddedSettings(c: Config, key: string, row: Peer)
    ensures var now := Readded(c.ps, key, row);
      && now.endpoint == (if row.endpoint != "" then c.ps.resolve(row.endpoint) else None)
      && now.keepalive == (if row.keepalive.Some? then row.keepalive.value else 0)
  {
  }

  function Passes(ps: Parsers, s: State, fs: seq<Faults>): State
    decreases |fs|
  {
    if fs == [] then s else Passes(ps, Reconciler.Pass(ps, s, fs[0]), fs[1..])
  }

  /** The entry of an enabled peer that is other than its row stays so, however many passes follow. */
  lemma {:induction false} PassesRepairNothing(c: Config, s: State, fs: seq<Faults>, key: string)
    requires key in s.rows && s.rows[key].enabled && !MirroredIn(c, s, key)
    ensures !MirroredIn(c, Passes(c.ps, s, fs), key)
    decreases |fs|
  {
    hide Reconciler.Pass, MirroredIn;
    if fs != [] {
      PassRepairsIff(c, s, fs[0], key);
      StaysEnabled(c.ps, s, fs[0], key);
      PassesRepairNothing(c, Reconciler.Pass(c.ps, s, fs[0]), fs[1..], key);
    }
  }

  lemma StaysEnabled(ps: Parsers, s: State, f: Faults, key: string)
    requires key in s.rows && s.rows[key].enabled
    ensures key in Reconciler.Pass(ps, s, f).rows && Reconciler.Pass(ps, s, f).rows[key].enabled
  {
    hide Reconciler.Pass, EndpointText;
    PassAt(ps, s, f, key);
  }

  /**
   * Which updates put a peer into the kernel that was not there, a disabled one for example: exactly those that
   * move its address or send an endpoint or keepalive. The next pass takes a disabled peer out, if it can.
   */
  lemma UpdateAddsIff(
    c: Config, k: Peers, b: Books, key: string, req: PeerUpdate, profile: bool, f: UpdateFaults, g: Faults)
    requires key in b.rows && key !in k
    ensures var k', rows' := UpdatedKernel(c, k, b.rows, key, req, f), UpdatedBooks(c, b, key, req, profile, f).rows;
      var told := PastNetwork(c, b.rows, key, req, f) && (Moves(b.rows[key], req) || SettingsSent(c, req, f));
      && (key in k' <==> told)
      && (!rows'[key].enabled ==>
            (key in Reconciler.Pass(c.ps, State(k', rows', {}), g).kernel <==> told && key in g.remove))
  {
    hide UpdatedKernel, UpdatedBooks, PastNetwork, Moves, SettingsSent, Reconciler.Pass, Readded;
    UpdatedEntry(c, k, b.rows, key, req, f);
    UpdatedHas(c, b, key, req, profile, f);
    PassAt(c.ps, State(UpdatedKernel(c, k, b.rows, key, req, f),
                       UpdatedBooks(c, b, key, req, profile, f).rows, {}), g, key);
  }

  lemma UpdatedHas(c: Config, b: Books, key: string, req: PeerUpdate, profile: bool, f: UpdateFaults)
    requires key in b.rows
    ensures key in UpdatedBooks(c, b, key, req, profile, f).rows
  {
    hide Saved, Edited, Relevant, Moves;
  }

  /**
   * Exactly when an update that is turned down for its settings leaves the kernel alone: when it was stopped before
   * the network call, moves no address, or the kernel has the new network already.
   */
  lemma RefusedIff(c: Config, k: Peers, rows: Rows, key: string, req: PeerUpdate, f: UpdateFaults)
    requires key in rows && Malformed(c, req)
    ensures UpdatedKernel(c, k, rows, key, req, f) == k <==>
            || !PastNetwork(c, rows, key, req, f) || !Moves(rows[key], req)
            || (key in k && k[key].allowed == {c.serverNet(req.clientAddress.value)})
  {
    hide PastNetwork, Malformed;
    UpdatedEntry(c, k, rows, key, req, f);
  }

  /** A concrete one: a new address with an endpoint that has no port, or with a keepalive that is too long. */
  lemma RefusalMovesPeer(c: Config, row: Peer, entry: KernelPeer, badPort: bool, f: UpdateFaults, fs: seq<Faults>)
    requires row.publicKey == "k" && row.clientAddress == "10.0.0.2/24" && row.enabled && !row.autoDiscovered
    requires c.ps.validKey("k") && !c.validEndpoint("abc") && !f.network && Matches(c, entry, row)
    requires RowNets(c, row) != {c.serverNet("10.0.0.9/24")}
    ensures var rows, k := map["k" := row], map["k" := entry];
      var req := if badPort then NO_UPDATE.(clientAddress := Some("10.0.0.9/24"), endpoint := Some("abc"))
                 else NO_UPDATE.(clientAddress := Some("10.0.0.9/24"), keepalive := Some(Some(70000)));
      var k' := UpdatedKernel(c, k, rows, "k", req, f);
      && !Saved(c, rows, "k", req, f) && PastNetwork(c, rows, "k", req, f)
      && k'["k"].allowed == {c.serverNet("10.0.0.9/24")}
      && !MirroredIn(c, Passes(c.ps, State(k', rows, {}), fs), "k")
  {
    hide RowNets, RowPsk, Passes;
    var rows, k := map["k" := row], map["k" := entry];
    var req := if badPort then NO_UPDATE.(clientAddress := Some("10.0.0.9/24"), endpoint := Some("abc"))
               else NO_UPDATE.(clientAddress := Some("10.0.0.9/24"), keepalive := Some(Some(70000)));
    assert Moves(row, req);
    UpdatedEntry(c, k, rows, "k", req, f);
    PassesRepairNothing(c, State(UpdatedKernel(c, k, rows, "k", req, f), rows, {}), fs, "k");
  }
}
