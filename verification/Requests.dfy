/** Requests to the mutating handlers, and what each makes of the rows and the firewall, whichever calls fail. */
module Requests {
  import opened Text
  import opened Storage
  import opened Iptables
  import opened FirewallEffects
  import opened FirewallRuns
  import opened Kernel
  import opened PeersTable
  import opened Reconciler

  /** Parsers and renderers the handlers depend on; `render` is what WriteConf makes of the old file and the rows. */
  datatype Config = Config(
    e: Env,
    ps: Parsers,
    serverNet: string -> Cidr,          // the first CIDR of serverAllowedIPs
    serverIPs: string -> string,        // serverAllowedIPs
    validEndpoint: string -> bool,      // net.SplitHostPort
    render: (string, map<string, Peer>) -> string)

  /** Rejected: turned down, the rows being as before. Failed: a call failed; creations and rotations undo the rest. */
  datatype Outcome = Rejected | Failed | Done

  /** Calls of a creation that fail, and the keys whose compensating removal from rows or kernel fails. */
  datatype CreateFaults = CreateFaults(
    kernel: bool, insert: bool, conf: bool, undoRow: set<string>, undoKernel: set<string>)

  /** Calls of an update that fail: the two kernel calls, the statement, and reading the row back. */
  datatype UpdateFaults = UpdateFaults(network: bool, settings: bool, update: bool, read: bool)

  /** Calls of an approval that fail: the two statements, the kernel call, and reading the row back. */
  datatype ApproveFaults = ApproveFaults(update: bool, approve: bool, kernel: bool, read: bool)

  /** Calls of a rotation that fail, and the four compensating ones, each of which may fail by itself. */
  datatype RotateFaults = RotateFaults(
    removeOld: bool, addNew: bool, updateKey: bool, updatePsk: bool, conf: bool,
    undoKey: bool, undoPsk: bool, undoRemove: bool, undoAdd: bool)

  const MAX_KEEPALIVE := 65535

  // ---------------------------------------------------------------- requests

  /** The row a creation request becomes. */
  function NewRow(c: Config, req: Peer): Peer {
    req.(allowedIPs := c.serverIPs(req.clientAddress), enabled := true, autoDiscovered := false, notes := "",
         lastSeenEndpoint := "")
  }

  /** A created row, column by column: what was asked for, the routes of the address, and nothing else. */
  predicate RowFrom(c: Config, row: Peer, req: Peer) {
    && row.publicKey == req.publicKey && row.friendlyName == req.friendlyName
    && row.endpoint == req.endpoint && row.keepalive == req.keepalive
    && row.clientAddress == req.clientAddress && row.allowedIPs == c.serverIPs(req.clientAddress)
    && row.presharedKey == req.presharedKey && row.clientAllowedIPs == req.clientAllowedIPs
    && row.enabled && !row.autoDiscovered && row.notes == "" && row.lastSeenEndpoint == ""
  }

  lemma NewRowFrom(c: Config, req: Peer)
    ensures RowFrom(c, NewRow(c, req), req)
  {
  }

  /** The part of the row known to the firewall before the row exists. */
  function TempPeer(req: Peer): Peer {
    Peer(req.publicKey, "", "", true, false, "", "", None, req.clientAddress, "", "", req.clientAllowedIPs)
  }

  function NewConfig(c: Config, req: Peer): PeerConfig {
    PeerConfig(
      req.publicKey,
      {c.serverNet(req.clientAddress)},
      if req.presharedKey != "" then c.ps.psk(req.presharedKey) else None,
      if req.endpoint != "" then c.ps.resolve(req.endpoint) else None,
      req.keepalive,
      false)
  }

  function NewRows(c: Config, reqs: seq<Peer>): seq<Peer> {
    seq(|reqs|, i requires 0 <= i < |reqs| => NewRow(c, reqs[i]))
  }

  function TempPeers(reqs: seq<Peer>): seq<Peer> {
    seq(|reqs|, i requires 0 <= i < |reqs| => TempPeer(reqs[i]))
  }

  function NewConfigs(c: Config, reqs: seq<Peer>): seq<PeerConfig> {
    seq(|reqs|, i requires 0 <= i < |reqs| => NewConfig(c, reqs[i]))
  }

  // ---------------------------------------------------------------- rows and rules

  /** The two copies of the peers that must be in step for packets to be treated right. */
  datatype Books = Books(rows: Rows, table: Table)

  function Created(c: Config, b: Books, req: Peer, f: CreateFaults): Books {
    var row, temp := NewRow(c, req), TempPeer(req);
    if !Insertable(b.rows, row) then b
    else
      var applied := ApplyT(c.e, b.table, temp);
      var inserted := !f.kernel && !f.insert;
      if inserted && !f.conf then Books(b.rows[req.publicKey := row], applied)
      else
        Books(
          if inserted && req.publicKey in f.undoRow then b.rows[req.publicKey := row] else b.rows,
          RemoveT(c.e, applied, temp))
  }

  function BatchCreated(c: Config, b: Books, reqs: seq<Peer>, f: CreateFaults): Books {
    if reqs == [] then b
    else
      var newRows, temps := NewRows(c, reqs), TempPeers(reqs);
      var applied := ApplyAll(c.e, b.table, temps);
      var inserted := InsertAll(b.rows, newRows);
      if f.kernel || f.insert || inserted.None? then Books(b.rows, RemoveAll(c.e, applied, temps))
      else if f.conf then Books(inserted.value - (Keys(newRows) - f.undoRow), RemoveAll(c.e, applied, temps))
      else Books(inserted.value, applied)
  }

  /** The kernel after a creation: the entry is taken out again when a later call fails. */
  function CreatedKernel(c: Config, k: Peers, rows: Rows, req: Peer, f: CreateFaults): Peers {
    if !Insertable(rows, NewRow(c, req)) || f.kernel then k
    else
      var added := Configure(k, NewConfig(c, req));
      if (f.insert || f.conf) && req.publicKey !in f.undoKernel then added - {req.publicKey} else added
  }

  function BatchKernel(c: Config, k: Peers, rows: Rows, reqs: seq<Peer>, f: CreateFaults): Peers {
    if reqs == [] || f.kernel then k
    else
      var added := ConfigureAll(k, NewConfigs(c, reqs));
      var newRows := NewRows(c, reqs);
      if f.insert || f.conf || InsertAll(rows, newRows).None? then added - (Keys(newRows) - f.undoKernel) else added
  }

  // ---------------------------------------------------------------- rotations

  function RowPsk(c: Config, row: Peer): Option<string> {
    if row.presharedKey != "" then c.ps.psk(row.presharedKey) else None
  }

  function RowNets(c: Config, row: Peer): set<Cidr> {
    Nets(c.ps, Fields(row.allowedIPs))
  }

  /** The rows after a rotation: the peer's key, and its PSK if it had one, are new. */
  function Rotated(rows: map<string, Peer>, key: string, newKey: string, newPsk: string): map<string, Peer>
    requires key in rows
  {
    var moved := Renamed(rows, key, newKey);
    if rows[key].presharedKey != "" then moved[newKey := moved[newKey].(presharedKey := newPsk)] else moved
  }

  predicate RotationFails(row: Peer, f: RotateFaults) {
    f.addNew || f.updateKey || (row.presharedKey != "" && f.updatePsk) || f.conf
  }

  /**
   * The database after a rotation. When the rename back fails there is no row to give the old PSK to; when
   * only the PSK is not restored, the row has its old key and the new PSK.
   */
  function RotatedRows(rows: Rows, key: string, newKey: string, newPsk: string, f: RotateFaults): Rows
    requires key in rows
  {
    var hasPsk := rows[key].presharedKey != "";
    if f.addNew || f.updateKey then rows
    else if hasPsk && f.updatePsk then if f.undoKey then Renamed(rows, key, newKey) else rows
    else if !f.conf || f.undoKey then Rotated(rows, key, newKey, newPsk)
    else if hasPsk && f.undoPsk then rows[key := rows[key].(presharedKey := newPsk)]
    else rows
  }

  function RotatedBooks(c: Config, b: Books, key: string, newKey: string, newPsk: string, f: RotateFaults): Books {
    if key !in b.rows || !c.ps.validKey(key) then b
    else
      var row := b.rows[key];
      var removed := RemoveT(c.e, b.table, row);
      Books(
        RotatedRows(b.rows, key, newKey, newPsk, f),
        if RotationFails(row, f) then removed else ApplyT(c.e, removed, row.(publicKey := newKey)))
  }

  function NewKeyConfig(c: Config, row: Peer, newKey: string, newPsk: string): PeerConfig {
    PeerConfig(newKey, RowNets(c, row), if row.presharedKey != "" then Some(newPsk) else None, None, None, false)
  }

  /** The compensating re-addition of the old peer. */
  function WithOld(c: Config, k: Peers, row: Peer): Peers {
    Configure(k, PeerConfig(row.publicKey, RowNets(c, row), RowPsk(c, row), None, None, false))
  }

  function RotatedKernel(
    c: Config, k: Peers, rows: Rows, key: string, newKey: string, newPsk: string, f: RotateFaults): Peers
  {
    if key !in rows || !c.ps.validKey(key) then k
    else
      var row := rows[key];
      var cleared := if f.removeOld then k else k - {key};
      var added := if f.addNew then cleared else Configure(cleared, NewKeyConfig(c, row, newKey, newPsk));
      if !RotationFails(row, f) then added
      else
        var back := if f.addNew || f.undoRemove then added else added - {newKey};
        if f.undoAdd then back else WithOld(c, back, row)
  }

  // ---------------------------------------------------------------- updates

  /** A new address for the row; the request that repeats the old one moves nothing. */
  predicate Moves(row: Peer, req: PeerUpdate) {
    req.clientAddress.Some? && req.clientAddress.value != row.clientAddress
  }

  /** Whether the request asks for an endpoint or a keepalive, and what the kernel is told of them. */
  predicate AsksSettings(req: PeerUpdate) {
    req.endpoint.Some? || req.keepalive.Some?
  }

  function AskedEndpoint(c: Config, req: PeerUpdate): Option<string> {
    if req.endpoint.Some? && req.endpoint.value != "" then c.ps.resolve(req.endpoint.value) else None
  }

  function AskedKeepalive(req: PeerUpdate): Option<int> {
    Or(req.keepalive, None)
  }

  function NetworkConfig(c: Config, key: string, address: string): PeerConfig {
    PeerConfig(key, {c.serverNet(address)}, None, None, None, true)
  }

  function SettingsConfig(c: Config, key: string, req: PeerUpdate): PeerConfig {
    PeerConfig(key, {}, None, AskedEndpoint(c, req), AskedKeepalive(req), false)
  }

  /** Refused, or aborted, before any effect: a taken address, an unreadable key, an address that is cleared. */
  predicate UpdateRejected(c: Config, rows: Rows, key: string, req: PeerUpdate)
    requires key in rows
  {
    || (req.clientAddress.Some? && !AddressFree(rows, key, req.clientAddress.value))
    || (Moves(rows[key], req) && (!c.ps.validKey(key) || req.clientAddress.value == ""))
    || (AsksSettings(req) && !Malformed(c, req) && !c.ps.validKey(key))
  }

  predicate NetworkFails(row: Peer, req: PeerUpdate, f: UpdateFaults) {
    Moves(row, req) && f.network
  }

  /** What the handler finds out only after the network has been handed to the kernel. */
  predicate Malformed(c: Config, req: PeerUpdate) {
    || (req.endpoint.Some? && req.endpoint.value != "" && !c.validEndpoint(req.endpoint.value))
    || (req.keepalive.Some? && req.keepalive.value.Some? && !(0 <= req.keepalive.value.value <= MAX_KEEPALIVE))
  }

  /** The network is configured, if it was to be. */
  predicate PastNetwork(c: Config, rows: Rows, key: string, req: PeerUpdate, f: UpdateFaults)
    requires key in rows
  {
    !UpdateRejected(c, rows, key, req) && !NetworkFails(rows[key], req, f)
  }

  /** The statement runs. */
  predicate Saved(c: Config, rows: Rows, key: string, req: PeerUpdate, f: UpdateFaults)
    requires key in rows
  {
    PastNetwork(c, rows, key, req, f) && !Malformed(c, req) && !f.update
  }

  /** The assignments of the statement: a new address brings new server networks. */
  function Statement(c: Config, row: Peer, req: PeerUpdate): PeerUpdate {
    if Moves(row, req) then req.(allowedIPs := Some(c.serverIPs(req.clientAddress.value))) else req
  }

  /** The columns whose presence in a request makes the handler call the firewall. */
  predicate Relevant(req: PeerUpdate, profile: bool) {
    req.clientAllowedIPs.Some? || req.clientAddress.Some? || req.enabled.Some? || profile
  }

  /** There is something to tell the kernel of endpoint and keepalive, and it is told. */
  predicate SettingsSent(c: Config, req: PeerUpdate, f: UpdateFaults) {
    !Malformed(c, req) && !f.settings && (AskedEndpoint(c, req).Some? || AskedKeepalive(req).Some?)
  }

  function UpdatedKernel(c: Config, k: Peers, rows: Rows, key: string, req: PeerUpdate, f: UpdateFaults): Peers
    requires key in rows
  {
    if !PastNetwork(c, rows, key, req, f) then k
    else
      var moved := if Moves(rows[key], req) then Configure(k, NetworkConfig(c, key, req.clientAddress.value)) else k;
      if SettingsSent(c, req, f) then Configure(moved, SettingsConfig(c, key, req)) else moved
  }

  /** The row after the statement. */
  function Edited(c: Config, row: Peer, req: PeerUpdate): Peer {
    Updated(row, Statement(c, row, req))
  }

  function UpdatedBooks(c: Config, b: Books, key: string, req: PeerUpdate, profile: bool, f: UpdateFaults): Books
    requires key in b.rows
  {
    if !Saved(c, b.rows, key, req, f) then b
    else
      var was := b.rows[key];
      var row := Edited(c, was, req);
      var cleared := if Moves(was, req) then RemoveT(c.e, b.table, was) else b.table;
      Books(
        b.rows[key := row],
        if !Relevant(req, profile) then b.table else if f.read then cleared else ApplyT(c.e, cleared, row))
  }

  // ---------------------------------------------------------------- approvals

  predicate ApprovalRejected(c: Config, rows: Rows, key: string, req: PeerUpdate) {
    || key !in rows || !rows[key].autoDiscovered || rows[key].enabled
    || req.clientAddress.None? || req.clientAddress.value == ""
    || req.clientAllowedIPs.None? || req.clientAllowedIPs.value == ""
    || !AddressFree(rows, key, req.clientAddress.value)
  }

  /** The row after the first statement; it is enabled already. */
  function Onboarded(c: Config, row: Peer, req: PeerUpdate): Peer
    requires req.clientAddress.Some?
  {
    Updated(row, req.(enabled := Some(true), allowedIPs := Some(c.serverIPs(req.clientAddress.value))))
  }

  /** The statements ran, or one of them, but the rules are never applied. */
  predicate ApprovalBreaksOff(c: Config, key: string, f: ApproveFaults) {
    !f.update && (f.approve || !c.ps.validKey(key) || f.read)
  }

  function ApprovedKernel(c: Config, k: Peers, rows: Rows, key: string, req: PeerUpdate, f: ApproveFaults): Peers {
    if ApprovalRejected(c, rows, key, req) || f.update || f.approve || !c.ps.validKey(key) || f.kernel then k
    else
      Configure(k, PeerConfig(
        key, {c.serverNet(req.clientAddress.value)}, None, AskedEndpoint(c, req), AskedKeepalive(req), true))
  }

  function ApprovedBooks(c: Config, b: Books, key: string, req: PeerUpdate, f: ApproveFaults): Books {
    if ApprovalRejected(c, b.rows, key, req) || f.update then b
    else
      var row := Onboarded(c, b.rows[key], req);
      var approved := row.(enabled := true, autoDiscovered := false);
      Books(
        b.rows[key := if f.approve then row else approved],
        if ApprovalBreaksOff(c, key, f) then b.table else ApplyT(c.e, b.table, approved))
  }

  // ---------------------------------------------------------------- deletions

  function DeletedBooks(c: Config, b: Books, key: string, dbFails: bool): Books {
    if key !in b.rows || !c.ps.validKey(key) || dbFails then b
    else Books(b.rows - {key}, RemoveT(c.e, b.table, b.rows[key]))
  }

  function DeletedKernel(c: Config, k: Peers, rows: Rows, key: string, kernelFails: bool): Peers {
    if key !in rows || !c.ps.validKey(key) || kernelFails then k else k - {key}
  }
}
