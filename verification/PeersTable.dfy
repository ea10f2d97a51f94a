/** The peers table: rows by public key, with the two uniqueness constraints of the schema. */
module PeersTable {
  import opened Text
  import opened Storage

  type Rows = map<string, Peer>

  /** No other row has this address; the index on client_address leaves the empty ones out. */
  predicate AddressFree(rows: Rows, key: string, address: string) {
    address != "" ==> forall k :: k in rows && k != key ==> rows[k].clientAddress != address
  }

  predicate Insertable(rows: Rows, p: Peer) {
    p.publicKey !in rows && AddressFree(rows, p.publicKey, p.clientAddress)
  }

  function InsertAll(rows: Rows, ps: seq<Peer>): Option<Rows>
    decreases |ps|
  {
    if ps == [] then Some(rows)
    else if Insertable(rows, ps[0]) then InsertAll(rows[ps[0].publicKey := ps[0]], ps[1..])
    else None
  }

  function Keys(ps: seq<Peer>): set<string> {
    set p | p in ps :: p.publicKey
  }

  function Renamed(rows: Rows, from: string, onto: string): Rows
    requires from in rows
  {
    (rows - {from})[onto := rows[from].(publicKey := onto)]
  }

  /** Rows are stored under their own key, and no two share an address. */
  ghost predicate Sound(rows: Rows) {
    && (forall k :: k in rows ==> rows[k].publicKey == k)
    && (forall k :: k in rows ==> AddressFree(rows, k, rows[k].clientAddress))
  }

  lemma RenameBack(rows: Rows, from: string, onto: string)
    requires from in rows && onto !in rows && rows[from].publicKey == from
    ensures onto in Renamed(rows, from, onto) && Renamed(Renamed(rows, from, onto), onto, from) == rows
  {
    assert rows[from].(publicKey := onto).(publicKey := from) == rows[from];
  }

  lemma InsertKeepsSound(rows: Rows, p: Peer)
    requires Sound(rows) && Insertable(rows, p)
    ensures Sound(rows[p.publicKey := p])
  {
  }

  lemma {:induction false} InsertAllKeepsSound(rows: Rows, ps: seq<Peer>)
    requires Sound(rows) && InsertAll(rows, ps).Some?
    ensures Sound(InsertAll(rows, ps).value)
    decreases |ps|
  {
    hide Sound;
    if ps != [] {
      InsertKeepsSound(rows, ps[0]);
      InsertAllKeepsSound(rows[ps[0].publicKey := ps[0]], ps[1..]);
    }
  }

  lemma {:induction false} InsertAllRows(rows: Rows, ps: seq<Peer>)
    ensures InsertAll(rows, ps).Some? ==> var rows' := InsertAll(rows, ps).value;
      && rows'.Keys == rows.Keys + Keys(ps)
      && (forall k :: k in rows ==> k !in Keys(ps) && rows'[k] == rows[k])
      && (forall p :: p in ps ==> rows'[p.publicKey] == p)
    decreases |ps|
  {
    hide Insertable;
    if ps == [] {
    } else if Insertable(rows, ps[0]) {
      var p := ps[0];
      InsertableKey(rows, p);
      InsertAllRows(rows[p.publicKey := p], ps[1..]);
      assert ps == [p] + ps[1..];
      assert Keys(ps) == {p.publicKey} + Keys(ps[1..]);
    }
  }

  lemma InsertUndone(rows: Rows, ps: seq<Peer>)
    ensures InsertAll(rows, ps).Some? ==> InsertAll(rows, ps).value - Keys(ps) == rows
  {
    hide InsertAll, Keys;
    InsertAllRows(rows, ps);
  }

  lemma InsertableKey(rows: Rows, p: Peer)
    ensures Insertable(rows, p) ==> p.publicKey !in rows
  {
  }

  lemma {:induction false} InsertAllSnoc(rows: Rows, ps: seq<Peer>, p: Peer)
    ensures var before := InsertAll(rows, ps);
      InsertAll(rows, ps + [p]) ==
        if before.Some? && Insertable(before.value, p) then Some(before.value[p.publicKey := p]) else None
    decreases |ps|
  {
    hide Insertable;
    if ps == [] {
      assert [] + [p] == [p] && [p][1..] == [];
    } else if Insertable(rows, ps[0]) {
      assert (ps + [p])[1..] == ps[1..] + [p];
      InsertAllSnoc(rows[ps[0].publicKey := ps[0]], ps[1..], p);
    }
  }

  /** One request that cannot be inserted spoils the batch, whatever comes after it. */
  lemma {:induction false} InsertAllPrefix(rows: Rows, ps: seq<Peer>, n: nat)
    requires n <= |ps| && InsertAll(rows, ps[..n]).None?
    ensures InsertAll(rows, ps).None?
    decreases |ps| - n
  {
    if n == |ps| {
      assert ps[..n] == ps;
    } else {
      assert ps[..n + 1] == ps[..n] + [ps[n]];
      InsertAllSnoc(rows, ps[..n], ps[n]);
      InsertAllPrefix(rows, ps, n + 1);
    }
  }

  // ---------------------------------------------------------------- partial updates

  /** None leaves a column alone; keepalive may also be set to NULL. */
  datatype PeerUpdate = PeerUpdate(
    friendlyName: Option<string>,
    allowedIPs: Option<string>,
    enabled: Option<bool>,
    notes: Option<string>,
    endpoint: Option<string>,
    keepalive: Option<Option<int>>,
    clientAddress: Option<string>,
    presharedKey: Option<string>,
    clientAllowedIPs: Option<string>)

  function Or<T>(o: Option<T>, d: T): T {
    if o.Some? then o.value else d
  }

  function Updated(p: Peer, u: PeerUpdate): Peer {
    p.(
      friendlyName := Or(u.friendlyName, p.friendlyName),
      allowedIPs := Or(u.allowedIPs, p.allowedIPs),
      enabled := Or(u.enabled, p.enabled),
      notes := Or(u.notes, p.notes),
      endpoint := Or(u.endpoint, p.endpoint),
      keepalive := Or(u.keepalive, p.keepalive),
      clientAddress := Or(u.clientAddress, p.clientAddress),
      presharedKey := Or(u.presharedKey, p.presharedKey),
      clientAllowedIPs := Or(u.clientAllowedIPs, p.clientAllowedIPs))
  }

  predicate Column<T(==)>(now: T, was: T, given: Option<T>) {
    now == if given.Some? then given.value else was
  }

  /** The row shows the update: each column that was given has the new value, every other the old one. */
  predicate Shows(row: Peer, was: Peer, u: PeerUpdate) {
    && Column(row.friendlyName, was.friendlyName, u.friendlyName)
    && Column(row.allowedIPs, was.allowedIPs, u.allowedIPs)
    && Column(row.enabled, was.enabled, u.enabled)
    && Column(row.notes, was.notes, u.notes)
    && Column(row.endpoint, was.endpoint, u.endpoint)
    && Column(row.keepalive, was.keepalive, u.keepalive)
    && Column(row.clientAddress, was.clientAddress, u.clientAddress)
    && Column(row.presharedKey, was.presharedKey, u.presharedKey)
    && Column(row.clientAllowedIPs, was.clientAllowedIPs, u.clientAllowedIPs)
    && row.publicKey == was.publicKey && row.autoDiscovered == was.autoDiscovered
    && row.lastSeenEndpoint == was.lastSeenEndpoint
  }

  lemma UpdatedShows(p: Peer, u: PeerUpdate)
    ensures Shows(Updated(p, u), p, u)
  {
  }

  /** One "column = ?" of the statement with its argument. */
  datatype Assignment =
    | Name(s: string)
    | AllowedIPs(s: string)
    | Enabled(b: bool)
    | Notes(s: string)
    | Endpoint(s: string)
    | Keepalive(k: Option<int>)
    | Address(s: string)
    | Psk(s: string)
    | ClientIPs(s: string)

  function Assign(p: Peer, a: Assignment): Peer {
    match a
    case Name(s) => p.(friendlyName := s)
    case AllowedIPs(s) => p.(allowedIPs := s)
    case Enabled(b) => p.(enabled := b)
    case Notes(s) => p.(notes := s)
    case Endpoint(s) => p.(endpoint := s)
    case Keepalive(k) => p.(keepalive := k)
    case Address(s) => p.(clientAddress := s)
    case Psk(s) => p.(presharedKey := s)
    case ClientIPs(s) => p.(clientAllowedIPs := s)
  }

  function AssignAll(p: Peer, sets: seq<Assignment>): Peer {
    if sets == [] then p else Assign(AssignAll(p, sets[..|sets| - 1]), sets[|sets| - 1])
  }

  lemma AssignOne(p: Peer, sets: seq<Assignment>, a: Assignment)
    ensures AssignAll(p, sets + [a]) == Assign(AssignAll(p, sets), a)
  {
    assert (sets + [a])[..|sets|] == sets;
  }

  const NO_UPDATE := PeerUpdate(None, None, None, None, None, None, None, None, None)

  lemma NothingAssigned(p: Peer)
    ensures AssignAll(p, []) == p && Updated(p, NO_UPDATE) == p
  {
  }

  /** What a statement that runs reports: done, or that no row had the key. */
  datatype Status = Ok | NoRows | Error

  class PeersTable {
    var rows: Rows

    constructor ()
      ensures rows == map[] && Sound(rows)
    {
      rows := map[];
    }

    method CreatePeer(p: Peer, fails: bool) returns (ok: bool)
      modifies this
      ensures ok <==> !fails && Insertable(old(rows), p)
      ensures rows == if ok then old(rows)[p.publicKey := p] else old(rows)
      ensures old(Sound(rows)) ==> Sound(rows)
    {
      if Sound(rows) && Insertable(rows, p) {
        InsertKeepsSound(rows, p);
      }
      ok := !fails && Insertable(rows, p);
      if ok {
        rows := rows[p.publicKey := p];
      }
    }

    /** One transaction: all rows or none. */
    method CreatePeersBatch(ps: seq<Peer>, commitFails: bool) returns (ok: bool)
      modifies this
      ensures ok <==> !commitFails && InsertAll(old(rows), ps).Some?
      ensures rows == if ok then InsertAll(old(rows), ps).value else old(rows)
      ensures old(Sound(rows)) ==> Sound(rows)
    {
      hide Sound, Insertable;
      var tx := rows;
      for i := 0 to |ps|
        invariant rows == old(rows) && InsertAll(rows, ps[..i]) == Some(tx)
      {
        assert ps[..i + 1] == ps[..i] + [ps[i]];
        InsertAllSnoc(rows, ps[..i], ps[i]);
        if !Insertable(tx, ps[i]) {
          InsertAllPrefix(rows, ps, i + 1);
          return false;
        }
        tx := tx[ps[i].publicKey := ps[i]];
      }
      assert ps[..|ps|] == ps;
      if Sound(rows) {
        InsertAllKeepsSound(rows, ps);
      }
      ok := !commitFails;
      if ok {
        rows := tx;
      }
    }

    method DeletePeer(key: string, fails: bool) returns (s: Status)
      modifies this
      ensures s == if fails then Error else if key in old(rows) then Ok else NoRows
      ensures rows == if s.Ok? then old(rows) - {key} else old(rows)
      ensures old(Sound(rows)) ==> Sound(rows)
    {
      if fails {
        return Error;
      }
      s := if key in rows then Ok else NoRows;
      rows := rows - {key};
    }

    /** Builds the list of assignments column by column and runs one statement; an empty list touches nothing. */
    method UpdatePeer(key: string, u: PeerUpdate, fails: bool) returns (s: Status)
      modifies this
      ensures u == NO_UPDATE ==> s == Ok && rows == old(rows)
      ensures u != NO_UPDATE && key !in old(rows) && !fails ==> s == NoRows
      ensures u != NO_UPDATE && key in old(rows) ==>
        (s == Ok <==> !fails && AddressFree(old(rows), key, Updated(old(rows)[key], u).clientAddress))
      ensures rows == if s.Ok? && key in old(rows) then old(rows)[key := Updated(old(rows)[key], u)] else old(rows)
      ensures s.Ok? && key in old(rows) ==> Shows(rows[key], old(rows)[key], u)
      ensures old(Sound(rows)) ==> Sound(rows)
    {
      hide Updated, AssignAll, AddressFree, CarryOut, Sound, Shows;
      var sets := Assignments(u);
      EmptyIff(sets, u);
      if key in rows {
        CarriedOut(sets, u, rows[key]);
        UpdatedShows(rows[key], u);
        assert rows[key := rows[key]] == rows;
      }
      if sets == [] {
        if key in rows {
          NothingAssigned(rows[key]);
        }
        return Ok;
      }
      if fails {
        return Error;
      }
      if key !in rows {
        return NoRows;
      }
      var row := AssignAll(rows[key], sets);
      if !AddressFree(rows, key, row.clientAddress) {
        return Error;
      }
      if Sound(rows) {
        UpdateKeepsSound(rows, key, u);
      }
      rows := rows[key := row];
      s := Ok;
    }

    method UpdatePeerPublicKey(oldKey: string, newKey: string, fails: bool) returns (s: Status)
      modifies this
      ensures s == if fails then Error else if oldKey !in old(rows) then NoRows
                   else if newKey in old(rows) && newKey != oldKey then Error else Ok
      ensures rows == if s.Ok? then Renamed(old(rows), oldKey, newKey) else old(rows)
      ensures old(Sound(rows)) ==> Sound(rows)
    {
      if fails {
        return Error;
      }
      if oldKey !in rows {
        return NoRows;
      }
      if newKey in rows && newKey != oldKey {
        return Error;
      }
      rows := Renamed(rows, oldKey, newKey);
      s := Ok;
    }

    /** INSERT OR IGNORE of a row without address: an existing row wins. */
    method UpsertPeerFromReconcile(p: Peer, fails: bool) returns (ok: bool)
      requires p.clientAddress == ""
      modifies this
      ensures ok == !fails
      ensures rows == if ok && p.publicKey !in old(rows) then old(rows)[p.publicKey := p] else old(rows)
      ensures old(Sound(rows)) ==> Sound(rows)
    {
      ok := !fails;
      if ok && Insertable(rows, p) {
        rows := rows[p.publicKey := p];
      }
    }

    method ApprovePeer(key: string, fails: bool) returns (s: Status)
      modifies this
      ensures s == if fails then Error else if key in old(rows) then Ok else NoRows
      ensures rows == if s.Ok? then old(rows)[key := old(rows)[key].(enabled := true, autoDiscovered := false)]
                      else old(rows)
      ensures old(Sound(rows)) ==> Sound(rows)
    {
      if fails {
        return Error;
      }
      if key !in rows {
        return NoRows;
      }
      rows := rows[key := rows[key].(enabled := true, autoDiscovered := false)];
      s := Ok;
    }

    /** A free address is one the constraint accepts for this key. */
    method IsClientAddressTaken(address: string, exclude: string) returns (taken: bool)
      ensures taken <==> !AddressFree(rows, exclude, address)
      ensures taken <==> address != "" && exists k :: k in rows && k != exclude && rows[k].clientAddress == address
    {
      taken := address != "" && exists k :: k in rows && k != exclude && rows[k].clientAddress == address;
    }

    /** One transaction over the changed endpoints; keys without a row are passed over. */
    method UpdateLastSeenEndpoints(updates: map<string, string>, fails: bool) returns (ok: bool)
      modifies this
      ensures ok <==> updates == map[] || !fails
      ensures !ok ==> rows == old(rows)
      ensures ok ==> rows == WithEndpoints(old(rows), updates)
      ensures old(Sound(rows)) ==> Sound(rows)
    {
      var tx := rows;
      var todo := updates.Keys;
      while todo != {}
        invariant todo <= updates.Keys && rows == old(rows)
        invariant tx == WithEndpoints(rows, updates - todo)
      {
        var key :| key in todo;
        todo := todo - {key};
        if key in tx {
          tx := tx[key := tx[key].(lastSeenEndpoint := updates[key])];
        }
      }
      assert updates - {} == updates;
      ok := updates == map[] || !fails;
      if ok {
        rows := tx;
      }
    }
  }

  function WithEndpoints(rows: Rows, updates: map<string, string>): Rows {
    map k | k in rows :: if k in updates then rows[k].(lastSeenEndpoint := updates[k]) else rows[k]
  }

  /** The assignments carry out the update, on any row. */
  ghost predicate CarryOut(sets: seq<Assignment>, u: PeerUpdate) {
    && (forall p: Peer :: AssignAll(p, sets) == Updated(p, u))
    && (sets == [] <==> u == NO_UPDATE)
  }

  function With(u: PeerUpdate, a: Assignment): PeerUpdate {
    match a
    case Name(s) => u.(friendlyName := Some(s))
    case AllowedIPs(s) => u.(allowedIPs := Some(s))
    case Enabled(b) => u.(enabled := Some(b))
    case Notes(s) => u.(notes := Some(s))
    case Endpoint(s) => u.(endpoint := Some(s))
    case Keepalive(k) => u.(keepalive := Some(k))
    case Address(s) => u.(clientAddress := Some(s))
    case Psk(s) => u.(presharedKey := Some(s))
    case ClientIPs(s) => u.(clientAllowedIPs := Some(s))
  }

  lemma AssignIsWith(p: Peer, u: PeerUpdate, a: Assignment)
    ensures Assign(Updated(p, u), a) == Updated(p, With(u, a))
  {
  }

  lemma WithSomething(u: PeerUpdate, a: Assignment)
    ensures With(u, a) != NO_UPDATE
  {
  }

  lemma CarryOutOne(sets: seq<Assignment>, u: PeerUpdate, a: Assignment)
    requires CarryOut(sets, u)
    ensures CarryOut(sets + [a], With(u, a))
  {
    hide AssignAll, Updated, Assign, With;
    forall p: Peer ensures AssignAll(p, sets + [a]) == Updated(p, With(u, a)) {
      AssignOne(p, sets, a);
      AssignIsWith(p, u, a);
    }
    WithSomething(u, a);
  }

  ghost function UpToEnabled(u: PeerUpdate): PeerUpdate {
    NO_UPDATE.(friendlyName := u.friendlyName, allowedIPs := u.allowedIPs, enabled := u.enabled)
  }

  ghost function UpToKeepalive(u: PeerUpdate): PeerUpdate {
    UpToEnabled(u).(notes := u.notes, endpoint := u.endpoint, keepalive := u.keepalive)
  }

  /** The set list of UpdatePeer, column by column. */
  method Assignments(u: PeerUpdate) returns (sets: seq<Assignment>)
    ensures CarryOut(sets, u)
  {
    hide CarryOut;
    sets := Settings(u);
    ghost var done := UpToKeepalive(u);
    if u.clientAddress.Some? {
      CarryOutOne(sets, done, Address(u.clientAddress.value));
      sets, done := sets + [Address(u.clientAddress.value)], With(done, Address(u.clientAddress.value));
    }
    if u.presharedKey.Some? {
      CarryOutOne(sets, done, Psk(u.presharedKey.value));
      sets, done := sets + [Psk(u.presharedKey.value)], With(done, Psk(u.presharedKey.value));
    }
    if u.clientAllowedIPs.Some? {
      CarryOutOne(sets, done, ClientIPs(u.clientAllowedIPs.value));
      sets, done := sets + [ClientIPs(u.clientAllowedIPs.value)], With(done, ClientIPs(u.clientAllowedIPs.value));
    }
    assert done == u;
  }

  /** The columns up to the keepalive. */
  method Settings(u: PeerUpdate) returns (sets: seq<Assignment>)
    ensures CarryOut(sets, UpToKeepalive(u))
  {
    hide CarryOut;
    sets := Labels(u);
    ghost var done := UpToEnabled(u);
    if u.notes.Some? {
      CarryOutOne(sets, done, Notes(u.notes.value));
      sets, done := sets + [Notes(u.notes.value)], With(done, Notes(u.notes.value));
    }
    if u.endpoint.Some? {
      CarryOutOne(sets, done, Endpoint(u.endpoint.value));
      sets, done := sets + [Endpoint(u.endpoint.value)], With(done, Endpoint(u.endpoint.value));
    }
    if u.keepalive.Some? {
      CarryOutOne(sets, done, Keepalive(u.keepalive.value));
      sets, done := sets + [Keepalive(u.keepalive.value)], With(done, Keepalive(u.keepalive.value));
    }
    assert done == UpToKeepalive(u);
  }

  method Labels(u: PeerUpdate) returns (sets: seq<Assignment>)
    ensures CarryOut(sets, UpToEnabled(u))
  {
    hide CarryOut;
    sets := [];
    ghost var done := NO_UPDATE;
    NothingCarriedOut();
    if u.friendlyName.Some? {
      CarryOutOne(sets, done, Name(u.friendlyName.value));
      sets, done := sets + [Name(u.friendlyName.value)], With(done, Name(u.friendlyName.value));
    }
    if u.allowedIPs.Some? {
      CarryOutOne(sets, done, AllowedIPs(u.allowedIPs.value));
      sets, done := sets + [AllowedIPs(u.allowedIPs.value)], With(done, AllowedIPs(u.allowedIPs.value));
    }
    if u.enabled.Some? {
      CarryOutOne(sets, done, Enabled(u.enabled.value));
      sets, done := sets + [Enabled(u.enabled.value)], With(done, Enabled(u.enabled.value));
    }
    assert done == UpToEnabled(u);
  }

  lemma NothingCarriedOut()
    ensures CarryOut([], NO_UPDATE)
  {
  }

  lemma CarriedOut(sets: seq<Assignment>, u: PeerUpdate, p: Peer)
    requires CarryOut(sets, u)
    ensures AssignAll(p, sets) == Updated(p, u)
  {
  }

  lemma EmptyIff(sets: seq<Assignment>, u: PeerUpdate)
    requires CarryOut(sets, u)
    ensures sets == [] <==> u == NO_UPDATE
  {
  }

  lemma UpdateKeepsSound(rows: Rows, key: string, u: PeerUpdate)
    requires Sound(rows) && key in rows && AddressFree(rows, key, Updated(rows[key], u).clientAddress)
    ensures Sound(rows[key := Updated(rows[key], u)])
  {
    hide Or;
  }
}
