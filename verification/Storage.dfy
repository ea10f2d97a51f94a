/** A row of the peers table. id, created_at and the client-only columns (profile, DNS, MTU) are not modelled. */
module Storage {
  import opened Text

  datatype Peer = Peer(
    publicKey: string,
    friendlyName: string,
    allowedIPs: string,
    enabled: bool,
    autoDiscovered: bool,
    notes: string,
    endpoint: string,
    keepalive: Option<int>,
    clientAddress: string,
    lastSeenEndpoint: string,
    presharedKey: string,
    clientAllowedIPs: string
  )
}
