/** The WireGuard kernel's peers, keyed by public key, and the two calls that change them. */
module Kernel {
  import opened Text
  import opened Iptables

  /** psk None is the all-zero key; keepalive 0 is off. */
  datatype KernelPeer = KernelPeer(allowed: set<Cidr>, psk: Option<string>, endpoint: Option<string>, keepalive: int)

  type Peers = map<string, KernelPeer>

  datatype PeerConfig = PeerConfig(
    key: string,
    allowed: set<Cidr>,
    psk: Option<string>,          // None: do not change
    endpoint: Option<string>,     // None: do not change
    keepalive: Option<int>,       // None: do not change
    replaceAllowed: bool
  )

  function Configure(k: Peers, c: PeerConfig): Peers {
    if c.key !in k then
      k[c.key := KernelPeer(c.allowed, c.psk, c.endpoint, if c.keepalive.Some? then c.keepalive.value else 0)]
    else
      var was := k[c.key];
      k[c.key := KernelPeer(
        if c.replaceAllowed then c.allowed else was.allowed + c.allowed,
        if c.psk.Some? then c.psk else was.psk,
        if c.endpoint.Some? then c.endpoint else was.endpoint,
        if c.keepalive.Some? then c.keepalive.value else was.keepalive)]
  }

  function ConfigureAll(k: Peers, cs: seq<PeerConfig>): Peers
    decreases |cs|
  {
    if cs == [] then k else ConfigureAll(Configure(k, cs[0]), cs[1..])
  }
}
