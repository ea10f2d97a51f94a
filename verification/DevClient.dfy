/** The in-memory client for development, and where it agrees with the kernel. */
module DevClient {
  import opened Text
  import opened Iptables
  import opened Collections
  import opened Kernel

  datatype Request = Request(config: PeerConfig, remove: bool)

  /** The client keeps only the allowed addresses of a peer. */
  type DevPeers = map<string, set<Cidr>>

  function DevOne(d: DevPeers, r: Request): DevPeers {
    var key := r.config.key;
    if r.remove then d - {key}
    else if key !in d || r.config.replaceAllowed then d[key := r.config.allowed]
    else d
  }

  function DevAll(d: DevPeers, rs: seq<Request>): DevPeers {
    if rs == [] then d else DevOne(DevAll(d, rs[..|rs| - 1]), rs[|rs| - 1])
  }

  class DevClient {
    var peers: DevPeers

    constructor ()
      ensures peers == map[]
    {
      peers := map[];
    }

    method ConfigurePeers(rs: seq<Request>)
      modifies this
      ensures peers == DevAll(old(peers), rs)
    {
      for i := 0 to |rs|
        invariant peers == DevAll(old(peers), rs[..i])
      {
        assert rs[..i + 1][..i] == rs[..i];
        var c := rs[i].config;
        if rs[i].remove {
          peers := peers - {c.key};
        } else if c.key in peers && c.replaceAllowed {
          peers := peers[c.key := c.allowed];
        } else if c.key !in peers {
          peers := peers[c.key := c.allowed];
        }
      }
      assert rs[..|rs|] == rs;
    }

    method RemovePeer(key: string) returns (ok: bool)
      modifies this
      ensures ok <==> key in old(peers)
      ensures peers == old(peers) - {key}
    {
      ok := key in peers;
      peers := peers - {key};
    }
  }

  // ---------------------------------------------------------------- against the kernel

  /** What the client would know of a kernel. */
  function Known(k: Peers): DevPeers {
    map key | key in k :: k[key].allowed
  }

  function Requests(cs: seq<PeerConfig>): seq<Request> {
    seq(|cs|, i requires 0 <= i < |cs| => Request(cs[i], false))
  }

  /** One configuration: the two differ exactly when it would add addresses to a peer that is already there. */
  lemma AgreesIff(k: Peers, c: PeerConfig)
    ensures Known(Configure(k, c)) == DevOne(Known(k), Request(c, false)) <==>
            c.key !in k || c.replaceAllowed || c.allowed <= k[c.key].allowed
  {
    var one, two := Known(Configure(k, c)), DevOne(Known(k), Request(c, false));
    forall x | x != c.key ensures At(one, x) == At(two, x) {
      assert At(Known(k), x) == if x in k then Some(k[x].allowed) else None;
    }
    if c.key !in k || c.replaceAllowed || c.allowed <= k[c.key].allowed {
      assert c.key in k && c.allowed <= k[c.key].allowed ==> k[c.key].allowed + c.allowed == k[c.key].allowed;
      SameMap(one, two);
    } else {
      assert one[c.key] == k[c.key].allowed + c.allowed && two[c.key] == k[c.key].allowed;
      assert exists x :: x in c.allowed && x !in k[c.key].allowed;
    }
  }

  lemma {:induction false} ConfigureAllSnoc(k: Peers, cs: seq<PeerConfig>, c: PeerConfig)
    ensures ConfigureAll(k, cs + [c]) == Configure(ConfigureAll(k, cs), c)
    decreases |cs|
  {
    hide Configure;
    if cs == [] {
      assert [] + [c] == [c] && [c][1..] == [];
    } else {
      assert (cs + [c])[1..] == cs[1..] + [c];
      ConfigureAllSnoc(Configure(k, cs[0]), cs[1..], c);
    }
  }

  lemma {:induction false} ConfiguredKeys(k: Peers, cs: seq<PeerConfig>)
    ensures forall key :: key in ConfigureAll(k, cs) <==> key in k || exists c :: c in cs && c.key == key
    decreases |cs|
  {
    hide Configure;
    if cs != [] {
      ConfiguredKeys(Configure(k, cs[0]), cs[1..]);
      ConfigureAdds(k, cs[0]);
      assert cs == [cs[0]] + cs[1..];
    }
  }

  lemma ConfigureAdds(k: Peers, c: PeerConfig)
    ensures Configure(k, c).Keys == k.Keys + {c.key}
  {
  }

  /** A batch of new keys, all different, as the creating handlers send it: the client agrees with the kernel. */
  lemma {:induction false} BatchAgrees(k: Peers, cs: seq<PeerConfig>)
    requires forall i :: 0 <= i < |cs| ==> cs[i].key !in k
    requires forall i, j :: 0 <= i < j < |cs| ==> cs[i].key != cs[j].key
    ensures Known(ConfigureAll(k, cs)) == DevAll(Known(k), Requests(cs))
  {
    hide Configure, ConfigureAll, DevOne, Known;
    if cs == [] {
      NoConfigs(k);
    } else {
      var n := |cs| - 1;
      var before := cs[..n];
      BatchAgrees(k, before);
      assert cs == before + [cs[n]];
      assert Requests(cs)[..n] == Requests(before);
      ConfigureAllSnoc(k, before, cs[n]);
      ConfiguredKeys(k, before);
      AgreesIff(ConfigureAll(k, before), cs[n]);
    }
  }

  lemma NoConfigs(k: Peers)
    ensures ConfigureAll(k, []) == k
  {
  }
}
