/** The address handlers: the lowest free host of the interface's subnet, and a client's server-side AllowedIPs. */
module ClientAddresses {
  import opened Text
  import opened TextLaws
  import opened Bits
  import opened Addresses
  import opened DeriveIPv6

  const SCAN_CAP := 65535

  datatype Reply =
    | InterfaceNotFound
    | NoAddress
    | NoIPv4
    | DbError
    | IPv6NotSupported
    | SubnetFull
    | Next(ip: IPv4, ones: Ones)

  /** net.ParseCIDR, as far as this code looks: an unreadable text is skipped. */
  type Parse = string -> Option<Prefix>

  predicate ReadsIPv4(parse: Parse, text: string) {
    parse(text).Some? && !parse(text).value.V6?
  }

  /** The first interface address that is an IPv4 one. */
  function FirstIPv4(parse: Parse, addrs: seq<string>): Option<Prefix> {
    if addrs == [] then None
    else if ReadsIPv4(parse, addrs[0]) then parse(addrs[0])
    else FirstIPv4(parse, addrs[1..])
  }

  function Taken(parse: Parse, texts: seq<string>): set<IPv4> {
    set t | t in texts && ReadsIPv4(parse, t) :: parse(t).value.ip
  }

  /** Usable hosts of a subnet; negative or zero for /31 and /32. */
  function TotalHosts(ones: Ones): int {
    Pow2(32 - ones) - 2
  }

  function ScanLimit(ones: Ones): int {
    if TotalHosts(ones) > SCAN_CAP then SCAN_CAP else TotalHosts(ones)
  }

  /** Host number i of the subnet of `p`, with Go's uint32 addition. */
  function HostAt(p: Prefix, i: nat): IPv4
    requires p.V4?
  {
    Octets(Wrapped(Network(p.ip, p.ones) + i))
  }

  /** The lowest free host: i is the first within the scan whose address is not occupied. */
  ghost predicate LowestFree(p: Prefix, occupied: set<IPv4>, i: nat)
    requires p.V4?
  {
    && 1 <= i <= ScanLimit(p.ones) && HostAt(p, i) !in occupied
    && forall j :: 1 <= j < i ==> HostAt(p, j) in occupied
  }

  ghost predicate Exhausted(p: Prefix, occupied: set<IPv4>)
    requires p.V4?
  {
    forall i :: 1 <= i <= ScanLimit(p.ones) ==> HostAt(p, i) in occupied
  }

  /**
   * `iface` is None when the interface or its addresses cannot be read, `rows` is None when the
   * database cannot; a missing interface and a failing address list are different replies.
   */
  method NextAddress(parse: Parse, found: bool, iface: Option<seq<string>>, rows: Option<seq<string>>)
    returns (r: Reply)
    ensures r.InterfaceNotFound? <==> !found
    ensures r.NoAddress? <==> found && (iface.None? || iface.value == [])
    ensures r.NoIPv4? <==> found && iface.Some? && iface.value != [] && FirstIPv4(parse, iface.value).None?
    ensures var usable := found && iface.Some? && FirstIPv4(parse, iface.value).Some?;
      && (r.DbError? <==> usable && rows.None?)
      && (r.IPv6NotSupported? <==> usable && rows.Some? && FirstIPv4(parse, iface.value).value.Mapped?)
      && (r.SubnetFull? || r.Next? ==> usable && rows.Some? && FirstIPv4(parse, iface.value).value.V4?)
    ensures found && iface.Some? && FirstIPv4(parse, iface.value).Some? && rows.Some? ==>
              var p := FirstIPv4(parse, iface.value).value;
              p.V4? ==> (r.SubnetFull? <==> Exhausted(p, Taken(parse, rows.value) + {p.ip}))
    ensures r.Next? ==>
              var p := FirstIPv4(parse, iface.value).value;
              && r.ones == p.ones
              && exists i: nat :: r.ip == HostAt(p, i) && LowestFree(p, Taken(parse, rows.value) + {p.ip}, i)
  {
    hide Pow2, Octets, Wrapped, Network;
    if !found {
      return InterfaceNotFound;
    }
    if iface.None? || |iface.value| == 0 {
      return NoAddress;
    }
    var addrs := iface.value;
    var subnet := None;
    var k := 0;
    while k < |addrs| && subnet.None?
      invariant k <= |addrs|
      invariant subnet.Some? ==> subnet == FirstIPv4(parse, addrs) && !subnet.value.V6?
      invariant subnet.None? ==> FirstIPv4(parse, addrs) == FirstIPv4(parse, addrs[k..])
    {
      if ReadsIPv4(parse, addrs[k]) {
        subnet := parse(addrs[k]);
      }
      k := k + 1;
    }
    if subnet.None? {
      return NoIPv4;
    }
    var p := subnet.value;
    if rows.None? {
      return DbError;
    }
    var occupied := {p.ip};
    for n := 0 to |rows.value|
      invariant occupied == Taken(parse, rows.value[..n]) + {p.ip}
    {
      TakenSnoc(parse, rows.value, n);
      if ReadsIPv4(parse, rows.value[n]) {
        occupied := occupied + {parse(rows.value[n]).value.ip};
      }
    }
    assert rows.value[..|rows.value|] == rows.value;
    if p.Mapped? {
      return IPv6NotSupported;
    }
    r := Scan(p, occupied);
  }

  lemma TakenSnoc(parse: Parse, texts: seq<string>, n: nat)
    requires n < |texts|
    ensures Taken(parse, texts[..n + 1]) ==
            Taken(parse, texts[..n]) + if ReadsIPv4(parse, texts[n]) then {parse(texts[n]).value.ip} else {}
  {
    assert texts[..n + 1] == texts[..n] + [texts[n]];
  }

  method Scan(p: Prefix, occupied: set<IPv4>) returns (r: Reply)
    requires p.V4?
    ensures r.SubnetFull? || r.Next?
    ensures r.SubnetFull? <==> Exhausted(p, occupied)
    ensures r.Next? ==> r.ones == p.ones && exists i: nat :: r.ip == HostAt(p, i) && LowestFree(p, occupied, i)
  {
    hide Pow2, Octets, Wrapped, Network;
    var totalHosts := Pow2(32 - p.ones) - 2;
    if totalHosts <= 0 {
      return SubnetFull;
    }
    var scanLimit := totalHosts;
    if scanLimit > SCAN_CAP {
      scanLimit := SCAN_CAP;
    }
    var base := Network(p.ip, p.ones);
    for i := 1 to scanLimit + 1
      invariant forall j :: 1 <= j < i ==> HostAt(p, j) in occupied
    {
      var key := Octets(Wrapped(base + i));
      if key !in occupied {
        assert LowestFree(p, occupied, i);
        return Next(key, p.ones);
      }
    }
    r := SubnetFull;
  }

  // ---------------------------------------------------------------- what the answer is worth

  /** No host of the scan wraps, and each lies strictly between the network address and the broadcast address. */
  lemma HostInside(p: Prefix, i: nat)
    requires p.V4? && 1 <= i <= TotalHosts(p.ones)
    ensures Number(HostAt(p, i)) == Network(p.ip, p.ones) + i
    ensures Network(p.ip, p.ones) < Number(HostAt(p, i)) < Network(p.ip, p.ones) + Pow2(32 - p.ones) - 1
    ensures Network(HostAt(p, i), p.ones) == Network(p.ip, p.ones) && Host(HostAt(p, i), p.ones) == i
  {
    hide Pow2, Number, Octets;
    var n, size := Number(p.ip), Pow2(32 - p.ones);
    SubnetEnds(p.ip, p.ones);
    var q := n / size;
    assert n == q * size + n % size;
    var m := Network(p.ip, p.ones) + i;
    NumberOfOctets(m);
    Remainder(m, size, q, i);
  }

  /** Strictly between the network address and the broadcast address. */
  predicate Inside(p: Prefix, a: IPv4)
    requires p.V4?
  {
    Network(p.ip, p.ones) < Number(a) < Network(p.ip, p.ones) + Pow2(32 - p.ones) - 1
  }

  /** Every address inside the subnet is a host of the numbering. */
  lemma EveryHost(p: Prefix, a: IPv4)
    requires p.V4? && Inside(p, a)
    ensures var i := Number(a) - Network(p.ip, p.ones); 1 <= i <= TotalHosts(p.ones) && HostAt(p, i) == a
  {
    hide Pow2, Number, Octets, Network;
    OctetsOfNumber(a);
  }

  /** The subnet is full exactly when every address inside it, up to the 65535th, is occupied. */
  lemma ExhaustedIff(p: Prefix, occupied: set<IPv4>)
    requires p.V4?
    ensures Exhausted(p, occupied) <==>
            forall a :: Inside(p, a) && Number(a) <= Network(p.ip, p.ones) + 65535 ==> a in occupied
  {
    hide Pow2, Number, Octets, Network, HostAt;
    if Exhausted(p, occupied) {
      forall a | Inside(p, a) && Number(a) <= Network(p.ip, p.ones) + 65535 ensures a in occupied {
        EveryHost(p, a);
      }
    }
    forall i | 1 <= i <= ScanLimit(p.ones)
      ensures Inside(p, HostAt(p, i)) && Number(HostAt(p, i)) == Network(p.ip, p.ones) + i
    {
      HostInside(p, i);
    }
  }

  /** What is answered is the lowest address inside the subnet that is free. */
  lemma LowestFreeIsLeast(p: Prefix, occupied: set<IPv4>, i: nat)
    requires p.V4? && LowestFree(p, occupied, i)
    ensures Inside(p, HostAt(p, i)) && HostAt(p, i) !in occupied
    ensures forall a :: Inside(p, a) && a !in occupied ==> Number(HostAt(p, i)) <= Number(a)
  {
    hide Pow2, Number, Octets, Network, HostAt;
    HostInside(p, i);
    forall a | Inside(p, a) && a !in occupied ensures Number(HostAt(p, i)) <= Number(a) {
      EveryHost(p, a);
    }
  }

  /** A subnet ends within the 32-bit range. */
  lemma SubnetEnds(ip: IPv4, ones: Ones)
    ensures Network(ip, ones) + Pow2(32 - ones) <= WORD
  {
    hide Pow2, Number;
    var size, other := Pow2(32 - ones), Pow2(ones);
    Pow2At(32);
    PowSum(ones, 32 - ones);
    var q := Number(ip) / size;
    assert Number(ip) == q * size + Number(ip) % size;
    if q + 1 > other {
      Scales(other, q, size);
      assert false;
    }
    Scales(q + 1, other, size);
    assert (q + 1) * size == q * size + size;
  }

  lemma Scales(a: nat, b: nat, c: nat)
    requires a <= b
    ensures a * c <= b * c
  {
  }

  lemma {:induction false} PowSum(a: nat, b: nat)
    ensures Pow2(a) * Pow2(b) == Pow2(a + b)
  {
    if a > 0 {
      hide Pow2;
      PowSum(a - 1, b);
      Doubles(a - 1);
      Doubles(a - 1 + b);
      Twice(Pow2(b), Pow2(a - 1));
    }
  }

  lemma HostsDiffer(p: Prefix, i: nat, j: nat)
    requires p.V4? && 1 <= i <= TotalHosts(p.ones) && 1 <= j <= TotalHosts(p.ones) && i != j
    ensures HostAt(p, i) != HostAt(p, j)
  {
    hide Pow2, Number, HostAt;
    HostInside(p, i);
    HostInside(p, j);
  }

  /** Hosts 1..n of the scan, all occupied, are n distinct occupied addresses. */
  lemma {:induction false} OccupiedCount(p: Prefix, occupied: set<IPv4>, n: nat)
    requires p.V4? && n <= TotalHosts(p.ones)
    requires forall i :: 1 <= i <= n ==> HostAt(p, i) in occupied
    ensures |occupied| >= n
  {
    hide HostAt, Pow2;
    if n > 0 {
      var host := HostAt(p, n);
      forall i | 1 <= i <= n - 1 ensures HostAt(p, i) in occupied - {host} {
        HostsDiffer(p, i, n);
      }
      OccupiedCount(p, occupied - {host}, n - 1);
    }
  }

  /** Pigeonhole: with fewer occupied addresses than scanned hosts, the search cannot end empty-handed. */
  lemma RoomIsFound(p: Prefix, occupied: set<IPv4>)
    requires p.V4? && |occupied| < ScanLimit(p.ones)
    ensures !Exhausted(p, occupied)
  {
    hide HostAt, Pow2;
    if Exhausted(p, occupied) {
      OccupiedCount(p, occupied, ScanLimit(p.ones));
      assert false;
    }
  }

  lemma {:induction false} TakenCount(parse: Parse, texts: seq<string>)
    ensures |Taken(parse, texts)| <= |texts|
  {
    if texts != [] {
      var n := |texts| - 1;
      TakenCount(parse, texts[..n]);
      TakenSnoc(parse, texts, n);
      assert texts[..n + 1] == texts;
    }
  }

  /** Fewer peers than scanned hosts less the interface's own address: the handler always answers an address. */
  lemma FewPeersFit(parse: Parse, p: Prefix, rows: seq<string>)
    requires p.V4? && |rows| + 1 < ScanLimit(p.ones)
    ensures !Exhausted(p, Taken(parse, rows) + {p.ip})
  {
    hide HostAt, Pow2;
    TakenCount(parse, rows);
    RoomIsFound(p, Taken(parse, rows) + {p.ip});
  }

  // ---------------------------------------------------------------- server AllowedIPs

  /** The peer's AllowedIPs on the server: its host address, and the derived IPv6 one when a prefix is set. */
  function ServerAllowedIPs(clientAddress: string, prefix: string, parse: Parse, ipText: string -> string): string {
    if parse(clientAddress).None? then clientAddress
    else
      var p := parse(clientAddress).value;
      (if p.V6? then ipText(clientAddress) else Dotted(p.ip)) + "/32"
      + if prefix != "" && p.V4? then ", " + DerivedText(p.ip, p.ones, prefix) else ""
  }

  lemma FirstRoute(client: string, prefix: string, parse: Parse, ipText: string -> string)
    requires ReadsIPv4(parse, client)
    ensures Split(ServerAllowedIPs(client, prefix, parse, ipText), ',')[0] == Dotted(parse(client).value.ip) + "/32"
  {
    hide Split, DerivedText, Decimal;
    var p := parse(client).value;
    var route := Dotted(p.ip) + "/32";
    DecimalDigits(p.ip.a);
    DecimalDigits(p.ip.b);
    DecimalDigits(p.ip.c);
    DecimalDigits(p.ip.d);
    assert ',' !in route;
    if prefix != "" && p.V4? {
      var derived := DerivedText(p.ip, p.ones, prefix);
      assert route + (", " + derived) == route + [','] + (" " + derived);
      SplitAt(route, " " + derived, ',');
    } else {
      assert route + "" == route;
      SplitNone(route, ',');
    }
  }

  /** All the routes of an IPv4 client: its own address, and the derived one exactly when there is a prefix. */
  lemma RoutesOf(client: string, prefix: string, parse: Parse, ipText: string -> string)
    requires parse(client).Some? && parse(client).value.V4?
    requires prefix != "" ==> ',' !in prefix && !IsSpace(prefix[0])
    ensures var p := parse(client).value;
      Fields(ServerAllowedIPs(client, prefix, parse, ipText)) ==
        [Dotted(p.ip) + "/32"]
        + if prefix == "" then [] else [prefix + Decimal(SuffixOf(p.ip, p.ones)) + "/128"]
  {
    hide Fields, Dotted, Decimal, SuffixOf, TrimSpace;
    var p := parse(client).value;
    var route := Dotted(p.ip) + "/32";
    RouteIsItem(p.ip);
    if prefix == "" {
      assert route + "" == route;
      FieldsOne(route);
    } else {
      var derived := prefix + Decimal(SuffixOf(p.ip, p.ones)) + "/128";
      DerivedIsItem(prefix, SuffixOf(p.ip, p.ones));
      var items := [route, derived];
      assert items[1..] == [derived];
      assert Joined(items, " ") == route + "," + " " + derived == route + (", " + derived);
      FieldsOfList(items, " ");
    }
  }

  lemma RouteIsItem(ip: IPv4)
    ensures IsItem(Dotted(ip) + "/32")
  {
    hide Decimal;
    DecimalDigits(ip.a);
    DecimalDigits(ip.b);
    DecimalDigits(ip.c);
    DecimalDigits(ip.d);
    DecimalReads(ip.a);
    var s := Dotted(ip) + "/32";
    assert s[0] == Decimal(ip.a)[0] && Decimal(ip.a)[0] in Decimal(ip.a);
    assert s[|s| - 1] == '2';
  }

  lemma DerivedIsItem(prefix: string, n: nat)
    requires prefix != "" && ',' !in prefix && !IsSpace(prefix[0])
    ensures IsItem(prefix + Decimal(n) + "/128")
  {
    hide Decimal;
    DecimalDigits(n);
    var s := prefix + Decimal(n) + "/128";
    assert s[0] == prefix[0] && s[|s| - 1] == '8';
  }

  /** The first route of two IPv4 clients' AllowedIPs is the same only for the same client address. */
  lemma ServerRoutesDiffer(one: string, two: string, prefix: string, parse: Parse, ipText: string -> string)
    requires ReadsIPv4(parse, one) && ReadsIPv4(parse, two)
    ensures var s, t := ServerAllowedIPs(one, prefix, parse, ipText), ServerAllowedIPs(two, prefix, parse, ipText);
      Split(s, ',')[0] == Split(t, ',')[0] <==> parse(one).value.ip == parse(two).value.ip
  {
    hide Split, Dotted, ServerAllowedIPs;
    FirstRoute(one, prefix, parse, ipText);
    FirstRoute(two, prefix, parse, ipText);
    var a, b := Dotted(parse(one).value.ip), Dotted(parse(two).value.ip);
    if a + "/32" == b + "/32" {
      assert (a + "/32")[..|a|] == a && (b + "/32")[..|b|] == b;
      DottedInjective(parse(one).value.ip, parse(two).value.ip);
    }
  }
}
