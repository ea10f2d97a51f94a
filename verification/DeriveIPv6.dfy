/** DeriveIPv6: the byte loop and mask in uint32 arithmetic, and which clients its text tells apart. */
module DeriveIPv6 {
  import opened Text
  import opened Bits
  import opened Addresses

  datatype Derived = Disabled | Invalid | Address(text: string)

  /** What the suffix is of: the host part, and for a /32 the last octet. */
  function SuffixOf(ip: IPv4, ones: Ones): nat {
    if ones == 32 then ip.d else Host(ip, ones)
  }

  method DeriveIPv6(clientAddress: string, prefix: string, parse: string -> Option<Prefix>) returns (r: Derived)
    ensures r.Invalid? <==> prefix != "" && clientAddress != "" && parse(clientAddress).None?
    ensures r.Address? <==>
            prefix != "" && clientAddress != "" && parse(clientAddress).Some? && parse(clientAddress).value.V4?
    ensures r.Address? ==>
              var p := parse(clientAddress).value; r.text == prefix + Decimal(SuffixOf(p.ip, p.ones)) + "/128"
  {
    hide Decimal, And, Or, Pow2, Leading, Wrapped, Number;
    LeadingNone();
    if prefix == "" || clientAddress == "" {
      return Disabled;
    }
    var p := parse(clientAddress);
    if p.None? {
      return Invalid;
    }
    if !p.value.V4? {
      return Disabled;
    }
    var ip, maskBits := p.value.ip, p.value.ones;
    var ip4 := [ip.a, ip.b, ip.c, ip.d];
    if maskBits == 32 {
      return Address(prefix + Decimal(ip4[3]) + "/128");
    }
    var host: nat := 0;
    for i := 0 to 4
      invariant host == Leading(ip4[..i])
      invariant host < [1, 0x100, 0x1_0000, 0x100_0000, WORD][i]
    {
      Pow2At(8);
      OrBelow(host, 8, ip4[i]);
      LeadingSnoc(ip4[..i], ip4[i]);
      assert ip4[..i + 1] == ip4[..i] + [ip4[i]];
      host := Or(host * 0x100 % WORD, ip4[i]);
    }
    assert ip4[..4] == ip4;
    LeadingNumber(ip);
    var hostBits := 32 - maskBits;
    MaskHost(host, hostBits);
    host := And(host, Wrapped(Wrapped(Pow2(hostBits)) - 1));
    r := Address(prefix + Decimal(host) + "/128");
  }

  function Leading(bytes: seq<Octet>): nat {
    if bytes == [] then 0 else Leading(bytes[..|bytes| - 1]) * 0x100 + bytes[|bytes| - 1]
  }

  lemma LeadingNone()
    ensures Leading([]) == 0
  {
  }

  lemma LeadingSnoc(bytes: seq<Octet>, x: Octet)
    ensures Leading(bytes + [x]) == Leading(bytes) * 0x100 + x
  {
    assert (bytes + [x])[..|bytes|] == bytes;
  }

  lemma LeadingNumber(ip: IPv4)
    ensures Leading([ip.a, ip.b, ip.c, ip.d]) == Number(ip)
  {
    LeadingSnoc([], ip.a);
    LeadingSnoc([ip.a], ip.b);
    LeadingSnoc([ip.a, ip.b], ip.c);
    LeadingSnoc([ip.a, ip.b, ip.c], ip.d);
    assert [] + [ip.a] == [ip.a] && [ip.a] + [ip.b] == [ip.a, ip.b];
    assert [ip.a, ip.b] + [ip.c] == [ip.a, ip.b, ip.c];
    assert [ip.a, ip.b, ip.c] + [ip.d] == [ip.a, ip.b, ip.c, ip.d];
  }

  // ---------------------------------------------------------------- what the derived text tells apart

  function DerivedText(ip: IPv4, ones: Ones, prefix: string): string {
    prefix + Decimal(SuffixOf(ip, ones)) + "/128"
  }

  lemma SuffixDecides(ip: IPv4, other: IPv4, ones: Ones, prefix: string)
    ensures DerivedText(ip, ones, prefix) == DerivedText(other, ones, prefix) <==>
            SuffixOf(ip, ones) == SuffixOf(other, ones)
  {
    hide Decimal, SuffixOf;
    if DerivedText(ip, ones, prefix) == DerivedText(other, ones, prefix) {
      var s, t := Decimal(SuffixOf(ip, ones)), Decimal(SuffixOf(other, ones));
      var one, two := prefix + s + "/128", prefix + t + "/128";
      assert one[|prefix|..|one| - 4] == s && two[|prefix|..|two| - 4] == t;
      DecimalInjective(SuffixOf(ip, ones), SuffixOf(other, ones));
    }
  }

  /** On one subnet (shorter than /32) the derived texts of two clients are equal only for the same client. */
  lemma DerivedIsInjective(ip: IPv4, other: IPv4, ones: Ones, prefix: string)
    requires ones < 32 && Network(ip, ones) == Network(other, ones)
    ensures DerivedText(ip, ones, prefix) == DerivedText(other, ones, prefix) <==> ip == other
  {
    hide DerivedText, Pow2;
    SuffixDecides(ip, other, ones, prefix);
    OctetsOfNumber(ip);
    OctetsOfNumber(other);
  }

  /** For /32 clients the text keeps only the last octet, whatever the rest of the address. */
  lemma HostRoutesCollide(ip: IPv4, other: IPv4, prefix: string)
    ensures DerivedText(ip, 32, prefix) == DerivedText(other, 32, prefix) <==> ip.d == other.d
  {
    SuffixDecides(ip, other, 32, prefix);
  }

  /** Two clients of one /16, entered as /32 addresses, that get the same IPv6 address. */
  lemma HostRouteCollision(prefix: string)
    ensures var one, two := IPv4(10, 0, 0, 2), IPv4(10, 0, 1, 2);
      one != two && Network(one, 16) == Network(two, 16) && DerivedText(one, 32, prefix) == DerivedText(two, 32, prefix)
  {
    var one, two := IPv4(10, 0, 0, 2), IPv4(10, 0, 1, 2);
    assert Pow2(4) == 16 && Pow2(8) == 256 && Pow2(12) == 0x1000 && Pow2(16) == 0x1_0000;
    HostRoutesCollide(one, two, prefix);
  }

  /** The number in the text: what the address is beyond the start of its subnet, and for a /32 its last octet. */
  lemma SuffixIs(ip: IPv4, ones: Ones)
    ensures ones < 32 ==>
      var size := Pow2(32 - ones);
      Number(ip) == Number(ip) / size * size + SuffixOf(ip, ones) && SuffixOf(ip, ones) < size
    ensures ones == 32 ==> SuffixOf(ip, ones) == ip.d
    ensures ones == 24 ==> SuffixOf(ip, ones) == ip.d
    ensures ones == 16 ==> SuffixOf(ip, ones) == ip.c * 0x100 + ip.d
  {
    hide Pow2, Number;
    if ones < 32 {
      var size := Pow2(32 - ones);
      assert Number(ip) == Number(ip) / size * size + Number(ip) % size;
    }
    NumberDigits(ip);
    Pow2At(8);
    PowSixteen();
    Remainder(Number(ip), 0x1_0000, ip.a * 0x100 + ip.b, ip.c * 0x100 + ip.d) by { NumberParts(ip); }
  }

  lemma NumberParts(ip: IPv4)
    ensures Number(ip) == (ip.a * 0x100 + ip.b) * 0x1_0000 + (ip.c * 0x100 + ip.d)
  {
  }

  lemma PowSixteen()
    ensures Pow2(16) == 0x1_0000
  {
    assert Pow2(4) == 16 && Pow2(8) == 256 && Pow2(12) == 0x1000;
  }

  // ---------------------------------------------------------------- the suffix as an IPv6 group

  function Value(c: char): nat {
    if '0' <= c <= '9' then (c - '0') as int else 0
  }

  /** The decimal digits read as one hexadecimal group (section 2.2 of RFC 4291). */
  function Group(s: string): nat {
    if s == "" then 0 else 16 * Group(s[..|s| - 1]) + Value(s[|s| - 1])
  }

  lemma DigitValue(d: nat)
    requires d < 10
    ensures Value(Digit(d)) == d
  {
  }

  lemma GroupSnoc(s: string, c: char)
    ensures Group(s + [c]) == 16 * Group(s) + Value(c)
  {
    hide Value;
    assert (s + [c])[..|s|] == s;
  }

  lemma GroupOfDecimal(n: nat)
    ensures n < 10 ==> Group(Decimal(n)) == n
    ensures n >= 10 ==> Group(Decimal(n)) == 16 * Group(Decimal(n / 10)) + n % 10
  {
    hide Value, Digit, Group;
    var last := n % 10;
    DigitValue(last);
    if n >= 10 {
      GroupSnoc(Decimal(n / 10), Digit(last));
    } else {
      GroupSnoc("", Digit(last));
      GroupEmpty();
      assert Decimal(n) == "" + [Digit(last)];
    }
  }

  lemma GroupEmpty()
    ensures Group("") == 0
  {
  }

  /** Different hosts are different groups: reading decimal digits as hexadecimal loses nothing. */
  lemma {:induction false} GroupsDiffer(m: nat, n: nat)
    requires Group(Decimal(m)) == Group(Decimal(n))
    ensures m == n
  {
    hide Group, Decimal;
    GroupOfDecimal(m);
    GroupOfDecimal(n);
    if m >= 10 {
      GroupPositive(m / 10);
    }
    if n >= 10 {
      GroupPositive(n / 10);
    }
    if m >= 10 && n >= 10 {
      GroupsDiffer(m / 10, n / 10);
    }
  }

  lemma {:induction false} GroupPositive(n: nat)
    requires n > 0
    ensures Group(Decimal(n)) > 0
  {
    hide Group, Decimal;
    GroupOfDecimal(n);
    if n >= 10 {
      GroupPositive(n / 10);
    }
  }

  lemma DigitCount(n: nat)
    ensures |Decimal(n)| <= 4 <==> n < 10000
  {
    hide Decimal;
    DecimalLength(n);
    DecimalLength(n / 10);
    DecimalLength(n / 10 / 10);
    DecimalLength(n / 10 / 10 / 10);
  }

  /** A group has at most four digits: every host of the subnet fits exactly for prefix lengths from 19 on. */
  lemma FitsOneGroup(ones: Ones)
    ensures (forall host: nat :: host < Pow2(32 - ones) ==> |Decimal(host)| <= 4) <==> ones >= 19
  {
    hide Decimal, Pow2;
    Pow2At13();
    if ones >= 19 {
      Monotone(32 - ones, 13);
      forall host: nat | host < Pow2(32 - ones) ensures |Decimal(host)| <= 4 {
        DigitCount(host);
      }
    } else {
      Monotone(14, 32 - ones);
      DigitCount(10000);
      assert 10000 < Pow2(32 - ones);
    }
  }

  lemma Pow2At13()
    ensures Pow2(13) == 8192 && Pow2(14) == 16384
  {
    assert Pow2(4) == 16 && Pow2(8) == 256 && Pow2(12) == 4096;
  }
}
