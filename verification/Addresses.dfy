/** IPv4 addresses as octets and as numbers, and their text. */
module Addresses {
  import opened Bits
  import opened Text
  import opened TextLaws

  type Octet = x: nat | x < 256
  type Ones = x: nat | x <= 32

  datatype IPv4 = IPv4(a: Octet, b: Octet, c: Octet, d: Octet)

  /** A parsed CIDR; Mapped is an IPv4 address written as ::ffff:a.b.c.d with a 128-bit mask. */
  datatype Prefix =
    | V4(ip: IPv4, ones: Ones)
    | Mapped(ip: IPv4)
    | V6

  // ---------------------------------------------------------------- addresses

  function Number(ip: IPv4): (n: nat)
    ensures n < WORD
  {
    ip.a * 0x100_0000 + ip.b * 0x1_0000 + ip.c * 0x100 + ip.d
  }

  /** byte(n>>24), byte(n>>16), byte(n>>8), byte(n). */
  function Octets(n: nat): IPv4
    requires n < WORD
  {
    IPv4(n / 0x100_0000, n / 0x1_0000 % 0x100, n / 0x100 % 0x100, n % 0x100)
  }

  lemma OctetsOfNumber(ip: IPv4)
    ensures Octets(Number(ip)) == ip
  {
    hide Number;
    NumberDigits(ip);
    Remainder(ip.a * 0x100 + ip.b, 0x100, ip.a, ip.b);
    Remainder(ip.a * 0x1_0000 + ip.b * 0x100 + ip.c, 0x100, ip.a * 0x100 + ip.b, ip.c);
  }

  lemma NumberDigits(ip: IPv4)
    ensures Number(ip) / 0x100_0000 == ip.a
    ensures Number(ip) / 0x1_0000 == ip.a * 0x100 + ip.b
    ensures Number(ip) / 0x100 == ip.a * 0x1_0000 + ip.b * 0x100 + ip.c
    ensures Number(ip) % 0x100 == ip.d
  {
    var n := Number(ip);
    Remainder(n, 0x100_0000, ip.a, ip.b * 0x1_0000 + ip.c * 0x100 + ip.d);
    Remainder(n, 0x1_0000, ip.a * 0x100 + ip.b, ip.c * 0x100 + ip.d);
    Remainder(n, 0x100, ip.a * 0x1_0000 + ip.b * 0x100 + ip.c, ip.d);
  }

  lemma NumberOfOctets(n: nat)
    requires n < WORD
    ensures Number(Octets(n)) == n
  {
    var m, q := n / 0x100, n / 0x1_0000;
    Remainder(n, 0x1_0000, m / 0x100, m % 0x100 * 0x100 + n % 0x100);
    Remainder(n, 0x100_0000, q / 0x100, q % 0x100 * 0x1_0000 + n % 0x1_0000);
  }

  /** The host part: what is left of the address after the first `ones` bits. */
  function Host(ip: IPv4, ones: Ones): (h: nat)
    ensures h < Pow2(32 - ones) && h <= Number(ip)
  {
    RemainderAtMost(Number(ip), Pow2(32 - ones));
    Number(ip) % Pow2(32 - ones)
  }

  /** The address of the subnet itself. */
  function Network(ip: IPv4, ones: Ones): nat {
    Number(ip) - Host(ip, ones)
  }

  // ---------------------------------------------------------------- text

  lemma {:induction false} DecimalInjective(m: nat, n: nat)
    requires Decimal(m) == Decimal(n)
    ensures m == n
  {
    DecimalLength(m);
    DecimalLength(n);
    var s, t := Decimal(m), Decimal(n);
    assert s[|s| - 1] == t[|t| - 1];
    if m >= 10 && n >= 10 {
      assert s[..|s| - 1] == Decimal(m / 10) && t[..|t| - 1] == Decimal(n / 10);
      DecimalInjective(m / 10, n / 10);
    }
  }

  lemma DecimalLength(n: nat)
    ensures n < 10 ==> |Decimal(n)| == 1
    ensures n >= 10 ==> |Decimal(n)| == |Decimal(n / 10)| + 1 >= 2
  {
  }

  function Dotted(ip: IPv4): string {
    Decimal(ip.a) + "." + Decimal(ip.b) + "." + Decimal(ip.c) + "." + Decimal(ip.d)
  }

  lemma DottedParts(ip: IPv4)
    ensures Split(Dotted(ip), '.') == [Decimal(ip.a), Decimal(ip.b), Decimal(ip.c), Decimal(ip.d)]
  {
    hide Decimal;
    var a, b, c, d := Decimal(ip.a), Decimal(ip.b), Decimal(ip.c), Decimal(ip.d);
    DecimalDigits(ip.a);
    DecimalDigits(ip.b);
    DecimalDigits(ip.c);
    DecimalDigits(ip.d);
    assert Dotted(ip) == a + ['.'] + (b + ['.'] + (c + ['.'] + d));
    SplitAt(a, b + ['.'] + (c + ['.'] + d), '.');
    SplitAt(b, c + ['.'] + d, '.');
    SplitAt(c, d, '.');
    SplitNone(d, '.');
    assert [a] + ([b] + ([c] + [d])) == [a, b, c, d];
  }

  lemma DottedInjective(ip: IPv4, other: IPv4)
    requires Dotted(ip) == Dotted(other)
    ensures ip == other
  {
    hide Decimal, Dotted;
    DottedParts(ip);
    DottedParts(other);
    var one := [Decimal(ip.a), Decimal(ip.b), Decimal(ip.c), Decimal(ip.d)];
    var two := [Decimal(other.a), Decimal(other.b), Decimal(other.c), Decimal(other.d)];
    assert one[0] == two[0] && one[1] == two[1] && one[2] == two[2] && one[3] == two[3];
    DecimalInjective(ip.a, other.a);
    DecimalInjective(ip.b, other.b);
    DecimalInjective(ip.c, other.c);
    DecimalInjective(ip.d, other.d);
  }
}
