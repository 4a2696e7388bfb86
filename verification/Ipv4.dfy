/** IPv4 addresses and CIDR ranges in the text forms used by core/safety.c and docker/network.c. */
module Ipv4 {
  import opened Text
  import opened Numbers

  // ---------- addresses: inet_pton and inet_ntop ----------

  predicate OctetText(s: string)
  {
    1 <= |s| <= 3 && AllDigits(s) && (|s| > 1 ==> s[0] != '0') && DigitsValue(s) <= 255
  }

  predicate AddressText(s: string)
  {
    var parts := Split(s, '.');
    |parts| == 4 && forall p :: p in parts ==> OctetText(p)
  }

  function Octets(a: nat, b: nat, c: nat, d: nat): nat
  {
    ((a * 256 + b) * 256 + c) * 256 + d
  }

  /** inet_pton followed by ntohl: four decimal octets without superfluous zeros. */
  function InetPton(s: string): (r: Option<nat>)
    ensures r.Some? ==> r.value <= UINT32_MAX
  {
    var parts := Split(s, '.');
    if AddressText(s) then
      assert OctetText(parts[0]) && OctetText(parts[1]) && OctetText(parts[2]) && OctetText(parts[3]);
      Some(Octets(DigitsValue(parts[0]), DigitsValue(parts[1]), DigitsValue(parts[2]), DigitsValue(parts[3])))
    else None
  }

  function OctetTexts(a: nat): seq<string>
  {
    [PrintNat(a / 0x100_0000), PrintNat(a / 0x1_0000 % 256), PrintNat(a / 0x100 % 256), PrintNat(a % 256)]
  }

  /** htonl followed by inet_ntop. */
  function InetNtop(a: nat): string
    requires a <= UINT32_MAX
  {
    Join(OctetTexts(a), '.')
  }

  lemma {:induction false} PrintOctet(n: nat)
    requires n <= 255
    ensures OctetText(PrintNat(n))
    ensures '.' !in PrintNat(n)
  {
    assert Pow10(3) == 10 * Pow10(2) == 100 * Pow10(1) == 1000 * Pow10(0);
    PrintNatLength(n, 3);
  }

  lemma {:induction false} OctetArithmetic(a: nat)
    requires a <= UINT32_MAX
    ensures a / 0x100_0000 <= 255
    ensures Octets(a / 0x100_0000, a / 0x1_0000 % 256, a / 0x100 % 256, a % 256) == a
  {
    assert a / 0x100 / 256 == a / 0x1_0000;
    assert a / 0x1_0000 / 256 == a / 0x100_0000;
  }

  lemma {:induction false} NtopThenPton(a: nat)
    requires a <= UINT32_MAX
    ensures InetPton(InetNtop(a)) == Some(a)
  {
    hide PrintNat, DigitsValue, Join, Split;
    OctetArithmetic(a);
    PrintOctet(a / 0x100_0000);
    PrintOctet(a / 0x1_0000 % 256);
    PrintOctet(a / 0x100 % 256);
    PrintOctet(a % 256);
    SplitJoin(OctetTexts(a), '.');
  }

  /** An address has only one text: what inet_pton accepts is what inet_ntop prints. */
  lemma {:induction false} PtonThenNtop(s: string)
    requires InetPton(s).Some?
    ensures InetNtop(InetPton(s).value) == s
  {
    hide PrintNat, DigitsValue, Join, Split;
    var parts := Split(s, '.');
    JoinSplit(s, '.');
    assert OctetText(parts[0]) && OctetText(parts[1]) && OctetText(parts[2]) && OctetText(parts[3]);
    PrintNatCanonical(parts[0]);
    PrintNatCanonical(parts[1]);
    PrintNatCanonical(parts[2]);
    PrintNatCanonical(parts[3]);
    OctetsInverse(DigitsValue(parts[0]), DigitsValue(parts[1]), DigitsValue(parts[2]), DigitsValue(parts[3]));
    assert OctetTexts(InetPton(s).value) == parts;
  }

  lemma {:induction false} OctetsInverse(a: nat, b: nat, c: nat, d: nat)
    requires a <= 255 && b <= 255 && c <= 255 && d <= 255
    ensures var v := Octets(a, b, c, d);
      v / 0x100_0000 == a && v / 0x1_0000 % 256 == b && v / 0x100 % 256 == c && v % 256 == d
  {
    var v := Octets(a, b, c, d);
    assert v / 0x100 == (a * 256 + b) * 256 + c;
    assert v / 0x1_0000 == a * 256 + b;
  }

  lemma {:induction false} NtopText(a: nat)
    requires a <= UINT32_MAX
    ensures 1 <= |InetNtop(a)| < 16
    ensures forall x :: x in InetNtop(a) ==> x == '.' || IsDigit(x)
  {
    OctetArithmetic(a);
    PrintOctet(a / 0x100_0000);
    PrintOctet(a / 0x1_0000 % 256);
    PrintOctet(a / 0x100 % 256);
    PrintOctet(a % 256);
    var t := OctetTexts(a);
    Join4(t[0], t[1], t[2], t[3], '.');
    forall x | x in InetNtop(a) ensures x == '.' || IsDigit(x) {
      JoinChars(t, '.', x);
    }
  }

  lemma {:induction false} AddressChars(s: string, x: char)
    requires AddressText(s) && x in s
    ensures x == '.' || IsDigit(x)
  {
    JoinSplit(s, '.');
    JoinChars(Split(s, '.'), '.', x);
  }

  // ---------- CIDR ranges ----------

  function Pow2(k: nat): (p: nat)
    ensures p > 0
  {
    if k == 0 then 1 else 2 * Pow2(k - 1)
  }

  lemma {:induction false} Pow2Monotone(j: nat, k: nat)
    requires j <= k
    ensures Pow2(j) <= Pow2(k)
  {
    if j < k {
      Pow2Monotone(j, k - 1);
    }
  }

  lemma {:induction false} Pow2Of32()
    ensures Pow2(32) == UINT32_MAX + 1
  {
    assert Pow2(8) == 256;
    assert Pow2(16) == 0x1_0000 by {
      assert Pow2(12) == 16 * Pow2(8);
      assert Pow2(16) == 16 * Pow2(12);
    }
    assert Pow2(24) == 0x100_0000 by {
      assert Pow2(20) == 16 * Pow2(16);
      assert Pow2(24) == 16 * Pow2(20);
    }
    assert Pow2(28) == 16 * Pow2(24);
    assert Pow2(32) == 16 * Pow2(28);
  }

  /** network is the masked address; a block has 2^(32 - prefix) addresses. */
  datatype Cidr = Cidr(network: nat, prefix: nat)
  {
    function BlockSize(): nat
      requires prefix <= 32
    {
      Pow2(32 - prefix)
    }

    /** network | ~mask */
    function Broadcast(): int
      requires prefix <= 32
    {
      network + BlockSize() - 1
    }

    /** A network address of a range with at most 32 prefix bits. */
    ghost predicate Aligned()
    {
      prefix <= 32 && network <= UINT32_MAX && network % BlockSize() == 0
    }
  }

  /** Masking keeps the high prefix bits, which is the address minus its remainder modulo the block size. */
  function CidrOf(addressText: string, prefixText: string): (r: Option<Cidr>)
    ensures r.Some? ==> r.value.Aligned()
  {
    if |addressText| >= 16 || |prefixText| >= 4 then None
    else
      match (InetPton(addressText), ParseLong(prefixText, 0, 32))
      case (Some(host), Some(prefix)) =>
        var block := Pow2(32 - prefix);
        MaskedIsAligned(host, block);
        Some(Cidr(host - host % block, prefix))
      case _ => None
  }

  /** td_parse_ipv4_cidr: the masked network address and the prefix. */
  function ParseCidr(text: string): (r: Option<Cidr>)
    ensures r.Some? ==> r.value.Aligned()
  {
    var slash := IndexOf(text, '/');
    if slash == |text| || slash == 0 || slash + 1 == |text| || '/' in text[slash + 1..] then None
    else CidrOf(text[..slash], text[slash + 1..])
  }

  lemma {:induction false} ParseCidrText(address: string, prefixText: string)
    requires address != [] && '/' !in address && prefixText != [] && '/' !in prefixText
    ensures IndexOf(address + ['/'] + prefixText, '/') == |address|
    ensures (address + ['/'] + prefixText)[..|address|] == address
    ensures ParseCidr(address + ['/'] + prefixText) == CidrOf(address, prefixText)
  {
    IndexOfJoined(address, '/', prefixText);
  }

  lemma {:induction false} MaskedIsAligned(host: nat, block: nat)
    requires block > 0
    ensures 0 <= host - host % block <= host
    ensures (host - host % block) % block == 0
  {
    assert host - host % block == host / block * block;
    ModOfMultiple(host / block, block);
  }

  lemma {:induction false} DivModUnique(x: nat, q: nat, m: nat, r: nat)
    requires m > 0 && r < m && x == q * m + r
    ensures x / m == q && x % m == r
  {
    var d: int := q - x / m;
    assert (d > 0 ==> d * m >= m) && (d < 0 ==> d * m + m <= 0);
    assert d * m == x % m - r;
  }

  lemma {:induction false} ModOfMultiple(q: nat, m: nat)
    requires m > 0
    ensures q * m % m == 0
  {
    DivModUnique(q * m, q, m, 0);
  }

  /** validate_cidr: a prefix of at most 30 whose address is the network address itself. */
  predicate ValidCidr(text: string)
  {
    ParseCidr(text).Some? && ParseCidr(text).value.prefix <= 30 &&
    InetPton(text[..IndexOf(text, '/')]) == Some(ParseCidr(text).value.network)
  }

  /** An aligned block ends inside the 32-bit address space, so no bound computed from it wraps. */
  lemma {:induction false} AlignedFits(c: Cidr)
    requires c.Aligned()
    ensures c.Broadcast() <= UINT32_MAX
    ensures c.prefix <= 30 ==> c.network + 3 <= c.Broadcast()
  {
    hide Pow2;
    Pow2Of32();
    Pow2Divides(32 - c.prefix, 32);
    BlockFits(c.network, c.BlockSize(), Pow2(32));
    if c.prefix <= 30 {
      AtLeastFour(32 - c.prefix);
    }
  }

  lemma {:induction false} AtLeastFour(k: nat)
    requires k >= 2
    ensures Pow2(k) >= 4
  {
    Pow2Monotone(2, k);
    assert Pow2(2) == 4;
  }

  /** A multiple of m below the multiple `total` leaves room for m more. */
  lemma {:induction false} BlockFits(x: nat, m: nat, total: nat)
    requires m > 0 && x % m == 0 && total % m == 0 && x < total
    ensures x + m <= total
  {
    var q, n := x / m, total / m;
    assert x == q * m && total == n * m;
    assert (n - q) * m == total - x;
    PositiveFactor(n - q, m);
    MulAtLeast(n - q, m);
  }

  lemma {:induction false} PositiveFactor(a: int, m: nat)
    requires a * m > 0
    ensures a >= 1
  {
  }

  lemma {:induction false} MulAtLeast(a: nat, m: nat)
    requires a >= 1
    ensures a * m >= m
  {
  }

  lemma {:induction false} Pow2Divides(j: nat, k: nat)
    requires j <= k
    ensures Pow2(k) % Pow2(j) == 0
    ensures Pow2(k) == Pow2(k) / Pow2(j) * Pow2(j)
  {
    if j == k {
    } else {
      Pow2Divides(j, k - 1);
      var q := Pow2(k - 1) / Pow2(j);
      assert Pow2(k) == (2 * q) * Pow2(j);
      ModOfMultiple(2 * q, Pow2(j));
    }
  }

  /** What an accepted CIDR text can contain: digits, dots and one slash, and in the prefix part whatever
      strtol skips or accepts, which includes line breaks. */
  lemma {:induction false} CidrChars(text: string, x: char)
    requires ParseCidr(text).Some? && x in text
    ensures IsDigit(x) || x == '.' || x == '/' || x == '+' || x == '-' || IsSpace(x)
  {
    var slash := IndexOf(text, '/');
    var addressText, prefixText := text[..slash], text[slash + 1..];
    assert text == addressText + ['/'] + prefixText;
    if x in addressText {
      AddressChars(addressText, x);
    } else if x in prefixText {
      ScanChars(prefixText, x);
    }
  }

  lemma {:induction false} CidrLength(text: string)
    requires ParseCidr(text).Some?
    ensures 1 <= |text| <= 19
  {
  }

  // ---------- what the texts stand for ----------

  /** The first octet of a dotted text is the high byte. */
  lemma {:induction false} OctetOrder(a: nat, b: nat, c: nat, d: nat)
    requires a <= 255 && b <= 255 && c <= 255 && d <= 255
    ensures var value := a * 0x100_0000 + b * 0x1_0000 + c * 0x100 + d;
      var text := PrintNat(a) + "." + PrintNat(b) + "." + PrintNat(c) + "." + PrintNat(d);
      value <= UINT32_MAX && InetNtop(value) == text && InetPton(text) == Some(value)
  {
    hide PrintNat, InetPton;
    OctetsInverse(a, b, c, d);
    var value := Octets(a, b, c, d);
    Join4(PrintNat(a), PrintNat(b), PrintNat(c), PrintNat(d), '.');
    assert InetNtop(value) == PrintNat(a) + "." + PrintNat(b) + "." + PrintNat(c) + "." + PrintNat(d);
    NtopThenPton(value);
  }

  lemma {:induction false} PrefixText(p: nat)
    requires p <= 32
    ensures var text := PrintNat(p);
      1 <= |text| < 4 && '/' !in text && ParseLong(text, 0, 32) == Some(p)
  {
    hide PrintNat, ParseLong;
    assert Pow10(2) == 10 * Pow10(1) == 100 * Pow10(0);
    PrintNatLength(p, 2);
    ParseLongPrinted(p, 0, 32);
    assert PrintInt(p) == PrintNat(p);
    assert AllDigits(PrintNat(p)) && !IsDigit('/');
  }

  lemma {:induction false} AddressHasNoSlash(a: nat)
    requires a <= UINT32_MAX
    ensures '/' !in InetNtop(a) && 1 <= |InetNtop(a)| < 16
  {
    hide InetNtop;
    NtopText(a);
    assert !IsDigit('/');
  }

  /** What a CIDR text stands for, in the prefix notation of section 3.1 of RFC 4632: the written prefix, and the block of
      2^(32 - prefix) addresses, aligned to its size, in which the written address lies. */
  lemma {:induction false} CidrMeans(a: nat, p: nat)
    requires a <= UINT32_MAX && p <= 32
    ensures var text := InetNtop(a) + "/" + PrintNat(p);
      ParseCidr(text).Some? &&
      var c := ParseCidr(text).value;
      c.prefix == p && c.network <= a < c.network + Pow2(32 - p) && c.network % Pow2(32 - p) == 0 &&
      text[..IndexOf(text, '/')] == InetNtop(a)
  {
    hide InetNtop, InetPton, PrintNat, ParseLong, Pow2;
    AddressHasNoSlash(a);
    PrefixText(p);
    NtopThenPton(a);
    ParseCidrText(InetNtop(a), PrintNat(p));
    MaskedIsAligned(a, Pow2(32 - p));
  }

  /** validate_cidr accepts a printed range exactly when its prefix is at most 30 and its address the first of the block. */
  lemma {:induction false} ValidCidrIff(a: nat, p: nat)
    requires a <= UINT32_MAX && p <= 32
    ensures ValidCidr(InetNtop(a) + "/" + PrintNat(p)) <==> p <= 30 && a % Pow2(32 - p) == 0
  {
    hide InetNtop, InetPton, PrintNat, ParseCidr, Pow2;
    CidrMeans(a, p);
    NtopThenPton(a);
    SameBlock(a, ParseCidr(InetNtop(a) + "/" + PrintNat(p)).value.network, Pow2(32 - p));
  }

  lemma {:induction false} SameBlock(a: nat, network: nat, block: nat)
    requires block > 0 && network <= a < network + block && network % block == 0
    ensures a % block == a - network
  {
    var q := network / block;
    assert network == q * block;
    DivModUnique(a, q, block, a - network);
  }

  /** The sizes that matter: a block doubles with each bit less of the prefix, down to one address. */
  lemma {:induction false} BlockSizes()
    ensures Pow2(0) == 1 && (forall k: nat :: Pow2(k + 1) == 2 * Pow2(k)) && Pow2(2) == 4 && Pow2(3) == 8 && Pow2(8) == 256
  {
    assert Pow2(8) == 2 * Pow2(7) == 4 * Pow2(6) == 8 * Pow2(5) == 16 * Pow2(4);
    assert Pow2(4) == 2 * Pow2(3) == 4 * Pow2(2) == 8 * Pow2(1);
  }
}
