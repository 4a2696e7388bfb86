/** Container and network names, and the interface names derived from them (core/safety.c). */
module Names {
  import opened Text

  predicate NameChar(c: char)
  {
    'a' <= c <= 'z' || 'A' <= c <= 'Z' || '0' <= c <= '9' || c == '.' || c == '_' || c == '-'
  }

  predicate ValidName(name: string, maxLength: nat)
  {
    name != [] && |name| <= maxLength && name != "." && name != ".." && forall c :: c in name ==> NameChar(c)
  }

  /** td_validate_name */
  method ValidateName(name: string, maxLength: nat) returns (ok: bool)
    ensures ok == ValidName(name, maxLength)
  {
    if name == [] || |name| > maxLength || name == "." || name == ".." {
      return false;
    }
    var cursor := 0;
    while cursor < |name|
      invariant cursor <= |name|
      invariant forall c :: c in name[..cursor] ==> NameChar(c)
    {
      assert name[..cursor + 1] == name[..cursor] + [name[cursor]];
      if !NameChar(name[cursor]) {
        assert name[cursor] in name;
        return false;
      }
      cursor := cursor + 1;
    }
    assert name[..cursor] == name;
    return true;
  }

  // ---------- interface names ----------

  const FNV_OFFSET: bv32 := 2166136261
  const FNV_PRIME: bv32 := 16777619

  function FnvStep(hash: bv32, c: char): bv32
  {
    (hash ^ (c as int as bv32)) * FNV_PRIME
  }

  /** 32-bit FNV-1a over the bytes of s. */
  function Fnv(s: string): bv32
  {
    if s == [] then FNV_OFFSET else FnvStep(Fnv(s[..|s| - 1]), s[|s| - 1])
  }

  /** hash & 0x00ffffff */
  function Low24(hash: bv32): (r: nat)
    ensures r < 0x100_0000
  {
    hash as nat % 0x100_0000
  }

  function HexChar(d: nat): (c: char)
    requires d < 16
    ensures c == '0' + d as char || (10 <= d && c == 'a' + (d - 10) as char)
  {
    if d < 10 then '0' + d as char else 'a' + (d - 10) as char
  }

  /** The last `width` hexadecimal digits of n. */
  function Hex(n: nat, width: nat): (s: string)
    ensures |s| == width
  {
    if width == 0 then [] else Hex(n / 16, width - 1) + [HexChar(n % 16)]
  }

  function Pow16(k: nat): nat
  {
    if k == 0 then 1 else 16 * Pow16(k - 1)
  }

  lemma {:induction false} HexInjective(m: nat, n: nat, width: nat)
    requires m < Pow16(width) && n < Pow16(width) && Hex(m, width) == Hex(n, width)
    ensures m == n
  {
    if width > 0 {
      var s, t := Hex(m, width), Hex(n, width);
      assert s[..width - 1] == Hex(m / 16, width - 1) && t[..width - 1] == Hex(n / 16, width - 1);
      assert s[width - 1] == HexChar(m % 16) && t[width - 1] == HexChar(n % 16);
      assert m % 16 == n % 16;
      HexInjective(m / 16, n / 16, width - 1);
    }
  }

  /** "td%.6s-%06x" */
  function VethText(name: string, hash: bv32): string
  {
    "td" + (if |name| <= 6 then name else name[..6]) + "-" + Hex(Low24(hash), 6)
  }

  function VethName(name: string): Option<string>
  {
    var text := VethText(name, Fnv(name));
    if ValidName(name, 127) && |text| == 15 then Some(text) else None
  }

  function VethPeerName(name: string): Option<string>
  {
    match VethName(name)
    case None => None
    case Some(text) => Some(if |text| > 1 then text[1 := 'p'] else text)
  }

  /** td_make_veth_name */
  method MakeVethName(name: string) returns (r: Option<string>)
    ensures r == VethName(name)
  {
    var valid := ValidateName(name, 127);
    if !valid {
      return None;
    }
    var hash := FNV_OFFSET;
    var cursor := 0;
    while cursor < |name|
      invariant cursor <= |name|
      invariant hash == Fnv(name[..cursor])
    {
      assert name[..cursor + 1][..cursor] == name[..cursor];
      hash := FnvStep(hash, name[cursor]);
      cursor := cursor + 1;
    }
    assert name[..cursor] == name;
    var text := VethText(name, hash);
    return if |text| == 15 then Some(text) else None;
  }

  /** A name gets an interface exactly when it is valid and has at least six characters; the result always
      has the 15 characters that fit an interface name. */
  lemma {:induction false} VethNameDefined(name: string)
    ensures VethName(name).Some? <==> ValidName(name, 127) && |name| >= 6
    ensures VethPeerName(name).Some? <==> VethName(name).Some?
    ensures VethName(name).Some? ==> |VethName(name).value| == 15 && |VethPeerName(name).value| == 15
  {
    assert |VethText(name, Fnv(name))| == (if |name| <= 6 then |name| else 6) + 9;
  }

  /** The host end of one container's pair is never named like the peer end of any container's pair. */
  lemma {:induction false} HostIsNeverPeer(a: string, b: string)
    requires VethName(a).Some? && VethPeerName(b).Some?
    ensures VethName(a).value != VethPeerName(b).value
  {
    var host, peer := VethName(a).value, VethPeerName(b).value;
    assert host[1] == 'd' && peer[1] == 'p';
  }

  /** Two containers share an interface name exactly when their first six characters and the low 24 bits of
      their hashes agree. */
  lemma {:induction false} VethCollision(a: string, b: string)
    requires VethName(a).Some? && VethName(b).Some?
    ensures VethName(a) == VethName(b) <==> a[..6] == b[..6] && Low24(Fnv(a)) == Low24(Fnv(b))
    ensures VethPeerName(a) == VethPeerName(b) <==> VethName(a) == VethName(b)
  {
    hide Fnv, Hex, NameChar;
    VethNameDefined(a);
    VethNameDefined(b);
    var s, t := VethName(a).value, VethName(b).value;
    assert a[..6] == s[2..8] && b[..6] == t[2..8];
    assert Hex(Low24(Fnv(a)), 6) == s[9..] && Hex(Low24(Fnv(b)), 6) == t[9..];
    if s == t {
      assert Pow16(6) == 16 * Pow16(5) == 256 * Pow16(4) == 0x1000 * Pow16(3) == 0x1_0000 * Pow16(2);
      HexInjective(Low24(Fnv(a)), Low24(Fnv(b)), 6);
    }
    var p, q := VethPeerName(a).value, VethPeerName(b).value;
    assert s == p[1 := 'd'] && t == q[1 := 'd'];
  }

  /** Known values of the 32-bit FNV-1a hash. */
  lemma {:induction false} FnvVectors()
    ensures Fnv("") == 0x811c9dc5 && Fnv("a") == 0xe40c292c && Fnv("fo") == 0x6222e842
  {
    assert "a"[..0] == [] && "fo"[..1] == "f" && "f"[..0] == [];
    assert 'a' as int as bv32 == 0x61 && 'f' as int as bv32 == 0x66 && 'o' as int as bv32 == 0x6f;
    assert Fnv("a") == FnvStep(Fnv(""), 'a') && Fnv("f") == FnvStep(Fnv(""), 'f') && Fnv("fo") == FnvStep(Fnv("f"), 'o');
  }

  /** The shape of an interface name: td, the first six characters of the container's name, a dash, and six hexadecimal
      digits; the peer differs in the second character only. */
  lemma {:induction false} VethShape(name: string)
    requires VethName(name).Some?
    ensures var text := VethName(name).value;
      |text| == 15 && text == "td" + name[..6] + "-" + text[9..] && text[9..] == Hex(Low24(Fnv(name)), 6) &&
      VethPeerName(name) == Some("tp" + text[2..])
  {
    VethNameDefined(name);
    var text := VethName(name).value;
    assert text == "td" + name[..6] + "-" + Hex(Low24(Fnv(name)), 6);
    assert text[1 := 'p'] == "tp" + text[2..];
  }
}
