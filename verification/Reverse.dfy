/** PTR query names of IP addresses (section 3.5 of RFC 1035, section 2.5 of RFC 3596). */
module Reverse {
  import opened Collections
  import opened Dns
  import ResolverList
  import Text

  /** A parsed address: 16 bytes, whatever the notation it was parsed from. */
  type Address = a: seq<Byte> | |a| == 16 witness [0, 0, 0, 0, 0, 0, 0, 0, 0, 0, 0, 0, 0, 0, 0, 0]

  const MAPPED_PREFIX: seq<Byte> := [0, 0, 0, 0, 0, 0, 0, 0, 0, 0, 255, 255]

  const IN_ADDR := ".in-addr.arpa."

  const IP6 := ".ip6.arpa."

  /** The four bytes of an IPv4 or IPv4-mapped address. */
  function To4(ip: Address): Option<seq<Byte>> {
    if ip[..12] == MAPPED_PREFIX then Some(ip[12..]) else None
  }

  function HexDigit(d: nat): (c: char)
    requires d < 16
    ensures HexValue(c) == Some(d) && ResolverList.DomainChar(c)
  {
    if d < 10 then ('0' as int + d) as char else ('a' as int + d - 10) as char
  }

  function HexValue(c: char): (d: Option<nat>)
    ensures d.Some? ==> d.value < 16
  {
    if '0' <= c <= '9' then Some(c as nat - '0' as nat)
    else if 'a' <= c <= 'f' then Some(c as nat - 'a' as nat + 10)
    else None
  }

  function Decimals(bytes: seq<Byte>): (r: seq<string>)
    ensures |r| == |bytes|
  {
    seq(|bytes|, i requires 0 <= i < |bytes| => Text.FormatNat(bytes[i] as nat))
  }

  /** The hexadecimal digits of the bytes, most significant first. */
  function Hex(bytes: seq<Byte>): (s: string)
    ensures |s| == 2 * |bytes|
  {
    seq(2 * |bytes|, i requires 0 <= i < 2 * |bytes| =>
      var b := bytes[i / 2] as nat; HexDigit(if i % 2 == 0 then b / 16 else b % 16))
  }

  function Singletons(s: string): (r: seq<string>)
    ensures |r| == |s|
  {
    seq(|s|, i requires 0 <= i < |s| => [s[i]])
  }

  function Backwards<T>(s: seq<T>): (r: seq<T>)
    ensures |r| == |s|
    ensures forall i | 0 <= i < |s| :: r[i] == s[|s| - 1 - i]
  {
    seq(|s|, i requires 0 <= i < |s| => s[|s| - 1 - i])
  }

  lemma BackwardsTwice<T>(s: seq<T>)
    ensures Backwards(Backwards(s)) == s
  {
  }

  /** The two-index swap loop. */
  method SwapEnds(parts: array<string>)
    modifies parts
    ensures parts[..] == Backwards(old(parts[..]))
  {
    ghost var was := parts[..];
    var i, j := 0, parts.Length - 1;
    while i < j
      invariant 0 <= i && i + j == parts.Length - 1 && i <= j + 1
      invariant forall k | 0 <= k < i :: parts[k] == was[parts.Length - 1 - k]
      invariant forall k | i <= k <= j :: parts[k] == was[k]
      invariant forall k | j < k < parts.Length :: parts[k] == was[parts.Length - 1 - k]
    {
      parts[i], parts[j] := parts[j], parts[i];
      i, j := i + 1, j - 1;
    }
  }

  /** The name of an address, said at once. */
  function PTRName(ip: Address): string {
    var v4 := To4(ip);
    if v4.Some? then Text.Join(Backwards(Decimals(v4.value)), '.') + IN_ADDR
    else Text.Join(Backwards(Singletons(Hex(ip))), '.') + IP6
  }

  /** `ip` is the parsed address, `None` if the text is not one. */
  method ToPTRName(ip: Option<Address>) returns (name: Option<string>)
    ensures name == if ip.None? then None else Some(PTRName(ip.value))
  {
    if ip == None {
      return None;
    }
    var v4 := To4(ip.value);
    if v4.Some? {
      var dotted := Text.Join(Decimals(v4.value), '.');
      DecimalsAreFree(v4.value);
      Text.SplitJoin(Decimals(v4.value), '.');
      var split := Text.Split(dotted, '.');
      var parts := new string[|split|](i requires 0 <= i < |split| => split[i]);
      assert parts[..] == split;
      SwapEnds(parts);
      return Some(Text.Join(parts[..], '.') + IN_ADDR);
    }
    var hex := Hex(ip.value);
    var nibbles := new string[|hex|](_ => "");
    for i := 0 to |hex|
      invariant forall k | 0 <= k < i :: nibbles[k] == [hex[k]]
    {
      nibbles[i] := [hex[i]];
    }
    assert nibbles[..] == Singletons(hex);
    SwapEnds(nibbles);
    return Some(Text.Join(nibbles[..], '.') + IP6);
  }

  // --- Reading a name back -----------------------------------------------------------------------

  function Before(name: string, suffix: string): Option<string> {
    if |name| >= |suffix| && name[|name| - |suffix|..] == suffix then Some(name[..|name| - |suffix|]) else None
  }

  function Octet(part: string): Option<Byte> {
    var n := Text.ParseNat(part);
    if n.Some? && n.value < 256 then Some(n.value as Byte) else None
  }

  function Octets(labels: seq<string>): Option<seq<Byte>> {
    if labels == [] then Some([])
    else
      var first, rest := Octet(labels[0]), Octets(labels[1..]);
      if first.Some? && rest.Some? then Some([first.value] + rest.value) else None
  }

  function Nibble(part: string): Option<nat> {
    if |part| == 1 then HexValue(part[0]) else None
  }

  /** Bytes from pairs of hexadecimal labels. */
  function Pairs(labels: seq<string>): Option<seq<Byte>> {
    if labels == [] then Some([])
    else if |labels| == 1 then None
    else
      var high, low, rest := Nibble(labels[0]), Nibble(labels[1]), Pairs(labels[2..]);
      if high.Some? && low.Some? && rest.Some? && high.value < 16 && low.value < 16
      then Some([(16 * high.value + low.value) as Byte] + rest.value)
      else None
  }

  /** The address a PTR name stands for. */
  function Parse(name: string): Option<Address> {
    var v4, v6 := Before(name, IN_ADDR), Before(name, IP6);
    if v4.Some? then
      var octets := Octets(Backwards(Text.Split(v4.value, '.')));
      if octets.Some? && |octets.value| == 4 then Some(MAPPED_PREFIX + octets.value) else None
    else if v6.Some? then
      var bytes := Pairs(Backwards(Text.Split(v6.value, '.')));
      if bytes.Some? && |bytes.value| == 16 then Some(bytes.value) else None
    else None
  }

  lemma BeforeSuffix(s: string, suffix: string)
    ensures Before(s + suffix, suffix) == Some(s)
  {
    assert (s + suffix)[|s|..] == suffix && (s + suffix)[..|s|] == s;
  }

  lemma NotInAddr(s: string)
    ensures Before(s + IP6, IN_ADDR).None?
  {
    var name := s + IP6;
    if |name| >= |IN_ADDR| {
      assert name[|name| - |IN_ADDR|..][4] == name[|s|] == IP6[0];
      assert IN_ADDR[4] != IP6[0];
    }
  }

  lemma DecimalsAreFree(bytes: seq<Byte>)
    ensures Text.Free(Decimals(bytes), '.') && Text.Free(Backwards(Decimals(bytes)), '.')
  {
  }

  lemma {:induction false} OctetsOfDecimals(bytes: seq<Byte>)
    ensures Octets(Decimals(bytes)) == Some(bytes)
  {
    if bytes != [] {
      Text.ParseFormat(bytes[0] as nat);
      assert Decimals(bytes)[1..] == Decimals(bytes[1..]);
      assert bytes == [bytes[0]] + bytes[1..];
      OctetsOfDecimals(bytes[1..]);
    }
  }

  lemma {:induction false} PairsOfHex(bytes: seq<Byte>)
    ensures Pairs(Singletons(Hex(bytes))) == Some(bytes)
  {
    if bytes != [] {
      var labels := Singletons(Hex(bytes));
      HexTail(bytes);
      assert labels[2..] == Singletons(Hex(bytes)[2..]);
      PairsOfHex(bytes[1..]);
      var b := bytes[0] as nat;
      assert labels[0] == [HexDigit(b / 16)] && labels[1] == [HexDigit(b % 16)];
      assert bytes == [bytes[0]] + bytes[1..];
    }
  }

  lemma HexTail(bytes: seq<Byte>)
    requires bytes != []
    ensures Hex(bytes)[2..] == Hex(bytes[1..])
    ensures Hex(bytes)[0] == HexDigit(bytes[0] as nat / 16) && Hex(bytes)[1] == HexDigit(bytes[0] as nat % 16)
  {
    forall i | 0 <= i < 2 * |bytes| - 2 ensures Hex(bytes)[2..][i] == Hex(bytes[1..])[i] {
      assert (i + 2) / 2 == i / 2 + 1 && (i + 2) % 2 == i % 2;
    }
  }

  /** The name of every address, IPv4 (also in its mapped form) or IPv6, stands for that address. */
  lemma RoundTrip(ip: Address)
    ensures Parse(PTRName(ip)) == Some(ip)
  {
    if ip[..12] == MAPPED_PREFIX {
      var labels := Decimals(ip[12..]);
      DecimalsAreFree(ip[12..]);
      BeforeSuffix(Text.Join(Backwards(labels), '.'), IN_ADDR);
      Text.SplitJoin(Backwards(labels), '.');
      BackwardsTwice(labels);
      OctetsOfDecimals(ip[12..]);
      assert ip == MAPPED_PREFIX + ip[12..];
    } else {
      var labels := Singletons(Hex(ip));
      var text := Text.Join(Backwards(labels), '.');
      BeforeSuffix(text, IP6);
      NotInAddr(text);
      HexIsFree(ip);
      Text.SplitJoin(Backwards(labels), '.');
      BackwardsTwice(labels);
      PairsOfHex(ip);
    }
  }

  lemma HexIsFree(bytes: seq<Byte>)
    ensures forall c | c in Hex(bytes) :: ResolverList.DomainChar(c) && c != '.'
    ensures Text.Free(Backwards(Singletons(Hex(bytes))), '.')
  {
  }

  /** The name of an IPv4 address, spelled out. */
  lemma IPv4Name(ip: Address)
    requires ip[..12] == [0, 0, 0, 0, 0, 0, 0, 0, 0, 0, 255, 255]
    ensures PTRName(ip) == Text.FormatNat(ip[15] as nat) + "." + Text.FormatNat(ip[14] as nat) + "."
                           + Text.FormatNat(ip[13] as nat) + "." + Text.FormatNat(ip[12] as nat) + ".in-addr.arpa."
  {
    var labels := Backwards(Decimals(ip[12..]));
    hide Text.FormatNat;
    assert labels == [labels[0], labels[1], labels[2], labels[3]];
    JoinFour(labels[0], labels[1], labels[2], labels[3]);
  }

  lemma JoinFour(a: string, b: string, c: string, d: string)
    ensures Text.Join([a, b, c, d], '.') == a + "." + b + "." + c + "." + d
  {
    assert [a, b, c, d][1..] == [b, c, d] && [b, c, d][1..] == [c, d] && [c, d][1..] == [d];
    assert Text.Join([c, d], '.') == c + "." + d;
    assert Text.Join([b, c, d], '.') == b + "." + (c + "." + d);
  }

  const HEX_DIGITS := "0123456789abcdef"

  /** The name of any other address, spelled out: its 32 hexadecimal digits from the last to the first,
      each followed by a dot, and the IPv6 domain. */
  lemma IPv6Name(ip: Address)
    requires ip[..12] != [0, 0, 0, 0, 0, 0, 0, 0, 0, 0, 255, 255]
    ensures |PTRName(ip)| == 73 && PTRName(ip)[63..] == ".ip6.arpa."
    ensures forall i | 0 <= i < 16 ::
              && PTRName(ip)[4 * i] == HEX_DIGITS[ip[15 - i] as nat % 16] && PTRName(ip)[4 * i + 1] == '.'
              && PTRName(ip)[4 * i + 2] == HEX_DIGITS[ip[15 - i] as nat / 16] && PTRName(ip)[4 * i + 3] == '.'
  {
    var digits := Backwards(Hex(ip));
    assert Backwards(Singletons(Hex(ip))) == Singletons(digits);
    JoinSingletons(digits);
    var text := Text.Join(Singletons(digits), '.');
    assert PTRName(ip) == text + ".ip6.arpa.";
    hide *;
    forall i | 0 <= i < 16
      ensures text[4 * i] == HEX_DIGITS[ip[15 - i] as nat % 16] && text[4 * i + 1] == '.'
      ensures text[4 * i + 2] == HEX_DIGITS[ip[15 - i] as nat / 16] && (i < 15 ==> text[4 * i + 3] == '.')
    {
      LastNibbles(ip, i);
      FourPlaces(text, digits, i);
    }
  }

  lemma FourPlaces(text: string, digits: string, i: nat)
    requires i < 16 && |digits| == 32 && |text| == 63
    requires (forall k | 0 <= k < 32 :: text[2 * k] == digits[k]) && forall k | 0 <= k < 31 :: text[2 * k + 1] == '.'
    ensures text[4 * i] == digits[2 * i] && text[4 * i + 1] == '.'
    ensures text[4 * i + 2] == digits[2 * i + 1] && (i < 15 ==> text[4 * i + 3] == '.')
  {
    assert text[2 * (2 * i)] == digits[2 * i] && text[2 * (2 * i + 1)] == digits[2 * i + 1];
    assert text[2 * (2 * i) + 1] == '.';
    if i < 15 { assert text[2 * (2 * i + 1) + 1] == '.'; }
  }

  lemma LastNibbles(ip: Address, i: nat)
    requires i < 16
    ensures Backwards(Hex(ip))[2 * i] == HEX_DIGITS[ip[15 - i] as nat % 16]
    ensures Backwards(Hex(ip))[2 * i + 1] == HEX_DIGITS[ip[15 - i] as nat / 16]
  {
    MirrorPlaces(Hex(ip), i);
    HexPlaces(ip, 15 - i);
    HexAlphabet(ip[15 - i] as nat % 16);
    HexAlphabet(ip[15 - i] as nat / 16);
    hide *;
  }

  lemma MirrorPlaces(digits: string, i: nat)
    requires i < 16 && |digits| == 32
    ensures Backwards(digits)[2 * i] == digits[2 * (15 - i) + 1] && Backwards(digits)[2 * i + 1] == digits[2 * (15 - i)]
  {
    assert Backwards(digits)[2 * i] == digits[32 - 1 - 2 * i];
  }

  lemma HexPlaces(bytes: seq<Byte>, i: nat)
    requires i < |bytes|
    ensures Hex(bytes)[2 * i] == HexDigit(bytes[i] as nat / 16) && Hex(bytes)[2 * i + 1] == HexDigit(bytes[i] as nat % 16)
  {
    assert 2 * i / 2 == i && (2 * i + 1) / 2 == i;
  }

  lemma HexAlphabet(d: nat)
    requires d < 16
    ensures HEX_DIGITS[d] == HexDigit(d)
  {
    var digits := HEX_DIGITS;
    assert forall k | 0 <= k < 10 :: digits[k] as int == '0' as int + k;
    assert forall k | 10 <= k < 16 :: digits[k] as int == 'a' as int + k - 10;
  }

  lemma {:induction false} JoinSingletons(s: string)
    requires s != ""
    ensures var t := Text.Join(Singletons(s), '.');
            |t| == 2 * |s| - 1 && (forall i | 0 <= i < |s| :: t[2 * i] == s[i]) && forall i | 0 <= i < |s| - 1 :: t[2 * i + 1] == '.'
  {
    if |s| > 1 {
      assert Singletons(s)[1..] == Singletons(s[1..]);
      JoinSingletons(s[1..]);
      var t, rest := Text.Join(Singletons(s), '.'), Text.Join(Singletons(s[1..]), '.');
      assert t == [s[0], '.'] + rest;
      forall i | 0 <= i < |s| ensures t[2 * i] == s[i] {
        if i > 0 { assert t[2 * i] == rest[2 * (i - 1)]; }
      }
      forall i | 0 <= i < |s| - 1 ensures t[2 * i + 1] == '.' {
        if i > 0 { assert t[2 * i + 1] == rest[2 * (i - 1) + 1]; }
      }
    }
  }

  predicate DomainText(s: string) { forall c | c in s :: ResolverList.DomainChar(c) }

  lemma {:induction false} JoinIsDomainText(parts: seq<string>)
    requires forall p | p in parts :: DomainText(p)
    ensures DomainText(Text.Join(parts, '.'))
  {
    if |parts| > 1 {
      JoinIsDomainText(parts[1..]);
      assert parts[0] in parts && ResolverList.DomainChar('.');
    }
  }

  /** A reverse lookup is never rejected for its name, not even that of a private address; only the
      number of resolvers can be at fault. */
  lemma NameIsAccepted(ip: Address, ids: seq<string>, private: string -> bool)
    ensures ResolverList.ValidateRequest(private, ResolverList.Request(PTRName(ip), "PTR", ids, [], true)) ==
            if |ids| <= ResolverList.MAX_RESOLVERS then None else Some(ResolverList.TooManyResolvers)
  {
    if ip[..12] == MAPPED_PREFIX {
      JoinIsDomainText(Backwards(Decimals(ip[12..])));
      assert DomainText(IN_ADDR);
    } else {
      HexIsFree(ip);
      JoinIsDomainText(Backwards(Singletons(Hex(ip))));
      assert DomainText(IP6);
    }
    assert DomainText(PTRName(ip)) && PTRName(ip) != "";
  }
}
