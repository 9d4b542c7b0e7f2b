/** The short ID of a check: eight base-62 digits of the first eight bytes of a digest. */
module Permalink {
  import opened Collections
  import Text

  const BASE62 := "0123456789" + "ABCDEFGHIJKLMNOPQRSTUVWXYZ" + "abcdefghijklmnopqrstuvwxyz"

  const UINT64: nat := 0x1_0000_0000_0000_0000

  /** The alphabet is in byte order: digits, capitals, small letters. */
  function Digit(d: nat): (c: char)
    requires d < 62
    ensures Index(c) == d
  {
    if d < 10 then ('0' as int + d) as char
    else if d < 36 then ('A' as int + d - 10) as char
    else ('a' as int + d - 36) as char
  }

  function Index(c: char): nat {
    if '0' <= c <= '9' then c as nat - '0' as nat
    else if 'A' <= c <= 'Z' then c as nat - 'A' as nat + 10
    else if 'a' <= c <= 'z' then c as nat - 'a' as nat + 36
    else 0
  }

  lemma AlphabetIsInOrder()
    ensures |BASE62| == 62
    ensures forall d | 0 <= d < 62 :: BASE62[d] == Digit(d)
  {
  }

  function BigEndian(bytes: seq<Byte>): nat {
    if bytes == [] then 0 else 256 * BigEndian(bytes[..|bytes| - 1]) + bytes[|bytes| - 1] as nat
  }

  function Pow(base: nat, k: nat): nat {
    if k == 0 then 1 else base * Pow(base, k - 1)
  }

  /** The number a base-62 string denotes. */
  function Decode(s: string): nat {
    if s == "" then 0 else 62 * Decode(s[..|s| - 1]) + Index(s[|s| - 1])
  }

  /** The last `k` base-62 digits of `n`. */
  function Encode(n: nat, k: nat): (s: string)
    ensures |s| == k
  {
    if k == 0 then "" else Encode(n / 62, k - 1) + [Digit(n % 62)]
  }

  /** Shifting in eight bytes never drops a bit of a 64-bit word. */
  lemma NothingShiftedOut(bytes: seq<Byte>, i: nat)
    requires i < 8 <= |bytes|
    ensures 256 * BigEndian(bytes[..i]) < UINT64
    ensures BigEndian(bytes[..i + 1]) == 256 * BigEndian(bytes[..i]) + bytes[i] as nat
  {
    assert bytes[..i + 1][..i] == bytes[..i];
    BigEndianBound(bytes[..i]);
    assert Pow(256, 7) == 0x1_00_0000_0000_0000 by {
      assert Pow(256, 3) == 0x100_0000;
      assert Pow(256, 5) == 0x100_0000_0000;
    }
    PowMonotone(256, i, 7);
  }

  lemma {:induction false} BigEndianBound(bytes: seq<Byte>)
    ensures BigEndian(bytes) < Pow(256, |bytes|)
  {
    if bytes != [] { BigEndianBound(bytes[..|bytes| - 1]); }
  }

  lemma {:induction false} PowMonotone(base: nat, j: nat, k: nat)
    requires base > 0 && j <= k
    ensures 0 < Pow(base, j) <= Pow(base, k)
    decreases k
  {
    if j < k {
      PowMonotone(base, j, k - 1);
    } else if k > 0 {
      PowMonotone(base, j - 1, k - 1);
    }
  }

  /** The value of eight bytes, most significant first. */
  lemma EightBytes(b: seq<Byte>)
    requires |b| == 8
    ensures BigEndian(b) ==
            0x100_0000_0000_0000 * b[0] as nat + 0x1_0000_0000_0000 * b[1] as nat + 0x100_0000_0000 * b[2] as nat
            + 0x1_0000_0000 * b[3] as nat + 0x100_0000 * b[4] as nat + 0x1_0000 * b[5] as nat + 0x100 * b[6] as nat + b[7] as nat
  {
    assert b[..7][..6] == b[..6] && b[..6][..5] == b[..5] && b[..5][..4] == b[..4];
    assert b[..4][..3] == b[..3] && b[..3][..2] == b[..2] && b[..2][..1] == b[..1] && b[..1][..0] == [];
    assert BigEndian(b[..1]) == b[0] as nat;
    assert BigEndian(b[..2]) == 256 * BigEndian(b[..1]) + b[1] as nat;
    assert BigEndian(b[..3]) == 256 * BigEndian(b[..2]) + b[2] as nat;
    assert BigEndian(b[..4]) == 256 * BigEndian(b[..3]) + b[3] as nat;
    assert BigEndian(b[..5]) == 256 * BigEndian(b[..4]) + b[4] as nat;
    assert BigEndian(b[..6]) == 256 * BigEndian(b[..5]) + b[5] as nat;
    assert BigEndian(b[..7]) == 256 * BigEndian(b[..6]) + b[6] as nat;
  }

  lemma EncodeStep(value: nat, n: nat, i: nat, later: string)
    requires i > 0 && Encode(value, 8) == Encode(n, i) + later
    ensures Encode(value, 8) == Encode(n / 62, i - 1) + ([Digit(n % 62)] + later)
  {
    assert Encode(n, i) == Encode(n / 62, i - 1) + [Digit(n % 62)];
  }

  /** `sum` is the digest of name, type and time. */
  method NewID(sum: seq<Byte>) returns (id: string)
    requires |sum| == 32
    ensures id == Encode(BigEndian(sum[..8]), 8)
  {
    hide Encode;
    var n: nat := 0;
    for i := 0 to 8
      invariant n == BigEndian(sum[..i])
    {
      NothingShiftedOut(sum, i);
      n := n * 256 % UINT64 + sum[i] as nat;
    }
    var result := new char[8];
    ghost var value := n;
    assert result[8..] == "";
    for i := 8 downto 0
      invariant Encode(value, 8) == Encode(n, i) + result[i..]
    {
      AlphabetIsInOrder();
      hide BASE62, Digit;
      ghost var later := result[i + 1..];
      EncodeStep(value, n, i + 1, later);
      result[i] := BASE62[n % 62];
      assert result[i..] == [Digit(n % 62)] + later;
      n := n / 62;
    }
    return result[..];
  }

  // --- What an ID tells about the digest -------------------------------------------------------

  lemma ModUnique(n: nat, q: nat, r: nat, p: nat)
    requires r < p && n == p * q + r
    ensures n / p == q && n % p == r
  {
    var d := n / p - q;
    assert p * d == r - n % p by { assert p * (n / p) + n % p == n; }
    if d >= 1 {
      assert false;
    } else if d <= -1 {
      assert false;
    }
  }

  /** Taking off the last digit commutes with taking the remainder. */
  lemma DigitsSplit(n: nat, p: nat)
    requires p > 0
    ensures n % (62 * p) == 62 * (n / 62 % p) + n % 62
  {
    var q, r := n / 62, n % 62;
    var a, b := q / p, q % p;
    calc {
      n;
      62 * q + r;
      62 * (p * a + b) + r;
      (62 * p) * a + (62 * b + r);
    }
    assert 62 * b + r < 62 * p;
    ModUnique(n, a, 62 * b + r, 62 * p);
  }

  /** An ID denotes its number modulo 62 to the 8th. */
  lemma {:induction false} DecodeEncode(n: nat, k: nat)
    ensures Pow(62, k) > 0
    ensures Decode(Encode(n, k)) == n % Pow(62, k)
  {
    PowMonotone(62, k, k);
    if k > 0 {
      DecodeEncode(n / 62, k - 1);
      var s := Encode(n, k);
      assert s[..k - 1] == Encode(n / 62, k - 1);
      DigitsSplit(n, Pow(62, k - 1));
    }
  }

  /** IDs of one length agree exactly when their numbers do modulo the power, and their byte order is
      the order of the remainders. */
  lemma {:induction false} EncodeOrder(m: nat, n: nat, k: nat)
    ensures Pow(62, k) > 0
    ensures Encode(m, k) == Encode(n, k) <==> m % Pow(62, k) == n % Pow(62, k)
    ensures Text.AtMost(Encode(m, k), Encode(n, k)) <==> m % Pow(62, k) <= n % Pow(62, k)
  {
    PowMonotone(62, k, k);
    if k > 0 {
      var p := Pow(62, k - 1);
      EncodeOrder(m / 62, n / 62, k - 1);
      AtMostSnoc(Encode(m / 62, k - 1), Digit(m % 62), Encode(n / 62, k - 1), Digit(n % 62));
      DigitOrder(m % 62, n % 62);
      DigitsSplit(m, p);
      DigitsSplit(n, p);
      PairOrder(m / 62 % p, m % 62, n / 62 % p, n % 62);
      SnocEqual(Encode(m / 62, k - 1), Digit(m % 62), Encode(n / 62, k - 1), Digit(n % 62));
    }
  }

  lemma SnocEqual(a: string, x: char, b: string, y: char)
    ensures a + [x] == b + [y] <==> a == b && x == y
  {
    if a + [x] == b + [y] {
      assert |a| == |b| by { assert |a + [x]| == |b + [y]|; }
      assert (a + [x])[..|a|] == a && (b + [y])[..|b|] == b;
      assert (a + [x])[|a|] == x && (b + [y])[|b|] == y;
    }
  }

  lemma DigitOrder(d: nat, e: nat)
    requires d < 62 && e < 62
    ensures Digit(d) <= Digit(e) <==> d <= e
  {
  }

  lemma PairOrder(a: nat, x: nat, b: nat, y: nat)
    requires x < 62 && y < 62
    ensures 62 * a + x <= 62 * b + y <==> a < b || (a == b && x <= y)
    ensures 62 * a + x == 62 * b + y <==> a == b && x == y
  {
  }

  lemma {:induction false} AtMostSnoc(a: string, x: char, b: string, y: char)
    requires |a| == |b|
    ensures Text.AtMost(a + [x], b + [y]) <==> if a == b then x <= y else Text.AtMost(a, b)
  {
    if a == [] {
    } else {
      assert (a + [x])[1..] == a[1..] + [x] && (b + [y])[1..] == b[1..] + [y];
      assert a == [a[0]] + a[1..] && b == [b[0]] + b[1..];
      AtMostSnoc(a[1..], x, b[1..], y);
    }
  }

  lemma {:induction false} BigEndianInjective(a: seq<Byte>, b: seq<Byte>)
    requires |a| == |b|
    ensures BigEndian(a) == BigEndian(b) <==> a == b
  {
    if a != [] {
      var k := |a| - 1;
      BigEndianInjective(a[..k], b[..k]);
      assert a == a[..k] + [a[k]] && b == b[..k] + [b[k]];
    }
  }

  lemma SmallNumbers(m: nat, n: nat, k: nat)
    requires m < Pow(62, k) && n < Pow(62, k)
    ensures Decode(Encode(m, k)) == m
    ensures Encode(m, k) == Encode(n, k) <==> m == n
  {
    DecodeEncode(m, k);
    EncodeOrder(m, n, k);
    ModUnique(m, 0, m, Pow(62, k));
    ModUnique(n, 0, n, Pow(62, k));
  }

  /** An ID of `k` digits denotes the big-endian value of the bytes modulo 62 to the `k`th; so it
      identifies the bytes as long as their values stay below that power. */
  lemma IDIdentifiesBytes(a: seq<Byte>, b: seq<Byte>, k: nat)
    requires |a| == |b|
    requires BigEndian(a) < Pow(62, k) && BigEndian(b) < Pow(62, k)
    ensures Decode(Encode(BigEndian(a), k)) == BigEndian(a)
    ensures Encode(BigEndian(a), k) == Encode(BigEndian(b), k) <==> a == b
  {
    BigEndianInjective(a, b);
    SmallNumbers(BigEndian(a), BigEndian(b), k);
  }
}
