/** Session tokens: base64url(username|expiry).mac, as printed at login and parsed on each request.
    The keyed hash is a parameter; times are in nanoseconds. */
module Session {
  import opened Collections
  import opened Settings
  import Text

  // --- Unpadded base64url, section 5 of RFC 4648 ---------------------------------------------

  function Digit(n: int): char
    requires 0 <= n < 64
  {
    if n < 26 then ('A' as int + n) as char
    else if n < 52 then ('a' as int + (n - 26)) as char
    else if n < 62 then ('0' as int + (n - 52)) as char
    else if n == 62 then '-'
    else '_'
  }

  function DigitValue(c: char): (v: Option<int>)
    ensures v.Some? ==> 0 <= v.value < 64
  {
    if 'A' <= c <= 'Z' then Some(c as int - 'A' as int)
    else if 'a' <= c <= 'z' then Some(c as int - 'a' as int + 26)
    else if '0' <= c <= '9' then Some(c as int - '0' as int + 52)
    else if c == '-' then Some(62)
    else if c == '_' then Some(63)
    else None
  }

  type Octet = x: int | 0 <= x < 256

  type Sextet = x: int | 0 <= x < 64

  /** The alphabet of table 2 in section 5 of RFC 4648. */
  lemma AlphabetIsURLSafe(n: int)
    requires 0 <= n < 64
    ensures var alphabet := "ABCDEFGHIJKLMNOPQRSTUVWXYZ" + "abcdefghijklmnopqrstuvwxyz" + "0123456789-_";
            |alphabet| == 64 && alphabet[n] == Digit(n)
  {
    var capitals, small, rest := "ABCDEFGHIJKLMNOPQRSTUVWXYZ", "abcdefghijklmnopqrstuvwxyz", "0123456789-_";
    assert forall d | 0 <= d < 26 :: capitals[d] == Digit(d) && small[d] == Digit(d + 26);
    assert forall d | 0 <= d < 12 :: rest[d] == Digit(d + 52);
  }

  // Three octets x, y, z make four sextets a, b, c, d, and back.

  function SextetA(x: Octet): Sextet { x / 4 }

  function SextetB(x: Octet, y: Octet): Sextet { x % 4 * 16 + y / 16 }

  function SextetC(y: Octet, z: Octet): Sextet { y % 16 * 4 + z / 64 }

  function SextetD(z: Octet): Sextet { z % 64 }

  function OctetX(a: Sextet, b: Sextet): Octet { a * 4 + b / 16 }

  function OctetY(b: Sextet, c: Sextet): Octet { b % 16 * 16 + c / 4 }

  function OctetZ(c: Sextet, d: Sextet): Octet { c % 4 * 64 + d }

  lemma Regroup(x: Octet, y: Octet, z: Octet)
    ensures OctetX(SextetA(x), SextetB(x, y)) == x
    ensures OctetY(SextetB(x, y), SextetC(y, z)) == y
    ensures OctetZ(SextetC(y, z), SextetD(z)) == z
  {
  }

  function Encode(b: Bytes): string {
    if |b| == 0 then ""
    else if |b| == 1 then
      var x := b[0] as int;
      [Digit(SextetA(x)), Digit(SextetB(x, 0))]
    else if |b| == 2 then
      var x, y := b[0] as int, b[1] as int;
      [Digit(SextetA(x)), Digit(SextetB(x, y)), Digit(SextetC(y, 0))]
    else
      var x, y, z := b[0] as int, b[1] as int, b[2] as int;
      [Digit(SextetA(x)), Digit(SextetB(x, y)), Digit(SextetC(y, z)), Digit(SextetD(z))] + Encode(b[3..])
  }

  /** The decoder skips line breaks. */
  function WithoutBreaks(s: string): string {
    if s == "" then "" else (if s[0] == '\n' || s[0] == '\r' then "" else [s[0]]) + WithoutBreaks(s[1..])
  }

  /** The decoder does not check that the unused bits of the last digit are zero. */
  function DecodeDigits(s: string): Option<Bytes> {
    if |s| == 0 then Some("")
    else if |s| == 1 then None
    else
      match (DigitValue(s[0]), DigitValue(s[1]))
      case (Some(a), Some(b)) =>
        var x := OctetX(a, b) as char;
        if |s| == 2 then Some([x])
        else (
          match DigitValue(s[2])
          case None => None
          case Some(c) =>
            var y := OctetY(b, c) as char;
            if |s| == 3 then Some([x, y])
            else
              match (DigitValue(s[3]), DecodeDigits(s[4..]))
              case (Some(d), Some(rest)) => Some([x, y, OctetZ(c, d) as char] + rest)
              case _ => None)
      case _ => None
  }

  function Decode(s: string): Option<Bytes> { DecodeDigits(WithoutBreaks(s)) }

  lemma DigitRoundTrip(n: int)
    requires 0 <= n < 64
    ensures DigitValue(Digit(n)) == Some(n)
    ensures Digit(n) != '\n' && Digit(n) != '\r' && Digit(n) != '.'
  {
  }

  lemma {:induction false} DigitsRoundTrip(b: Bytes)
    ensures DecodeDigits(Encode(b)) == Some(b)
  {
    if |b| == 0 {
    } else if |b| == 1 {
      DecodeOne(b);
    } else if |b| == 2 {
      DecodeTwo(b);
    } else {
      DigitsRoundTrip(b[3..]);
      DecodeThree(b, b[3..]);
    }
  }

  lemma DecodeOne(b: Bytes)
    requires |b| == 1
    ensures DecodeDigits(Encode(b)) == Some(b)
  {
    hide Digit, DigitValue, SextetA, SextetB, SextetC, OctetX, OctetY;
    var x := b[0] as int;
    Regroup(x, 0, 0);
    DigitRoundTrip(SextetA(x));
    DigitRoundTrip(SextetB(x, 0));
    assert b == [x as char];
  }

  lemma DecodeTwo(b: Bytes)
    requires |b| == 2
    ensures DecodeDigits(Encode(b)) == Some(b)
  {
    hide Digit, DigitValue, SextetA, SextetB, SextetC, OctetX, OctetY, OctetZ;
    var x, y := b[0] as int, b[1] as int;
    Regroup(x, y, 0);
    DigitRoundTrip(SextetA(x));
    DigitRoundTrip(SextetB(x, y));
    DigitRoundTrip(SextetC(y, 0));
    assert b == [x as char, y as char];
  }

  lemma DecodeThree(b: Bytes, rest: Bytes)
    requires |b| >= 3 && rest == b[3..] && DecodeDigits(Encode(rest)) == Some(rest)
    ensures DecodeDigits(Encode(b)) == Some(b)
  {
    hide Digit, DigitValue, SextetA, SextetB, SextetC, SextetD, OctetX, OctetY, OctetZ;
    var x, y, z := b[0] as int, b[1] as int, b[2] as int;
    Regroup(x, y, z);
    DigitRoundTrip(SextetA(x));
    DigitRoundTrip(SextetB(x, y));
    DigitRoundTrip(SextetC(y, z));
    DigitRoundTrip(SextetD(z));
    assert Encode(b)[4..] == Encode(rest);
    assert b == [x as char, y as char, z as char] + rest;
  }

  lemma {:induction false} EncodeAlphabet(b: Bytes)
    ensures WithoutBreaks(Encode(b)) == Encode(b) && '.' !in Encode(b)
  {
    EncodeDigits(b);
    var s := Encode(b);
    forall c | c in s ensures c != '\n' && c != '\r' && c != '.' {
      var n :| 0 <= n < 64 && Digit(n) == c;
      DigitRoundTrip(n);
    }
    NoBreaksIn(s, "");
    assert s + "" == s;
  }

  lemma {:induction false} EncodeDigits(b: Bytes)
    ensures forall c | c in Encode(b) :: exists n :: 0 <= n < 64 && Digit(n) == c
  {
    hide Digit;
    if |b| >= 3 { EncodeDigits(b[3..]); }
  }

  lemma {:induction false} NoBreaksIn(s: string, rest: string)
    requires '\n' !in s && '\r' !in s
    ensures WithoutBreaks(s + rest) == s + WithoutBreaks(rest)
  {
    if s == "" {
      assert s + rest == rest;
    } else {
      assert (s + rest)[1..] == s[1..] + rest;
      NoBreaksIn(s[1..], rest);
    }
  }

  /** Decoding undoes encoding, for every byte string. */
  lemma DecodeEncode(b: Bytes)
    ensures Decode(Encode(b)) == Some(b)
  {
    hide Encode, DecodeDigits, WithoutBreaks;
    DigitsRoundTrip(b);
    EncodeAlphabet(b);
  }

  /** Test vectors of section 10 of RFC 4648, without their padding. */
  lemma EncodesVectors()
    ensures Encode("f") == "Zg" && Encode("fo") == "Zm8" && Encode("foo") == "Zm9v"
    ensures Encode("foobar") == "Zm9vYmFy"
  {
    assert "foo"[3..] == "" && "foobar"[3..] == "bar" && "bar"[3..] == "";
  }

  /** The decoder skips line breaks and does not look at unused bits; it rejects a lone last digit and
      characters outside the alphabet, padding included. */
  lemma DecoderIsLenient()
    ensures Decode("Zg") == Decode("Zh") == Decode("Z\ng\r") == Some("f")
    ensures Decode("Z") == None && Decode("Zg==") == None && Decode("Z+") == None
  {
    SkipsBreaks();
    DecodesEnds();
    NoBreaksIn("Zh", "");
    NoBreaksIn("Zg", "");
    NoBreaksIn("Z+", "");
    NoBreaksIn("Z", "");
    NoBreaksIn("Zg==", "");
    assert "Zh" + "" == "Zh" && "Zg" + "" == "Zg" && "Z+" + "" == "Z+" && "Z" + "" == "Z" && "Zg==" + "" == "Zg==";
    assert WithoutBreaks("") == "";
    hide DecodeDigits, WithoutBreaks;
  }

  lemma SkipsBreaks()
    ensures WithoutBreaks("Z\ng\r") == "Zg"
  {
    assert "Z\ng\r"[1..] == "\ng\r" && "\ng\r"[1..] == "g\r" && "g\r"[1..] == "\r" && "\r"[1..] == "";
  }

  lemma DecodesEnds()
    ensures DecodeDigits("Zg") == DecodeDigits("Zh") == Some("f")
    ensures DecodeDigits("Z") == None && DecodeDigits("Zg==") == None && DecodeDigits("Z+") == None
  {
  }

  // --- Decimal expiry times ------------------------------------------------------------------

  predicate IsInt64(n: int) { -0x8000_0000_0000_0000 <= n < 0x8000_0000_0000_0000 }

  function FormatInt(n: int): string {
    if n < 0 then "-" + Text.FormatNat(-n) else Text.FormatNat(n)
  }

  /** A 64-bit decimal number with an optional sign. */
  function ParseInt(s: string): Option<int> {
    var negative := s != "" && s[0] == '-';
    var digits := if s != "" && (s[0] == '-' || s[0] == '+') then s[1..] else s;
    match Text.ParseNat(digits)
    case None => None
    case Some(n) =>
      var value: int := if negative then -(n as int) else n;
      if IsInt64(value) then Some(value) else None
  }

  lemma ParseFormatInt(n: int)
    requires IsInt64(n)
    ensures ParseInt(FormatInt(n)) == Some(n)
  {
    Text.ParseFormat(if n < 0 then -n else n);
    var s := FormatInt(n);
    if n < 0 {
      assert s[1..] == Text.FormatNat(-n);
    } else {
      assert Text.IsDigit(s[0]) by { assert s[0] in s; }
    }
  }

  /** Signs are accepted, other characters and the empty text are not. */
  lemma ParsesIntegers()
    ensures ParseInt("+57") == Some(57) && ParseInt("-30") == Some(-30) && ParseInt("007") == Some(7)
    ensures ParseInt("") == None && ParseInt("-") == None && ParseInt("5a") == None && ParseInt("+-5") == None
  {
    Text.ParsesDigits();
    assert "+57"[1..] == "57" && "-30"[1..] == "30" && "-"[1..] == "" && "+-5"[1..] == "-5";
    Text.ParseRejects("5a", 'a');
    Text.ParseRejects("-5", '-');
  }

  lemma ParseIntRejects(s: string, c: char)
    requires c in s && !Text.IsDigit(c) && c != '-' && c != '+'
    ensures ParseInt(s) == None
  {
    if s[0] == '-' || s[0] == '+' {
      assert s == [s[0]] + s[1..];
      assert c in s[1..];
      Text.ParseRejects(s[1..], c);
    } else {
      Text.ParseRejects(s, c);
    }
  }

  // --- Tokens --------------------------------------------------------------------------------

  const SECOND: int := 1_000_000_000

  /** The Unix time, in seconds, of a moment in nanoseconds. */
  function Unix(t: int): int { t / SECOND }

  function Expiry(issued: int, ttl: int): int { Unix(issued + ttl) }

  lemma FormattedIsBytes(n: int)
    ensures forall c | c in FormatInt(n) :: c as int < 256
  {
  }

  function Payload(username: Bytes, expiry: int): Bytes {
    FormattedIsBytes(expiry);
    username + "|" + FormatInt(expiry)
  }

  /** `mac(secret, text)` is the encoded keyed hash of `text`. */
  function Sign(mac: (string, string) -> string, secret: string, username: Bytes, ttl: int, now: int): string {
    var enc := Encode(Payload(username, Expiry(now, ttl)));
    enc + "." + mac(secret, enc)
  }

  function Parse(mac: (string, string) -> string, secret: string, token: string, now: int): Option<string> {
    match Text.Cut(token, '.')
    case None => None
    case Some((enc, m)) =>
      if m != mac(secret, enc) then None
      else
        match Decode(enc)
        case None => None
        case Some(raw) =>
          match Text.Cut(raw, '|')
          case None => None
          case Some((name, expiry)) =>
            match ParseInt(expiry)
            case None => None
            case Some(exp) => if Unix(now) >= exp then None else Some(name)
  }

  /** The token carries the encoded text `name|digits` and its keyed hash, the name has no '|', and the
      digits are a Unix time still ahead. Times are in nanoseconds. */
  ghost predicate Carries(
    mac: (string, string) -> string, secret: string, token: string, now: int, name: string, enc: string, digits: string)
  {
    && '.' !in enc && token == enc + "." + mac(secret, enc)
    && '|' !in name && Decode(enc) == Some(name + "|" + digits)
    && ParseInt(digits).Some? && now < ParseInt(digits).value * 1_000_000_000
  }

  /** A token yields a name exactly when it carries that name. */
  lemma ParsesIff(mac: (string, string) -> string, secret: string, token: string, now: int, name: string)
    ensures Parse(mac, secret, token, now) == Some(name) <==> exists enc, digits :: Carries(mac, secret, token, now, name, enc, digits)
  {
    hide Decode, ParseInt;
    if Parse(mac, secret, token, now) == Some(name) {
      var (enc, m) := Text.Cut(token, '.').value;
      var (before, digits) := Text.Cut(Decode(enc).value, '|').value;
      assert Carries(mac, secret, token, now, name, enc, digits);
    }
    if enc, digits :| Carries(mac, secret, token, now, name, enc, digits) {
      assert token == enc + ['.'] + mac(secret, enc) && name + "|" + digits == name + ['|'] + digits;
      Text.CutAt(enc, mac(secret, enc), '.');
      Text.CutAt(name, digits, '|');
    }
  }

  /** A token issued at `issued` for `ttl` is valid up to the last full second before `issued + ttl`. */
  lemma LifetimeIsTTL(issued: int, ttl: int, now: int)
    ensures Unix(now) < Expiry(issued, ttl) <==> now < (issued + ttl) - (issued + ttl) % 1_000_000_000
    ensures now <= issued + ttl - 1_000_000_000 ==> Unix(now) < Expiry(issued, ttl)
    ensures now >= issued + ttl ==> Unix(now) >= Expiry(issued, ttl)
  {
  }

  /** Parsing a signed token gives the username back exactly until the expiry second, if the username
      has no '|'; a token for a username with a '|' never parses. */
  lemma RoundTrip(mac: (string, string) -> string, secret: string, username: Bytes, ttl: int, issued: int, now: int)
    requires IsInt64(Expiry(issued, ttl))
    ensures Parse(mac, secret, Sign(mac, secret, username, ttl, issued), now) ==
            if '|' !in username && Unix(now) < Expiry(issued, ttl) then Some(username) else None
  {
    var expiry := Expiry(issued, ttl);
    var payload := Payload(username, expiry);
    var enc := Encode(payload);
    DecodeEncode(payload);
    EncodeAlphabet(payload);
    Text.CutAt(enc, mac(secret, enc), '.');
    assert enc + "." + mac(secret, enc) == enc + ['.'] + mac(secret, enc);
    hide Encode, DecodeDigits;
    PayloadParses(username, expiry);
  }

  lemma PayloadParses(username: Bytes, expiry: int)
    requires IsInt64(expiry)
    ensures Text.Cut(Payload(username, expiry), '|').Some?
    ensures var (name, digits) := Text.Cut(Payload(username, expiry), '|').value;
            if '|' in username then ParseInt(digits) == None else name == username && ParseInt(digits) == Some(expiry)
  {
    var digits := FormatInt(expiry);
    var payload := Payload(username, expiry);
    assert payload == username + ['|'] + digits;
    match Text.Cut(username, '|')
    case None =>
      Text.CutAt(username, digits, '|');
      ParseFormatInt(expiry);
    case Some((before, after)) =>
      assert payload == before + ['|'] + (after + ['|'] + digits);
      Text.CutAt(before, after + ['|'] + digits, '|');
      ParseIntRejects(after + ['|'] + digits, '|');
  }
}
