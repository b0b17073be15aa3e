// Base64url without padding (section 5 of RFC 4648), as cursors carry it in URLs.
module Base64Url {

  type Byte = x: int | 0 <= x < 256
  type Sextet = x: int | 0 <= x < 64

  // Groups of three bytes become four sextets; one or two bytes left over become two or three.
  function Sextets(bytes: seq<Byte>): (s: seq<Sextet>)
    ensures |s| == (4 * |bytes| + 2) / 3
  {
    if |bytes| == 0 then []
    else if |bytes| == 1 then [bytes[0] / 4, bytes[0] % 4 * 16]
    else if |bytes| == 2 then [bytes[0] / 4, bytes[0] % 4 * 16 + bytes[1] / 16, bytes[1] % 16 * 4]
    else
      [bytes[0] / 4, bytes[0] % 4 * 16 + bytes[1] / 16, bytes[1] % 16 * 4 + bytes[2] / 64, bytes[2] % 64]
      + Sextets(bytes[3..])
  }

  // A single sextet left over carries no whole byte and is dropped.
  function Bytes(s: seq<Sextet>): seq<Byte> {
    if |s| <= 1 then []
    else if |s| == 2 then [First(s[0], s[1])]
    else if |s| == 3 then [First(s[0], s[1]), Second(s[1], s[2])]
    else [First(s[0], s[1]), Second(s[1], s[2]), Third(s[2], s[3])] + Bytes(s[4..])
  }

  function First(a: Sextet, b: Sextet): Byte {
    (a as int) * 4 + b / 16
  }

  function Second(b: Sextet, c: Sextet): Byte {
    (b % 16 as int) * 16 + c / 4
  }

  function Third(c: Sextet, d: Sextet): Byte {
    (c % 4 as int) * 64 + d
  }

  function Digit(x: Sextet): char {
    if x < 26 then 'A' + x as char
    else if x < 52 then 'a' + (x - 26) as char
    else if x < 62 then '0' + (x - 52) as char
    else if x == 62 then '-' else '_'
  }

  predicate IsDigit(c: char) {
    'A' <= c <= 'Z' || 'a' <= c <= 'z' || '0' <= c <= '9' || c in "-_+/"
  }

  // The decoder also takes the two digits of the standard alphabet.
  function DigitValue(c: char): Sextet
    requires IsDigit(c)
  {
    if 'A' <= c <= 'Z' then (c - 'A') as int
    else if 'a' <= c <= 'z' then (c - 'a') as int + 26
    else if '0' <= c <= '9' then (c - '0') as int + 52
    else if c in "-+" then 62 else 63
  }

  function Digits(s: seq<Sextet>): string {
    seq(|s|, k requires 0 <= k < |s| => Digit(s[k]))
  }

  // Characters outside the alphabet are skipped, and padding ends the text.
  function Values(text: string): seq<Sextet> {
    if text == "" || text[0] == '=' then []
    else if IsDigit(text[0]) then [DigitValue(text[0])] + Values(text[1..])
    else Values(text[1..])
  }

  function Encode(bytes: seq<Byte>): string {
    Digits(Sextets(bytes))
  }

  function Decode(text: string): seq<Byte> {
    Bytes(Values(text))
  }

  // ---------------------------------------------------------------- round trip

  lemma {:induction false} BytesInvertSextets(bytes: seq<Byte>)
    ensures Bytes(Sextets(bytes)) == bytes
  {
    var s := Sextets(bytes);
    if |bytes| == 1 {
      assert Bytes(s)[0] == bytes[0];
    } else if |bytes| == 2 {
      assert Bytes(s)[0] == bytes[0] && Bytes(s)[1] == bytes[1];
    } else if |bytes| > 2 {
      BytesInvertSextets(bytes[3..]);
      assert s[4..] == Sextets(bytes[3..]);
      assert Bytes(s)[..3] == bytes[..3];
    }
  }

  lemma DigitInverse(x: Sextet)
    ensures IsDigit(Digit(x)) && Digit(x) != '=' && DigitValue(Digit(x)) == x
  {
  }

  lemma {:induction false} ValuesInvertDigits(s: seq<Sextet>)
    ensures Values(Digits(s)) == s
  {
    if s != [] {
      DigitInverse(s[0]);
      assert Digits(s)[1..] == Digits(s[1..]);
      ValuesInvertDigits(s[1..]);
    }
  }

  lemma RoundTrip(bytes: seq<Byte>)
    ensures Decode(Encode(bytes)) == bytes
    ensures |Encode(bytes)| == (4 * |bytes| + 2) / 3
  {
    ValuesInvertDigits(Sextets(bytes));
    BytesInvertSextets(bytes);
  }

  // Percent-encoding for a URL query leaves letters, digits, '-' and '_' alone, so that encoded
  // cursors pass through unchanged.
  predicate Unreserved(c: char) {
    'A' <= c <= 'Z' || 'a' <= c <= 'z' || '0' <= c <= '9' || c in "-_.!~*'()"
  }

  lemma EncodedIsUrlSafe(bytes: seq<Byte>)
    ensures forall k :: 0 <= k < |Encode(bytes)| ==> Unreserved(Encode(bytes)[k])
  {
  }

  // ---------------------------------------------------------------- the encoding itself

  // The digits of section 5 of RFC 4648.
  lemma DigitLaw(x: Sextet)
    ensures Digit(x) as int ==
      if x < 26 then 65 + x else if x < 52 then 97 + x - 26 else if x < 62 then 48 + x - 52
      else if x == 62 then 45 else 95
  {
  }

  // Three bytes are four sextets of the same number, the first the highest; one or two bytes that are left
  // over are filled up with zero bits.
  lemma GroupLaw(a: Byte, b: Byte, c: Byte, rest: seq<Byte>)
    ensures var s := Sextets([a, b, c] + rest);
      && |s| >= 4 && s[4..] == Sextets(rest)
      && (s[0] as int) * 262_144 + (s[1] as int) * 4096 + (s[2] as int) * 64 + (s[3] as int)
           == (a as int) * 65_536 + (b as int) * 256 + (c as int)
    ensures var s := Sextets([a, b]);
      |s| == 3 && (s[0] as int) * 4096 + (s[1] as int) * 64 + (s[2] as int) == (a as int) * 1024 + (b as int) * 4
    ensures var s := Sextets([a]); |s| == 2 && (s[0] as int) * 64 + (s[1] as int) == (a as int) * 16
    ensures Sextets([]) == []
  {
    assert ([a, b, c] + rest)[3..] == rest;
  }

  // The decoder takes the digits of both alphabets of RFC 4648, skips anything else and stops at padding.
  lemma LenientLaw(text: string, c: char)
    ensures Decode("=" + text) == []
    ensures Values([c] + text) ==
      if c == '=' then []
      else if c == '+' then [62] + Values(text)
      else if c == '/' then [63] + Values(text)
      else if IsDigit(c) then [DigitValue(c)] + Values(text)
      else Values(text)
    ensures IsDigit(c) <==> c in "-_+/" || 'A' <= c <= 'Z' || 'a' <= c <= 'z' || '0' <= c <= '9'
  {
    assert ([c] + text)[1..] == text;
    assert ("=" + text)[0] == '=';
  }
}
