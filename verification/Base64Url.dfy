/**
 singbox-core/src/util/base64url.ts: base64url without padding (section 5 of
 RFC 4648), built like the source from the standard padded encoding by
 rewriting the alphabet and stripping the padding.
 */
module Base64Url {
  type Byte = n: int | 0 <= n < 256
  type Six = n: int | 0 <= n < 64

  /** The standard alphabet of section 4 of RFC 4648. */
  function Letter(n: Six): char {
    if n < 26 then 'A' + n as char
    else if n < 52 then 'a' + (n - 26) as char
    else if n < 62 then '0' + (n - 52) as char
    else if n == 62 then '+' else '/'
  }

  /** The sextet a letter stands for, or -1 outside the standard alphabet. */
  function Sextet(c: char): (n: int)
    ensures -1 <= n < 64
  {
    if 'A' <= c <= 'Z' then c as int - 'A' as int
    else if 'a' <= c <= 'z' then c as int - 'a' as int + 26
    else if '0' <= c <= '9' then c as int - '0' as int + 52
    else if c == '+' then 62 else if c == '/' then 63 else -1
  }

  // ---------- the platform codec, `Buffer` with encoding "base64" ----------

  /** The sextets of a byte string, the last group filled with zero bits. */
  function Unpack(bytes: seq<Byte>): seq<Six> {
    if bytes == [] then []
    else if |bytes| == 1 then [High6(bytes[0]), Cross1(bytes[0], 0)]
    else if |bytes| == 2 then
      [High6(bytes[0]), Cross1(bytes[0], bytes[1]), Cross2(bytes[1], 0)]
    else
      [High6(bytes[0]), Cross1(bytes[0], bytes[1]), Cross2(bytes[1], bytes[2]), Low6(bytes[2])]
      + Unpack(bytes[3..])
  }

  function High6(x: int): Six requires 0 <= x < 256 { x / 4 }

  function Cross1(x: int, y: int): Six
    requires 0 <= x < 256 && 0 <= y < 256
  {
    x % 4 * 16 + y / 16
  }

  function Cross2(y: int, z: int): Six
    requires 0 <= y < 256 && 0 <= z < 256
  {
    y % 16 * 4 + z / 64
  }

  function Low6(z: int): Six requires 0 <= z < 256 { z % 64 }

  function Letters(s: seq<Six>): (r: string)
    ensures |r| == |s|
    ensures forall i :: 0 <= i < |s| ==> r[i] == Letter(s[i])
  {
    if s == [] then "" else [Letter(s[0])] + Letters(s[1..])
  }

  function Padding(letters: nat): (pad: string)
    ensures forall i :: 0 <= i < |pad| ==> pad[i] == '='
  {
    if letters % 4 == 0 then "" else if letters % 4 == 1 then "===" else if letters % 4 == 2 then "==" else "="
  }

  function StandardEncode(bytes: seq<Byte>): string {
    Letters(Unpack(bytes)) + Padding(|Unpack(bytes)|)
  }

  /** The sextets before the first padding character; foreign characters are skipped. */
  function Sextets(s: string): (r: seq<Six>)
  {
    if s == "" || s[0] == '=' then []
    else if Sextet(s[0]) < 0 then Sextets(s[1..])
    else [Sextet(s[0])] + Sextets(s[1..])
  }

  /** Bytes out of sextets; bits left over at the end are dropped. */
  function Pack(s: seq<Six>): (bytes: seq<Byte>)
  {
    if |s| < 2 then []
    else if |s| == 2 then [Byte1(s[0], s[1])]
    else if |s| == 3 then [Byte1(s[0], s[1]), Byte2(s[1], s[2])]
    else [Byte1(s[0], s[1]), Byte2(s[1], s[2]), Byte3(s[2], s[3])] + Pack(s[4..])
  }

  function Byte1(a: int, b: int): Byte
    requires 0 <= a < 64 && 0 <= b < 64
  {
    a * 4 + b / 16
  }

  function Byte2(b: int, c: int): Byte
    requires 0 <= b < 64 && 0 <= c < 64
  {
    b % 16 * 16 + c / 4
  }

  function Byte3(c: int, d: int): Byte
    requires 0 <= c < 64 && 0 <= d < 64
  {
    c % 4 * 64 + d
  }

  function StandardDecode(s: string): seq<Byte> {
    Pack(Sextets(s))
  }

  // ---------- base64url.ts ----------

  function ReplaceAll(s: string, from: char, to: char): (r: string)
    ensures |r| == |s|
    ensures forall i :: 0 <= i < |s| ==> r[i] == if s[i] == from then to else s[i]
  {
    if s == "" then "" else [if s[0] == from then to else s[0]] + ReplaceAll(s[1..], from, to)
  }

  /** `.replace(/=+$/, "")` */
  function StripPadding(s: string): string {
    if s != "" && s[|s| - 1] == '=' then StripPadding(s[..|s| - 1]) else s
  }

  /** `base64urlEncode`. */
  function Encode(bytes: seq<Byte>): string
  {
    StripPadding(ReplaceAll(ReplaceAll(StandardEncode(bytes), '+', '-'), '/', '_'))
  }

  /** `base64urlDecode`. */
  function Decode(s: string): seq<Byte> {
    var padded := ReplaceAll(ReplaceAll(s, '-', '+'), '_', '/');
    StandardDecode(padded + Padding(|padded|))
  }

  // ---------- round trip ----------

  predicate UrlSafe(c: char) {
    'A' <= c <= 'Z' || 'a' <= c <= 'z' || '0' <= c <= '9' || c == '-' || c == '_'
  }

  lemma LetterSextet(n: Six)
    ensures Sextet(Letter(n)) == n && Letter(n) != '='
  {}

  lemma {:induction false} SextetsOfLetters(s: seq<Six>, tail: string)
    requires tail == "" || tail[0] == '='
    ensures Sextets(Letters(s) + tail) == s
  {
    if s == [] {
      assert Letters(s) + tail == tail;
    } else {
      SextetsOfLetters(s[1..], tail);
      LetterSextet(s[0]);
      assert (Letters(s) + tail)[1..] == Letters(s[1..]) + tail;
    }
  }

  lemma {:induction false} PackUnpack(bytes: seq<Byte>)
    ensures Pack(Unpack(bytes)) == bytes
  {
    if |bytes| >= 3 {
      PackUnpack(bytes[3..]);
      RepackTriple(bytes[0], bytes[1], bytes[2]);
      PackQuad(High6(bytes[0]), Cross1(bytes[0], bytes[1]), Cross2(bytes[1], bytes[2]),
               Low6(bytes[2]), Unpack(bytes[3..]));
      assert bytes == [bytes[0], bytes[1], bytes[2]] + bytes[3..];
    } else {
      PackShort(bytes);
    }
  }

  lemma PackShort(bytes: seq<Byte>)
    requires |bytes| < 3
    ensures Pack(Unpack(bytes)) == bytes
  {
    if |bytes| == 2 {
      PackTwo(bytes[0], bytes[1]);
      assert bytes == [bytes[0], bytes[1]];
    } else if |bytes| == 1 {
      PackOne(bytes[0]);
      assert bytes == [bytes[0]];
    }
  }

  lemma PackTwo(x: Byte, y: Byte)
    ensures Pack(Unpack([x, y])) == [x, y]
  {
    RepackTriple(x, y, 0);
    PackTail(High6(x), Cross1(x, y), Cross2(y, 0));
    assert Unpack([x, y]) == [High6(x), Cross1(x, y), Cross2(y, 0)];
  }

  lemma PackOne(x: Byte)
    ensures Pack(Unpack([x])) == [x]
  {
    var a, b := High6(x), Cross1(x, 0);
    assert Unpack([x]) == [a, b];
    RepackFirst(x);
    PackPair(a, b);
  }

  lemma RepackFirst(x: Byte)
    ensures Byte1(High6(x), Cross1(x, 0)) == x
  {}

  lemma PackPair(a: Six, b: Six)
    ensures Pack([a, b]) == [Byte1(a, b)]
  {}

  lemma PackTail(a: Six, b: Six, c: Six)
    ensures Pack([a, b, c]) == [Byte1(a, b), Byte2(b, c)]
  {}

  lemma PackQuad(a: Six, b: Six, c: Six, d: Six, rest: seq<Six>)
    ensures Pack([a, b, c, d] + rest) == [Byte1(a, b), Byte2(b, c), Byte3(c, d)] + Pack(rest)
  {
    assert ([a, b, c, d] + rest)[4..] == rest;
  }

  lemma {:induction false} UnpackLength(bytes: seq<Byte>)
    ensures |Unpack(bytes)| == (4 * |bytes| + 2) / 3
  {
    if |bytes| >= 3 {
      UnpackLength(bytes[3..]);
    }
  }

  lemma RepackTriple(x: Byte, y: Byte, z: Byte)
    ensures Byte1(High6(x), Cross1(x, y)) == x
    ensures Byte2(Cross1(x, y), Cross2(y, z)) == y
    ensures Byte3(Cross2(y, z), Low6(z)) == z
  {}

  lemma {:induction false} StripTail(s: string, pad: string)
    requires forall i :: 0 <= i < |pad| ==> pad[i] == '='
    requires s == "" || s[|s| - 1] != '='
    ensures StripPadding(s + pad) == s
  {
    if pad == "" {
      assert s + pad == s;
    } else {
      StripTail(s, pad[..|pad| - 1]);
      assert (s + pad)[..|s + pad| - 1] == s + pad[..|pad| - 1];
    }
  }

  function UrlLetters(letters: string): string {
    ReplaceAll(ReplaceAll(letters, '+', '-'), '/', '_')
  }

  lemma UrlLettersPadded(l: string, pad: string)
    requires forall i :: 0 <= i < |pad| ==> pad[i] == '='
    ensures UrlLetters(l + pad) == UrlLetters(l) + pad
  {}

  lemma UrlLetter(n: Six)
    ensures UrlSafe(UrlLetters([Letter(n)])[0])
  {}

  /** The encoder's output is the standard letters in the other alphabet, unpadded. */
  lemma EncodeShape(bytes: seq<Byte>)
    ensures Encode(bytes) == UrlLetters(Letters(Unpack(bytes)))
    ensures forall i :: 0 <= i < |Encode(bytes)| ==> UrlSafe(Encode(bytes)[i])
    ensures |Encode(bytes)| == (4 * |bytes| + 2) / 3
  {
    var s := Unpack(bytes);
    var l, pad := Letters(s), Padding(|s|);
    var u := UrlLetters(l);
    UnpackLength(bytes);
    UrlLettersPadded(l, pad);
    forall i | 0 <= i < |u|
      ensures UrlSafe(u[i])
    {
      UrlLetter(s[i]);
    }
    StripTail(u, pad);
  }

  /** The URL-safe alphabet of section 5 of RFC 4648. */
  function UrlDigit(n: Six): char {
    UrlLetters([Letter(n)])[0]
  }

  lemma UpperDigits(n: Six, upper: string)
    requires upper == "ABCDEFGHIJKLMNOPQRSTUVWXYZ" && n < 26
    ensures UrlDigit(n) == upper[n]
  {
    assert upper[n] == 'A' + n as char;
  }

  lemma LowerDigits(n: Six, lower: string)
    requires lower == "abcdefghijklmnopqrstuvwxyz" && 26 <= n < 52
    ensures UrlDigit(n) == lower[n - 26]
  {
    assert lower[n - 26] == 'a' + (n - 26) as char;
  }

  lemma OtherDigits(n: Six, rest: string)
    requires rest == "0123456789-_" && 52 <= n
    ensures UrlDigit(n) == rest[n - 52]
  {
  }

  lemma EncodedDigit(bytes: seq<Byte>, i: nat)
    requires i < |Unpack(bytes)|
    ensures |Encode(bytes)| == |Unpack(bytes)| && Encode(bytes)[i] == UrlDigit(Unpack(bytes)[i])
  {
    EncodeShape(bytes);
  }

  /** Three bytes are the four digits, in base 64, of the 24-bit number they are in base 256. */
  lemma EncodeGroup(x: Byte, y: Byte, z: Byte, rest: seq<Byte>) returns (a: Six, b: Six, c: Six, d: Six)
    ensures ((a * 64 + b) * 64 + c) * 64 + d == (x * 256 + y) * 256 + z
    ensures Encode([x, y, z] + rest) == [UrlDigit(a), UrlDigit(b), UrlDigit(c), UrlDigit(d)] + Encode(rest)
  {
    a, b, c, d := High6(x), Cross1(x, y), Cross2(y, z), Low6(z);
    GroupNumber(x, y, z);
    UnpackGroup(x, y, z, rest);
    EncodeAfter([x, y, z] + rest, [a, b, c, d], rest);
  }

  lemma GroupNumber(x: Byte, y: Byte, z: Byte)
    ensures ((High6(x) * 64 + Cross1(x, y)) * 64 + Cross2(y, z)) * 64 + Low6(z) == (x * 256 + y) * 256 + z
  {}

  lemma UnpackGroup(x: Byte, y: Byte, z: Byte, rest: seq<Byte>)
    ensures Unpack([x, y, z] + rest) == [High6(x), Cross1(x, y), Cross2(y, z), Low6(z)] + Unpack(rest)
  {
    assert ([x, y, z] + rest)[3..] == rest;
  }

  lemma EncodeAfter(bytes: seq<Byte>, head: seq<Six>, rest: seq<Byte>)
    requires Unpack(bytes) == head + Unpack(rest) && |head| == 4
    ensures |Encode(bytes)| == 4 + |Encode(rest)|
    ensures forall i :: 0 <= i < |Encode(bytes)| ==>
              Encode(bytes)[i] == if i < 4 then UrlDigit(head[i]) else Encode(rest)[i - 4]
  {
    EncodeShape(bytes);
    EncodeShape(rest);
    UnpackLength(rest);
    UnpackLength(bytes);
    forall i | 0 <= i < |Encode(bytes)|
      ensures Encode(bytes)[i] == if i < 4 then UrlDigit(head[i]) else Encode(rest)[i - 4]
    {
      EncodedDigit(bytes, i);
      if i >= 4 {
        RestDigit(bytes, head, rest, i);
      }
    }
  }

  lemma RestDigit(bytes: seq<Byte>, head: seq<Six>, rest: seq<Byte>, i: nat)
    requires Unpack(bytes) == head + Unpack(rest) && |head| == 4 && 4 <= i < |Unpack(bytes)|
    ensures |Encode(rest)| == |Unpack(rest)| && UrlDigit(Unpack(bytes)[i]) == Encode(rest)[i - 4]
  {
    EncodedDigit(rest, i - 4);
  }

  /** One or two bytes at the end are two or three digits of their number with zero bits appended. */
  lemma EncodeEnd(x: Byte, y: Byte) returns (a: Six, b: Six, b1: Six, c: Six)
    ensures a * 64 + b1 == x * 16 && Encode([x]) == [UrlDigit(a), UrlDigit(b1)]
    ensures (a * 64 + b) * 64 + c == (x * 256 + y) * 4 && Encode([x, y]) == [UrlDigit(a), UrlDigit(b), UrlDigit(c)]
    ensures Encode([]) == ""
  {
    a, b, b1, c := High6(x), Cross1(x, y), Cross1(x, 0), Cross2(y, 0);
    EncodeShape([]);
    EncodeLast([x], [a, b1]);
    EncodeLast([x, y], [a, b, c]);
  }

  lemma EncodeLast(bytes: seq<Byte>, digits: seq<Six>)
    requires Unpack(bytes) == digits
    ensures |Encode(bytes)| == |digits| && forall i :: 0 <= i < |digits| ==> Encode(bytes)[i] == UrlDigit(digits[i])
  {
    EncodeShape(bytes);
    forall i | 0 <= i < |digits|
      ensures Encode(bytes)[i] == UrlDigit(digits[i])
    {
      EncodedDigit(bytes, i);
    }
  }

  /** Decoding an encoded byte string gives it back. */
  lemma DecodeEncode(bytes: seq<Byte>)
    ensures Decode(Encode(bytes)) == bytes
  {
    EncodeShape(bytes);
    var s := Unpack(bytes);
    var l := Letters(s);
    var back := ReplaceAll(ReplaceAll(UrlLetters(l), '-', '+'), '_', '/');
    forall i | 0 <= i < |l|
      ensures back[i] == l[i]
    {
      LetterSextet(s[i]);
    }
    assert back == l;
    SextetsOfLetters(s, Padding(|s|));
    PackUnpack(bytes);
  }

  /** `validateRealityKey` of packages/config/src/index.ts, on an already trimmed string. */
  predicate AcceptedRealityKey(s: string) {
    |s| == 43 && forall i :: 0 <= i < |s| ==> UrlSafe(s[i])
  }

  /** Every 32-byte key is printed in a form the configuration accepts, and distinct keys differ. */
  lemma KeyAccepted(key: seq<Byte>)
    requires |key| == 32
    ensures AcceptedRealityKey(Encode(key)) && Decode(Encode(key)) == key
  {
    EncodeShape(key);
    DecodeEncode(key);
  }

  lemma {:induction false} PackLength(s: seq<Six>)
    ensures |Pack(s)| == |s| / 4 * 3 + if |s| % 4 <= 1 then 0 else |s| % 4 - 1
  {
    if |s| >= 4 {
      PackLength(s[4..]);
    }
  }

  lemma {:induction false} SextetsOfDigits(s: string, pad: string)
    requires forall i :: 0 <= i < |s| ==> Sextet(s[i]) >= 0 && s[i] != '='
    requires pad == "" || pad[0] == '='
    ensures |Sextets(s + pad)| == |s|
  {
    if s == "" {
      assert s + pad == pad;
    } else {
      SextetsOfDigits(s[1..], pad);
      assert (s + pad)[1..] == s[1..] + pad;
    }
  }

  /** Whatever key text the configuration accepts decodes to 32 bytes. */
  lemma AcceptedDecodes(s: string)
    requires AcceptedRealityKey(s)
    ensures |Decode(s)| == 32
  {
    var padded := ReplaceAll(ReplaceAll(s, '-', '+'), '_', '/');
    SextetsOfDigits(padded, Padding(|padded|));
    PackLength(Sextets(padded + Padding(|padded|)));
  }
}
