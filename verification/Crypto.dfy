/**
 Strict base64url, digests and key binding (src/locusmesh/crypto.py, canonical.py:28-31).
 SHA-256 and Ed25519 are parameters: `Primitives` names the library functions the code calls.
 */
module Crypto {
  import opened CanonicalJson
  import opened Utf8
  import opened Wrappers

  datatype Primitives = Primitives(
    sha256: seq<Byte> -> string,  // the hexadecimal digest
    ed25519Verify: (seq<Byte>, seq<Byte>, seq<Byte>) -> bool  // public key, message, signature
  )

  // ---- base64url: sections 3.5 and 5 of RFC 4648 ---------------------------------------

  function UrlChar(v: int): char
    requires 0 <= v < 64
  {
    if v < 26 then ('A' as int + v) as char
    else if v < 52 then ('a' as int + v - 26) as char
    else if v < 62 then ('0' as int + v - 52) as char
    else if v == 62 then '-' else '_'
  }

  predicate UrlSafe(c: char) {
    'A' <= c <= 'Z' || 'a' <= c <= 'z' || '0' <= c <= '9' || c == '-' || c == '_'
  }

  // The library decoder maps '-' and '_' onto '+' and '/', and still takes those two.
  function SextetOf(c: char): Option<Sextet>
  {
    if 'A' <= c <= 'Z' then Some(c as int - 'A' as int)
    else if 'a' <= c <= 'z' then Some(c as int - 'a' as int + 26)
    else if '0' <= c <= '9' then Some(c as int - '0' as int + 52)
    else if c == '-' || c == '+' then Some(62)
    else if c == '_' || c == '/' then Some(63)
    else None
  }

  // Three bytes as four sextets, and back.
  function Sextet0(a: Byte): int { a / 4 }
  function Sextet1(a: Byte, b: Byte): int { a % 4 * 16 + b / 16 }
  function Sextet2(b: Byte, c: Byte): int { b % 16 * 4 + c / 64 }
  function Sextet3(c: Byte): int { c % 64 }

  type Sextet = v: int | 0 <= v < 64
  function Byte0(w: Sextet, x: Sextet): Byte { w * 4 + x / 16 }
  function Byte1(x: Sextet, y: Sextet): Byte { x % 16 * 16 + y / 4 }
  function Byte2(y: Sextet, z: Sextet): Byte { y % 4 * 64 + z }

  function EncodeBase64Url(raw: seq<Byte>): string {
    if |raw| == 0 then ""
    else if |raw| == 1 then [UrlChar(Sextet0(raw[0])), UrlChar(Sextet1(raw[0], 0))]
    else
      var head := [UrlChar(Sextet0(raw[0])), UrlChar(Sextet1(raw[0], raw[1]))];
      if |raw| == 2 then head + [UrlChar(Sextet2(raw[1], 0))]
      else
        head + [UrlChar(Sextet2(raw[1], raw[2])), UrlChar(Sextet3(raw[2]))] + EncodeBase64Url(raw[3..])
  }

  // `base64.b64decode` after padding, which ignores the unused low bits of the last character.
  function LibraryDecode(s: string): Option<seq<Byte>> {
    if |s| == 0 then Some([])
    else if |s| == 1 then None
    else
      var w, x := SextetOf(s[0]), SextetOf(s[1]);
      if w.None? || x.None? then None
      else if |s| == 2 then Some([Byte0(w.value, x.value)])
      else
        var y := SextetOf(s[2]);
        if y.None? then None
        else if |s| == 3 then Some([Byte0(w.value, x.value), Byte1(x.value, y.value)])
        else
          var z, rest := SextetOf(s[3]), LibraryDecode(s[4..]);
          if z.None? || rest.None? then None
          else Some([Byte0(w.value, x.value), Byte1(x.value, y.value), Byte2(y.value, z.value)] + rest.value)
  }

  function DecodeBase64Url(value: string, expectedLength: nat): Option<seq<Byte>> {
    if '=' in value then None
    else
      var raw := LibraryDecode(value);
      if raw.None? || |raw.value| != expectedLength || EncodeBase64Url(raw.value) != value then None
      else raw
  }

  // What the standard calls the canonical unpadded form of an n-byte value.
  ghost predicate CanonicalForm(s: string, n: nat) {
    && |s| == (4 * n + 2) / 3
    && (forall i :: 0 <= i < |s| ==> UrlSafe(s[i]))
    && (n % 3 == 1 ==> SextetOf(s[|s| - 1]).Some? && SextetOf(s[|s| - 1]).value % 16 == 0)
    && (n % 3 == 2 ==> SextetOf(s[|s| - 1]).Some? && SextetOf(s[|s| - 1]).value % 4 == 0)
  }

  lemma SextetRoundTrip(v: int)
    requires 0 <= v < 64
    ensures UrlSafe(UrlChar(v)) && SextetOf(UrlChar(v)) == Some(v)
  {}

  lemma UrlCharRoundTrip(c: char)
    requires UrlSafe(c)
    ensures SextetOf(c).Some? && UrlChar(SextetOf(c).value) == c
  {}

  lemma BytesOfSextets(a: Byte, b: Byte, c: Byte)
    ensures Byte0(Sextet0(a), Sextet1(a, b)) == a
    ensures Byte1(Sextet1(a, b), Sextet2(b, c)) == b
    ensures Byte2(Sextet2(b, c), Sextet3(c)) == c
  {}

  lemma SextetsOfBytes(w: Sextet, x: Sextet, y: Sextet, z: Sextet)
    ensures Sextet0(Byte0(w, x)) == w
    ensures Sextet1(Byte0(w, x), Byte1(x, y)) == x
    ensures Sextet2(Byte1(x, y), Byte2(y, z)) == y
    ensures Sextet3(Byte2(y, z)) == z
    ensures x % 16 == 0 ==> Sextet1(Byte0(w, x), 0) == x
    ensures y % 4 == 0 ==> Sextet2(Byte1(x, y), 0) == y
  {}

  lemma GroupRoundTrip(a: Byte, b: Byte, c: Byte)
    ensures SextetOf(UrlChar(Sextet0(a))) == Some(Sextet0(a)) && UrlSafe(UrlChar(Sextet0(a)))
    ensures SextetOf(UrlChar(Sextet1(a, b))) == Some(Sextet1(a, b)) && UrlSafe(UrlChar(Sextet1(a, b)))
    ensures SextetOf(UrlChar(Sextet2(b, c))) == Some(Sextet2(b, c)) && UrlSafe(UrlChar(Sextet2(b, c)))
    ensures SextetOf(UrlChar(Sextet3(c))) == Some(Sextet3(c)) && UrlSafe(UrlChar(Sextet3(c)))
  {
    SextetRoundTrip(Sextet0(a));
    SextetRoundTrip(Sextet1(a, b));
    SextetRoundTrip(Sextet2(b, c));
    SextetRoundTrip(Sextet3(c));
  }

  lemma {:induction false} EncodeDecodes(raw: seq<Byte>)
    ensures LibraryDecode(EncodeBase64Url(raw)) == Some(raw)
  {
    hide Sextet0, Sextet1, Sextet2, Sextet3, Byte0, Byte1, Byte2, UrlChar, UrlSafe, SextetOf;
    var s := EncodeBase64Url(raw);
    if |raw| > 0 {
      var b, c := if |raw| > 1 then raw[1] else 0, if |raw| > 2 then raw[2] else 0;
      GroupRoundTrip(raw[0], b, c);
      BytesOfSextets(raw[0], b, c);
      if |raw| == 1 {
        assert raw == [raw[0]];
      } else if |raw| == 2 {
        assert raw == [raw[0], raw[1]];
      } else {
        assert s[4..] == EncodeBase64Url(raw[3..]);
        EncodeDecodes(raw[3..]);
        assert raw == [raw[0], raw[1], raw[2]] + raw[3..];
      }
    }
  }

  // The bits of the last character that no byte uses are zero.
  lemma UnusedBitsZero(a: Byte)
    ensures Sextet1(a, 0) % 16 == 0 && Sextet2(a, 0) % 4 == 0
  {}

  lemma ShortIsCanonical(raw: seq<Byte>)
    requires |raw| < 3
    ensures CanonicalForm(EncodeBase64Url(raw), |raw|)
  {
    hide Sextet0, Sextet1, Sextet2, Sextet3, Byte0, Byte1, Byte2, UrlChar, UrlSafe, SextetOf;
    if |raw| > 0 {
      var b := if |raw| > 1 then raw[1] else 0;
      GroupRoundTrip(raw[0], b, 0);
      UnusedBitsZero(raw[0]);
      UnusedBitsZero(b);
    }
  }

  lemma PrependGroup(group: string, rest: string, n: nat)
    requires |group| == 4 && forall i :: 0 <= i < 4 ==> UrlSafe(group[i])
    requires CanonicalForm(rest, n)
    ensures CanonicalForm(group + rest, n + 3)
  {
    hide UrlSafe, SextetOf;
    assert (n + 3) % 3 == n % 3;
    assert rest != [] ==> (group + rest)[|rest| + 3] == rest[|rest| - 1];
  }

  lemma {:induction false} EncodeIsCanonical(raw: seq<Byte>)
    ensures CanonicalForm(EncodeBase64Url(raw), |raw|)
  {
    hide Sextet0, Sextet1, Sextet2, Sextet3, Byte0, Byte1, Byte2, UrlChar, UrlSafe, SextetOf;
    if |raw| < 3 {
      ShortIsCanonical(raw);
    } else {
      GroupRoundTrip(raw[0], raw[1], raw[2]);
      var s, rest := EncodeBase64Url(raw), EncodeBase64Url(raw[3..]);
      EncodeIsCanonical(raw[3..]);
      PrependGroup(s[..4], rest, |raw| - 3);
      assert s == s[..4] + rest;
    }
  }

  lemma {:induction false} CanonicalFormDecodes(s: string, n: nat)
    requires CanonicalForm(s, n)
    ensures LibraryDecode(s).Some? && |LibraryDecode(s).value| == n
    ensures EncodeBase64Url(LibraryDecode(s).value) == s
  {
    hide Sextet0, Sextet1, Sextet2, Sextet3, Byte0, Byte1, Byte2, UrlChar, UrlSafe, SextetOf;
    if n > 0 {
      UrlCharRoundTrip(s[0]);
      UrlCharRoundTrip(s[1]);
      var w, x := SextetOf(s[0]).value, SextetOf(s[1]).value;
      if n == 1 {
        SextetsOfBytes(w, x, 0, 0);
      } else {
        UrlCharRoundTrip(s[2]);
        var y := SextetOf(s[2]).value;
        if n == 2 {
          SextetsOfBytes(w, x, y, 0);
        } else {
          UrlCharRoundTrip(s[3]);
          SextetsOfBytes(w, x, y, SextetOf(s[3]).value);
          CanonicalTail(s, n);
          CanonicalFormDecodes(s[4..], n - 3);
          assert s == [s[0], s[1], s[2], s[3]] + s[4..];
          assert LibraryDecode(s).value[3..] == LibraryDecode(s[4..]).value;
        }
      }
    }
  }

  lemma CanonicalTail(s: string, n: nat)
    requires n >= 3 && CanonicalForm(s, n)
    ensures |s| >= 4 && CanonicalForm(s[4..], n - 3)
  {
    assert n > 3 ==> s[4..][|s| - 5] == s[|s| - 1];
  }

  /** Decoding accepts exactly the canonical forms, and each stands for exactly one value. */
  lemma DecodeExact(s: string, n: nat)
    ensures DecodeBase64Url(s, n).Some? <==> CanonicalForm(s, n)
    ensures forall raw: seq<Byte> :: DecodeBase64Url(s, n) == Some(raw) <==> |raw| == n && EncodeBase64Url(raw) == s
  {
    if CanonicalForm(s, n) {
      CanonicalFormDecodes(s, n);
      assert !UrlSafe('=');
    }
    forall raw: seq<Byte> | |raw| == n && EncodeBase64Url(raw) == s ensures DecodeBase64Url(s, n) == Some(raw) {
      EncodeIsCanonical(raw);
      EncodeDecodes(raw);
      assert !UrlSafe('=');
    }
    if DecodeBase64Url(s, n).Some? {
      EncodeIsCanonical(DecodeBase64Url(s, n).value);
    }
  }

  /** The two fixed sizes: 32-byte keys take 43 characters, 64-byte signatures 86. */
  lemma FixedSizes(s: string)
    ensures DecodeBase64Url(s, 32).Some? ==> |s| == 43
    ensures DecodeBase64Url(s, 64).Some? ==> |s| == 86
    ensures '+' in s || '/' in s || '=' in s ==> forall n: nat :: DecodeBase64Url(s, n).None?
  {
    DecodeExact(s, 32);
    DecodeExact(s, 64);
    forall n: nat | DecodeBase64Url(s, n).Some? ensures '+' !in s && '/' !in s && '=' !in s {
      DecodeExact(s, n);
    }
  }

  // Table 2 of RFC 4648.
  const ALPHABET: string := "ABCDEFGHIJKLMNOPQRSTUVWXYZ" + "abcdefghijklmnopqrstuvwxyz" + "0123456789" + "-_"

  lemma AlphabetIs(v: int)
    requires 0 <= v < 64
    ensures |ALPHABET| == 64 && ALPHABET[v] == UrlChar(v) && SextetOf(ALPHABET[v]) == Some(v)
  {
    var upper, lower, digits := "ABCDEFGHIJKLMNOPQRSTUVWXYZ", "abcdefghijklmnopqrstuvwxyz", "0123456789";
    assert ALPHABET == upper + lower + digits + "-_";
    if v < 26 {
      assert ALPHABET[v] == upper[v];
    } else if v < 52 {
      assert ALPHABET[v] == lower[v - 26];
    } else if v < 62 {
      assert ALPHABET[v] == digits[v - 52];
    }
  }

  lemma GroupIsNumber(a: Byte, b: Byte, c: Byte)
    ensures 64 * (64 * (64 * Sextet0(a) + Sextet1(a, b)) + Sextet2(b, c)) + Sextet3(c) == 256 * (256 * a as int + b) + c
    ensures 64 * (64 * Sextet0(a) + Sextet1(a, b)) + Sextet2(b, 0) == (256 * a as int + b) * 4
    ensures 64 * Sextet0(a) + Sextet1(a, 0) == a as int * 16
  {}

  function Digit64(ch: char): int { if SextetOf(ch).Some? then SextetOf(ch).value else -1 }

  lemma DigitOfChar(v: int)
    requires 0 <= v < 64
    ensures Digit64(UrlChar(v)) == v
  {}

  /** Three bytes are four base-64 digits of one number, the most significant first. */
  lemma ThreeBytesSpelled(raw: seq<Byte>)
    requires |raw| >= 3
    ensures var s := EncodeBase64Url(raw);
            && |s| >= 4 && s[4..] == EncodeBase64Url(raw[3..])
            && 64 * (64 * (64 * Digit64(s[0]) + Digit64(s[1])) + Digit64(s[2])) + Digit64(s[3])
               == 256 * (256 * raw[0] as int + raw[1]) + raw[2]
  {
    var a, b, c := raw[0], raw[1], raw[2];
    GroupIsNumber(a, b, c);
    DigitOfChar(Sextet0(a));
    DigitOfChar(Sextet1(a, b));
    DigitOfChar(Sextet2(b, c));
    DigitOfChar(Sextet3(c));
    hide UrlChar, SextetOf, Digit64, Sextet0, Sextet1, Sextet2, Sextet3;
  }

  /** One or two bytes at the end are padded with zero bits to whole digits. */
  lemma LastBytesSpelled(raw: seq<Byte>)
    ensures |raw| == 1 ==>
              var s := EncodeBase64Url(raw);
              |s| == 2 && 64 * Digit64(s[0]) + Digit64(s[1]) == raw[0] as int * 16
    ensures |raw| == 2 ==>
              var s := EncodeBase64Url(raw);
              |s| == 3 && 64 * (64 * Digit64(s[0]) + Digit64(s[1])) + Digit64(s[2]) == (256 * raw[0] as int + raw[1]) * 4
  {
    if 1 <= |raw| <= 2 {
      var a, b := raw[0], if |raw| == 2 then raw[1] else 0;
      GroupIsNumber(a, b, 0);
      DigitOfChar(Sextet0(a));
      DigitOfChar(Sextet1(a, b));
      DigitOfChar(Sextet2(b, 0));
    }
    hide UrlChar, SextetOf, Digit64, Sextet0, Sextet1, Sextet2;
  }

  // ---- Digests, key identifiers and signatures -----------------------------------------

  function CanonicalBytes(j: Json): seq<Byte> { Utf8.Encode(CanonicalText(j)) }

  function Sha256Digest(c: Primitives, j: Json): string {
    "sha256:" + c.sha256(CanonicalBytes(j))
  }

  // None where the code raises ValueError.
  function DeriveKeyId(c: Primitives, publicKey: string): Option<string> {
    var raw := DecodeBase64Url(publicKey, 32);
    if raw.None? then None else Some("ed25519:sha256:" + c.sha256(raw.value))
  }

  predicate VerifyEd25519(c: Primitives, publicKey: string, payload: seq<Byte>, signature: string) {
    var key, sig := DecodeBase64Url(publicKey, 32), DecodeBase64Url(signature, 64);
    key.Some? && sig.Some? && c.ed25519Verify(key.value, payload, sig.value)
  }

  /** A key identifier exists for exactly the encodings of 32-byte keys. */
  lemma KeyIdExact(c: Primitives, publicKey: string, id: string)
    ensures DeriveKeyId(c, publicKey) == Some(id) <==>
            exists key: seq<Byte> :: |key| == 32 && EncodeBase64Url(key) == publicKey && id == "ed25519:sha256:" + c.sha256(key)
  {
    hide DecodeBase64Url, EncodeBase64Url;
    DecodeExact(publicKey, 32);
    if DeriveKeyId(c, publicKey) == Some(id) {
      var key := DecodeBase64Url(publicKey, 32).value;
      assert DecodeBase64Url(publicKey, 32) == Some(key);
    }
  }

  /** Verification succeeds exactly on encodings of a 32-byte key and a 64-byte signature that Ed25519 accepts. */
  lemma SignatureExact(c: Primitives, publicKey: string, payload: seq<Byte>, signature: string)
    ensures VerifyEd25519(c, publicKey, payload, signature) <==>
            exists key: seq<Byte>, sig: seq<Byte> ::
              && |key| == 32 && EncodeBase64Url(key) == publicKey && |sig| == 64 && EncodeBase64Url(sig) == signature
              && c.ed25519Verify(key, payload, sig)
  {
    hide DecodeBase64Url, EncodeBase64Url;
    DecodeExact(publicKey, 32);
    DecodeExact(signature, 64);
    if VerifyEd25519(c, publicKey, payload, signature) {
      var key, sig := DecodeBase64Url(publicKey, 32).value, DecodeBase64Url(signature, 64).value;
      assert DecodeBase64Url(publicKey, 32) == Some(key) && DecodeBase64Url(signature, 64) == Some(sig);
    }
  }

  // The hypothesis under which digests identify what was hashed, on the texts concerned.
  ghost predicate CollisionFree(c: Primitives, texts: set<seq<Byte>>) {
    forall x, y :: x in texts && y in texts && c.sha256(x) == c.sha256(y) ==> x == y
  }

  lemma DigestDecides(c: Primitives, a: Json, b: Json)
    requires CollisionFree(c, {CanonicalBytes(a), CanonicalBytes(b)})
    ensures Sha256Digest(c, a) == Sha256Digest(c, b) <==> Normal(a) == Normal(b)
  {
    hide Normal, RenderOnto, Utf8.Encode;
    if Sha256Digest(c, a) == Sha256Digest(c, b) {
      Cancel("sha256:", "sha256:", c.sha256(CanonicalBytes(a)), c.sha256(CanonicalBytes(b)));
      EncodeInjective(CanonicalText(a), CanonicalText(b));
      CanonicalTextInjective(a, b);
    }
  }

  /** Equal key identifiers mean the same public key string. */
  lemma KeyIdDecides(c: Primitives, p: string, q: string)
    requires DeriveKeyId(c, p).Some? && DeriveKeyId(c, p) == DeriveKeyId(c, q)
    requires CollisionFree(c, {DecodeBase64Url(p, 32).value, DecodeBase64Url(q, 32).value})
    ensures p == q
  {
    hide LibraryDecode, EncodeBase64Url;
    var x, y := DecodeBase64Url(p, 32).value, DecodeBase64Url(q, 32).value;
    Cancel("ed25519:sha256:", "ed25519:sha256:", c.sha256(x), c.sha256(y));
    DecodeExact(p, 32);
    DecodeExact(q, 32);
  }
}
