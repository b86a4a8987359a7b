/**
 UTF-8 (the last step of `canonical_json_bytes`, src/locusmesh/canonical.py:25), RFC 3629
 section 3. `char` is a Unicode scalar value, so a lone surrogate, on which Python's
 encoder raises, is not a value of the model.
 */
module Utf8 {
  import opened Wrappers

  type Byte = b: int | 0 <= b < 256

  function EncodeChar(c: char): (r: seq<Byte>)
    ensures r != []
  {
    var n := c as int;
    if n < 0x80 then [n]
    else if n < 0x800 then [0xC0 + n / 64, 0x80 + n % 64]
    else if n < 0x1_0000 then [0xE0 + n / 4096, 0x80 + n / 64 % 64, 0x80 + n % 64]
    else [0xF0 + n / 262144, 0x80 + n / 4096 % 64, 0x80 + n / 64 % 64, 0x80 + n % 64]
  }

  function Encode(s: string): seq<Byte> {
    if s == "" then [] else EncodeChar(s[0]) + Encode(s[1..])
  }

  // ---- A decoder --------------------------------------------------------------------------

  // The value and the length of the leading character, by the table of RFC 3629 section 3;
  // overlong forms and surrogates are refused.
  function DecodeChar(s: seq<Byte>): (r: Option<(char, nat)>)
    ensures r.Some? ==> 0 < r.value.1 <= |s|
  {
    if s == [] then None
    else if s[0] < 0x80 then Some((s[0] as char, 1))
    else if 0xC0 <= s[0] < 0xE0 && Continues(s, 2) then Scalar(0x80, (s[0] - 0xC0) * 64 + Low(s, 1), 2)
    else if 0xE0 <= s[0] < 0xF0 && Continues(s, 3) then Scalar(0x800, ((s[0] - 0xE0) * 64 + Low(s, 1)) * 64 + Low(s, 2), 3)
    else if 0xF0 <= s[0] < 0xF8 && Continues(s, 4) then
      Scalar(0x1_0000, (((s[0] - 0xF0) * 64 + Low(s, 1)) * 64 + Low(s, 2)) * 64 + Low(s, 3), 4)
    else None
  }

  predicate Continues(s: seq<Byte>, n: nat) { |s| >= n && forall i :: 1 <= i < n ==> 0x80 <= s[i] < 0xC0 }

  function Low(s: seq<Byte>, i: nat): int
    requires i < |s|
  {
    s[i] as int - 0x80
  }

  function Scalar(least: int, code: int, n: nat): (r: Option<(char, nat)>)
    requires 0 < least && 0 < n
    ensures r.Some? ==> r.value.1 == n
  {
    if least <= code < 0xD800 || (least <= code < 0x11_0000 && 0xE000 <= code) then Some((code as char, n)) else None
  }

  function Decode(s: seq<Byte>): Option<string> {
    if s == [] then Some("")
    else
      var first := DecodeChar(s);
      if first.None? then None
      else
        var more := Decode(s[first.value.1..]);
        if more.None? then None else Some([first.value.0] + more.value)
  }

  // A number is the value of its 6-bit digits.
  lemma SixBits(n: nat)
    ensures n == n / 64 * 64 + n % 64
    ensures n / 64 == n / 4096 * 64 + n / 64 % 64
    ensures n / 4096 == n / 262144 * 64 + n / 4096 % 64
  {}

  lemma CharDecodes(c: char, rest: seq<Byte>)
    ensures DecodeChar(EncodeChar(c) + rest) == Some((c, |EncodeChar(c)|))
  {
    var e, t := EncodeChar(c), EncodeChar(c) + rest;
    SixBits(c as int);
    assert t[0] == e[0];
    assert |e| > 1 ==> t[1] == e[1];
    assert |e| > 2 ==> t[2] == e[2];
    assert |e| > 3 ==> t[3] == e[3];
  }

  /** Decoding inverts encoding. */
  lemma {:induction false} DecodesBack(s: string)
    ensures Decode(Encode(s)) == Some(s)
  {
    if s != "" {
      var e, rest := EncodeChar(s[0]), Encode(s[1..]);
      CharDecodes(s[0], rest);
      assert (e + rest)[|e|..] == rest;
      DecodesBack(s[1..]);
      assert [s[0]] + s[1..] == s;
    }
  }

  lemma EncodeInjective(s: string, t: string)
    requires Encode(s) == Encode(t)
    ensures s == t
  {
    DecodesBack(s);
    DecodesBack(t);
  }
}
