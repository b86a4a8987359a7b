/**
 Canonical JSON text (src/locusmesh/canonical.py): compact separators, object members
 sorted by key, non-ASCII characters kept. The text of a value determines the value up
 to the order of object members, and never runs into the text that follows it.
 */
module CanonicalJson {
  import opened Ordering

  datatype Json =
    | JNull
    | JBool(b: bool)
    | JInt(n: int)
    | JStr(s: string)
    | JArr(items: seq<Json>)
    | JObj(fields: seq<(string, Json)>)  // in insertion order, as a Python dict

  predicate FieldLe(f: (string, Json), g: (string, Json)) { StrLe(f.0, g.0) }

  // `sort_keys=True`, applied at every level.
  function Normal(j: Json): Json
    decreases j, 1
  {
    match j
    case JArr(xs) => JArr(seq(|xs|, i requires 0 <= i < |xs| => Normal(xs[i])))
    case JObj(fs) => JObj(Sort(NormalFields(fs), FieldLe))
    case _ => j
  }

  function NormalField(f: (string, Json)): (string, Json)
    decreases f, 2
  {
    (f.0, Normal(f.1))
  }

  function NormalFields(fs: seq<(string, Json)>): seq<(string, Json)>
    decreases fs, 0
  {
    seq(|fs|, i requires 0 <= i < |fs| => NormalField(fs[i]))
  }

  function HexDigit(d: int): char
    requires 0 <= d < 16
  {
    if d < 10 then ('0' as int + d) as char else ('a' as int + d - 10) as char
  }

  function Digits(n: nat): (r: string)
    ensures r != [] && forall c :: c in r ==> '0' <= c <= '9'
  {
    if n < 10 then [HexDigit(n)] else Digits(n / 10) + [HexDigit(n % 10)]
  }

  function IntOnto(n: int, rest: string): string {
    if n < 0 then ['-'] + (Digits(-n) + rest) else Digits(n) + rest
  }

  // Section 7 of RFC 8259: quotation mark, reverse solidus and control characters are escaped.
  function EscapeChar(c: char): (r: string)
    ensures r != [] && r[0] != '"'
  {
    var code := c as int;
    if c == '"' then "\\\""
    else if c == '\\' then "\\\\"
    else if code == 0x08 then "\\b"
    else if code == 0x09 then "\\t"
    else if code == 0x0a then "\\n"
    else if code == 0x0c then "\\f"
    else if code == 0x0d then "\\r"
    else if code < 0x20 then "\\u00" + [HexDigit(code / 16), HexDigit(code % 16)]
    else [c]
  }

  // Text is produced in front of `rest`, the text that follows it in the document.
  function QuotedOnto(s: string, rest: string): string {
    if s == [] then ['"'] + rest else EscapeChar(s[0]) + QuotedOnto(s[1..], rest)
  }

  function StringOnto(s: string, rest: string): string { ['"'] + QuotedOnto(s, rest) }

  // The printer, on values whose members are already in order.
  function RenderOnto(j: Json, rest: string): string
    decreases j, 1
  {
    match j
    case JNull => "null" + rest
    case JBool(b) => (if b then "true" else "false") + rest
    case JInt(n) => IntOnto(n, rest)
    case JStr(s) => StringOnto(s, rest)
    case JArr(xs) =>
      ['['] + if xs == [] then [']'] + rest else RenderOnto(xs[0], ItemsOnto(xs[1..], rest))
    case JObj(fs) =>
      ['{'] + if fs == [] then ['}'] + rest else FieldOnto(fs[0], FieldsOnto(fs[1..], rest))
  }

  function ItemsOnto(xs: seq<Json>, rest: string): string
    decreases xs, 0
  {
    if xs == [] then [']'] + rest else [','] + RenderOnto(xs[0], ItemsOnto(xs[1..], rest))
  }

  function FieldOnto(f: (string, Json), rest: string): string
    decreases f, 2
  {
    StringOnto(f.0, [':'] + RenderOnto(f.1, rest))
  }

  function FieldsOnto(fs: seq<(string, Json)>, rest: string): string
    decreases fs, 0
  {
    if fs == [] then ['}'] + rest else [','] + FieldOnto(fs[0], FieldsOnto(fs[1..], rest))
  }

  /** `json.dumps` with sorted keys and compact separators, before UTF-8 encoding. */
  function CanonicalText(j: Json): string { RenderOnto(Normal(j), "") }

  // ---- Unique readability ----------------------------------------------------------

  // What can follow a value inside a document, or the end of the text.
  predicate Delimited(rest: string) {
    rest == [] || rest[0] == ',' || rest[0] == ']' || rest[0] == '}'
  }

  lemma Cancel(p: string, q: string, r: string, s: string)
    requires |p| == |q| && p + r == q + s
    ensures p == q && r == s
  {
    var t, n := p + r, |p|;
    assert p == t[..n] && q == t[..n] && r == t[n..] && s == t[n..];
  }

  lemma HexDigitInjective(a: int, b: int)
    requires 0 <= a < 16 && 0 <= b < 16 && HexDigit(a) == HexDigit(b)
    ensures a == b
  {}

  lemma FirstOfInt(n: int, r: string)
    ensures var t := IntOnto(n, r);
            |t| > 0 && (if n < 0 then t[0] == '-' else '0' <= t[0] <= '9')
  {
    if n >= 0 {
      assert Digits(n)[0] in Digits(n);
    }
  }

  // The first character of a value's text tells its kind.
  predicate Leads(j: Json, c: char) {
    match j
    case JNull => c == 'n'
    case JBool(b) => c == if b then 't' else 'f'
    case JInt(_) => c == '-' || '0' <= c <= '9'
    case JStr(_) => c == '"'
    case JArr(_) => c == '['
    case JObj(_) => c == '{'
  }

  lemma FirstOfValue(j: Json, r: string)
    ensures RenderOnto(j, r) != [] && Leads(j, RenderOnto(j, r)[0])
  {
    if j.JInt? {
      FirstOfInt(j.n, r);
    }
  }

  // ---- A reader of canonical text ----------------------------------------------------

  // Follows RFC 8259, without white space and with each character escaped in one way only.
  datatype Reading<T> = Stuck | Reads(value: T, rest: string)

  function DigitValue(ch: char): int { if '0' <= ch <= '9' then ch as int - '0' as int else -1 }

  function HexValue(ch: char): int { if 'a' <= ch <= 'f' then ch as int - 'a' as int + 10 else DigitValue(ch) }

  function ReadDigits(s: string, sum: int): (r: Reading<int>)
    ensures r.Reads? && |r.rest| <= |s|
  {
    if s != [] && DigitValue(s[0]) >= 0 then ReadDigits(s[1..], 10 * sum + DigitValue(s[0])) else Reads(sum, s)
  }

  // A natural number has no leading zero.
  function ReadNatural(s: string): (r: Reading<int>)
    ensures r.Reads? ==> |r.rest| < |s|
  {
    if s == [] || DigitValue(s[0]) < 0 then Stuck
    else if s[0] == '0' then Reads(0, s[1..])
    else ReadDigits(s[1..], DigitValue(s[0]))
  }

  function ReadInt(s: string): (r: Reading<int>)
    ensures r.Reads? ==> |r.rest| < |s|
  {
    if s != [] && s[0] == '-' then
      var n := ReadNatural(s[1..]);
      if n.Stuck? || n.value == 0 then Stuck else Reads(-n.value, n.rest)
    else ReadNatural(s)
  }

  // The escapes of two characters, by their second one.
  function ShortEscape(ch: char): int {
    match ch
    case '"' => 0x22
    case '\\' => 0x5c
    case 'b' => 0x08
    case 't' => 0x09
    case 'n' => 0x0a
    case 'f' => 0x0c
    case 'r' => 0x0d
    case _ => -1
  }

  // `\u00hh`, for control characters that have no short escape.
  function ReadUnicodeEscape(s: string): (r: Reading<char>)
    ensures r.Reads? ==> |r.rest| < |s|
  {
    if |s| < 6 || s[2] != '0' || s[3] != '0' || HexValue(s[4]) < 0 || HexValue(s[5]) < 0 then Stuck
    else
      var code := 16 * HexValue(s[4]) + HexValue(s[5]);
      if code < 0x08 || code == 0x0b || 0x0e <= code < 0x20 then Reads(code as char, s[6..]) else Stuck
  }

  function ReadChar(s: string): (r: Reading<char>)
    ensures r.Reads? ==> |r.rest| < |s|
  {
    if s == [] || s[0] as int < 0x20 || s[0] == '"' then Stuck
    else if s[0] != '\\' then Reads(s[0], s[1..])
    else if |s| < 2 then Stuck
    else if s[1] == 'u' then ReadUnicodeEscape(s)
    else if ShortEscape(s[1]) >= 0 then Reads(ShortEscape(s[1]) as char, s[2..])
    else Stuck
  }

  // Up to and including the closing quotation mark.
  function ReadQuoted(s: string): (r: Reading<string>)
    ensures r.Reads? ==> |r.rest| < |s|
    decreases |s|
  {
    if s != [] && s[0] == '"' then Reads("", s[1..])
    else
      var ch := ReadChar(s);
      if ch.Stuck? then Stuck
      else
        var more := ReadQuoted(ch.rest);
        if more.Stuck? then Stuck else Reads([ch.value] + more.value, more.rest)
  }

  function ReadWord<T>(s: string, word: string, value: T): (r: Reading<T>)
    requires word != ""
    ensures r.Reads? ==> |r.rest| < |s|
  {
    if |s| >= |word| && s[..|word|] == word then Reads(value, s[|word|..]) else Stuck
  }

  function ReadString(s: string): (r: Reading<string>)
    ensures r.Reads? ==> |r.rest| < |s|
  {
    if s != [] && s[0] == '"' then ReadQuoted(s[1..]) else Stuck
  }

  function ReadValue(s: string): (r: Reading<Json>)
    ensures r.Reads? ==> |r.rest| < |s|
    decreases |s|, 0
  {
    if s == [] then Stuck
    else if s[0] == 'n' then ReadWord(s, "null", JNull)
    else if s[0] == 't' then ReadWord(s, "true", JBool(true))
    else if s[0] == 'f' then ReadWord(s, "false", JBool(false))
    else if s[0] == '"' then
      var t := ReadString(s);
      if t.Stuck? then Stuck else Reads(JStr(t.value), t.rest)
    else if s[0] == '[' then
      if |s| > 1 && s[1] == ']' then Reads(JArr([]), s[2..])
      else
        var xs := ReadItems(s[1..]);
        if xs.Stuck? then Stuck else Reads(JArr(xs.value), xs.rest)
    else if s[0] == '{' then
      if |s| > 1 && s[1] == '}' then Reads(JObj([]), s[2..])
      else
        var fs := ReadFields(s[1..]);
        if fs.Stuck? then Stuck else Reads(JObj(fs.value), fs.rest)
    else
      var n := ReadInt(s);
      if n.Stuck? then Stuck else Reads(JInt(n.value), n.rest)
  }

  // One item, and more behind a comma, up to the closing bracket.
  function ReadItems(s: string): (r: Reading<seq<Json>>)
    ensures r.Reads? ==> |r.rest| < |s|
    decreases |s|, 1
  {
    var x := ReadValue(s);
    if x.Stuck? || x.rest == [] then Stuck
    else if x.rest[0] == ']' then Reads([x.value], x.rest[1..])
    else if x.rest[0] != ',' then Stuck
    else
      var more := ReadItems(x.rest[1..]);
      if more.Stuck? then Stuck else Reads([x.value] + more.value, more.rest)
  }

  function ReadField(s: string): (r: Reading<(string, Json)>)
    ensures r.Reads? ==> |r.rest| < |s|
    decreases |s|, 1
  {
    var key := ReadString(s);
    if key.Stuck? || key.rest == [] || key.rest[0] != ':' then Stuck
    else
      var x := ReadValue(key.rest[1..]);
      if x.Stuck? then Stuck else Reads((key.value, x.value), x.rest)
  }

  function ReadFields(s: string): (r: Reading<seq<(string, Json)>>)
    ensures r.Reads? ==> |r.rest| < |s|
    decreases |s|, 2
  {
    var f := ReadField(s);
    if f.Stuck? || f.rest == [] then Stuck
    else if f.rest[0] == '}' then Reads([f.value], f.rest[1..])
    else if f.rest[0] != ',' then Stuck
    else
      var more := ReadFields(f.rest[1..]);
      if more.Stuck? then Stuck else Reads([f.value] + more.value, more.rest)
  }

  // ---- The reader inverts the printer ------------------------------------------------

  // What follows a text in a document, split off again.
  lemma Follows(p: string, r: string)
    ensures (p + r)[|p|..] == r && (p + r)[..|p|] == p
  {}

  lemma HexDigitValue(d: int)
    requires 0 <= d < 16
    ensures HexValue(HexDigit(d)) == d && (d < 10 ==> DigitValue(HexDigit(d)) == d)
    ensures d > 0 ==> HexDigit(d) != '0'
  {}

  lemma OneDigit(d: int, rest: string, sum: int)
    requires 0 <= d < 10
    ensures ReadDigits([HexDigit(d)] + rest, sum) == ReadDigits(rest, 10 * sum + d)
  {
    HexDigitValue(d);
    Follows([HexDigit(d)], rest);
  }

  lemma LastDigit(n: nat)
    ensures 10 * (n / 10) + n % 10 == n && (n >= 10 ==> 0 < n / 10 < n)
  {}

  /** Decimal digits read back as the number, most significant first. */
  lemma {:induction false} DigitsReadBack(n: nat, rest: string)
    ensures ReadDigits(Digits(n) + rest, 0) == ReadDigits(rest, n)
  {
    hide HexDigit, ReadDigits;
    if n < 10 {
      OneDigit(n, rest, 0);
    } else {
      var last := [HexDigit(n % 10)];
      DigitsReadBack(n / 10, last + rest);
      assert Digits(n) + rest == Digits(n / 10) + (last + rest);
      OneDigit(n % 10, rest, n / 10);
      LastDigit(n);
    }
  }

  lemma {:induction false} NoLeadingZero(n: nat)
    ensures Digits(n)[0] == '0' <==> n == 0
    ensures n == 0 ==> Digits(n) == "0"
  {
    if n < 10 {
      HexDigitValue(n);
    } else {
      LastDigit(n);
      NoLeadingZero(n / 10);
    }
  }

  lemma NaturalReadsBack(n: nat, rest: string)
    requires Delimited(rest)
    ensures ReadNatural(Digits(n) + rest) == Reads(n, rest)
  {
    DigitsReadBack(n, rest);
    NoLeadingZero(n);
    var t := Digits(n) + rest;
    assert t[0] == Digits(n)[0] && t[0] in Digits(n);
    if n == 0 { Follows("0", rest); }
  }

  lemma IntReadsBack(n: int, rest: string)
    requires Delimited(rest)
    ensures ReadInt(IntOnto(n, rest)) == Reads(n, rest)
  {
    FirstOfInt(n, rest);
    if n < 0 {
      NaturalReadsBack(-n, rest);
      Follows(['-'], Digits(-n) + rest);
    } else {
      NaturalReadsBack(n, rest);
    }
  }

  lemma EscapeReadsBack(ch: char, rest: string)
    ensures ReadChar(EscapeChar(ch) + rest) == Reads(ch, rest)
  {
    var e, t := EscapeChar(ch), EscapeChar(ch) + rest;
    Follows(e, rest);
    assert forall i :: 0 <= i < |e| ==> t[i] == e[i];
    if |e| == 6 {
      HexDigitValue(ch as int / 16);
      HexDigitValue(ch as int % 16);
    }
  }

  lemma {:induction false} QuotedReadsBack(s: string, rest: string)
    ensures ReadQuoted(QuotedOnto(s, rest)) == Reads(s, rest)
  {
    if s == [] {
      Follows(['"'], rest);
    } else {
      var more := QuotedOnto(s[1..], rest);
      assert (EscapeChar(s[0]) + more)[0] != '"';
      EscapeReadsBack(s[0], more);
      hide EscapeChar, ReadChar;
      QuotedReadsBack(s[1..], rest);
      assert [s[0]] + s[1..] == s;
    }
  }

  lemma StringReadsBack(s: string, rest: string)
    ensures ReadString(StringOnto(s, rest)) == Reads(s, rest)
  {
    Follows(['"'], QuotedOnto(s, rest));
    QuotedReadsBack(s, rest);
  }

  /** The reader recovers every value from its text, wherever it stands in a document. */
  lemma {:induction false} ReadsBack(j: Json, rest: string)
    requires Delimited(rest)
    ensures ReadValue(RenderOnto(j, rest)) == Reads(j, rest)
    decreases j, 1
  {
    hide ReadInt, ReadString, StringOnto, IntOnto;
    FirstOfValue(j, rest);
    match j {
      case JNull => Follows("null", rest);
      case JBool(b) => Follows(if b then "true" else "false", rest);
      case JInt(n) => IntReadsBack(n, rest);
      case JStr(s) => StringReadsBack(s, rest);
      case JArr(xs) =>
        if xs == [] {
          Follows(['[', ']'], rest);
          assert RenderOnto(j, rest) == ['[', ']'] + rest;
        } else {
          var body := RenderOnto(xs[0], ItemsOnto(xs[1..], rest));
          Follows(['['], body);
          FirstOfValue(xs[0], ItemsOnto(xs[1..], rest));
          ItemsReadBack(xs, rest);
        }
      case JObj(fs) =>
        if fs == [] {
          Follows(['{', '}'], rest);
          assert RenderOnto(j, rest) == ['{', '}'] + rest;
        } else {
          var body := FieldOnto(fs[0], FieldsOnto(fs[1..], rest));
          Follows(['{'], body);
          FieldStarts(fs[0], FieldsOnto(fs[1..], rest));
          FieldsReadBack(fs, rest);
        }
    }
  }

  lemma FieldStarts(f: (string, Json), rest: string)
    ensures FieldOnto(f, rest) != [] && FieldOnto(f, rest)[0] == '"'
  {}

  lemma {:induction false} ItemsReadBack(xs: seq<Json>, rest: string)
    requires xs != []
    ensures ReadItems(RenderOnto(xs[0], ItemsOnto(xs[1..], rest))) == Reads(xs, rest)
    decreases xs, 0
  {
    hide RenderOnto, ReadValue;
    ReadsBack(xs[0], ItemsOnto(xs[1..], rest));
    if |xs| == 1 {
      Follows([']'], rest);
      assert xs == [xs[0]];
    } else {
      ItemsReadBack(xs[1..], rest);
      Follows([','], RenderOnto(xs[1..][0], ItemsOnto(xs[1..][1..], rest)));
      assert [xs[0]] + xs[1..] == xs;
    }
  }

  lemma {:induction false} FieldReadsBack(f: (string, Json), rest: string)
    requires Delimited(rest)
    ensures ReadField(FieldOnto(f, rest)) == Reads(f, rest)
    decreases f, 2
  {
    hide RenderOnto, ReadValue, ReadString, StringOnto;
    StringReadsBack(f.0, [':'] + RenderOnto(f.1, rest));
    Follows([':'], RenderOnto(f.1, rest));
    ReadsBack(f.1, rest);
  }

  lemma {:induction false} FieldsReadBack(fs: seq<(string, Json)>, rest: string)
    requires fs != []
    ensures ReadFields(FieldOnto(fs[0], FieldsOnto(fs[1..], rest))) == Reads(fs, rest)
    decreases fs, 0
  {
    hide FieldOnto, ReadField;
    FieldReadsBack(fs[0], FieldsOnto(fs[1..], rest));
    if |fs| == 1 {
      Follows(['}'], rest);
      assert fs == [fs[0]];
    } else {
      FieldsReadBack(fs[1..], rest);
      Follows([','], FieldOnto(fs[1..][0], FieldsOnto(fs[1..][1..], rest)));
      assert [fs[0]] + fs[1..] == fs;
    }
  }

  /** No value's text is a proper prefix of another's, in any document. */
  lemma RenderReads(a: Json, b: Json, r: string, s: string)
    requires Delimited(r) && Delimited(s)
    requires RenderOnto(a, r) == RenderOnto(b, s)
    ensures a == b && r == s
  {
    ReadsBack(a, r);
    ReadsBack(b, s);
  }

  lemma CanonicalTextInjective(a: Json, b: Json)
    requires CanonicalText(a) == CanonicalText(b)
    ensures Normal(a) == Normal(b)
  {
    RenderReads(Normal(a), Normal(b), "", "");
  }

  // ---- Equality up to the order of object members ------------------------------------

  ghost predicate DistinctKeys(fs: seq<(string, Json)>) {
    forall i, k :: 0 <= i < k < |fs| ==> fs[i].0 != fs[k].0
  }

  ghost predicate KeysIn(gs: seq<(string, Json)>, fs: seq<(string, Json)>) {
    forall k :: 0 <= k < |gs| ==> exists i :: 0 <= i < |fs| && fs[i].0 == gs[k].0
  }

  // Python dicts: keys are unique, at every level.
  ghost predicate WellFormed(j: Json) {
    match j
    case JArr(xs) => forall i :: 0 <= i < |xs| ==> WellFormed(xs[i])
    case JObj(fs) =>
      DistinctKeys(fs) && (forall i :: 0 <= i < |fs| ==> var f := fs[i]; WellFormed(f.1))
    case _ => true
  }

  // Python's `==` on the values: arrays in order, objects as maps.
  ghost predicate SameValue(a: Json, b: Json)
    decreases a, 1
  {
    match a
    case JArr(xs) =>
      b.JArr? && |xs| == |b.items| && forall i :: 0 <= i < |xs| ==> SameValue(xs[i], b.items[i])
    case JObj(fs) =>
      b.JObj? && KeysIn(b.fields, fs) && forall i :: 0 <= i < |fs| ==> SameMember(fs[i], b.fields)
    case _ => a == b
  }

  ghost predicate SameMember(f: (string, Json), gs: seq<(string, Json)>)
    decreases f, 2
  {
    exists k :: 0 <= k < |gs| && gs[k].0 == f.0 && SameValue(f.1, gs[k].1)
  }

  lemma FieldLeTotal()
    ensures TotalPreorder(FieldLe)
  {
    forall f, g ensures FieldLe(f, g) || FieldLe(g, f) { StrLeTotal(f.0, g.0); }
    forall f, g, h | FieldLe(f, g) && FieldLe(g, h) ensures FieldLe(f, h) {
      StrLeTransitive(f.0, g.0, h.0);
    }
  }

  lemma SortedMembers(fs: seq<(string, Json)>, gs: seq<(string, Json)>)
    requires DistinctKeys(fs)
    ensures Sort(fs, FieldLe) == Sort(gs, FieldLe) <==> multiset(fs) == multiset(gs)
  {
    FieldLeTotal();
    forall x, y | x in fs && y in fs && FieldLe(x, y) && FieldLe(y, x) ensures x == y {
      StrLeAntisymmetric(x.0, y.0);
      var i :| 0 <= i < |fs| && fs[i] == x;
      var k :| 0 <= k < |fs| && fs[k] == y;
      assert i < k || i == k || k < i;
    }
    SortCanonical(fs, gs, FieldLe);
  }

  lemma MembersPermute(u: seq<(string, Json)>, v: seq<(string, Json)>)
    requires DistinctKeys(u) && DistinctKeys(v)
    ensures multiset(u) == multiset(v) <==> (forall i :: 0 <= i < |u| ==> u[i] in v) && KeysIn(v, u)
  {
    if multiset(u) == multiset(v) {
      forall i | 0 <= i < |u| ensures u[i] in v { assert u[i] in multiset(v); }
      forall k | 0 <= k < |v| ensures exists i :: 0 <= i < |u| && u[i].0 == v[k].0 {
        assert v[k] in multiset(u);
        var i :| 0 <= i < |u| && u[i] == v[k];
      }
    }
    if (forall i :: 0 <= i < |u| ==> u[i] in v) && KeysIn(v, u) {
      forall k | 0 <= k < |v| ensures v[k] in u {
        var i :| 0 <= i < |u| && u[i].0 == v[k].0;
        var k' :| 0 <= k' < |v| && v[k'] == u[i];
        assert k' == k;
      }
      SameElementsPermute(u, v);
    }
  }

  lemma NormalMember(f: (string, Json), gs: seq<(string, Json)>)
    requires forall k :: 0 <= k < |gs| ==> (Normal(f.1) == Normal(gs[k].1) <==> SameValue(f.1, gs[k].1))
    ensures NormalField(f) in NormalFields(gs) <==> SameMember(f, gs)
  {
    var v := NormalFields(gs);
    if NormalField(f) in v {
      var k :| 0 <= k < |v| && v[k] == NormalField(f);
      assert v[k] == NormalField(gs[k]);
      assert SameValue(f.1, gs[k].1);
    }
    if SameMember(f, gs) {
      var k :| 0 <= k < |gs| && gs[k].0 == f.0 && SameValue(f.1, gs[k].1);
      assert v[k] == NormalField(gs[k]);
    }
  }

  lemma NormalKeys(fs: seq<(string, Json)>)
    ensures |NormalFields(fs)| == |fs|
    ensures forall i :: 0 <= i < |fs| ==> NormalFields(fs)[i].0 == fs[i].0
    ensures DistinctKeys(fs) ==> DistinctKeys(NormalFields(fs))
  {}

  lemma NormalKeysIn(gs: seq<(string, Json)>, fs: seq<(string, Json)>)
    ensures KeysIn(NormalFields(gs), NormalFields(fs)) <==> KeysIn(gs, fs)
  {
    hide NormalFields;
    NormalKeys(fs);
    NormalKeys(gs);
    var u, v := NormalFields(fs), NormalFields(gs);
    assert forall i :: 0 <= i < |fs| ==> u[i].0 == fs[i].0;
    assert forall k :: 0 <= k < |gs| ==> v[k].0 == gs[k].0;
  }

  lemma NormalObjects(fs: seq<(string, Json)>, gs: seq<(string, Json)>)
    requires DistinctKeys(fs) && DistinctKeys(gs)
    ensures Normal(JObj(fs)) == Normal(JObj(gs)) <==>
            (forall i :: 0 <= i < |fs| ==> NormalField(fs[i]) in NormalFields(gs)) && KeysIn(gs, fs)
  {
    hide Sort, KeysIn, NormalField;
    var u, v := NormalFields(fs), NormalFields(gs);
    NormalKeys(fs);
    NormalKeys(gs);
    SortedMembers(u, v);
    MembersPermute(u, v);
    NormalKeysIn(gs, fs);
    assert forall i :: 0 <= i < |fs| ==> u[i] == NormalField(fs[i]);
  }

  lemma NormalArrays(xs: seq<Json>, ys: seq<Json>)
    ensures Normal(JArr(xs)) == Normal(JArr(ys)) <==>
            |xs| == |ys| && forall i :: 0 <= i < |xs| ==> Normal(xs[i]) == Normal(ys[i])
  {
    var u, v := Normal(JArr(xs)).items, Normal(JArr(ys)).items;
    assert forall i :: 0 <= i < |xs| ==> u[i] == Normal(xs[i]);
    assert forall i :: 0 <= i < |ys| ==> v[i] == Normal(ys[i]);
  }

  /** Two values have one sorted form exactly when they differ in member order alone. */
  lemma {:induction false} NormalSame(a: Json, b: Json)
    requires WellFormed(a) && WellFormed(b)
    ensures Normal(a) == Normal(b) <==> SameValue(a, b)
    decreases a
  {
    match a {
      case JArr(xs) =>
        if b.JArr? {
          NormalArrays(xs, b.items);
          if |xs| == |b.items| {
            forall i | 0 <= i < |xs| ensures Normal(xs[i]) == Normal(b.items[i]) <==> SameValue(xs[i], b.items[i]) {
              NormalSame(xs[i], b.items[i]);
            }
          }
        }
      case JObj(fs) =>
        if b.JObj? {
          NormalObjects(fs, b.fields);
          forall i | 0 <= i < |fs| ensures NormalField(fs[i]) in NormalFields(b.fields) <==> SameMember(fs[i], b.fields) {
            var f := fs[i];
            assert f.1 < f;
            forall k | 0 <= k < |b.fields| ensures Normal(f.1) == Normal(b.fields[k].1) <==> SameValue(f.1, b.fields[k].1) {
              NormalSame(f.1, b.fields[k].1);
            }
            NormalMember(f, b.fields);
          }
        }
      case _ =>
    }
  }

  // Members in strictly ascending order of their keys, at every level.
  ghost predicate KeysAscend(j: Json) {
    match j
    case JArr(xs) => forall i :: 0 <= i < |xs| ==> KeysAscend(xs[i])
    case JObj(fs) =>
      && (forall i, k :: 0 <= i < k < |fs| ==> StrLe(fs[i].0, fs[k].0) && fs[i].0 != fs[k].0)
      && (forall i :: 0 <= i < |fs| ==> var f := fs[i]; KeysAscend(f.1))
    case _ => true
  }

  lemma SortedFields(fs: seq<(string, Json)>)
    requires DistinctKeys(fs)
    ensures var g := Sort(NormalFields(fs), FieldLe);
            && multiset(g) == multiset(NormalFields(fs)) && DistinctKeys(g)
            && forall i, k :: 0 <= i < k < |g| ==> StrLe(g[i].0, g[k].0)
  {
    var u, g := NormalFields(fs), Sort(NormalFields(fs), FieldLe);
    NormalKeys(fs);
    FieldLeTotal();
    SortPermutes(u, FieldLe);
    SortSorts(u, FieldLe);
    forall i, k | 0 <= i < k < |g| ensures StrLe(g[i].0, g[k].0) { assert FieldLe(g[i], g[k]); }
    PermutedKeysDistinct(u, g);
  }

  lemma PermutedKeysDistinct(u: seq<(string, Json)>, g: seq<(string, Json)>)
    requires DistinctKeys(u) && multiset(g) == multiset(u)
    ensures DistinctKeys(g)
  {
    assert NoDuplicates(u);
    forall i, k | 0 <= i < k < |g| ensures g[i].0 != g[k].0 {
      assert g[i] in multiset(u) && g[k] in multiset(u);
      var a :| 0 <= a < |u| && u[a] == g[i];
      var b :| 0 <= b < |u| && u[b] == g[k];
      CountNoDuplicates(u, g[i]);
      CountTwice(g, i, k);
    }
  }

  lemma CountTwice<T>(s: seq<T>, i: nat, k: nat)
    requires i < k < |s|
    ensures s[i] == s[k] ==> multiset(s)[s[i]] >= 2
  {
    assert s == s[..k] + [s[k]] + s[k + 1..];
    assert s[i] in s[..k];
  }

  /** Sorting the keys leaves the value as it is and puts the members of each object in order. */
  lemma {:induction false} NormalAscends(j: Json)
    requires WellFormed(j)
    ensures SameValue(j, Normal(j)) && KeysAscend(Normal(j))
  {
    match j {
      case JArr(xs) =>
        var ys := Normal(j).items;
        forall i | 0 <= i < |xs| ensures SameValue(xs[i], ys[i]) && KeysAscend(ys[i]) { NormalAscends(xs[i]); }
      case JObj(fs) =>
        forall i | 0 <= i < |fs| ensures SameValue(fs[i].1, Normal(fs[i].1)) && KeysAscend(Normal(fs[i].1)) {
          var f := fs[i];
          assert f.1 < f;
          NormalAscends(f.1);
        }
        MembersAscend(fs);
      case _ =>
    }
  }

  lemma NormalIsSorted(fs: seq<(string, Json)>)
    ensures Normal(JObj(fs)) == JObj(Sort(NormalFields(fs), FieldLe))
    ensures |NormalFields(fs)| == |fs|
    ensures forall i :: 0 <= i < |fs| ==> NormalFields(fs)[i] == (fs[i].0, Normal(fs[i].1))
  {}

  lemma ObjectsMatch(fs: seq<(string, Json)>, g: seq<(string, Json)>)
    requires KeysIn(g, fs) && forall i :: 0 <= i < |fs| ==> SameMember(fs[i], g)
    requires DistinctKeys(g) && forall i, k :: 0 <= i < k < |g| ==> StrLe(g[i].0, g[k].0)
    requires forall k :: 0 <= k < |g| ==> KeysAscend(g[k].1)
    ensures SameValue(JObj(fs), JObj(g)) && KeysAscend(JObj(g))
  {
    hide StrLe, SameMember;
  }

  lemma MemberFound(f: (string, Json), v: (string, Json), u: seq<(string, Json)>, g: seq<(string, Json)>)
    requires multiset(g) == multiset(u) && v in u && v.0 == f.0 && SameValue(f.1, v.1)
    ensures SameMember(f, g)
  {
    hide SameValue;
    assert v in multiset(g);
    var k :| 0 <= k < |g| && g[k] == v;
  }

  lemma MembersAscend(fs: seq<(string, Json)>)
    requires DistinctKeys(fs)
    requires forall i :: 0 <= i < |fs| ==> SameValue(fs[i].1, Normal(fs[i].1)) && KeysAscend(Normal(fs[i].1))
    ensures SameValue(JObj(fs), Normal(JObj(fs))) && KeysAscend(Normal(JObj(fs)))
  {
    hide Normal, Sort, StrLe, NormalFields, SameValue, KeysAscend, SameMember, DistinctKeys;
    var u, g := NormalFields(fs), Sort(NormalFields(fs), FieldLe);
    NormalIsSorted(fs);
    SortedFields(fs);
    forall i | 0 <= i < |fs| ensures SameMember(fs[i], g) {
      assert u[i] in u;
      MemberFound(fs[i], u[i], u, g);
    }
    forall k | 0 <= k < |g| ensures (exists i :: 0 <= i < |fs| && fs[i].0 == g[k].0) && KeysAscend(g[k].1) {
      assert g[k] in multiset(u);
      var i :| 0 <= i < |u| && u[i] == g[k];
    }
    assert KeysIn(g, fs);
    hide KeysIn;
    ObjectsMatch(fs, g);
  }

  /** What is printed: one text, read back as the same value with the members of every object in key order. */
  lemma CanonicalTextReads(j: Json)
    requires WellFormed(j)
    ensures var r := ReadValue(CanonicalText(j));
            r.Reads? && r.rest == "" && SameValue(j, r.value) && KeysAscend(r.value)
  {
    NormalAscends(j);
    ReadsBack(Normal(j), "");
  }

  /** The canonical text determines a value up to member order, and nothing more is lost. */
  lemma CanonicalTextDecides(a: Json, b: Json)
    requires WellFormed(a) && WellFormed(b)
    ensures CanonicalText(a) == CanonicalText(b) <==> SameValue(a, b)
  {
    NormalSame(a, b);
    if CanonicalText(a) == CanonicalText(b) {
      CanonicalTextInjective(a, b);
    }
  }

  // ---- Records: objects that share one list of keys -----------------------------------

  function Record(keys: seq<string>, values: seq<Json>): Json
    requires |keys| == |values|
  {
    JObj(seq(|keys|, i requires 0 <= i < |keys| => (keys[i], values[i])))
  }

  ghost predicate SameKeys(s: seq<(string, Json)>, t: seq<(string, Json)>) {
    |s| == |t| && forall i :: 0 <= i < |s| ==> s[i].0 == t[i].0
  }

  lemma {:induction false} InsertByKey(x: (string, Json), y: (string, Json),
                                       s: seq<(string, Json)>, t: seq<(string, Json)>)
    requires x.0 == y.0 && SameKeys(s, t)
    ensures SameKeys(Insert(x, s, FieldLe), Insert(y, t, FieldLe))
    ensures Insert(x, s, FieldLe) == Insert(y, t, FieldLe) ==> x == y && s == t
  {
    if s == [] {
      assert [x][0] == x && [y][0] == y;
    } else if FieldLe(x, s[0]) {
      assert ([x] + s)[0] == x && ([y] + t)[0] == y;
      assert ([x] + s)[1..] == s && ([y] + t)[1..] == t;
    } else {
      InsertByKey(x, y, s[1..], t[1..]);
      var u, v := Insert(x, s[1..], FieldLe), Insert(y, t[1..], FieldLe);
      assert ([s[0]] + u)[0] == s[0] && ([t[0]] + v)[0] == t[0];
      assert ([s[0]] + u)[1..] == u && ([t[0]] + v)[1..] == v;
      assert s == [s[0]] + s[1..] && t == [t[0]] + t[1..];
    }
  }

  lemma {:induction false} SortByKey(s: seq<(string, Json)>, t: seq<(string, Json)>)
    requires SameKeys(s, t)
    ensures SameKeys(Sort(s, FieldLe), Sort(t, FieldLe))
    ensures Sort(s, FieldLe) == Sort(t, FieldLe) ==> s == t
  {
    if s != [] {
      SortByKey(s[1..], t[1..]);
      InsertByKey(s[0], t[0], Sort(s[1..], FieldLe), Sort(t[1..], FieldLe));
      assert s == [s[0]] + s[1..] && t == [t[0]] + t[1..];
    }
  }

  /** Records over one key list print alike only if they agree member by member. */
  lemma RecordDecides(keys: seq<string>, vs: seq<Json>, ws: seq<Json>)
    requires |keys| == |vs| == |ws|
    requires Normal(Record(keys, vs)) == Normal(Record(keys, ws))
    ensures forall i :: 0 <= i < |keys| ==> Normal(vs[i]) == Normal(ws[i])
  {
    var f, g := Record(keys, vs).fields, Record(keys, ws).fields;
    var u, v := NormalFields(f), NormalFields(g);
    assert forall i :: 0 <= i < |keys| ==> u[i] == NormalField(f[i]) && v[i] == NormalField(g[i]);
    assert forall i :: 0 <= i < |keys| ==> f[i] == (keys[i], vs[i]) && g[i] == (keys[i], ws[i]);
    SortByKey(u, v);
    forall i | 0 <= i < |keys| ensures Normal(vs[i]) == Normal(ws[i]) {
      assert u[i] == v[i];
    }
  }
}
