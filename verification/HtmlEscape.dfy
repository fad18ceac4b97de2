/** Package html (go/src/html/escape.go): unescaping in place, escaping, and how both relate to each other
    and to the HTML standard. */
module HtmlEscape {
  import opened Prelude
  import opened Streams
  import opened Utf8

  const AMP: byte := 38
  const HASH: byte := 35
  const SEMICOLON: byte := 59

  // ---------------------------------------------------------------- numeric references

  /** What a digit adds, in base 16 or 10. */
  function DigitOf(c: byte, hex: bool): Option<int> {
    if 48 <= c <= 57 then Some(c as int - 48)
    else if hex && 97 <= c <= 102 then Some(c as int - 97 + 10)
    else if hex && 65 <= c <= 70 then Some(c as int - 65 + 10)
    else None
  }

  /** Where the digits that start at i end. */
  function DigitsEnd(s: seq<byte>, i: nat, hex: bool): (e: nat)
    requires i <= |s|
    ensures i <= e <= |s|
    decreases |s| - i
  {
    if i < |s| && DigitOf(s[i], hex).Some? then DigitsEnd(s, i + 1, hex) else i
  }

  function Radix(hex: bool): int {
    if hex then 16 else 10
  }

  /** The number that the digits stand for. */
  function NumberOf(s: seq<byte>, i: nat, hex: bool, x: int): int
    requires i <= |s|
    decreases |s| - i
  {
    if i < |s| && DigitOf(s[i], hex).Some? then NumberOf(s, i + 1, hex, Radix(hex) * x + DigitOf(s[i], hex).value) else x
  }

  const WORD := 0x1_0000_0000

  /** A rune is a 32-bit signed integer. */
  function ToRune(x: int): int {
    var w := x % WORD;
    if w < 0x8000_0000 then w else w - WORD
  }

  /** The replacements for 0x80 to 0x9F. */
  const REPLACEMENTS: seq<int> :=
    [ 0x20AC, 0x0081, 0x201A, 0x0192, 0x201E, 0x2026, 0x2020, 0x2021,
      0x02C6, 0x2030, 0x0160, 0x2039, 0x0152, 0x008D, 0x017D, 0x008F,
      0x0090, 0x2018, 0x2019, 0x201C, 0x201D, 0x2022, 0x2013, 0x2014,
      0x02DC, 0x2122, 0x0161, 0x203A, 0x0153, 0x009D, 0x017E, 0x0178 ]

  /** The rune that unescapeEntity writes for the number x. */
  function Replacement(x: int): int {
    if 0x80 <= x <= 0x9F then REPLACEMENTS[x - 0x80]
    else if x == 0 || 0xD800 <= x <= 0xDFFF || x > MAX_RUNE then RUNE_ERROR
    else x
  }

  /** A reference that was recognised: the bytes it stands for, and its length. */
  datatype Reference = Reference(bytes: seq<byte>, length: nat)

  /** The numeric reference at the start of s, as unescapeEntity reads it. */
  function NumericRef(s: seq<byte>): (r: Option<Reference>)
    ensures r.Some? ==> 4 <= r.value.length <= |s|
  {
    if |s| <= 3 then None
    else
      var hex := s[2] == 120 || s[2] == 88;
      var start := if hex then 3 else 2;
      var e := DigitsEnd(s, start, hex);
      var i := if e < |s| && s[e] == SEMICOLON then e + 1 else e;
      if i <= 3 then None else Some(Reference(EncodeRune(Replacement(ToRune(NumberOf(s, start, hex, 0)))), i))
  }

  /** A digit by sections 13.2.5.78 and 13.2.5.79 of the HTML standard: its code point less 0x30, 0x37 or 0x57. */
  function StandardDigit(c: byte, hex: bool): Option<int> {
    var p := c as int;
    if hex && 0x41 <= p <= 0x46 then Some(p - 0x37)
    else if hex && 0x61 <= p <= 0x66 then Some(p - 0x57)
    else if 0x30 <= p <= 0x39 then Some(p - 0x30)
    else None
  }

  /** The character reference code after the digits at i, and where they end. */
  function StandardCode(s: seq<byte>, i: nat, hex: bool, code: int): (r: (int, nat))
    requires i <= |s|
    ensures i <= r.1 <= |s|
    decreases |s| - i
  {
    if i == |s| then (code, i)
    else
      match StandardDigit(s[i], hex)
      case None => (code, i)
      case Some(d) => StandardCode(s, i + 1, hex, if hex then code * 16 + d else code * 10 + d)
  }

  /** Section 13.2.5.80: what the code is replaced with. */
  function StandardReplacement(code: int): int {
    if code == 0 || code > 0x10FFFF || 0xD800 <= code <= 0xDFFF then 0xFFFD
    else
      match code
      case 0x80 => 0x20AC case 0x82 => 0x201A case 0x83 => 0x0192 case 0x84 => 0x201E case 0x85 => 0x2026
      case 0x86 => 0x2020 case 0x87 => 0x2021 case 0x88 => 0x02C6 case 0x89 => 0x2030 case 0x8A => 0x0160
      case 0x8B => 0x2039 case 0x8C => 0x0152 case 0x8E => 0x017D case 0x91 => 0x2018 case 0x92 => 0x2019
      case 0x93 => 0x201C case 0x94 => 0x201D case 0x95 => 0x2022 case 0x96 => 0x2013 case 0x97 => 0x2014
      case 0x98 => 0x02DC case 0x99 => 0x2122 case 0x9A => 0x0161 case 0x9B => 0x203A case 0x9C => 0x0153
      case 0x9E => 0x017E case 0x9F => 0x0178
      case _ => code
  }

  /** The numeric reference at the start of s by sections 13.2.5.75 to 13.2.5.80 of the HTML standard. */
  function StandardRef(s: seq<byte>): Option<Reference>
    requires |s| >= 2
  {
    var hex := |s| > 2 && (s[2] == 0x78 || s[2] == 0x58);
    var start := if hex then 3 else 2;
    var (code, e) := StandardCode(s, start, hex, 0);
    if e == start then None
    else Some(Reference(EncodeRune(StandardReplacement(code)), if e < |s| && s[e] == 0x3B then e + 1 else e))
  }

  /** The code knows the same digits, and computes the same number but for its 32 bits. */
  lemma {:induction false} SameCode(s: seq<byte>, i: nat, hex: bool, x: int)
    requires i <= |s|
    ensures StandardCode(s, i, hex, x) == (NumberOf(s, i, hex, x), DigitsEnd(s, i, hex))
    decreases |s| - i
  {
    if i < |s| && DigitOf(s[i], hex).Some? {
      SameCode(s, i + 1, hex, Radix(hex) * x + DigitOf(s[i], hex).value);
    }
  }

  /** The code's table is that of the standard. */
  lemma SameReplacement(x: int)
    ensures x >= 0 ==> Replacement(x) == StandardReplacement(x)
  {
  }

  /** Where the two part: one decimal digit without a semicolon, no hexadecimal digit before a semicolon, and a number
      beyond Unicode that is another rune once it is cut to 32 bits. */
  predicate Quirk(s: seq<byte>)
    requires |s| >= 2
  {
    var hex := |s| > 2 && (s[2] == 120 || s[2] == 88);
    var start := if hex then 3 else 2;
    var e := DigitsEnd(s, start, hex);
    var semicolon := e < |s| && s[e] == SEMICOLON;
    var x := NumberOf(s, start, hex, 0);
    || (!hex && e == 3 && !semicolon)
    || (hex && e == 3 && semicolon)
    || (e > start && (hex || e > 3 || semicolon) && x > MAX_RUNE && ValidRune(ToRune(x)) && ToRune(x) != 0 && ToRune(x) != RUNE_ERROR)
  }

  lemma {:induction false} NumberBound(s: seq<byte>, i: nat, hex: bool, x: int)
    requires i <= |s| && x >= 0
    ensures NumberOf(s, i, hex, x) >= 0
    ensures DigitsEnd(s, i, hex) == i ==> NumberOf(s, i, hex, x) == x
    decreases |s| - i
  {
    if i < |s| && DigitOf(s[i], hex).Some? { NumberBound(s, i + 1, hex, Radix(hex) * x + DigitOf(s[i], hex).value); }
  }

  lemma EncodeInjective(a: int, b: int)
    requires ValidRune(a) && ValidRune(b) && EncodeRune(a) == EncodeRune(b)
    ensures a == b
  {
    hide DecodeRune, EncodeRune;
    DecodeEncode(a, []);
    DecodeEncode(b, []);
  }

  lemma ReplacementIs(x: int)
    ensures x >= 0 ==> ValidRune(Replacement(x)) && (Replacement(x) == RUNE_ERROR <==> x == 0 || x == RUNE_ERROR || !ValidRune(x))
    ensures x < 0 ==> Replacement(x) == x && EncodeRune(x) == EncodeRune(RUNE_ERROR)
  {
  }

  /** A number that is no code point is U+FFFD for both, unless cutting it makes it one. */
  lemma NumberAgrees(x: int)
    requires x >= 0
    ensures EncodeRune(Replacement(ToRune(x))) == EncodeRune(Replacement(x))
            <==> !(x > MAX_RUNE && ValidRune(ToRune(x)) && ToRune(x) != 0 && ToRune(x) != RUNE_ERROR)
  {
    hide EncodeRune, Replacement;
    ReplacementIs(x);
    ReplacementIs(ToRune(x));
    if ToRune(x) >= 0 && EncodeRune(Replacement(ToRune(x))) == EncodeRune(Replacement(x)) {
      EncodeInjective(Replacement(ToRune(x)), Replacement(x));
    }
  }

  /** The code reads a numeric reference as the standard says exactly when it has none of the quirks. */
  lemma NumericFollowsStandard(s: seq<byte>)
    requires |s| >= 2
    ensures NumericRef(s) == StandardRef(s) <==> !Quirk(s)
  {
    hide EncodeRune, Replacement, StandardReplacement, ValidRune, ToRune;
    var hex := |s| > 2 && (s[2] == 120 || s[2] == 88);
    var start := if hex then 3 else 2;
    NumberBound(s, start, hex, 0);
    NumberAgrees(NumberOf(s, start, hex, 0));
    SameCode(s, start, hex, 0);
    SameReplacement(NumberOf(s, start, hex, 0));
  }

  /** "&#1" and "&#x;" are read differently from the standard, and so is "&#x100000041;", which becomes an A. */
  lemma QuirksHappen()
    ensures Quirk([AMP, HASH, 49]) && Quirk([AMP, HASH, 120, SEMICOLON])
    ensures Quirk([AMP, HASH, 120, 49, 48, 48, 48, 48, 48, 48, 52, 49, SEMICOLON])
    ensures NumericRef([AMP, HASH, 120, 49, 48, 48, 48, 48, 48, 48, 52, 49, SEMICOLON]) == Some(Reference([65], 13))
  {
    var s := [AMP, HASH, 49];
    assert DigitsEnd(s, 3, false) == 3 && DigitsEnd(s, 2, false) == 3;
    var t := [AMP, HASH, 120, SEMICOLON];
    assert DigitsEnd(t, 3, true) == 3;
    var u := [AMP, HASH, 120, 49, 48, 48, 48, 48, 48, 48, 52, 49, SEMICOLON];
    assert DigitsEnd(u, 12, true) == 12 && DigitsEnd(u, 11, true) == 12 && DigitsEnd(u, 10, true) == 12;
    assert DigitsEnd(u, 8, true) == 12 && DigitsEnd(u, 6, true) == 12 && DigitsEnd(u, 4, true) == 12;
    assert DigitsEnd(u, 3, true) == 12;
    assert NumberOf(u, 12, true, 0x100000041) == 0x100000041;
    assert NumberOf(u, 11, true, 0x10000004) == 0x100000041;
    assert NumberOf(u, 10, true, 0x1000000) == 0x100000041;
    assert NumberOf(u, 8, true, 0x10000) == 0x100000041;
    assert NumberOf(u, 6, true, 0x100) == 0x100000041;
    assert NumberOf(u, 4, true, 1) == 0x100000041;
    assert NumberOf(u, 3, true, 0) == 0x100000041;
    assert ToRune(0x100000041) == 65;
  }

  // ---------------------------------------------------------------- named references

  predicate IsAlnum(c: byte) {
    97 <= c <= 122 || 65 <= c <= 90 || 48 <= c <= 57
  }

  const LONGEST_WITHOUT_SEMICOLON := 6

  /** The entity tables: a name may stand for one rune, or for two. */
  datatype Pair = Pair(first: int, second: int)

  datatype Entities = Entities(one: map<seq<byte>, int>, two: map<seq<byte>, Pair>)

  function One(t: Entities, name: seq<byte>): int {
    if name in t.one then t.one[name] else 0
  }

  function Two(t: Entities, name: seq<byte>): Pair {
    if name in t.two then t.two[name] else Pair(0, 0)
  }

  function EncodeTwo(rs: Pair): seq<byte> {
    EncodeRune(rs.first) + EncodeRune(rs.second)
  }

  /** An ASCII alphanumeric of the HTML standard. */
  predicate AsciiAlphanumeric(c: byte) {
    0x30 <= c <= 0x39 || 0x41 <= c <= 0x5A || 0x61 <= c <= 0x7A
  }

  lemma SameAlphanumerics(c: byte)
    ensures IsAlnum(c) <==> AsciiAlphanumeric(c)
  {
  }

  /** Letters and digits, then perhaps a semicolon. */
  predicate IsName(name: seq<byte>) {
    name != [] && (forall i :: 0 <= i < |name| - 1 ==> AsciiAlphanumeric(name[i]))
    && (AsciiAlphanumeric(name[|name| - 1]) || (|name| > 1 && name[|name| - 1] == 0x3B))
  }

  /** What the tables promise: no replacement is longer than its reference; names are names; one that has no
      semicolon has two to six bytes, and stands for one rune. */
  ghost predicate ValidEntities(t: Entities) {
    && (forall k <- t.one :: t.one[k] != 0 && IsName(k) && |EncodeRune(t.one[k])| <= |k| + 1
          && (k[|k| - 1] != 0x3B ==> 2 <= |k| <= 6))
    && (forall k <- t.two :: t.two[k].first != 0 && IsName(k) && k[|k| - 1] == SEMICOLON
          && |EncodeTwo(t.two[k])| <= |k| + 1)
  }

  /** Where the longest possible name that starts at i ends. */
  function NameEnd(s: seq<byte>, i: nat): (e: nat)
    requires i <= |s|
    ensures i <= e <= |s|
    decreases |s| - i
  {
    if i == |s| then i
    else if IsAlnum(s[i]) then NameEnd(s, i + 1)
    else if s[i] == SEMICOLON then i + 1
    else i
  }

  /** The longest entity of at most j bytes that name starts with; one byte is too short. */
  function LongestPrefix(t: Entities, name: seq<byte>, j: int): (k: int)
    requires j <= |name|
    ensures k == 0 || (1 < k <= j && One(t, name[..k]) != 0)
    ensures forall i :: 1 < i <= j && i > k ==> One(t, name[..i]) == 0
    decreases j
  {
    if j <= 1 then 0 else if One(t, name[..j]) != 0 then j else LongestPrefix(t, name, j - 1)
  }

  /** The named reference at the start of s; what names nothing is copied. */
  function NamedRef(t: Entities, s: seq<byte>): (r: Reference)
    requires s != []
    ensures 1 <= r.length <= |s|
  {
    var i := NameEnd(s, 1);
    var name := s[1..i];
    var verbatim := Reference(s[..i], i);
    if name == [] then verbatim
    else if One(t, name) != 0 then Reference(EncodeRune(One(t, name)), i)
    else if Two(t, name).first != 0 then Reference(EncodeTwo(Two(t, name)), i)
    else
      var j := LongestPrefix(t, name, Min(|name| - 1, LONGEST_WITHOUT_SEMICOLON));
      if j > 0 then Reference(EncodeRune(One(t, name[..j])), j + 1) else verbatim
  }

  /** What unescapeEntity makes of s, which starts with an ampersand. */
  function ReferenceAt(t: Entities, s: seq<byte>): (r: Reference)
    requires s != []
    ensures 1 <= r.length <= |s|
  {
    if |s| <= 1 then Reference(s[..1], 1)
    else if s[1] == HASH then
      match NumericRef(s)
      case Some(r) => r
      case None => Reference(s[..1], 1)
    else NamedRef(t, s)
  }

  /** No reference grows when it is replaced. */
  lemma ReferenceShrinks(t: Entities, s: seq<byte>)
    requires s != [] && ValidEntities(t)
    ensures |ReferenceAt(t, s).bytes| <= ReferenceAt(t, s).length
  {
    hide EncodeRune, NameEnd, LongestPrefix, IsName;
  }

  // ---------------------------------------------------------------- the text

  function Unescaped(t: Entities, s: seq<byte>): seq<byte>
    decreases |s|
  {
    if s == [] then []
    else if s[0] == AMP then ReferenceAt(t, s).bytes + Unescaped(t, s[ReferenceAt(t, s).length..])
    else [s[0]] + Unescaped(t, s[1..])
  }

  function EscapeByte(c: byte): seq<byte> {
    if c == AMP then [38, 97, 109, 112, 59]
    else if c == 39 then [38, 35, 51, 57, 59]
    else if c == 60 then [38, 108, 116, 59]
    else if c == 62 then [38, 103, 116, 59]
    else if c == 34 then [38, 35, 51, 52, 59]
    else [c]
  }

  /** EscapeString */
  function Escape(s: seq<byte>): seq<byte> {
    if s == [] then [] else EscapeByte(s[0]) + Escape(s[1..])
  }

  /** <, >, ', " and & */
  predicate IsSpecial(c: byte) {
    c == 60 || c == 62 || c == 39 || c == 34 || c == 38
  }

  /** s starts with &amp; or &lt; or &gt; or &#39; or &#34; */
  predicate StartsReference(s: seq<byte>) {
    || [38, 97, 109, 112, 59] <= s || [38, 108, 116, 59] <= s || [38, 103, 116, 59] <= s
    || [38, 35, 51, 57, 59] <= s || [38, 35, 51, 52, 59] <= s
  }

  /** Escaped text holds no special character but the ampersands of its references. Text without special
      characters is left as it is. */
  lemma EscapedIsPlain(s: seq<byte>)
    ensures forall i :: 0 <= i < |Escape(s)| && IsSpecial(Escape(s)[i]) ==> StartsReference(Escape(s)[i..])
    ensures (forall c <- s :: !IsSpecial(c)) ==> Escape(s) == s
  {
    hide Escape, IsSpecial, StartsReference;
    forall i | 0 <= i < |Escape(s)| && IsSpecial(Escape(s)[i])
      ensures StartsReference(Escape(s)[i..])
    {
      SpecialStarts(s, i);
    }
    if forall c <- s :: !IsSpecial(c) { PlainIsLeft(s); }
  }

  lemma {:induction false} SpecialStarts(s: seq<byte>, i: nat)
    requires i < |Escape(s)| && IsSpecial(Escape(s)[i])
    ensures StartsReference(Escape(s)[i..])
  {
    hide IsSpecial, StartsReference, EscapeByte;
    var head, rest := EscapeByte(s[0]), Escape(s[1..]);
    if i < |head| {
      EscapeByteIs(s[0], i, rest);
    } else {
      SpecialStarts(s[1..], i - |head|);
      assert (head + rest)[i..] == rest[i - |head|..];
    }
  }

  lemma {:induction false} PlainIsLeft(s: seq<byte>)
    requires forall c <- s :: !IsSpecial(c)
    ensures Escape(s) == s
  {
    if s != [] {
      assert s[0] in s && forall c <- s[1..] :: c in s;
      PlainIsLeft(s[1..]);
      assert s == [s[0]] + s[1..];
    }
  }

  lemma EscapeByteIs(c: byte, i: nat, rest: seq<byte>)
    requires i < |EscapeByte(c)| && IsSpecial(EscapeByte(c)[i])
    ensures i == 0 && StartsReference((EscapeByte(c) + rest)[i..])
  {
    assert (EscapeByte(c) + rest)[0..] == EscapeByte(c) + rest;
  }

  // ---------------------------------------------------------------- escaping is undone

  /** The three names that EscapeString uses. */
  predicate KnowsEscapes(t: Entities) {
    One(t, [97, 109, 112, 59]) == 38 && One(t, [108, 116, 59]) == 60 && One(t, [103, 116, 59]) == 62
  }

  lemma NamedEscape(t: Entities, s: seq<byte>, n: nat, c: int)
    requires 1 <= n && n + 1 < |s| && s[0] == AMP && s[1] != HASH
    requires (forall k :: 1 <= k <= n ==> IsAlnum(s[k])) && s[n + 1] == SEMICOLON
    requires One(t, s[1..n + 2]) == c != 0
    ensures ReferenceAt(t, s) == Reference(EncodeRune(c), n + 2)
  {
    hide EncodeRune, LongestPrefix;
    NameEndRun(s, 1, n + 1);
    assert !IsAlnum(s[n + 1]);
    assert NameEnd(s, n + 1) == n + 2;
  }

  lemma {:induction false} NameEndRun(s: seq<byte>, i: nat, j: nat)
    requires i <= j <= |s| && forall k :: i <= k < j ==> IsAlnum(s[k])
    ensures NameEnd(s, i) == NameEnd(s, j)
    decreases j - i
  {
    if i < j { NameEndRun(s, i + 1, j); }
  }

  lemma NumericEscape(t: Entities, s: seq<byte>, a: byte, b: byte)
    requires |s| >= 5 && s[..5] == [AMP, HASH, a, b, SEMICOLON] && 48 <= a <= 57 && 48 <= b <= 57
    ensures var x := 10 * (a as int - 48) + b as int - 48;
            0 < x < 0x80 ==> ReferenceAt(t, s) == Reference([x as byte], 5)
  {
    assert s[0] == AMP && s[1] == HASH && s[2] == a && s[3] == b && s[4] == SEMICOLON by {
      assert s[0] == s[..5][0] && s[1] == s[..5][1] && s[2] == s[..5][2] && s[3] == s[..5][3] && s[4] == s[..5][4];
    }
    assert DigitsEnd(s, 3, false) == 4 && DigitsEnd(s, 2, false) == 4;
    var x := 10 * (a as int - 48) + b as int - 48;
    assert NumberOf(s, 4, false, x) == x;
    assert NumberOf(s, 3, false, a as int - 48) == x;
    assert NumberOf(s, 2, false, 0) == x;
    assert 0 < x < 0x80 ==> ToRune(x) == x && Replacement(x) == x;
  }

  /** The reference that replaces c stands for c, whatever follows it. */
  lemma EscapeIsReference(t: Entities, c: byte, rest: seq<byte>)
    requires KnowsEscapes(t) && EscapeByte(c) != [c]
    ensures var s := EscapeByte(c) + rest; s[0] == AMP && ReferenceAt(t, s) == Reference([c], |EscapeByte(c)|)
  {
    hide NamedRef, NumericRef;
    var e := EscapeByte(c);
    var s := e + rest;
    assert s[..|e|] == e && s[1..|e|] == e[1..] && forall k :: 0 <= k < |e| ==> s[k] == e[k];
    if c == 39 {
      NumericEscape(t, s, 51, 57);
    } else if c == 34 {
      NumericEscape(t, s, 51, 52);
    } else {
      assert e[1..] == if c == 38 then [97, 109, 112, 59] else if c == 60 then [108, 116, 59] else [103, 116, 59];
      NamedEscape(t, s, |e| - 2, c as int);
    }
  }

  /** UnescapeString(EscapeString(s)) == s. */
  lemma {:induction false} UnescapeUndoesEscape(t: Entities, s: seq<byte>)
    requires KnowsEscapes(t)
    ensures Unescaped(t, Escape(s)) == s
  {
    hide ReferenceAt, KnowsEscapes;
    if s != [] {
      var c, rest := s[0], Escape(s[1..]);
      UnescapeUndoesEscape(t, s[1..]);
      if EscapeByte(c) != [c] {
        EscapeIsReference(t, c, rest);
      }
      assert (EscapeByte(c) + rest)[|EscapeByte(c)|..] == rest;
    }
  }

  // ---------------------------------------------------------------- the longest name wins

  /** What a name stands for. */
  function Meaning(t: Entities, name: seq<byte>): seq<byte> {
    if One(t, name) != 0 then EncodeRune(One(t, name)) else EncodeRune(Two(t, name).first) + EncodeRune(Two(t, name).second)
  }

  predicate Known(t: Entities, name: seq<byte>) {
    name in t.one || name in t.two
  }

  lemma NameFits(s: seq<byte>, k: seq<byte>)
    requires s != [] && IsName(k) && k <= s[1..]
    ensures |k| + 1 <= NameEnd(s, 1) && (k[|k| - 1] == SEMICOLON ==> |k| + 1 == NameEnd(s, 1))
  {
    var n := |k|;
    forall j | 1 <= j <= n
      ensures s[j] == k[j - 1] && (j < n ==> IsAlnum(s[j]))
    {
      assert s[j] == s[1..][j - 1] == k[j - 1];
    }
    NameEndRun(s, 1, n);
    assert s[n] == SEMICOLON ==> !IsAlnum(s[n]) && NameEnd(s, n) == n + 1;
  }

  /** Section 13.2.5.73 of the HTML standard: as many characters as possible are consumed that match a known name. */
  lemma LongestNameWins(t: Entities, s: seq<byte>, k: seq<byte>)
    requires ValidEntities(t) && s != [] && Known(t, k) && k <= s[1..]
    ensures var r := NamedRef(t, s);
            |k| < r.length && Known(t, s[1..r.length]) && r.bytes == Meaning(t, s[1..r.length])
  {
    hide EncodeRune, NamedRef, ValidEntities, IsName;
    KnownShape(t, k);
    NameFits(s, k);
    var name := s[1..NameEnd(s, 1)];
    assert name[..|k|] == k;
    NamedCases(t, s);
    if |k| == |name| {
      assert name == k;
    } else {
      var j := LongestPrefix(t, name, Min(|name| - 1, LONGEST_WITHOUT_SEMICOLON));
      assert name[..j] == s[1..j + 1];
      assert One(t, name[..|k|]) != 0;
    }
  }

  lemma KnownShape(t: Entities, k: seq<byte>)
    requires ValidEntities(t) && Known(t, k)
    ensures IsName(k) && (One(t, k) != 0 || Two(t, k).first != 0)
    ensures k[|k| - 1] != SEMICOLON ==> One(t, k) != 0 && 2 <= |k| <= LONGEST_WITHOUT_SEMICOLON
  {
  }

  lemma NamedCases(t: Entities, s: seq<byte>)
    requires s != []
    ensures var name := s[1..NameEnd(s, 1)];
            var j := LongestPrefix(t, name, Min(|name| - 1, LONGEST_WITHOUT_SEMICOLON));
            NamedRef(t, s) == if name != [] && (One(t, name) != 0 || Two(t, name).first != 0) then
                                Reference(Meaning(t, name), NameEnd(s, 1))
                              else if j > 0 then Reference(Meaning(t, name[..j]), j + 1)
                              else Reference(s[..NameEnd(s, 1)], NameEnd(s, 1))
  {
  }

  // ---------------------------------------------------------------- unescaping in place

  /** The digits loop of unescapeEntity, in 32-bit runes: the number, and where the reference ends. */
  method ReadNumber(s: seq<byte>, start: nat, hex: bool) returns (x: int, i: nat)
    requires start <= |s|
    ensures x == ToRune(NumberOf(s, start, hex, 0))
    ensures var e := DigitsEnd(s, start, hex); i == if e < |s| && s[e] == SEMICOLON then e + 1 else e
  {
    hide ToRune;
    x, i := 0, start;
    ghost var exact := 0;
    RuneStep(0, 0, 0, 0);
    while i < |s|
      invariant start <= i <= |s| && x == ToRune(exact)
      invariant NumberOf(s, i, hex, exact) == NumberOf(s, start, hex, 0) && DigitsEnd(s, i, hex) == DigitsEnd(s, start, hex)
    {
      var d := DigitOf(s[i], hex);
      if d.Some? {
        RuneStep(x, exact, Radix(hex), d.value);
        x, exact, i := ToRune(Radix(hex) * x + d.value), Radix(hex) * exact + d.value, i + 1;
      } else {
        if s[i] == SEMICOLON {
          i := i + 1;
        }
        return;
      }
    }
  }

  /** Cutting to 32 bits at every step is cutting at the end. */
  lemma RuneStep(x: int, exact: int, radix: int, d: int)
    ensures x == ToRune(exact) ==> ToRune(radix * x + d) == ToRune(radix * exact + d)
    ensures ToRune(0) == 0
  {
    if x == ToRune(exact) {
      var k := (exact - x) / WORD;
      assert exact == x + k * WORD;
      assert radix * exact + d == radix * x + d + (radix * k) * WORD;
      RuneOfSum(radix * x + d, radix * k);
    }
  }

  lemma RuneOfSum(x: int, k: int)
    ensures ToRune(x + k * WORD) == ToRune(x)
  {
  }

  /** The name loop of unescapeEntity. */
  method ReadName(s: seq<byte>) returns (i: nat)
    requires s != []
    ensures i == NameEnd(s, 1)
  {
    i := 1;
    while i < |s|
      invariant 1 <= i <= |s| && NameEnd(s, i) == NameEnd(s, 1)
    {
      if !IsAlnum(s[i]) {
        if s[i] == SEMICOLON {
          i := i + 1;
        }
        return;
      }
      i := i + 1;
    }
  }

  /** The loop that tries shorter and shorter prefixes of a name. */
  method FindPrefix(t: Entities, name: seq<byte>) returns (j: int)
    requires name != []
    ensures j == LongestPrefix(t, name, Min(|name| - 1, LONGEST_WITHOUT_SEMICOLON))
  {
    j := |name| - 1;
    if j > LONGEST_WITHOUT_SEMICOLON {
      j := LONGEST_WITHOUT_SEMICOLON;
    }
    while j > 1
      invariant 0 <= j < |name| && LongestPrefix(t, name, j) == LongestPrefix(t, name, Min(|name| - 1, LONGEST_WITHOUT_SEMICOLON))
    {
      if One(t, name[..j]) != 0 {
        return;
      }
      j := j - 1;
    }
    j := 0;
  }

  /** bytes were written at dst, and nothing from src on was touched. */
  ghost predicate Wrote(before: seq<byte>, after: seq<byte>, dst: nat, bytes: seq<byte>, src: nat) {
    && |before| == |after| && dst + |bytes| <= src <= |before|
    && after[..dst] == before[..dst] && after[dst..dst + |bytes|] == bytes && after[src..] == before[src..]
  }

  /** utf8.EncodeRune(b[at:], r), where it does not reach beyond limit. */
  method EncodeInto(b: array<byte>, at: nat, r: int, ghost limit: nat) returns (n: nat)
    requires at + |EncodeRune(r)| <= limit <= b.Length
    modifies b
    ensures n == |EncodeRune(r)| && Wrote(old(b[..]), b[..], at, EncodeRune(r), limit)
  {
    hide EncodeRune;
    var e := EncodeRune(r);
    n := |e|;
    forall i | 0 <= i < n {
      b[at + i] := e[i];
    }
  }

  /** copy(b[dst:dst+n], b[src:src+n]) */
  method CopyWithin(b: array<byte>, dst: nat, src: nat, n: nat)
    requires dst <= src && src + n <= b.Length
    modifies b
    ensures Wrote(old(b[..]), b[..], dst, old(b[src..src + n]), src + n)
  {
    forall i | 0 <= i < n {
      b[dst + i] := b[src + i];
    }
  }

  /** The part of unescapeEntity for references that start with "&#". */
  method UnescapeNumeric(b: array<byte>, dst: nat, src: nat) returns (dst1: nat, src1: nat)
    requires dst <= src && src + 1 < b.Length
    modifies b
    ensures var s := old(b[src..]);
            var r := if NumericRef(s).Some? then NumericRef(s).value else Reference(s[..1], 1);
            src1 == src + r.length && dst1 == dst + |r.bytes| && Wrote(old(b[..]), b[..], dst, r.bytes, src1)
  {
    hide EncodeRune, DigitsEnd, NumberOf, ToRune, Replacement, Wrote;
    var s := b[src..];
    assert s[..1] == b[src..src + 1];
    if |s| <= 3 {
      CopyWithin(b, dst, src, 1);
      return dst + 1, src + 1;
    }
    var hex := s[2] == 120 || s[2] == 88;
    var x, i := ReadNumber(s, if hex then 3 else 2, hex);
    if i <= 3 {
      CopyWithin(b, dst, src, 1);
      return dst + 1, src + 1;
    }
    x := Replacement(x);
    var n := EncodeInto(b, dst, x, src + i);
    return dst + n, src + i;
  }

  /** The part of unescapeEntity for named references. */
  method UnescapeNamed(t: Entities, b: array<byte>, dst: nat, src: nat) returns (dst1: nat, src1: nat)
    requires ValidEntities(t) && dst <= src < b.Length
    modifies b
    ensures var r := NamedRef(t, old(b[src..]));
            src1 == src + r.length && dst1 == dst + |r.bytes| && Wrote(old(b[..]), b[..], dst, r.bytes, src1)
  {
    hide EncodeRune, ValidEntities, NamedRef, Wrote, Meaning;
    var s := b[src..];
    NamedShrinks(t, s);
    NamedCases(t, s);
    var i := ReadName(s);
    var name := s[1..i];
    assert s[..i] == b[src..src + i];
    if name != [] {
      if One(t, name) != 0 || Two(t, name).first != 0 {
        dst1 := WriteMeaning(t, b, dst, name, src + i);
        return dst1, src + i;
      }
      var j := FindPrefix(t, name);
      if j > 0 {
        OneMeaning(t, name[..j]);
        var n := EncodeInto(b, dst, One(t, name[..j]), src + j + 1);
        return dst + n, src + j + 1;
      }
    }
    CopyWithin(b, dst, src, i);
    return dst + i, src + i;
  }

  lemma OneMeaning(t: Entities, name: seq<byte>)
    ensures One(t, name) != 0 ==> Meaning(t, name) == EncodeRune(One(t, name))
  {
  }

  /** What a known name stands for: one character, or two. */
  method WriteMeaning(t: Entities, b: array<byte>, dst: nat, name: seq<byte>, ghost limit: nat) returns (dst1: nat)
    requires One(t, name) != 0 || Two(t, name).first != 0
    requires dst + |Meaning(t, name)| <= limit <= b.Length
    modifies b
    ensures dst1 == dst + |Meaning(t, name)| && Wrote(old(b[..]), b[..], dst, Meaning(t, name), limit)
  {
    hide EncodeRune, Wrote;
    if One(t, name) != 0 {
      var n := EncodeInto(b, dst, One(t, name), limit);
      return dst + n;
    }
    dst1 := EncodeTwoInto(b, dst, Two(t, name), limit);
  }

  method EncodeTwoInto(b: array<byte>, dst: nat, two: Pair, ghost limit: nat) returns (dst1: nat)
    requires dst + |EncodeTwo(two)| <= limit <= b.Length
    modifies b
    ensures dst1 == dst + |EncodeTwo(two)| && Wrote(old(b[..]), b[..], dst, EncodeTwo(two), limit)
  {
    hide EncodeRune;
    var n := EncodeInto(b, dst, two.first, limit);
    var m := EncodeInto(b, dst + n, two.second, limit);
    assert b[dst..dst + n] == b[..dst + n][dst..];
    return dst + n + m;
  }

  lemma NamedShrinks(t: Entities, s: seq<byte>)
    requires s != [] && ValidEntities(t)
    ensures |NamedRef(t, s).bytes| <= NamedRef(t, s).length
  {
    hide EncodeRune, NameEnd, LongestPrefix, IsName;
  }

  /** unescapeEntity: replaces the reference at src by what it stands for, at dst; what is still to be read stays. */
  method UnescapeEntity(t: Entities, b: array<byte>, dst: nat, src: nat) returns (dst1: nat, src1: nat)
    requires ValidEntities(t) && dst <= src < b.Length
    modifies b
    ensures var r := ReferenceAt(t, old(b[src..]));
            src1 == src + r.length && dst1 == dst + |r.bytes| && Wrote(old(b[..]), b[..], dst, r.bytes, src1)
  {
    hide NamedRef, NumericRef, Wrote;
    assert b[src..][..1] == b[src..src + 1];
    if b.Length - src <= 1 {
      CopyWithin(b, dst, src, 1);
      return dst + 1, src + 1;
    }
    if b[src + 1] == HASH {
      dst1, src1 := UnescapeNumeric(b, dst, src);
    } else {
      dst1, src1 := UnescapeNamed(t, b, dst, src);
    }
  }

  /** Where UnescapeString stands: the text up to src is unescaped in b[..dst], the rest is untouched. */
  ghost predicate Progress(t: Entities, s: seq<byte>, b: seq<byte>, dst: nat, src: nat) {
    dst <= src <= |s| == |b| && b[src..] == s[src..] && b[..dst] + Unescaped(t, s[src..]) == Unescaped(t, s)
  }

  /** Text without ampersands stays as it is. */
  lemma {:induction false} PlainIsKept(t: Entities, s: seq<byte>, i: nat)
    requires i <= |s| && AMP !in s[..i]
    ensures Unescaped(t, s) == s[..i] + Unescaped(t, s[i..])
  {
    hide ReferenceAt;
    if i > 0 {
      assert s[0] == s[..i][0] && forall c <- s[1..][..i - 1] :: c in s[..i];
      PlainIsKept(t, s[1..], i - 1);
      assert s[..i] == [s[0]] + s[1..][..i - 1] && s[1..][i - 1..] == s[i..];
    } else {
      assert s[0..] == s && s[..0] + Unescaped(t, s) == Unescaped(t, s);
    }
  }

  lemma PlainStep(t: Entities, s: seq<byte>, b0: seq<byte>, b1: seq<byte>, dst: nat, src: nat, i: nat)
    requires Progress(t, s, b0, dst, src) && src + i <= |s| && AMP !in s[src..src + i]
    requires Wrote(b0, b1, dst, s[src..src + i], src + i)
    ensures Progress(t, s, b1, dst + i, src + i)
  {
    hide Unescaped;
    assert s[src..][..i] == s[src..src + i] && s[src..][i..] == s[src + i..];
    PlainIsKept(t, s[src..], i);
    assert b0[src + i..] == b0[src..][i..] == s[src + i..];
    Appended(b0[..dst], s[src..src + i], Unescaped(t, s[src + i..]));
    assert b1[..dst + i] == b1[..dst] + b1[dst..dst + i];
  }

  lemma Appended(a: seq<byte>, b: seq<byte>, c: seq<byte>)
    ensures a + (b + c) == a + b + c
  {
  }

  lemma ReferenceStep(t: Entities, s: seq<byte>, b0: seq<byte>, b1: seq<byte>, dst: nat, src: nat)
    requires Progress(t, s, b0, dst, src) && src < |s| && s[src] == AMP
    requires var r := ReferenceAt(t, b0[src..]); Wrote(b0, b1, dst, r.bytes, src + r.length)
    ensures var r := ReferenceAt(t, b0[src..]); Progress(t, s, b1, dst + |r.bytes|, src + r.length)
  {
    hide ReferenceAt;
    var r := ReferenceAt(t, b0[src..]);
    assert s[src..][r.length..] == s[src + r.length..] && s[src..][0] == AMP;
    assert b0[src + r.length..] == b0[src..][r.length..] == s[src + r.length..];
    Appended(b0[..dst], r.bytes, Unescaped(t, s[src + r.length..]));
    assert b1[..dst + |r.bytes|] == b1[..dst] + b1[dst..dst + |r.bytes|];
  }

  /** copy(b[dst:], s[src:src+i]) */
  method CopyPlain(t: Entities, s: seq<byte>, b: array<byte>, dst: nat, src: nat, i: nat)
    requires Progress(t, s, b[..], dst, src) && src + i <= |s| && AMP !in s[src..src + i]
    modifies b
    ensures Progress(t, s, b[..], dst + i, src + i)
  {
    hide Progress;
    ghost var before := b[..];
    ProgressBounds(t, s, before, dst, src);
    CopyTo(b, dst, s[src..src + i]);
    assert b[..][..dst] == b[..dst + i][..dst] && b[..][dst..dst + i] == b[..dst + i][dst..];
    assert b[..][src + i..] == b[dst + i..][src - dst..] == before[dst + i..][src - dst..] == before[src + i..];
    PlainStep(t, s, before, b[..], dst, src, i);
  }

  lemma ProgressBounds(t: Entities, s: seq<byte>, b: seq<byte>, dst: nat, src: nat)
    requires Progress(t, s, b, dst, src)
    ensures dst <= src <= |s| == |b| && b[src..] == s[src..] && (src == |s| ==> b[..dst] == Unescaped(t, s))
  {
    assert src == |s| ==> b[..dst] + [] == b[..dst];
  }

  /** The call of unescapeEntity for the next ampersand. */
  method UnescapeNext(t: Entities, s: seq<byte>, b: array<byte>, dst: nat, src: nat) returns (dst1: nat, src1: nat)
    requires ValidEntities(t) && Progress(t, s, b[..], dst, src) && src < |s| && s[src] == AMP
    modifies b
    ensures src < src1 <= |s| && Progress(t, s, b[..], dst1, src1)
  {
    hide ValidEntities, ReferenceAt, Progress, Wrote;
    ghost var before := b[..];
    ProgressBounds(t, s, before, dst, src);
    assert b[src..] == before[src..];
    dst1, src1 := UnescapeEntity(t, b, dst, src);
    ReferenceStep(t, s, before, b[..], dst, src);
    ProgressBounds(t, s, b[..], dst1, src1);
  }

  /** UnescapeString: works in one buffer, and never overwrites a byte that is still to be read. */
  method UnescapeString(t: Entities, s: seq<byte>) returns (u: seq<byte>)
    requires ValidEntities(t)
    ensures u == Unescaped(t, s)
  {
    hide ValidEntities, ReferenceAt, IndexByte, Unescaped, Progress, Wrote;
    var i := IndexByte(s, AMP);
    Untouched(t, s, if i < 0 then |s| else i);
    if i < 0 {
      return s;
    }
    var b := new byte[|s|](k requires 0 <= k < |s| => s[k]);
    assert b[..] == s;
    var dst: nat, src: nat := UnescapeNext(t, s, b, i, i);
    while src < |s|
      invariant src <= |s| && Progress(t, s, b[..], dst, src)
      decreases |s| - src
    {
      i := if s[src] == AMP then 0 else IndexByte(s[src..], AMP);
      ProgressBounds(t, s, b[..], dst, src);
      FirstAmpersand(s, src);
      if i < 0 {
        CopyPlain(t, s, b, dst, src, |s| - src);
        dst, src := dst + |s| - src, |s|;
        break;
      }
      if i > 0 {
        CopyPlain(t, s, b, dst, src, i);
      }
      dst, src := UnescapeNext(t, s, b, dst + i, src + i);
    }
    ProgressBounds(t, s, b[..], dst, src);
    return b[..dst];
  }

  /** Before the first ampersand nothing changes. */
  lemma Untouched(t: Entities, s: seq<byte>, i: nat)
    requires i <= |s| && AMP !in s[..i]
    ensures Progress(t, s, s, i, i) && (i == |s| ==> Unescaped(t, s) == s)
  {
    hide Unescaped;
    PlainIsKept(t, s, i);
    if i == |s| {
      NothingLeft(t);
      assert s[..i] + [] == s;
    }
  }

  lemma NothingLeft(t: Entities)
    ensures Unescaped(t, []) == []
  {
  }

  lemma FirstAmpersand(s: seq<byte>, src: nat)
    requires src < |s|
    ensures var i := if s[src] == AMP then 0 else IndexByte(s[src..], AMP);
            if i < 0 then AMP !in s[src..|s|] else src + i < |s| && s[src + i] == AMP && AMP !in s[src..src + i]
  {
    hide IndexByte;
    var i := IndexByte(s[src..], AMP);
    assert s[src..|s|] == s[src..];
    if i >= 0 { assert s[src..src + i] == s[src..][..i]; }
  }
}
