/** Formatting integers in package fmt (go/src/fmt/format.go): written right to left into a buffer of fixed size. */
module FmtInteger {
  import opened Prelude

  const WORD := 0x1_0000_0000_0000_0000
  const INTBUF_SIZE := 68

  datatype Flags = Flags(widPresent: bool, precPresent: bool, minus: bool, plus: bool, sharp: bool, space: bool, zero: bool)

  // ---------------------------------------------------------------- what is printed

  /** The digits of u, most significant first. */
  function Digits(u: nat, base: nat, digits: string): (s: string)
    requires 2 <= base <= 16 && |digits| == 17
    ensures s != []
    decreases u
  {
    if u < base then [digits[u]] else Digits(u / base, base, digits) + [digits[u % base]]
  }

  function Repeat(c: char, n: int): (s: string)
    ensures |s| == Max(n, 0)
  {
    if n <= 0 then "" else [c] + Repeat(c, n - 1)
  }

  predicate Negative(u: nat, isSigned: bool) {
    isSigned && u >= WORD / 2
  }

  /** The absolute value of a 64-bit word. */
  function Magnitude(u: nat, isSigned: bool): nat
    requires u < WORD
  {
    if Negative(u, isSigned) then WORD - u else u
  }

  /** How many digits there must be at least. */
  function MinDigits(f: Flags, wid: int, prec: int, negative: bool): int {
    if f.precPresent then prec
    else if f.zero && !f.minus && f.widPresent then if negative || f.plus || f.space then wid - 1 else wid
    else 0
  }

  function ZeroExtended(minDigits: int, s: string): string {
    Repeat('0', minDigits - |s|) + s
  }

  function SharpPrefix(f: Flags, base: nat, digits: string, body: string): string
    requires |digits| == 17 && body != ""
  {
    if !f.sharp then ""
    else if base == 2 then "0b"
    else if base == 8 then if body[0] != '0' then "0" else ""
    else if base == 16 then ['0', digits[16]]
    else ""
  }

  function VerbPrefix(verb: char): string {
    if verb == 'O' then "0o" else ""
  }

  function Sign(f: Flags, negative: bool): string {
    if negative then "-" else if f.plus then "+" else if f.space then " " else ""
  }

  /** A sign, the prefixes, and a numeral of at least minDigits digits. */
  function Numeral(f: Flags, minDigits: int, mag: nat, negative: bool, base: nat, verb: char, digits: string): string
    requires 2 <= base <= 16 && |digits| == 17
  {
    var body := ZeroExtended(minDigits, Digits(mag, base, digits));
    Sign(f, negative) + (VerbPrefix(verb) + (SharpPrefix(f, base, digits, body) + body))
  }

  function Text(f: Flags, wid: int, prec: int, u: nat, base: nat, isSigned: bool, verb: char, digits: string): string
    requires u < WORD && 2 <= base <= 16 && |digits| == 17
  {
    var negative := Negative(u, isSigned);
    Numeral(f, MinDigits(f, wid, prec, negative), Magnitude(u, isSigned), negative, base, verb, digits)
  }

  /** pad */
  function Padded(f: Flags, wid: int, s: string): string {
    if !f.widPresent || wid == 0 then s
    else
      var padding := Repeat(if f.zero && !f.minus then '0' else ' ', wid - |s|);
      if f.minus then s + padding else padding + s
  }

  /** fmtInteger */
  function Output(f: Flags, wid: int, prec: int, u: nat, base: nat, isSigned: bool, verb: char, digits: string): string
    requires u < WORD && 2 <= base <= 16 && |digits| == 17
  {
    if f.precPresent && prec == 0 && u == 0 then Repeat(' ', wid)
    else Padded(f.(zero := false), wid, Text(f, wid, prec, u, base, isSigned, verb, digits))
  }

  lemma OutputCases(f: Flags, wid: int, prec: int, u: nat, base: nat, isSigned: bool, verb: char, digits: string)
    requires u < WORD && 2 <= base <= 16 && |digits| == 17
    ensures Output(f, wid, prec, u, base, isSigned, verb, digits)
            == if f.precPresent && prec == 0 && u == 0 then Repeat(' ', wid)
               else Padded(f.(zero := false), wid, Text(f, wid, prec, u, base, isSigned, verb, digits))
  {
    hide Text, Padded;
  }

  // ---------------------------------------------------------------- it reads back

  /** The digit tables are those of the source. */
  predicate IsDigitTable(digits: string) {
    digits == "0123456789abcdefx" || digits == "0123456789ABCDEFX"
  }

  function DigitValue(c: char): int {
    if '0' <= c <= '9' then c as int - '0' as int
    else if 'a' <= c <= 'f' then c as int - 'a' as int + 10
    else if 'A' <= c <= 'F' then c as int - 'A' as int + 10
    else 0
  }

  /** The number that a numeral stands for. */
  function Value(s: string, base: nat): int {
    if s == "" then 0 else Value(s[..|s| - 1], base) * base + DigitValue(s[|s| - 1])
  }

  lemma TableValues(digits: string, d: nat)
    requires IsDigitTable(digits) && d < 16
    ensures |digits| == 17 && DigitValue(digits[d]) == d
  {
    if d < 8 {
      assert d == 0 || d == 1 || d == 2 || d == 3 || d == 4 || d == 5 || d == 6 || d == 7;
    } else {
      assert d == 8 || d == 9 || d == 10 || d == 11 || d == 12 || d == 13 || d == 14 || d == 15;
    }
  }

  lemma DivMod(u: nat, base: nat)
    requires base >= 2
    ensures u == u / base * base + u % base && 2 * (u / base) <= u
  {
    AtLeastTwice(u / base, base);
  }

  lemma AtLeastTwice(q: nat, base: nat)
    requires base >= 2
    ensures q * base >= 2 * q
  {
  }

  lemma ValueSnoc(s: string, c: char, base: nat)
    ensures Value(s + [c], base) == Value(s, base) * base + DigitValue(c)
  {
    assert (s + [c])[..|s|] == s;
  }

  lemma {:induction false} DigitsValue(u: nat, base: nat, digits: string)
    requires 2 <= base <= 16 && IsDigitTable(digits)
    ensures Value(Digits(u, base, digits), base) == u
    decreases u
  {
    hide Value, DigitValue, IsDigitTable;
    TableValues(digits, u % base);
    DivMod(u, base);
    if u < base {
      TableValues(digits, u);
      ValueSnoc("", digits[u], base);
      NoValue(base);
      assert "" + [digits[u]] == [digits[u]];
    } else {
      DigitsValue(u / base, base, digits);
      ValueSnoc(Digits(u / base, base, digits), digits[u % base], base);
    }
  }

  lemma NoValue(base: nat)
    ensures Value("", base) * base == 0
  {
  }

  /** Leading zeros do not count. */
  lemma {:induction false} ZerosValue(n: int, s: string, base: nat)
    ensures Value(Repeat('0', n) + s, base) == Value(s, base)
    decreases |s|, n
  {
    if s == "" {
      assert Repeat('0', n) + s == Repeat('0', n);
      ZerosAreZero(n, base);
    } else {
      var z := Repeat('0', n);
      assert (z + s)[..|z + s| - 1] == z + s[..|s| - 1];
      ZerosValue(n, s[..|s| - 1], base);
    }
  }

  lemma {:induction false} ZerosAreZero(n: int, base: nat)
    ensures Value(Repeat('0', n), base) == 0
  {
    if n > 0 {
      RepeatSnoc('0', n - 1);
      assert (Repeat('0', n - 1) + ['0'])[..n - 1] == Repeat('0', n - 1);
      ZerosAreZero(n - 1, base);
    }
  }

  lemma {:induction false} RepeatSnoc(c: char, n: nat)
    ensures Repeat(c, n + 1) == Repeat(c, n) + [c]
  {
    if n > 0 { RepeatSnoc(c, n - 1); }
  }

  /** The signed number that a 64-bit word stands for. */
  function Number(u: nat, isSigned: bool): int
    requires u < WORD
  {
    if Negative(u, isSigned) then u - WORD else u
  }

  /** The digits printed stand, in their base, for the number, and a minus sign is printed exactly for a negative one. */
  lemma PrintsTheNumber(f: Flags, minDigits: int, u: nat, base: nat, isSigned: bool, digits: string)
    requires u < WORD && 2 <= base <= 16 && IsDigitTable(digits)
    ensures |digits| == 17
    ensures var value := Value(ZeroExtended(minDigits, Digits(Magnitude(u, isSigned), base, digits)), base);
            Number(u, isSigned) == if Sign(f, Negative(u, isSigned)) == "-" then -value else value
  {
    hide Digits, Value, IsDigitTable, Repeat;
    TableValues(digits, 0);
    var s := Digits(Magnitude(u, isSigned), base, digits);
    DigitsValue(Magnitude(u, isSigned), base, digits);
    ZerosValue(minDigits - |s|, s, base);
  }

  /** What fmtInteger is asked to do: one of four bases, %O for base 8 only. */
  predicate Supported(base: nat, verb: char, digits: string) {
    (base == 2 || base == 8 || base == 10 || base == 16) && (verb == 'O' ==> base == 8) && IsDigitTable(digits)
  }

  lemma SupportedTable(base: nat, verb: char, digits: string)
    requires Supported(base, verb, digits)
    ensures 2 <= base <= 16 && |digits| == 17
  {
    TableValues(digits, 0);
  }

  function DropLeft(s: string): (r: string)
    ensures r == "" || r[0] != ' '
  {
    if s != "" && s[0] == ' ' then DropLeft(s[1..]) else s
  }

  function DropRight(s: string): (r: string)
    ensures s == "" || s[|s| - 1] != ' ' ==> r == s
  {
    if s != "" && s[|s| - 1] == ' ' then DropRight(s[..|s| - 1]) else s
  }

  predicate HasPrefix(s: string, base: nat) {
    |s| > 1 && s[0] == '0'
    && ((base == 2 && s[1] == 'b') || (base == 8 && s[1] == 'o') || (base == 16 && (s[1] == 'x' || s[1] == 'X')))
  }

  /** Reads a number in a known base: padding, a sign, a prefix of the base, digits. */
  function Read(s: string, base: nat): int {
    var t := DropRight(DropLeft(s));
    if t != "" && t[0] == '-' then -ReadDigits(t[1..], base)
    else if t != "" && t[0] == '+' then ReadDigits(t[1..], base)
    else ReadDigits(t, base)
  }

  function ReadDigits(s: string, base: nat): int {
    Value(if HasPrefix(s, base) then s[2..] else s, base)
  }

  lemma {:induction false} SpacesLeft(n: int, s: string)
    ensures DropLeft(Repeat(' ', n) + s) == DropLeft(s)
    decreases n
  {
    if n > 0 {
      assert (Repeat(' ', n) + s)[1..] == Repeat(' ', n - 1) + s;
      SpacesLeft(n - 1, s);
    } else {
      assert Repeat(' ', n) + s == s;
    }
  }

  lemma {:induction false} SpacesRight(s: string, n: int)
    ensures DropRight(s + Repeat(' ', n)) == DropRight(s)
    decreases n
  {
    if n > 0 {
      RepeatSnoc(' ', n - 1);
      assert (s + Repeat(' ', n))[..|s| + n - 1] == s + Repeat(' ', n - 1);
      SpacesRight(s, n - 1);
    } else {
      assert s + Repeat(' ', n) == s;
    }
  }

  /** What the characters of a numeral in this base are not. */
  predicate DigitOf(c: char, base: nat) {
    c != ' ' && c != '-' && c != '+' && c != 'o' && c != 'x' && c != 'X' && (base == 2 ==> c != 'b')
  }

  lemma TableDigits(digits: string, d: nat, base: nat)
    requires IsDigitTable(digits) && d < base <= 16
    ensures |digits| == 17 && DigitOf(digits[d], base)
  {
    if d < 8 {
      assert d == 0 || d == 1 || d == 2 || d == 3 || d == 4 || d == 5 || d == 6 || d == 7;
    } else {
      assert d == 8 || d == 9 || d == 10 || d == 11 || d == 12 || d == 13 || d == 14 || d == 15;
    }
  }

  lemma {:induction false} DigitsAre(u: nat, base: nat, digits: string)
    requires 2 <= base <= 16 && IsDigitTable(digits) && |digits| == 17
    ensures forall c <- Digits(u, base, digits) :: DigitOf(c, base)
    decreases u
  {
    hide DigitOf, IsDigitTable, Digits;
    DigitsUnfold(u, base, digits);
    TableDigits(digits, u % base, base);
    if u < base { TableDigits(digits, u, base); } else { DigitsAre(u / base, base, digits); }
  }

  lemma DigitsUnfold(u: nat, base: nat, digits: string)
    requires 2 <= base <= 16 && |digits| == 17
    ensures Digits(u, base, digits) == if u < base then [digits[u]] else Digits(u / base, base, digits) + [digits[u % base]]
  {
  }

  lemma {:induction false} RepeatHas(c: char, n: int)
    ensures forall x <- Repeat(c, n) :: x == c
  {
    if n > 0 { RepeatHas(c, n - 1); }
  }

  /** A prefix before digits is skipped, and a single zero does not count. */
  lemma PrefixSkipped(f: Flags, base: nat, verb: char, digits: string, body: string)
    requires Supported(base, verb, digits) && |digits| == 17 && body != "" && forall c <- body :: DigitOf(c, base)
    ensures var s := VerbPrefix(verb) + (SharpPrefix(f, base, digits, body) + body);
            && ReadDigits(s, base) == Value(body, base) && s != ""
            && s[0] != ' ' && s[0] != '-' && s[0] != '+' && s[|s| - 1] != ' '
  {
    hide Value, IsDigitTable, SharpPrefix, DigitOf, HasPrefix, ReadDigits;
    var sharp := SharpPrefix(f, base, digits, body);
    SharpForms(f, base, digits, body);
    Ends(body, base);
    SharpRead(sharp, body, base);
    assert VerbPrefix(verb) + (sharp + body) == if verb == 'O' then "0o" + (sharp + body) else sharp + body;
    if verb == 'O' { OctalRead(sharp, body); }
  }

  lemma SharpRead(sharp: string, body: string, base: nat)
    requires body != "" && (HasPrefix(sharp + body, base) <==> |sharp| == 2)
    requires sharp == "" || sharp == "0" || |sharp| == 2
    ensures ReadDigits(sharp + body, base) == Value(body, base)
    ensures var s := sharp + body; s[|s| - 1] == body[|body| - 1] && s[0] == if sharp == "" then body[0] else sharp[0]
  {
    hide Value, HasPrefix;
    ZeroBefore(body, base);
    assert "" + body == body;
    if |sharp| == 2 { assert (sharp + body)[2..] == body; }
  }

  lemma OctalRead(sharp: string, body: string)
    requires body != "" && (sharp == "" || sharp == "0")
    ensures var s := "0o" + (sharp + body); ReadDigits(s, 8) == Value(body, 8) && s[|s| - 1] == body[|body| - 1] && s[0] == '0'
  {
    hide Value, HasPrefix;
    ZeroBefore(body, 8);
    OctalPrefix(sharp + body);
    assert "" + body == body;
  }

  /** What a sharp prefix may be: none, one that a reader skips, or a zero. */
  lemma SharpForms(f: Flags, base: nat, digits: string, body: string)
    requires IsDigitTable(digits) && |digits| == 17 && body != "" && forall c <- body :: DigitOf(c, base)
    requires base == 2 || base == 8 || base == 10 || base == 16
    ensures var sharp := SharpPrefix(f, base, digits, body);
            && (sharp == "" || (sharp == "0" && base == 8) || (|sharp| == 2 && sharp[0] == '0' && base != 8))
            && (HasPrefix(sharp + body, base) <==> |sharp| == 2)
  {
    assert digits[16] == 'x' || digits[16] == 'X';
    hide IsDigitTable;
    assert body[0] in body && (|body| > 1 ==> body[1] in body);
  }

  lemma Ends(body: string, base: nat)
    requires body != "" && forall c <- body :: DigitOf(c, base)
    ensures body[0] != ' ' && body[0] != '-' && body[0] != '+' && body[|body| - 1] != ' '
  {
    assert body[0] in body && body[|body| - 1] in body;
  }

  lemma OctalPrefix(rest: string)
    requires rest != ""
    ensures var s := "0o" + rest; HasPrefix(s, 8) && s[2..] == rest && s[|s| - 1] == rest[|rest| - 1]
  {
  }

  lemma ZeroBefore(body: string, base: nat)
    ensures Value("0" + body, base) == Value(body, base)
  {
    hide Value;
    assert Repeat('0', 1) == ['0'] by { assert ['0'] + Repeat('0', 0) == ['0']; }
    ZerosValue(1, body, base);
  }

  /** What is printed, with all flags, widths and precisions, reads back as the number. */
  lemma ReadsBack(f: Flags, wid: nat, prec: nat, u: nat, base: nat, isSigned: bool, verb: char, digits: string)
    requires u < WORD && Supported(base, verb, digits)
    ensures |digits| == 17 && Read(Output(f, wid, prec, u, base, isSigned, verb, digits), base) == Number(u, isSigned)
  {
    hide Text, Padded, Read, Supported, IsDigitTable, Repeat;
    SupportedTable(base, verb, digits);
    if f.precPresent && prec == 0 && u == 0 {
      BlankReads(wid, base);
    } else {
      var text := Text(f, wid, prec, u, base, isSigned, verb, digits);
      TextReads(f, wid, prec, u, base, isSigned, verb, digits);
      PaddingSkipped(f.(zero := false), wid, text, base);
    }
  }

  lemma BlankReads(wid: nat, base: nat)
    ensures Read(Repeat(' ', wid), base) == 0
  {
    hide Repeat;
    SpacesLeft(wid, "");
    assert Repeat(' ', wid) + "" == Repeat(' ', wid);
  }

  lemma PaddingSkipped(f: Flags, wid: nat, s: string, base: nat)
    requires !f.zero && s != "" && s[|s| - 1] != ' '
    ensures Read(Padded(f, wid, s), base) == Read(s, base)
  {
    hide ReadDigits, Repeat;
    SpacesLeft(wid - |s|, s);
    LeftStops(s, Repeat(' ', wid - |s|));
    SpacesRight(DropLeft(s), wid - |s|);
  }

  /** Dropping spaces on the left does not reach what follows a text that is not blank. */
  lemma {:induction false} LeftStops(s: string, more: string)
    requires s != "" && s[|s| - 1] != ' '
    ensures DropLeft(s + more) == DropLeft(s) + more
    ensures DropLeft(s) != "" && DropLeft(s)[|DropLeft(s)| - 1] == s[|s| - 1]
    decreases |s|
  {
    if s[0] == ' ' {
      assert (s + more)[1..] == s[1..] + more;
      LeftStops(s[1..], more);
    }
  }

  lemma TextReads(f: Flags, wid: nat, prec: nat, u: nat, base: nat, isSigned: bool, verb: char, digits: string)
    requires u < WORD && Supported(base, verb, digits) && |digits| == 17
    ensures var text := Text(f, wid, prec, u, base, isSigned, verb, digits);
            text != "" && text[|text| - 1] != ' ' && Read(text, base) == Number(u, isSigned)
  {
    var negative, mag := Negative(u, isSigned), Magnitude(u, isSigned);
    var minDigits := MinDigits(f, wid, prec, negative);
    var plain := Digits(mag, base, digits);
    var body := ZeroExtended(minDigits, plain);
    BodyDigits(minDigits, mag, base, digits);
    PrefixSkipped(f, base, verb, digits, body);
    var s := VerbPrefix(verb) + (SharpPrefix(f, base, digits, body) + body);
    SignRead(f, negative, s, base);
    PrintsTheNumber(f, minDigits, u, base, isSigned, digits);
    hide Digits, Read, ReadDigits, Value, ZeroExtended, SharpPrefix, VerbPrefix, IsDigitTable, MinDigits;
  }

  lemma BodyDigits(minDigits: int, mag: nat, base: nat, digits: string)
    requires 2 <= base <= 16 && IsDigitTable(digits) && |digits| == 17
    ensures var body := ZeroExtended(minDigits, Digits(mag, base, digits));
            body != "" && forall c <- body :: DigitOf(c, base)
  {
    DigitsAre(mag, base, digits);
    RepeatHas('0', minDigits - |Digits(mag, base, digits)|);
    hide Digits, Repeat;
  }

  lemma SignRead(f: Flags, negative: bool, s: string, base: nat)
    requires s != "" && s[0] != ' ' && s[0] != '-' && s[0] != '+' && s[|s| - 1] != ' '
    ensures Read(Sign(f, negative) + s, base) == if negative then -ReadDigits(s, base) else ReadDigits(s, base)
  {
    hide ReadDigits;
    var t := Sign(f, negative) + s;
    if negative || f.plus {
      assert t[1..] == s && t[|t| - 1] == s[|s| - 1];
    } else if f.space {
      assert t[1..] == s && DropLeft(t) == DropLeft(s) == s;
    } else {
      assert t == s;
    }
  }

  // ---------------------------------------------------------------- what is printed where

  /** The digits of a number do not start with a zero, but for zero itself. */
  lemma {:induction false} NoLeadingZero(u: nat, base: nat, digits: string)
    requires 2 <= base <= 16 && IsDigitTable(digits) && |digits| == 17
    ensures Digits(u, base, digits)[0] == '0' <==> u == 0
    decreases u
  {
    hide IsDigitTable, Digits, DigitValue;
    DigitsUnfold(u, base, digits);
    if u < base {
      TableValues(digits, u);
      OnlyZero(digits, u);
    } else {
      DivMod(u, base);
      BelowBase(u, base);
      NoLeadingZero(u / base, base, digits);
    }
  }

  lemma BelowBase(u: nat, base: nat)
    requires base >= 2
    ensures u / base == 0 ==> u < base
  {
    DivMod(u, base);
  }

  lemma OnlyZero(digits: string, d: nat)
    requires IsDigitTable(digits) && d < 16
    ensures |digits| == 17 && (digits[d] == '0' <==> d == 0)
  {
    TableValues(digits, d);
  }

  /** What is printed for anything but a zero with precision 0, part by part: spaces on the side where there is no
      text, the sign, the prefix of the base, the zeros that the precision or the width asks for, the digits. */
  lemma OutputParts(f: Flags, wid: nat, prec: nat, u: nat, base: nat, isSigned: bool, verb: char, digits: string)
    returns (left: nat, sign: string, prefix: string, zeros: nat, right: nat)
    requires u < WORD && Supported(base, verb, digits) && !(f.precPresent && prec == 0 && u == 0)
    ensures |digits| == 17
    ensures var n := Number(u, isSigned); var ds := Digits(if n < 0 then -n else n, base, digits);
            && Output(f, wid, prec, u, base, isSigned, verb, digits)
               == Repeat(' ', left) + (sign + (prefix + (Repeat('0', zeros) + ds))) + Repeat(' ', right)
            && (if f.minus then left == 0 else right == 0)
            && left + right == (if f.widPresent then Max(wid - |sign| - |prefix| - zeros - |ds|, 0) else 0)
            && sign == (if n < 0 then "-" else if f.plus then "+" else if f.space then " " else "")
            && zeros == (if f.precPresent then Max(prec - |ds|, 0)
                         else if f.widPresent && f.zero && !f.minus then Max(wid - |sign| - |ds|, 0) else 0)
            && prefix == (if verb == 'O' then "0o" else "")
               + (if !f.sharp || base == 10 then "" else if base == 2 then "0b"
                  else if base == 8 then (if zeros > 0 || n == 0 then "" else "0")
                  else if digits[15] == 'f' then "0x" else "0X")
  {
    SupportedTable(base, verb, digits);
    sign, prefix, zeros := TextParts(f, wid, prec, u, base, isSigned, verb, digits);
    var text := Text(f, wid, prec, u, base, isSigned, verb, digits);
    var room := if f.widPresent then Max(wid - |text|, 0) else 0;
    left, right := if f.minus then 0 else room, if f.minus then room else 0;
    Padding(f.(zero := false), wid, text, room);
    hide Text, Digits, IsDigitTable, Repeat, Supported, Padded;
  }

  lemma TextParts(f: Flags, wid: nat, prec: nat, u: nat, base: nat, isSigned: bool, verb: char, digits: string)
    returns (sign: string, prefix: string, zeros: nat)
    requires u < WORD && 2 <= base <= 16 && Supported(base, verb, digits) && |digits| == 17
    ensures var n := Number(u, isSigned); var ds := Digits(if n < 0 then -n else n, base, digits);
            && Text(f, wid, prec, u, base, isSigned, verb, digits) == sign + (prefix + (Repeat('0', zeros) + ds))
            && sign == (if n < 0 then "-" else if f.plus then "+" else if f.space then " " else "")
            && zeros == (if f.precPresent then Max(prec - |ds|, 0)
                         else if f.widPresent && f.zero && !f.minus then Max(wid - |sign| - |ds|, 0) else 0)
            && prefix == (if verb == 'O' then "0o" else "")
               + (if !f.sharp || base == 10 then "" else if base == 2 then "0b"
                  else if base == 8 then (if zeros > 0 || n == 0 then "" else "0")
                  else if digits[15] == 'f' then "0x" else "0X")
  {
    hide Digits, IsDigitTable, Repeat, Supported, SharpPrefix;
    var negative, mag := Negative(u, isSigned), Magnitude(u, isSigned);
    var ds := Digits(mag, base, digits);
    sign := Sign(f, negative);
    var min := MinDigits(f, wid, prec, negative);
    zeros := Max(min - |ds|, 0);
    RepeatNothing('0', min - |ds|);
    var body := Repeat('0', zeros) + ds;
    prefix := VerbPrefix(verb) + SharpPrefix(f, base, digits, body);
    SharpIs(f, base, verb, digits, mag, zeros);
    PrefixesJoin(VerbPrefix(verb), SharpPrefix(f, base, digits, body), body);
  }

  lemma RepeatNothing(c: char, n: int)
    ensures Repeat(c, Max(n, 0)) == Repeat(c, n)
  {
  }

  lemma PrefixesJoin(a: string, b: string, c: string)
    ensures a + (b + c) == a + b + c
  {
  }

  lemma Padding(f: Flags, wid: nat, text: string, room: nat)
    requires !f.zero && room == if f.widPresent then Max(wid - |text|, 0) else 0
    ensures Padded(f, wid, text) == if f.minus then Repeat(' ', 0) + text + Repeat(' ', room) else Repeat(' ', room) + text + Repeat(' ', 0)
  {
    RepeatNothing(' ', wid - |text|);
    assert Repeat(' ', 0) == "" && "" + text == text && text + "" == text;
  }

  lemma SharpIs(f: Flags, base: nat, verb: char, digits: string, mag: nat, zeros: nat)
    requires Supported(base, verb, digits) && |digits| == 17
    ensures SharpPrefix(f, base, digits, Repeat('0', zeros) + Digits(mag, base, digits))
            == if !f.sharp || base == 10 then "" else if base == 2 then "0b"
               else if base == 8 then (if zeros > 0 || mag == 0 then "" else "0")
               else if digits[15] == 'f' then "0x" else "0X"
  {
    var ds := Digits(mag, base, digits);
    NoLeadingZero(mag, base, digits);
    hide Digits;
    if zeros > 0 { assert (Repeat('0', zeros) + ds)[0] == '0'; } else { assert Repeat('0', zeros) + ds == ds; }
  }

  /** A zero with precision 0 is nothing but its width in spaces. */
  lemma NothingPrinted(f: Flags, wid: nat, base: nat, isSigned: bool, verb: char, digits: string)
    requires f.precPresent && Supported(base, verb, digits)
    ensures |digits| == 17
    ensures var out := Output(f, wid, 0, 0, base, isSigned, verb, digits); |out| == wid && forall c <- out :: c == ' '
  {
    SupportedTable(base, verb, digits);
    RepeatHas(' ', wid);
  }

  // ---------------------------------------------------------------- lengths

  /** A width is a lower bound for the length of what is printed. */
  lemma AtLeastWidth(f: Flags, wid: nat, prec: nat, u: nat, base: nat, isSigned: bool, verb: char, digits: string)
    requires u < WORD && 2 <= base <= 16 && |digits| == 17
    ensures f.widPresent || (f.precPresent && prec == 0 && u == 0) ==> |Output(f, wid, prec, u, base, isSigned, verb, digits)| >= wid
    ensures !(f.precPresent && prec == 0 && u == 0) ==>
              |Output(f, wid, prec, u, base, isSigned, verb, digits)|
              == Max(if f.widPresent then wid else 0, |Text(f, wid, prec, u, base, isSigned, verb, digits)|)
  {
    hide Text;
  }

  /** Zeros fill the width exactly, unless the number is longer or has a prefix. */
  lemma ZeroPadded(f: Flags, wid: nat, u: nat, base: nat, isSigned: bool, verb: char, digits: string)
    requires u < WORD && 2 <= base <= 16 && |digits| == 17
    requires f.zero && !f.minus && f.widPresent && !f.precPresent && !f.sharp && verb != 'O'
    ensures |Text(f, wid, 0, u, base, isSigned, verb, digits)|
            == Max(wid, |Sign(f, Negative(u, isSigned))| + |Digits(Magnitude(u, isSigned), base, digits)|)
  {
    hide Digits;
  }

  function Pow2(n: nat): nat {
    if n == 0 then 1 else 2 * Pow2(n - 1)
  }

  lemma {:induction false} DigitsLength(u: nat, base: nat, digits: string, k: nat)
    requires 2 <= base <= 16 && |digits| == 17 && u < Pow2(k) && k > 0
    ensures |Digits(u, base, digits)| <= k
    decreases u
  {
    DivMod(u, base);
    assert Pow2(1) == 2;
    if u >= base && k > 1 { DigitsLength(u / base, base, digits, k - 1); }
  }

  /** 64 bits take at most 64 digits. */
  lemma WordDigits(u: nat, base: nat, digits: string)
    requires u < WORD && 2 <= base <= 16 && |digits| == 17
    ensures |Digits(u, base, digits)| <= 64
  {
    hide Pow2;
    Pow2Word();
    DigitsLength(u, base, digits, 64);
  }

  lemma Pow2Word()
    ensures Pow2(64) == WORD
  {
    hide Pow2;
    Pow2Four();
    Pow2Square(4, 16);
    Pow2Square(8, 0x100);
    Pow2Square(16, 0x1_0000);
    Pow2Square(32, 0x1_0000_0000);
  }

  lemma Pow2Four()
    ensures Pow2(4) == 16
  {
  }

  lemma Pow2Square(n: nat, p: nat)
    requires Pow2(n) == p
    ensures Pow2(n + n) == p * p
  {
    hide Pow2;
    Pow2Sum(n, n);
  }

  lemma {:induction false} Pow2Sum(a: nat, b: nat)
    ensures Pow2(a + b) == Pow2(a) * Pow2(b)
  {
    hide Pow2;
    Pow2Step(a);
    Pow2Step(a + b);
    if a > 0 {
      Pow2Sum(a - 1, b);
      Double(Pow2(a - 1), Pow2(b));
    }
  }

  lemma Pow2Step(n: nat)
    ensures Pow2(n) == if n == 0 then 1 else 2 * Pow2(n - 1)
  {
  }

  lemma Double(p: nat, q: nat)
    ensures 2 * (p * q) == (2 * p) * q
  {
  }

  function BufferSize(f: Flags, wid: nat, prec: nat): nat {
    if f.widPresent || f.precPresent then Max(INTBUF_SIZE, 3 + wid + prec) else INTBUF_SIZE
  }

  /** The buffer has 68 bytes, or more where a width or a precision asks for more. */
  lemma BufferSizeIs(f: Flags, wid: nat, prec: nat)
    ensures BufferSize(f, wid, prec) == if f.widPresent || f.precPresent then Max(68, 3 + wid + prec) else 68
  {
  }

  /** The text fits into the buffer, whatever the width, the precision, the sign and the prefixes. */
  lemma TextFits(f: Flags, wid: nat, prec: nat, u: nat, base: nat, isSigned: bool, verb: char, digits: string)
    requires u < WORD && Supported(base, verb, digits)
    ensures |digits| == 17 && |Digits(Magnitude(u, isSigned), base, digits)| <= 64
    ensures MinDigits(f, wid, prec, Negative(u, isSigned)) <= BufferSize(f, wid, prec) - 3
    ensures |Text(f, wid, prec, u, base, isSigned, verb, digits)| <= BufferSize(f, wid, prec)
  {
    hide Digits;
    TableValues(digits, 0);
    WordDigits(Magnitude(u, isSigned), base, digits);
  }

  // ---------------------------------------------------------------- the buffer

  /** buf[--i] = c */
  method PutLeft(buf: array<char>, i: nat, c: char) returns (j: nat)
    requires 0 < i <= buf.Length
    modifies buf
    ensures j == i - 1 && buf[j..] == [c] + old(buf[i..])
  {
    j := i - 1;
    buf[j] := c;
  }

  /** Formats u into buf, ending at its end. */
  method WriteDigits(buf: array<char>, u0: nat, base: nat, digits: string) returns (i: nat)
    requires 2 <= base <= 16 && (base <= 10 || base == 16) && IsDigitTable(digits) && |digits| == 17
    requires |Digits(u0, base, digits)| <= buf.Length
    modifies buf
    ensures i <= buf.Length && buf[i..] == Digits(u0, base, digits)
  {
    hide IsDigitTable, Digits;
    var u: nat := u0;
    i := buf.Length;
    while u >= base
      invariant i <= buf.Length && Digits(u, base, digits) + buf[i..] == Digits(u0, base, digits)
    {
      var d := u % base;
      DivMod(u, base);
      DigitChar(digits, d, base);
      DigitsStep(u, base, digits, buf[i..]);
      i := PutLeft(buf, i, if base == 16 then digits[d] else ('0' as int + d) as char);
      u := u / base;
    }
    LastDigit(u, base, digits);
    i := PutLeft(buf, i, digits[u]);
  }

  lemma DigitsStep(u: nat, base: nat, digits: string, rest: string)
    requires 2 <= base <= 16 && |digits| == 17 && u >= base
    ensures Digits(u / base, base, digits) + ([digits[u % base]] + rest) == Digits(u, base, digits) + rest
  {
  }

  lemma LastDigit(u: nat, base: nat, digits: string)
    requires 2 <= base <= 16 && |digits| == 17 && u < base
    ensures Digits(u, base, digits) == [digits[u]]
  {
  }

  /** Up to base ten the digits are computed, not looked up. */
  lemma DigitChar(digits: string, d: nat, base: nat)
    requires IsDigitTable(digits) && d < base && (base <= 10 || base == 16)
    ensures |digits| == 17 && (base <= 10 ==> digits[d] == ('0' as int + d) as char)
  {
    TableValues(digits, d);
    if d < 5 {
      assert d == 0 || d == 1 || d == 2 || d == 3 || d == 4;
    } else if d < 10 {
      assert d == 5 || d == 6 || d == 7 || d == 8 || d == 9;
    }
  }

  method WriteZeros(buf: array<char>, start: nat, prec: int) returns (i: nat)
    requires start <= buf.Length && prec <= buf.Length
    modifies buf
    ensures i <= buf.Length && buf[i..] == Repeat('0', prec - (buf.Length - start)) + old(buf[start..])
  {
    hide Repeat;
    i := start;
    ghost var tail := buf[start..];
    NoRepeat('0', 0, tail);
    NoRepeat('0', prec - (buf.Length - start), tail);
    while i > 0 && prec > buf.Length - i
      invariant i <= start && (i < start ==> prec >= buf.Length - i)
      invariant buf[i..] == Repeat('0', start - i) + tail
    {
      RepeatCons('0', start - i, tail);
      i := PutLeft(buf, i, '0');
    }
  }

  lemma NoRepeat(c: char, n: int, s: string)
    ensures n <= 0 ==> Repeat(c, n) + s == s
  {
  }

  lemma RepeatCons(c: char, n: nat, s: string)
    ensures [c] + (Repeat(c, n) + s) == Repeat(c, n + 1) + s
  {
  }

  method WriteSharp(buf: array<char>, start: nat, f: Flags, base: nat, digits: string) returns (i: nat)
    requires start < buf.Length && |digits| == 17 && |SharpPrefix(f, base, digits, buf[start..])| <= start
    modifies buf
    ensures i <= buf.Length && buf[i..] == SharpPrefix(f, base, digits, old(buf[start..])) + old(buf[start..])
  {
    i := start;
    if f.sharp {
      if base == 2 {
        i := PutLeft(buf, i, 'b');
        i := PutLeft(buf, i, '0');
      } else if base == 8 {
        if buf[i] != '0' {
          i := PutLeft(buf, i, '0');
        }
      } else if base == 16 {
        i := PutLeft(buf, i, digits[16]);
        i := PutLeft(buf, i, '0');
      }
    }
  }

  method WriteVerb(buf: array<char>, start: nat, verb: char) returns (i: nat)
    requires |VerbPrefix(verb)| <= start <= buf.Length
    modifies buf
    ensures i <= buf.Length && buf[i..] == VerbPrefix(verb) + old(buf[start..])
  {
    i := start;
    if verb == 'O' {
      i := PutLeft(buf, i, 'o');
      i := PutLeft(buf, i, '0');
    }
  }

  method WriteSign(buf: array<char>, start: nat, f: Flags, negative: bool) returns (i: nat)
    requires |Sign(f, negative)| <= start <= buf.Length
    modifies buf
    ensures i <= buf.Length && buf[i..] == Sign(f, negative) + old(buf[start..])
  {
    i := start;
    if negative {
      i := PutLeft(buf, i, '-');
    } else if f.plus {
      i := PutLeft(buf, i, '+');
    } else if f.space {
      i := PutLeft(buf, i, ' ');
    }
  }

  method WriteText(b: array<char>, f: Flags, minDigits: int, mag: nat, negative: bool, base: nat, verb: char, digits: string)
    returns (text: string)
    requires Supported(base, verb, digits) && |digits| == 17
    requires |Numeral(f, minDigits, mag, negative, base, verb, digits)| <= b.Length && minDigits <= b.Length
    modifies b
    ensures text == Numeral(f, minDigits, mag, negative, base, verb, digits)
  {
    hide Digits, IsDigitTable, Sign, VerbPrefix, SharpPrefix;
    var i := WriteDigits(b, mag, base, digits);
    i := WriteZeros(b, i, minDigits);
    i := WriteSharp(b, i, f, base, digits);
    i := WriteVerb(b, i, verb);
    i := WriteSign(b, i, f, negative);
    return b[i..];
  }

  // ---------------------------------------------------------------- the formatter

  class Fmt {
    var buf: string
    var flags: Flags
    var wid: nat
    var prec: nat
    const intbuf: array<char>

    ghost predicate Valid()
      reads this
    {
      intbuf.Length == INTBUF_SIZE
    }

    constructor ()
      ensures Valid() && fresh(intbuf) && buf == "" && flags == Flags(false, false, false, false, false, false, false)
      ensures wid == 0 && prec == 0
    {
      buf, wid, prec := "", 0, 0;
      flags := Flags(false, false, false, false, false, false, false);
      intbuf := new char[INTBUF_SIZE];
    }

    /** writePadding */
    method WritePadding(n: int)
      modifies this`buf
      ensures buf == old(buf) + Repeat(if flags.zero && !flags.minus then '0' else ' ', n)
    {
      if n <= 0 {
        return;
      }
      var padByte := ' ';
      if flags.zero && !flags.minus {
        padByte := '0';
      }
      var padding := new char[n](_ => padByte);
      RepeatIs(padding[..], padByte);
      buf := buf + padding[..];
    }

    method Pad(b: string)
      modifies this`buf
      ensures buf == old(buf) + Padded(flags, wid, b)
    {
      if !flags.widPresent || wid == 0 {
        buf := buf + b;
        return;
      }
      var width := wid - |b|;
      if !flags.minus {
        WritePadding(width);
        buf := buf + b;
      } else {
        buf := buf + b;
        WritePadding(width);
      }
    }

    /** fmtInteger */
    method FmtInteger(u: nat, base: nat, isSigned: bool, verb: char, digits: string)
      requires Valid() && u < WORD && Supported(base, verb, digits)
      modifies this, intbuf
      ensures Valid() && flags == old(flags) && wid == old(wid) && prec == old(prec)
      ensures |digits| == 17 && buf == old(buf) + Output(flags, wid, prec, u, base, isSigned, verb, digits)
    {
      hide Digits, Supported, IsDigitTable, Text, MinDigits, Repeat, Padded, Output;
      SupportedTable(base, verb, digits);
      OutputCases(flags, wid, prec, u, base, isSigned, verb, digits);
      var oldZero := flags.zero;
      if flags.precPresent && prec == 0 && u == 0 {
        flags := flags.(zero := false);
        WritePadding(wid);
        flags := flags.(zero := oldZero);
        return;
      }
      var text := FormatInteger(u, base, isSigned, verb, digits);
      flags := flags.(zero := false);
      Pad(text);
      flags := flags.(zero := oldZero);
    }

    /** The text, written into intbuf, or into a larger buffer when a width or a precision asks for one. */
    method FormatInteger(u: nat, base: nat, isSigned: bool, verb: char, digits: string) returns (text: string)
      requires Valid() && u < WORD && Supported(base, verb, digits) && |digits| == 17
      modifies intbuf
      ensures text == Text(flags, wid, prec, u, base, isSigned, verb, digits)
    {
      hide Digits, IsDigitTable, Supported, Sign, VerbPrefix, SharpPrefix;
      var negative := isSigned && u >= WORD / 2;
      var mag := if negative then WORD - u else u;
      TextFits(flags, wid, prec, u, base, isSigned, verb, digits);
      var b := intbuf;
      if flags.widPresent || flags.precPresent {
        var width := 3 + wid + prec;
        if width > b.Length {
          b := new char[width];
        }
      }
      var minDigits: int := 0;
      if flags.precPresent {
        minDigits := prec;
      } else if flags.zero && !flags.minus && flags.widPresent {
        minDigits := wid;
        if negative || flags.plus || flags.space {
          minDigits := minDigits - 1;
        }
      }
      text := WriteText(b, flags, minDigits, mag, negative, base, verb, digits);
    }
  }

  lemma {:induction false} RepeatIs(s: string, c: char)
    requires forall x <- s :: x == c
    ensures s == Repeat(c, |s|)
  {
    if s != "" {
      assert s[0] in s && forall x <- s[1..] :: x in s;
      RepeatIs(s[1..], c);
    }
  }
}
