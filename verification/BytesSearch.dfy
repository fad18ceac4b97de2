/** Searching in package bytes (go/src/bytes/bytes.go) and in internal/bytealg: every fast search finds the
    first match that a naive search finds. */
module BytesSearch {
  import opened Prelude
  import opened Streams
  import opened Utf8

  // ---------------------------------------------------------------- the naive search

  predicate MatchAt(s: seq<byte>, sep: seq<byte>, i: int) {
    0 <= i && i + |sep| <= |s| && s[i..i + |sep|] == sep
  }

  /** There is no match before i. */
  predicate NoneBefore(s: seq<byte>, sep: seq<byte>, i: int) {
    forall j :: 0 <= j < i ==> !MatchAt(s, sep, j)
  }

  /** The first match, or -1. */
  function Find(s: seq<byte>, sep: seq<byte>): (r: int)
    ensures -1 <= r && r + |sep| <= Max(|s|, |sep| - 1)
  {
    if |sep| > |s| then -1
    else if sep <= s then 0
    else
      var r := Find(s[1..], sep);
      if r < 0 then -1 else r + 1
  }

  lemma MatchLater(s: seq<byte>, sep: seq<byte>, n: nat, i: int)
    requires n <= |s|
    ensures i >= 0 ==> (MatchAt(s[n..], sep, i) <==> MatchAt(s, sep, n + i))
  {
    if i >= 0 && n + i + |sep| <= |s| { assert s[n..][i..i + |sep|] == s[n + i..n + i + |sep|]; }
  }

  lemma {:induction false} FindIs(s: seq<byte>, sep: seq<byte>)
    ensures var r := Find(s, sep);
            NoneBefore(s, sep, if r < 0 then |s| + 1 else r) && (r >= 0 ==> MatchAt(s, sep, r))
  {
    hide MatchAt;
    MatchFirst(s, sep);
    if |sep| <= |s| && !(sep <= s) {
      FindIs(s[1..], sep);
      var r := Find(s[1..], sep);
      MatchLater(s, sep, 1, r);
      forall j | 0 <= j < if r < 0 then |s| + 1 else r + 1
        ensures !MatchAt(s, sep, j)
      {
        MatchLater(s, sep, 1, j - 1);
      }
    }
  }

  lemma MatchFirst(s: seq<byte>, sep: seq<byte>)
    ensures MatchAt(s, sep, 0) <==> sep <= s
    ensures |sep| > |s| ==> forall j :: !MatchAt(s, sep, j)
  {
    if |sep| <= |s| { assert s[0..|sep|] == s[..|sep|]; }
  }

  /** There is one first match. */
  lemma FindUnique(s: seq<byte>, sep: seq<byte>, i: int)
    ensures NoneBefore(s, sep, i) && MatchAt(s, sep, i) ==> Find(s, sep) == i
    ensures NoneBefore(s, sep, i) && i > |s| - |sep| ==> Find(s, sep) == -1
  {
    FindIs(s, sep);
    var r := Find(s, sep);
    assert r >= 0 && NoneBefore(s, sep, i) ==> r >= i;
  }

  /** Where nothing matches, the search may start later. */
  lemma FindSkips(s: seq<byte>, sep: seq<byte>, n: nat)
    requires n <= |s| && NoneBefore(s, sep, n)
    ensures Find(s, sep) == if Find(s[n..], sep) < 0 then -1 else n + Find(s[n..], sep)
  {
    hide Find;
    var r := Find(s[n..], sep);
    FindIs(s[n..], sep);
    MatchLater(s, sep, n, r);
    var end := if r < 0 then |s| + 1 else n + r;
    forall j | 0 <= j < end
      ensures !MatchAt(s, sep, j)
    {
      if j >= n { MatchLater(s, sep, n, j - n); }
    }
    FindUnique(s, sep, end);
  }

  // ---------------------------------------------------------------- bytes.Index

  /** What depends on the machine: the lengths bytealg.Index handles, and when to give up on IndexByte. */
  datatype Tuning = Tuning(maxLen: nat, maxBruteForce: nat, cutover: nat -> int)

  /** A match starts with its first byte. */
  lemma SkipTo(s: seq<byte>, sep: seq<byte>, i: nat, t: nat)
    requires |sep| >= 1 && i < t == |s| - |sep| + 1 && NoneBefore(s, sep, i) && s[i] != sep[0]
    ensures var o := IndexByte(s[i + 1..t], sep[0]);
            if o < 0 then Find(s, sep) == -1 else i + o + 1 < t && NoneBefore(s, sep, i + o + 1) && s[i + o + 1] == sep[0]
  {
    hide IndexByte, Find, MatchAt;
    var o := IndexByte(s[i + 1..t], sep[0]);
    var end := if o < 0 then t else i + o + 1;
    forall j | 0 <= j < end
      ensures !MatchAt(s, sep, j)
    {
      MatchHead(s, sep, j);
      LacksByte(s, sep[0], i + 1, t, j);
    }
    if o < 0 { FindUnique(s, sep, t); }
  }

  lemma MatchHead(s: seq<byte>, sep: seq<byte>, j: nat)
    ensures MatchAt(s, sep, j) && sep != [] ==> s[j] == sep[0]
  {
    if j + |sep| <= |s| && sep != [] { assert s[j..j + |sep|][0] == s[j]; }
  }

  lemma LacksByte(s: seq<byte>, c: byte, lo: nat, t: nat, j: nat)
    requires lo <= t <= |s|
    ensures var o := IndexByte(s[lo..t], c); lo <= j < (if o < 0 then t else lo + o) ==> s[j] != c
  {
    hide IndexByte;
    var w := s[lo..t];
    var o := IndexByte(w, c);
    if lo <= j < t {
      assert w[j - lo] == s[j];
      if o > j - lo { assert w[..o][j - lo] == s[j]; }
    }
  }

  /** One step of both search loops: the first byte of sep is at i; compare there. */
  lemma CompareAt(s: seq<byte>, sep: seq<byte>, i: nat)
    requires |sep| >= 2 && i + |sep| <= |s| && NoneBefore(s, sep, i)
    ensures if s[i + 1] == sep[1] && s[i..i + |sep|] == sep then Find(s, sep) == i else NoneBefore(s, sep, i + 1)
  {
    assert s[i + 1] == s[i..i + |sep|][1];
    FindUnique(s, sep, i);
  }

  method Index(s: seq<byte>, sep: seq<byte>, tuning: Tuning) returns (r: int)
    ensures r == Find(s, sep)
  {
    hide Find, IndexByte;
    var n := |sep|;
    if n == 0 {
      FindEmpty(s);
      return 0;
    }
    if n == 1 {
      FindByte(s, sep[0]);
      assert sep == [sep[0]];
      return IndexByte(s, sep[0]);
    }
    FindWhole(s, sep);
    if n == |s| {
      return if sep == s then 0 else -1;
    }
    if n > |s| {
      return -1;
    }
    if n > tuning.maxLen {
      r := IndexLong(s, sep);
    } else if |s| <= tuning.maxBruteForce {
      r := Find(s, sep);
    } else {
      r := IndexShort(s, sep, tuning.cutover);
    }
  }

  /** Skips ahead with IndexByte until there are too many false positives, then searches as bytealg.Index does. */
  method IndexShort(s: seq<byte>, sep: seq<byte>, cutover: nat -> int) returns (r: int)
    requires 2 <= |sep| < |s|
    ensures r == Find(s, sep)
  {
    hide Find, IndexByte, NoneBefore;
    var n := |sep|;
    var i, fails, t := 0, 0, |s| - n + 1;
    NoneBeforeZero(s, sep);
    while i < t
      invariant i <= t && NoneBefore(s, sep, i)
    {
      if s[i] != sep[0] {
        SkipTo(s, sep, i, t);
        var o := IndexByte(s[i + 1..t], sep[0]);
        if o < 0 {
          return -1;
        }
        i := i + o + 1;
      }
      CompareAt(s, sep, i);
      if s[i + 1] == sep[1] && s[i..i + n] == sep {
        return i;
      }
      fails, i := fails + 1, i + 1;
      if fails > cutover(i) {
        FindSkips(s, sep, i);
        r := Find(s[i..], sep);
        return if r >= 0 then r + i else -1;
      }
    }
    FindUnique(s, sep, i);
    return -1;
  }

  /** The same for a long sep, with Rabin-Karp to fall back on. */
  method IndexLong(s: seq<byte>, sep: seq<byte>) returns (r: int)
    requires 2 <= |sep| < |s|
    ensures r == Find(s, sep)
  {
    hide Find, IndexByte, NoneBefore;
    var n := |sep|;
    var i, fails, t := 0, 0, |s| - n + 1;
    NoneBeforeZero(s, sep);
    while i < t
      invariant i <= t && NoneBefore(s, sep, i)
    {
      if s[i] != sep[0] {
        SkipTo(s, sep, i, t);
        var o := IndexByte(s[i + 1..t], sep[0]);
        if o < 0 {
          return -1;
        }
        i := i + o + 1;
      }
      CompareAt(s, sep, i);
      if s[i + 1] == sep[1] && s[i..i + n] == sep {
        return i;
      }
      i, fails := i + 1, fails + 1;
      if fails >= 4 + i / 16 && i < t {
        FindSkips(s, sep, i);
        var j := IndexRabinKarp(s[i..], sep);
        return if j < 0 then -1 else i + j;
      }
    }
    FindUnique(s, sep, i);
    return -1;
  }

  lemma FindEmpty(s: seq<byte>)
    ensures Find(s, []) == 0
  {
  }

  lemma {:induction false} FindByte(s: seq<byte>, c: byte)
    ensures Find(s, [c]) == IndexByte(s, c)
  {
    if s != [] { FindByte(s[1..], c); }
  }

  lemma FindWhole(s: seq<byte>, sep: seq<byte>)
    requires sep != []
    ensures |sep| >= |s| ==> Find(s, sep) == if sep == s then 0 else -1
  {
    if s != [] { assert |s[1..]| < |s|; }
  }

  lemma NoneBeforeZero(s: seq<byte>, sep: seq<byte>)
    ensures NoneBefore(s, sep, 0)
  {
  }

  // ---------------------------------------------------------------- Rabin-Karp

  const PRIME_RK := 16777619
  const WORD := 0x1_0000_0000

  /** Equal as 32-bit words. */
  predicate Same(a: int, b: int) {
    a % WORD == b % WORD
  }

  lemma SameMul(a: int, b: int, c: int)
    requires Same(a, b)
    ensures Same(a * c, b * c)
  {
    var k := a / WORD - b / WORD;
    assert a == b + k * WORD;
    assert a * c == b * c + (k * c) * WORD;
    WordsOff(b * c, k * c);
  }

  lemma WordAdd(a: int, b: int, c: int)
    requires Same(a, b)
    ensures Same(a + c, b + c)
  {
  }

  lemma WordsOff(x: int, k: int)
    ensures Same(x + k * WORD, x)
  {
  }

  function Power(b: int, e: nat): int {
    if e == 0 then 1 else b * Power(b, e - 1)
  }

  lemma {:induction false} PowerSquare(b: int, e: nat)
    ensures Power(b, 2 * e) == Power(b * b, e)
  {
    if e > 0 {
      PowerSquare(b, e - 1);
      assert Power(b, 2 * e) == b * (b * Power(b, 2 * e - 2));
      assert b * (b * Power(b, 2 * e - 2)) == b * b * Power(b, 2 * e - 2);
    }
  }

  lemma {:induction false} SamePower(a: int, b: int, e: nat)
    requires Same(a, b)
    ensures Same(Power(a, e), Power(b, e))
  {
    if e > 0 {
      SamePower(a, b, e - 1);
      SameMul(a, b, Power(a, e - 1));
      SameMul(Power(a, e - 1), Power(b, e - 1), b);
      assert Power(a, e - 1) * b == b * Power(a, e - 1) && Power(b, e - 1) * b == b * Power(b, e - 1);
    }
  }

  /** The hash of s before it is cut to 32 bits. */
  function Poly(s: seq<byte>): int {
    if s == [] then 0 else Poly(s[..|s| - 1]) * PRIME_RK + s[|s| - 1] as int
  }

  lemma PolySnoc(s: seq<byte>, c: byte)
    ensures Poly(s + [c]) == Poly(s) * 16777619 + c as int
  {
    assert (s + [c])[..|s|] == s;
  }

  lemma {:induction false} PolyCons(c: byte, s: seq<byte>)
    ensures Poly([c] + s) == c as int * Power(PRIME_RK, |s|) + Poly(s)
  {
    if s == [] {
      assert [c] + s == [] + [c];
      PolySnoc([], c);
    } else {
      var u, d := s[..|s| - 1], s[|s| - 1];
      PolyCons(c, u);
      PolySnoc([c] + u, d);
      assert [c] + s == [c] + u + [d];
      assert c as int * Power(PRIME_RK, |u|) * PRIME_RK == c as int * Power(PRIME_RK, |s|);
    }
  }

  /** Moving the window by one byte. */
  lemma PolyRolls(w: seq<byte>, c: byte)
    requires w != []
    ensures Poly(w[1..] + [c]) == Poly(w) * PRIME_RK + c as int - Power(PRIME_RK, |w|) * w[0] as int
  {
    hide Poly, Power;
    assert w + [c] == [w[0]] + (w[1..] + [c]);
    PolySnoc(w, c);
    PolyCons(w[0], w[1..] + [c]);
    assert w[0] as int * Power(PRIME_RK, |w|) == Power(PRIME_RK, |w|) * w[0] as int;
  }

  /** HashStr: the hash of sep, and the factor that takes a byte out of the window. */
  method HashStr(sep: seq<byte>) returns (hash: int, pow: int)
    ensures hash == Poly(sep) % 0x1_0000_0000 && pow == Power(16777619, |sep|) % 0x1_0000_0000
  {
    hide Poly, Power, Same;
    hash := HashAll(sep);
    pow := 1;
    var sq, i: nat := PRIME_RK, |sep|;
    PowerStarts(sq, i);
    while i > 0
      invariant 0 <= pow < WORD && Same(pow * Power(sq, i), Power(PRIME_RK, |sep|))
    {
      PowerStep(pow, sq, i, Power(PRIME_RK, |sep|));
      if i % 2 != 0 {
        pow := pow * sq % WORD;
      }
      sq, i := sq * sq % WORD, i / 2;
    }
    PowerEnds(pow, sq, Power(PRIME_RK, |sep|));
  }

  lemma PowerStarts(b: int, e: nat)
    ensures Same(1 * Power(b, e), Power(b, e))
  {
  }

  lemma PowerEnds(pow: int, b: int, x: int)
    requires 0 <= pow < WORD && Same(pow * Power(b, 0), x)
    ensures pow == x % WORD
  {
  }

  /** The first loop of HashStr, and of IndexRabinKarp: the hash of s in 32-bit words. */
  method HashAll(s: seq<byte>) returns (hash: int)
    ensures hash == Poly(s) % WORD
  {
    hash := 0;
    var j := 0;
    while j < |s|
      invariant j <= |s| && hash == Poly(s[..j]) % WORD
    {
      HashStep(hash, s[..j], s[j]);
      assert s[..j + 1] == s[..j] + [s[j]];
      hash := (hash * PRIME_RK + s[j] as int) % WORD;
      j := j + 1;
    }
    assert s[..j] == s;
  }

  lemma HashStep(hash: int, u: seq<byte>, c: byte)
    requires hash == Poly(u) % WORD
    ensures (hash * PRIME_RK + c as int) % WORD == Poly(u + [c]) % WORD
  {
    hide Poly;
    PolySnoc(u, c);
    SameMul(hash, Poly(u), PRIME_RK);
    WordAdd(hash * PRIME_RK, Poly(u) * PRIME_RK, c as int);
  }

  /** One step of fast exponentiation. */
  lemma PowerStep(pow: int, sq: int, i: nat, x: int)
    requires i > 0 && Same(pow * Power(sq, i), x)
    ensures Same((if i % 2 != 0 then pow * sq % WORD else pow) * Power(sq * sq % WORD, i / 2), x)
  {
    hide Power, Same;
    var p := if i % 2 != 0 then pow * sq % WORD else pow;
    var q := if i % 2 != 0 then pow * sq else pow;
    var h := i / 2;
    PowerSquare(sq, h);
    Cut(sq * sq);
    Cut(pow * sq);
    Cut(pow);
    SamePower(sq * sq % WORD, sq * sq, h);
    SameProduct(p, q, Power(sq * sq % WORD, h), Power(sq, 2 * h));
    PowerSplits(pow, sq, h);
    SameTrans(p * Power(sq * sq % WORD, h), q * Power(sq, 2 * h), x);
  }

  lemma Cut(x: int)
    ensures Same(x % WORD, x) && Same(x, x)
  {
  }

  lemma SameTrans(a: int, b: int, c: int)
    requires Same(a, b) && Same(b, c)
    ensures Same(a, c)
  {
  }

  lemma SameProduct(a: int, b: int, c: int, d: int)
    requires Same(a, b) && Same(c, d)
    ensures Same(a * c, b * d)
  {
    hide Same;
    SameMul(a, b, c);
    SameMul(c, d, b);
    assert c * b == b * c && d * b == b * d;
    SameTrans(a * c, b * c, b * d);
  }

  lemma PowerSplits(pow: int, sq: int, h: nat)
    ensures pow * Power(sq, 2 * h + 1) == pow * sq * Power(sq, 2 * h)
  {
    PowerOdd(sq, h);
    assert pow * (sq * Power(sq, 2 * h)) == pow * sq * Power(sq, 2 * h);
  }

  lemma PowerOdd(b: int, h: nat)
    ensures Power(b, 2 * h + 1) == b * Power(b, 2 * h)
  {
  }

  /** The 32-bit operations that move the window: in comes at its end, out leaves at its start. */
  function Roll(h: int, pow: int, in_: byte, out: byte): int {
    var h1 := h * PRIME_RK % WORD;
    var h2 := (h1 + in_ as int) % WORD;
    (h2 - pow * out as int % WORD) % WORD
  }

  lemma HashRolls(h: int, pow: int, w: seq<byte>, c: byte)
    requires w != [] && h == Poly(w) % WORD && pow == Power(PRIME_RK, |w|) % WORD
    ensures Roll(h, pow, c, w[0]) == Poly(w[1..] + [c]) % WORD
  {
    hide Poly, Power, Same;
    PolyRolls(w, c);
    SameMul(h, Poly(w), PRIME_RK);
    SameMul(pow, Power(PRIME_RK, |w|), w[0] as int);
    WordSum(h * PRIME_RK, c as int, pow * w[0] as int, Poly(w) * PRIME_RK, Power(PRIME_RK, |w|) * w[0] as int);
  }

  lemma WordSum(x: int, c: int, y: int, x2: int, y2: int)
    requires Same(x, x2) && Same(y, y2)
    ensures ((x % WORD + c) % WORD - y % WORD) % WORD == (x2 + c - y2) % WORD
  {
  }

  method IndexRabinKarp(s: seq<byte>, sep: seq<byte>) returns (r: int)
    requires |sep| <= |s|
    ensures r == Find(s, sep)
  {
    hide Find, Poly, Power, Roll, NoneBefore, MatchAt;
    var n := |sep|;
    var hashss, pow := HashStr(sep);
    var h := HashAll(s[..n]);
    assert s[0..n] == s[..n];
    NoneBeforeZero(s, sep);
    WindowIs(s, sep, 0);
    if h == hashss && s[..n] == sep {
      return 0;
    }
    var i := n;
    while i < |s|
      invariant n <= i <= |s| && h == Poly(s[i - n..i]) % WORD && NoneBefore(s, sep, i - n + 1)
    {
      WindowMoves(s, n, i);
      HashRolls(h, pow, s[i - n..i], s[i]);
      h := Roll(h, pow, s[i], s[i - n]);
      i := i + 1;
      WindowIs(s, sep, i - n);
      if h == hashss && s[i - n..i] == sep {
        return i - n;
      }
    }
    FindUnique(s, sep, i - n + 1);
    return -1;
  }

  lemma WindowIs(s: seq<byte>, sep: seq<byte>, i: nat)
    requires i + |sep| <= |s| && NoneBefore(s, sep, i)
    ensures if s[i..i + |sep|] == sep then Find(s, sep) == i else NoneBefore(s, sep, i + 1)
  {
    hide Find;
    FindUnique(s, sep, i);
  }

  lemma WindowMoves(s: seq<byte>, n: nat, i: nat)
    requires n <= i < |s|
    ensures n > 0 ==> s[i - n + 1..i + 1] == s[i - n..i][1..] + [s[i]] && s[i - n..i][0] == s[i - n]
  {
  }

  // ---------------------------------------------------------------- bytes.IndexRune

  /** The first rune r of s, read as a sequence of code points: the position of its first byte, or -1. */
  function RuneIndex(s: seq<byte>, r: int): (i: int)
    ensures -1 <= i <= |s|
    decreases |s|
  {
    if s == [] then -1
    else
      var (r1, n) := DecodeRune(s);
      if r1 == r then 0
      else
        var i := RuneIndex(s[n..], r);
        if i < 0 then -1 else n + i
  }

  /** UTF-8 synchronises itself: the bytes of a rune are found only where that rune is read. */
  lemma {:induction false} RuneIndexIsFind(s: seq<byte>, r: int)
    requires ValidRune(r) && r != RUNE_ERROR
    ensures RuneIndex(s, r) == Find(s, EncodeRune(r))
    decreases |s|
  {
    hide DecodeRune, EncodeRune, ValidRune;
    var e := EncodeRune(r);
    if s != [] {
      var (r1, n) := DecodeRune(s);
      EncodeDecode(s);
      if r1 == r {
        FindUnique(s, e, 0);
        assert s[0..|e|] == s[..n];
      } else {
        RuneIndexIsFind(s[n..], r);
        forall j | 0 <= j < n
          ensures !MatchAt(s, e, j)
        {
          MatchHead(s, e, j);
          if j == 0 { StartsWithRune(s, r); }
        }
        FindSkips(s, e, n);
      }
    }
  }

  lemma StartsWithRune(s: seq<byte>, r: int)
    requires ValidRune(r)
    ensures MatchAt(s, EncodeRune(r), 0) ==> DecodeRune(s).0 == r
  {
    hide DecodeRune, EncodeRune;
    var e := EncodeRune(r);
    DecodeEncode(r, if |e| <= |s| then s[|e|..] else []);
    if |e| <= |s| { assert s == s[0..|e|] + s[|e|..]; }
  }

  lemma {:induction false} InvalidNeverRead(s: seq<byte>, r: int)
    requires !ValidRune(r)
    ensures RuneIndex(s, r) == -1
    decreases |s|
  {
    hide DecodeRune;
    if s != [] {
      EncodeDecode(s);
      InvalidNeverRead(s[DecodeRune(s).1..], r);
    }
  }

  method IndexRune(s: seq<byte>, r: int, fast: Option<nat -> int>) returns (p: int)
    ensures p == RuneIndex(s, r)
  {
    hide RuneIndex, Find, IndexByte;
    if 0 <= r < RUNE_SELF {
      AsciiIndex(s, r);
      return IndexByte(s, r as byte);
    }
    if r == RUNE_ERROR {
      p := IndexError(s);
      return;
    }
    if !ValidRune(r) {
      InvalidNeverRead(s, r);
      return -1;
    }
    RuneIndexIsFind(s, r);
    p := SearchBackwards(s, EncodeRune(r), fast);
  }

  /** The case of U+FFFD: the first invalid sequence, or the rune itself. */
  method IndexError(s: seq<byte>) returns (p: int)
    ensures p == RuneIndex(s, RUNE_ERROR)
  {
    hide DecodeRune;
    var i := 0;
    while i < |s|
      invariant i <= |s|
      invariant RuneIndex(s, RUNE_ERROR) == if RuneIndex(s[i..], RUNE_ERROR) < 0 then -1 else i + RuneIndex(s[i..], RUNE_ERROR)
    {
      var (r1, n) := DecodeRune(s[i..]);
      assert s[i..][n..] == s[i + n..];
      if r1 == RUNE_ERROR {
        return i;
      }
      i := i + n;
    }
    return -1;
  }

  lemma AsciiIndex(s: seq<byte>, r: int)
    requires 0 <= r < RUNE_SELF
    ensures RuneIndex(s, r) == IndexByte(s, r as byte)
  {
    RuneIndexIsFind(s, r);
    FindByte(s, r as byte);
  }

  /** A match ends with its last byte: the search by last bytes may skip to the next one. */
  lemma SkipToLast(s: seq<byte>, b: seq<byte>, i: nat)
    requires b != [] && |b| - 1 <= i < |s| && NoneBefore(s, b, i - (|b| - 1)) && s[i] != b[|b| - 1]
    ensures var o, last := IndexByte(s[i + 1..], b[|b| - 1]), |b| - 1;
            if o < 0 then Find(s, b) == -1 else NoneBefore(s, b, i + o + 1 - last) && s[i + o + 1] == b[last]
  {
    hide IndexByte, Find, MatchAt, NoneBefore;
    var o, last := IndexByte(s[i + 1..], b[|b| - 1]), |b| - 1;
    var end := if o < 0 then |s| - last else i + o + 1 - last;
    forall j | 0 <= j < end
      ensures !MatchAt(s, b, j)
    {
      NotBeforeNext(s, b, i, j);
    }
    NoneBeforeAt(s, b, end);
    if o < 0 { FindUnique(s, b, end); }
  }

  lemma NotBeforeNext(s: seq<byte>, b: seq<byte>, i: nat, j: nat)
    requires b != [] && |b| - 1 <= i < |s| && NoneBefore(s, b, i - (|b| - 1)) && s[i] != b[|b| - 1]
    requires var o, last := IndexByte(s[i + 1..], b[|b| - 1]), |b| - 1; j < if o < 0 then |s| - last else i + o + 1 - last
    ensures !MatchAt(s, b, j)
  {
    hide IndexByte, MatchAt;
    MatchLast(s, b, j);
    assert s[i + 1..|s|] == s[i + 1..];
    if j + |b| - 1 > i { LacksByte(s, b[|b| - 1], i + 1, |s|, j + |b| - 1); }
  }

  lemma NoneBeforeAt(s: seq<byte>, b: seq<byte>, i: int)
    ensures NoneBefore(s, b, i) <==> forall j :: 0 <= j < i ==> !MatchAt(s, b, j)
  {
  }

  lemma MatchLast(s: seq<byte>, b: seq<byte>, j: nat)
    ensures MatchAt(s, b, j) && b != [] ==> j + |b| <= |s| && s[j + |b| - 1] == b[|b| - 1]
  {
    if j + |b| <= |s| && b != [] { assert s[j..j + |b|][|b| - 1] == s[j + |b| - 1]; }
  }

  /** Compares the bytes of b, from the one that is k before its last, with those before position i of s. */
  method CompareBackwards(s: seq<byte>, b: seq<byte>, i: nat, k: nat) returns (same: bool)
    requires 1 <= k <= |b| && |b| - 1 <= i < |s| && s[i - k + 1..i + 1] == b[|b| - k..]
    ensures same <==> MatchAt(s, b, i - (|b| - 1))
  {
    var last := |b| - 1;
    var j := k;
    while j < |b|
      invariant k <= j <= |b| && s[i - j + 1..i + 1] == b[|b| - j..]
    {
      if s[i - j] != b[last - j] {
        assert s[i - last..i + 1][last - j] == s[i - j];
        return false;
      }
      assert s[i - j..i + 1] == [s[i - j]] + s[i - j + 1..i + 1];
      assert b[last - j..] == [b[last - j]] + b[|b| - j..];
      j := j + 1;
    }
    assert b[|b| - j..] == b;
    return true;
  }

  /** Finds the bytes of a rune by the last of them; falls back to another search when that finds too little. */
  method SearchBackwards(s: seq<byte>, b: seq<byte>, fast: Option<nat -> int>) returns (p: int)
    requires |b| >= 2
    ensures p == Find(s, b)
  {
    hide Find, IndexByte, NoneBefore;
    var last := |b| - 1;
    var i, fails := last, 0;
    NoneBeforeZero(s, b);
    while i < |s|
      invariant last <= i && NoneBefore(s, b, i - last) && (i > last ==> i <= |s|)
    {
      if s[i] != b[last] {
        SkipToLast(s, b, i);
        var o := IndexByte(s[i + 1..], b[last]);
        if o < 0 {
          return -1;
        }
        i := i + o + 1;
      }
      assert s[i..i + 1] == b[last..];
      FindUnique(s, b, i - last);
      var same := CompareBackwards(s, b, i, 1);
      if same {
        return i - last;
      }
      NoneBeforeNext(s, b, i - last);
      fails, i := fails + 1, i + 1;
      if i < |s| && fast.Some? && fails > fast.value(i) {
        FindSkips(s, b, i - last);
        var j := Find(s[i - last..], b);
        return if j >= 0 then i + j - last else -1;
      }
      if i < |s| && fast.None? && fails >= 4 + i / 16 {
        p := BruteForce(s, b, i);
        return;
      }
    }
    FindUnique(s, b, i - last);
    return -1;
  }

  lemma NoneBeforeNext(s: seq<byte>, sep: seq<byte>, i: nat)
    requires NoneBefore(s, sep, i) && !MatchAt(s, sep, i)
    ensures NoneBefore(s, sep, i + 1)
  {
  }

  /** The search without bytealg.Index: tests the last two bytes of b first. */
  method BruteForce(s: seq<byte>, b: seq<byte>, start: nat) returns (p: int)
    requires |b| >= 2 && |b| - 1 <= start <= |s| && NoneBefore(s, b, start - (|b| - 1))
    ensures p == Find(s, b)
  {
    hide Find, NoneBefore;
    var last, i := |b| - 1, start;
    while i < |s|
      invariant start <= i <= |s| && NoneBefore(s, b, i - last)
    {
      LastTwo(s, b, i);
      if s[i] == b[last] && s[i - 1] == b[last - 1] {
        var same := CompareBackwards(s, b, i, 2);
        FindUnique(s, b, i - last);
        if same {
          return i - last;
        }
      }
      NoneBeforeNext(s, b, i - last);
      i := i + 1;
    }
    FindUnique(s, b, i - last);
    return -1;
  }

  lemma LastTwo(s: seq<byte>, b: seq<byte>, i: nat)
    requires |b| >= 2 && |b| - 1 <= i < |s|
    ensures s[i] == b[|b| - 1] && s[i - 1] == b[|b| - 2] <==> s[i - 2 + 1..i + 1] == b[|b| - 2..]
    ensures MatchAt(s, b, i - (|b| - 1)) ==> s[i] == b[|b| - 1] && s[i - 1] == b[|b| - 2]
  {
    var w := s[i - (|b| - 1)..i + 1];
    assert w[|b| - 1] == s[i] && w[|b| - 2] == s[i - 1];
  }
}
