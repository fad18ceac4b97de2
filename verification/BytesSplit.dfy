/** Splitting, joining and replacing in package bytes (go/src/bytes/bytes.go). */
module BytesSplit {
  import opened Prelude
  import opened Streams
  import opened Utf8
  import opened BytesSearch

  // ---------------------------------------------------------------- what the operations mean

  /** The number of non-overlapping instances of sep. */
  function Instances(s: seq<byte>, sep: seq<byte>): nat
    requires sep != []
    decreases |s|
  {
    var m := Find(s, sep);
    if m < 0 then 0 else 1 + Instances(s[m + |sep|..], sep)
  }

  /** At most n pieces of s between instances of sep, each with the first save bytes of its separator. */
  function Pieces(s: seq<byte>, sep: seq<byte>, save: nat, n: nat): seq<seq<byte>>
    requires sep != [] && save <= |sep| && n > 0
    decreases n
  {
    var m := Find(s, sep);
    if n == 1 || m < 0 then [s] else [s[..m + save]] + Pieces(s[m + |sep|..], sep, save, n - 1)
  }

  /** At most n pieces of s, one rune each but for the last. */
  function Runes(s: seq<byte>, n: nat): seq<seq<byte>>
    decreases n
  {
    if s == [] || n == 0 then []
    else if n == 1 then [s]
    else [s[..DecodeRune(s).1]] + Runes(s[DecodeRune(s).1..], n - 1)
  }

  function RuneCount(s: seq<byte>): (n: nat)
    ensures n <= |s|
    decreases |s|
  {
    if s == [] then 0 else 1 + RuneCount(s[DecodeRune(s).1..])
  }

  function Joined(parts: seq<seq<byte>>, sep: seq<byte>): seq<byte> {
    if parts == [] then []
    else if |parts| == 1 then parts[0]
    else parts[0] + sep + Joined(parts[1..], sep)
  }

  /** The first n instances of old replaced. */
  function Replaced(s: seq<byte>, old_: seq<byte>, new_: seq<byte>, n: nat): seq<byte>
    requires old_ != []
    decreases n
  {
    var m := Find(s, old_);
    if n == 0 || m < 0 then s else s[..m] + new_ + Replaced(s[m + |old_|..], old_, new_, n - 1)
  }

  /** new put after each of the first n runes. */
  function AfterRunes(s: seq<byte>, new_: seq<byte>, n: nat): seq<byte>
    decreases n
  {
    if n == 0 || s == [] then s
    else
      var w := DecodeRune(s).1;
      s[..w] + new_ + AfterRunes(s[w..], new_, n - 1)
  }

  /** new put at the beginning and after each rune, n times at most. */
  function Interspersed(s: seq<byte>, new_: seq<byte>, n: nat): seq<byte> {
    if n == 0 then s else new_ + AfterRunes(s, new_, n - 1)
  }

  // ---------------------------------------------------------------- runes

  function Encoded(rs: seq<int>): seq<byte> {
    if rs == [] then [] else EncodeRune(rs[0]) + Encoded(rs[1..])
  }

  lemma EncodedHead(rs: seq<int>)
    requires rs != [] && ValidRune(rs[0])
    ensures DecodeRune(Encoded(rs)) == (rs[0], |EncodeRune(rs[0])|) && Encoded(rs) != []
    ensures Encoded(rs)[..|EncodeRune(rs[0])|] == EncodeRune(rs[0])
    ensures Encoded(rs)[|EncodeRune(rs[0])|..] == Encoded(rs[1..])
  {
    hide DecodeRune, EncodeRune;
    DecodeEncode(rs[0], Encoded(rs[1..]));
  }

  /** Runes are counted, not bytes. */
  lemma {:induction false} RuneCountIs(rs: seq<int>)
    requires forall r <- rs :: ValidRune(r)
    ensures RuneCount(Encoded(rs)) == |rs|
  {
    hide DecodeRune, EncodeRune, ValidRune;
    if rs != [] {
      assert rs[0] in rs && forall r <- rs[1..] :: r in rs;
      EncodedHead(rs);
      RuneCountIs(rs[1..]);
    }
  }

  /** Every piece is a rune, but for the last of as many pieces as there may be, which is all that is left. */
  lemma {:induction false} RunesAre(rs: seq<int>, n: nat)
    requires forall r <- rs :: ValidRune(r)
    ensures var pieces := Runes(Encoded(rs), n);
            && |pieces| == Min(n, |rs|)
            && (forall i :: 0 <= i < |pieces| && i + 1 < n ==> pieces[i] == EncodeRune(rs[i]))
            && (0 < n <= |rs| ==> pieces[n - 1] == Encoded(rs[n - 1..]))
    decreases n
  {
    hide DecodeRune, EncodeRune, ValidRune, Encoded, Runes;
    NothingEncoded(rs);
    RunesUnfold(Encoded(rs), n);
    if n == 1 {
      assert rs[0..] == rs;
    } else if rs != [] && n > 0 {
      assert rs[0] in rs && forall r <- rs[1..] :: r in rs;
      EncodedHead(rs);
      RunesAre(rs[1..], n - 1);
      if n <= |rs| { assert rs[1..][n - 2..] == rs[n - 1..]; }
    }
  }

  lemma RunesUnfold(s: seq<byte>, n: nat)
    ensures Runes(s, n) == if s == [] || n == 0 then []
                           else if n == 1 then [s]
                           else [s[..DecodeRune(s).1]] + Runes(s[DecodeRune(s).1..], n - 1)
  {
    hide DecodeRune;
  }

  lemma NothingEncoded(rs: seq<int>)
    requires forall r <- rs :: ValidRune(r)
    ensures Encoded(rs) == [] <==> rs == []
  {
    if rs != [] {
      assert rs[0] in rs;
      EncodedHead(rs);
    }
  }

  /** new goes before each of the first n runes, or before and after each. */
  lemma {:induction false} InterspersedIs(rs: seq<int>, new_: seq<byte>, n: nat)
    requires forall r <- rs :: ValidRune(r)
    ensures Interspersed(Encoded(rs), new_, n) ==
            if n == 0 then Encoded(rs)
            else if rs == [] then new_
            else new_ + EncodeRune(rs[0]) + Interspersed(Encoded(rs[1..]), new_, n - 1)
    decreases n
  {
    hide DecodeRune, EncodeRune, ValidRune, Encoded;
    NothingEncoded(rs);
    if n > 0 {
      if rs == [] {
        assert new_ + [] == new_;
      } else {
        assert rs[0] in rs;
        EncodedHead(rs);
        var e, rest := EncodeRune(rs[0]), Encoded(rs[1..]);
        if n == 1 {
          assert Encoded(rs) == e + rest && new_ + (e + rest) == new_ + e + rest;
        } else {
          var after := AfterRunes(rest, new_, n - 2);
          assert AfterRunes(Encoded(rs), new_, n - 1) == e + new_ + after;
          assert new_ + (e + new_ + after) == new_ + e + (new_ + after);
        }
      }
    }
  }

  // ---------------------------------------------------------------- laws

  lemma {:induction false} InstancesBound(s: seq<byte>, sep: seq<byte>)
    requires sep != []
    ensures Instances(s, sep) <= |s|
    decreases |s|
  {
    var m := Find(s, sep);
    if m >= 0 { InstancesBound(s[m + |sep|..], sep); }
  }

  /** Split makes one piece more than there are separators, unless that is too many. */
  lemma {:induction false} PieceCount(s: seq<byte>, sep: seq<byte>, save: nat, n: nat)
    requires sep != [] && save <= |sep| && n > 0
    ensures |Pieces(s, sep, save, n)| == Min(n, Instances(s, sep) + 1)
    decreases n
  {
    var m := Find(s, sep);
    if n > 1 && m >= 0 { PieceCount(s[m + |sep|..], sep, save, n - 1); }
  }

  /** A larger limit makes no difference. */
  lemma {:induction false} EnoughPieces(s: seq<byte>, sep: seq<byte>, save: nat, n: nat, k: nat)
    requires sep != [] && save <= |sep| && n > Instances(s, sep) && k > Instances(s, sep)
    ensures Pieces(s, sep, save, n) == Pieces(s, sep, save, k)
    decreases n
  {
    var m := Find(s, sep);
    if m >= 0 { EnoughPieces(s[m + |sep|..], sep, save, n - 1, k - 1); }
  }

  /** Joining what was split gives the text back; so does putting the pieces of SplitAfter together. */
  lemma {:induction false} JoinUndoesSplit(s: seq<byte>, sep: seq<byte>, n: nat)
    requires sep != [] && n > 0
    ensures Joined(Pieces(s, sep, 0, n), sep) == s
    ensures Joined(Pieces(s, sep, |sep|, n), []) == s
    decreases n
  {
    var m := Find(s, sep);
    if n > 1 && m >= 0 {
      var rest := s[m + |sep|..];
      JoinUndoesSplit(rest, sep, n - 1);
      SplitAtMatch(s, sep);
      JoinedCons(s[..m], Pieces(rest, sep, 0, n - 1), sep);
      JoinedCons(s[..m + |sep|], Pieces(rest, sep, |sep|, n - 1), []);
    }
  }

  lemma SplitAtMatch(s: seq<byte>, sep: seq<byte>)
    ensures var m := Find(s, sep);
            m >= 0 ==> s == s[..m] + sep + s[m + |sep|..] && s == s[..m + |sep|] + [] + s[m + |sep|..]
  {
    hide Find;
    FindIs(s, sep);
  }

  lemma JoinedCons(p: seq<byte>, parts: seq<seq<byte>>, sep: seq<byte>)
    requires parts != []
    ensures Joined([p] + parts, sep) == p + sep + Joined(parts, sep)
  {
    assert ([p] + parts)[1..] == parts;
  }

  /** No piece of a complete split contains the separator. */
  lemma {:induction false} PiecesLackSeparator(s: seq<byte>, sep: seq<byte>, n: nat)
    requires sep != [] && n > Instances(s, sep)
    ensures forall p <- Pieces(s, sep, 0, n) :: Find(p, sep) == -1
    decreases n
  {
    var m := Find(s, sep);
    if m >= 0 {
      PiecesLackSeparator(s[m + |sep|..], sep, n - 1);
      LacksBefore(s, sep);
    }
  }

  lemma LacksBefore(s: seq<byte>, sep: seq<byte>)
    requires sep != [] && Find(s, sep) >= 0
    ensures Find(s[..Find(s, sep)], sep) == -1
  {
    hide Find;
    var m := Find(s, sep);
    FindIs(s, sep);
    forall j | 0 <= j < m
      ensures !MatchAt(s[..m], sep, j)
    {
      assert !MatchAt(s, sep, j);
      if j + |sep| <= m { assert s[..m][j..j + |sep|] == s[j..j + |sep|]; }
    }
    FindUnique(s[..m], sep, m);
  }

  /** Replace is split and join. */
  lemma {:induction false} ReplaceIsSplitJoin(s: seq<byte>, old_: seq<byte>, new_: seq<byte>, n: nat)
    requires old_ != []
    ensures Replaced(s, old_, new_, n) == Joined(Pieces(s, old_, 0, n + 1), new_)
    decreases n
  {
    hide Find;
    var m := Find(s, old_);
    if n > 0 && m >= 0 {
      var rest := s[m + |old_|..];
      ReplaceIsSplitJoin(rest, old_, new_, n - 1);
      JoinedCons(s[..m], Pieces(rest, old_, 0, n), new_);
    }
  }

  lemma {:induction false} ReplacedLength(s: seq<byte>, old_: seq<byte>, new_: seq<byte>, n: nat)
    requires old_ != [] && n <= Instances(s, old_)
    ensures |Replaced(s, old_, new_, n)| == |s| + n * (|new_| - |old_|)
    decreases n
  {
    hide Find;
    var m, d := Find(s, old_), |new_| - |old_|;
    if n > 0 {
      ReplacedLength(s[m + |old_|..], old_, new_, n - 1);
      OneMore(n, d);
    }
  }

  lemma OneMore(n: int, d: int)
    ensures n * d == (n - 1) * d + d
  {
  }

  lemma {:induction false} EnoughReplaced(s: seq<byte>, old_: seq<byte>, new_: seq<byte>, n: nat)
    requires old_ != [] && n >= Instances(s, old_)
    ensures Replaced(s, old_, new_, n) == Replaced(s, old_, new_, Instances(s, old_))
    decreases n
  {
    var m := Find(s, old_);
    if n > 0 && m >= 0 { EnoughReplaced(s[m + |old_|..], old_, new_, n - 1); }
  }

  lemma {:induction false} AfterRunesLength(s: seq<byte>, new_: seq<byte>, n: nat)
    requires n <= RuneCount(s)
    ensures |AfterRunes(s, new_, n)| == |s| + n * |new_|
    decreases n
  {
    hide DecodeRune;
    OneMore(n, |new_|);
    if n > 0 { AfterRunesLength(s[DecodeRune(s).1..], new_, n - 1); }
  }

  lemma {:induction false} EnoughAfterRunes(s: seq<byte>, new_: seq<byte>, n: nat)
    requires n >= RuneCount(s)
    ensures AfterRunes(s, new_, n) == AfterRunes(s, new_, RuneCount(s))
    decreases |s|
  {
    hide DecodeRune;
    if s != [] { EnoughAfterRunes(s[DecodeRune(s).1..], new_, n - 1); }
  }

  lemma {:induction false} EnoughRunes(s: seq<byte>, n: nat)
    requires n >= |s|
    ensures Runes(s, n) == Runes(s, |s|)
    decreases |s|
  {
    hide DecodeRune;
    if s != [] && n > |s| {
      var rest := s[DecodeRune(s).1..];
      EnoughRunes(rest, n - 1);
      EnoughRunes(rest, |s| - 1);
      assert |s| == 1 ==> s[..DecodeRune(s).1] == s;
    }
  }

  // ---------------------------------------------------------------- Count, Split

  method Count(s: seq<byte>, sep: seq<byte>, tuning: Tuning) returns (n: nat)
    ensures n == if sep == [] then RuneCount(s) + 1 else Instances(s, sep)
  {
    if |sep| == 0 {
      return RuneCount(s) + 1;
    }
    n := 0;
    var rest := s;
    while true
      invariant n + Instances(rest, sep) == Instances(s, sep)
      decreases |rest|
    {
      var i := Index(rest, sep, tuning);
      if i == -1 {
        return;
      }
      n, rest := n + 1, rest[i + |sep|..];
    }
  }

  /** explode */
  method Explode(s: seq<byte>, limit: int) returns (a: seq<seq<byte>>)
    ensures a == Runes(s, if limit < 0 then |s| else if limit == 0 then |s| else limit)
  {
    hide DecodeRune, Runes;
    var n: nat := if limit <= 0 || limit > |s| then |s| else limit;
    if limit > |s| { EnoughRunes(s, limit); }
    NoRunes();
    var pieces := new seq<byte>[n];
    var na := 0;
    var rest := s;
    while |rest| > 0
      invariant na <= n && (rest != [] ==> na < n)
      invariant pieces[..na] + Runes(rest, n - na) == Runes(s, n)
      decreases |rest|
    {
      RunesStep(pieces[..na], rest, n - na);
      ghost var done := pieces[..na];
      if na + 1 >= n {
        pieces[na] := rest;
        assert pieces[..na + 1] == done + [rest];
        na := na + 1;
        assert pieces[..na] + [] == pieces[..na];
        break;
      }
      var (_, size) := DecodeRune(rest);
      pieces[na] := rest[..size];
      assert pieces[..na + 1] == done + [rest[..size]];
      rest, na := rest[size..], na + 1;
    }
    assert pieces[..na] + [] == pieces[..na];
    return pieces[..na];
  }

  lemma NoRunes()
    ensures forall n: nat :: Runes([], n) == []
    ensures forall pieces: seq<seq<byte>> :: [] + pieces == pieces
  {
  }

  lemma RunesStep(done: seq<seq<byte>>, rest: seq<byte>, n: nat)
    requires rest != [] && n > 0
    ensures var size := DecodeRune(rest).1;
            done + Runes(rest, n)
            == if n == 1 then done + [rest] + [] else done + [rest[..size]] + Runes(rest[size..], n - 1)
  {
    hide DecodeRune;
  }

  /** genSplit; a negative n stands for all pieces. */
  method GenSplit(s: seq<byte>, sep: seq<byte>, sepSave: nat, n: int, tuning: Tuning) returns (a: seq<seq<byte>>)
    requires sepSave <= |sep|
    ensures n == 0 ==> a == []
    ensures n != 0 && sep == [] ==> a == Runes(s, if n < 0 then |s| else n)
    ensures n != 0 && sep != [] ==> a == Pieces(s, sep, sepSave, if n < 0 then Instances(s, sep) + 1 else n)
  {
    if n == 0 {
      return [];
    }
    if |sep| == 0 {
      a := Explode(s, n);
      return;
    }
    var k: int := n;
    if n < 0 {
      var count := Count(s, sep, tuning);
      k := count + 1;
    }
    InstancesBound(s, sep);
    if k > |s| + 1 {
      k := |s| + 1;
      EnoughPieces(s, sep, sepSave, n, k);
    }
    a := FillPieces(s, sep, sepSave, k, tuning);
  }

  /** The loop of genSplit, into an array of n pieces. */
  method FillPieces(s: seq<byte>, sep: seq<byte>, sepSave: nat, n: nat, tuning: Tuning) returns (a: seq<seq<byte>>)
    requires sep != [] && sepSave <= |sep| && n > 0
    ensures a == Pieces(s, sep, sepSave, n)
  {
    hide Find;
    var pieces := new seq<byte>[n];
    var rest, i := s, 0;
    while i < n - 1
      invariant i <= n - 1 && pieces[..i] + Pieces(rest, sep, sepSave, n - i) == Pieces(s, sep, sepSave, n)
    {
      var m := Index(rest, sep, tuning);
      if m < 0 {
        break;
      }
      pieces[i] := rest[..m + sepSave];
      rest, i := rest[m + |sep|..], i + 1;
    }
    pieces[i] := rest;
    return pieces[..i + 1];
  }

  // ---------------------------------------------------------------- Join, Replace

  function Total(parts: seq<seq<byte>>): nat {
    if parts == [] then 0 else |parts[0]| + Total(parts[1..])
  }

  lemma {:induction false} TotalSnoc(parts: seq<seq<byte>>, p: seq<byte>)
    ensures Total(parts + [p]) == Total(parts) + |p|
  {
    if parts == [] {
      assert [p][1..] == [];
    } else {
      assert (parts + [p])[1..] == parts[1..] + [p];
      TotalSnoc(parts[1..], p);
    }
  }

  lemma {:induction false} JoinedSnoc(parts: seq<seq<byte>>, p: seq<byte>, sep: seq<byte>)
    requires parts != []
    ensures Joined(parts + [p], sep) == Joined(parts, sep) + sep + p
  {
    if |parts| == 1 {
      assert (parts + [p])[1..] == [p];
    } else {
      assert (parts + [p])[1..] == parts[1..] + [p];
      JoinedSnoc(parts[1..], p, sep);
    }
  }

  lemma {:induction false} JoinedLength(parts: seq<seq<byte>>, sep: seq<byte>)
    requires parts != []
    ensures |Joined(parts, sep)| == |sep| * (|parts| - 1) + Total(parts)
  {
    if |parts| > 1 {
      JoinedLength(parts[1..], sep);
      OneMore(|parts| - 1, |sep|);
    }
  }

  /** The length computed beforehand is filled exactly. */
  method Join(s: seq<seq<byte>>, sep: seq<byte>) returns (b: array<byte>)
    ensures fresh(b) && b[..] == Joined(s, sep)
  {
    if |s| == 0 {
      b := new byte[0];
      return;
    }
    if |s| == 1 {
      b := new byte[|s[0]|];
      CopyTo(b, 0, s[0]);
      return;
    }
    hide Joined, Total;
    var n: nat := |sep| * (|s| - 1);
    var i := 0;
    TotalNone();
    while i < |s|
      invariant i <= |s| && n == |sep| * (|s| - 1) + Total(s[..i])
    {
      TotalSnoc(s[..i], s[i]);
      assert s[..i + 1] == s[..i] + [s[i]];
      n, i := n + |s[i]|, i + 1;
    }
    assert s[..i] == s;
    JoinedLength(s, sep);
    b := new byte[n];
    CopyTo(b, 0, s[0]);
    FillJoined(b, s, sep);
  }

  lemma TotalNone()
    ensures Total([]) == 0
  {
  }

  /** The copying loop of Join. */
  method FillJoined(b: array<byte>, s: seq<seq<byte>>, sep: seq<byte>)
    requires s != [] && b.Length == |Joined(s, sep)| && |s[0]| <= b.Length && b[..|s[0]|] == s[0]
    modifies b
    ensures b[..] == Joined(s, sep)
  {
    hide Joined;
    var bp, i := |s[0]|, 1;
    JoinedOne(s[0], sep);
    assert s[..1] == [s[0]];
    while i < |s|
      invariant 1 <= i <= |s| && bp == |Joined(s[..i], sep)| && bp <= b.Length && b[..bp] == Joined(s[..i], sep)
    {
      JoinedSnoc(s[..i], s[i], sep);
      assert s[..i + 1] == s[..i] + [s[i]];
      JoinedPrefix(s, i + 1, sep);
      CopyTo(b, bp, sep);
      CopyTo(b, bp + |sep|, s[i]);
      bp, i := bp + |sep| + |s[i]|, i + 1;
    }
    assert s[..i] == s;
  }

  lemma JoinedOne(p: seq<byte>, sep: seq<byte>)
    ensures Joined([p], sep) == p
  {
  }

  lemma {:induction false} JoinedPrefix(s: seq<seq<byte>>, i: nat, sep: seq<byte>)
    requires 1 <= i <= |s|
    ensures |Joined(s[..i], sep)| <= |Joined(s, sep)|
    decreases |s|
  {
    hide Joined;
    if i < |s| {
      var u := s[..|s| - 1];
      JoinedSnoc(u, s[|s| - 1], sep);
      assert s == u + [s[|s| - 1]] && s[..i] == u[..i];
      JoinedPrefix(u, i, sep);
    } else {
      assert s[..i] == s;
    }
  }

  /** What Replace makes of s when it may still replace n instances; started says that it has replaced one. */
  function Remaining(s: seq<byte>, old_: seq<byte>, new_: seq<byte>, n: nat, started: bool): seq<byte> {
    if old_ != [] then Replaced(s, old_, new_, n)
    else if started then AfterRunes(s, new_, n)
    else Interspersed(s, new_, n)
  }

  /** How many instances there are left. */
  function Left(s: seq<byte>, old_: seq<byte>, started: bool): nat {
    if old_ != [] then Instances(s, old_) else if started then RuneCount(s) else RuneCount(s) + 1
  }

  /** Where the next instance is. */
  function Next(s: seq<byte>, old_: seq<byte>, started: bool): int {
    if old_ != [] then Find(s, old_) else if started then DecodeRune(s).1 else 0
  }

  lemma ReplaceStep(s: seq<byte>, old_: seq<byte>, new_: seq<byte>, n: nat, started: bool)
    requires 0 < n <= Left(s, old_, started)
    ensures var j := Next(s, old_, started);
            && 0 <= j && j + |old_| <= |s| && n - 1 <= Left(s[j + |old_|..], old_, true)
            && Remaining(s, old_, new_, n, started) == s[..j] + new_ + Remaining(s[j + |old_|..], old_, new_, n - 1, true)
  {
    hide Find, DecodeRune;
    assert s[0..] == s && s[..0] + new_ == new_;
  }

  lemma ReplaceLength(s: seq<byte>, old_: seq<byte>, new_: seq<byte>, n: nat)
    requires n <= Left(s, old_, false)
    ensures |Remaining(s, old_, new_, n, false)| == |s| + n * (|new_| - |old_|)
  {
    OneMore(n, |new_|);
    if old_ != [] { ReplacedLength(s, old_, new_, n); } else if n > 0 { AfterRunesLength(s, new_, n - 1); }
  }

  lemma EnoughReplacements(s: seq<byte>, old_: seq<byte>, new_: seq<byte>, n: nat)
    requires n >= Left(s, old_, false)
    ensures Remaining(s, old_, new_, n, false) == Remaining(s, old_, new_, Left(s, old_, false), false)
  {
    if old_ != [] { EnoughReplaced(s, old_, new_, n); } else { EnoughAfterRunes(s, new_, n - 1); }
  }

  method Replace(s: seq<byte>, old_: seq<byte>, new_: seq<byte>, limit: int, tuning: Tuning) returns (t: array<byte>)
    ensures fresh(t)
    ensures t[..] == Remaining(s, old_, new_, if limit < 0 then Left(s, old_, false) else limit, false)
  {
    hide Remaining;
    var m: nat := 0;
    if limit != 0 {
      m := Count(s, old_, tuning);
    }
    NothingToReplace(s, old_, new_);
    if limit > 0 && limit >= m { EnoughReplacements(s, old_, new_, limit); }
    if m == 0 {
      t := new byte[|s|];
      CopyTo(t, 0, s);
      return;
    }
    var n := limit;
    if limit < 0 || m < limit {
      n := m;
    }
    ReplaceLength(s, old_, new_, n);
    t := new byte[|s| + n * (|new_| - |old_|)];
    FillReplaced(t, s, old_, new_, n, tuning);
  }

  lemma NothingToReplace(s: seq<byte>, old_: seq<byte>, new_: seq<byte>)
    ensures forall started :: Remaining(s, old_, new_, 0, started) == s
  {
  }

  method CopyBoth(t: array<byte>, w: nat, a: seq<byte>, b: seq<byte>)
    requires w + |a| + |b| <= t.Length
    modifies t
    ensures t[..w + |a| + |b|] == old(t[..w]) + a + b && t[..w] == old(t[..w])
  {
    CopyTo(t, w, a);
    CopyTo(t, w + |a|, b);
    assert t[..w] == t[..w + |a| + |b|][..w];
  }

  lemma Regroup(a: seq<byte>, b: seq<byte>, c: seq<byte>, d: seq<byte>)
    ensures a + (b + c + d) == a + b + c + d
  {
  }

  /** The copying loop of Replace. */
  method FillReplaced(t: array<byte>, s: seq<byte>, old_: seq<byte>, new_: seq<byte>, n: nat, tuning: Tuning)
    requires n <= Left(s, old_, false) && t.Length == |Remaining(s, old_, new_, n, false)|
    modifies t
    ensures t[..] == Remaining(s, old_, new_, n, false)
  {
    hide Remaining, Left, DecodeRune, Find;
    var w: nat, start: nat, i: nat := 0, 0, 0;
    ghost var all := Remaining(s, old_, new_, n, false);
    assert s[0..] == s;
    while i < n
      invariant i <= n && start <= |s| && w <= t.Length && n - i <= Left(s[start..], old_, i > 0)
      invariant t[..w] + Remaining(s[start..], old_, new_, n - i, i > 0) == all
    {
      ghost var rest := s[start..];
      ReplaceStep(rest, old_, new_, n - i, i > 0);
      var j := start;
      if |old_| == 0 {
        if i > 0 {
          j := j + DecodeRune(s[start..]).1;
        }
      } else {
        var k := Index(s[start..], old_, tuning);
        j := j + k;
      }
      assert j == start + Next(rest, old_, i > 0);
      assert s[start..j] == rest[..j - start] && s[j + |old_|..] == rest[j - start + |old_|..];
      CopyBoth(t, w, s[start..j], new_);
      Regroup(t[..w], s[start..j], new_, Remaining(s[j + |old_|..], old_, new_, n - i - 1, true));
      w, start, i := w + (j - start) + |new_|, j + |old_|, i + 1;
    }
    NothingToReplace(s[start..], old_, new_);
    CopyTo(t, w, s[start..]);
  }
}
