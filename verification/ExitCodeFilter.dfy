/** exitCodeFilter (go/misc/go_android_exec/main.go): takes "exitcode=" and a number off the end of a stream. */
module ExitCodeFilter {
  import opened Prelude
  import opened Streams

  /** "exitcode=" */
  const EXIT: seq<byte> := [101, 120, 105, 116, 99, 111, 100, 101, 61]
  const MAX_INT := 0x7FFF_FFFF_FFFF_FFFF

  predicate IsDigit(c: byte) {
    48 <= c <= 57
  }

  predicate AllDigits(s: seq<byte>) {
    forall c <- s :: IsDigit(c)
  }

  /** The last alternative of exitRe, the one with a group. */
  predicate FullMatch(s: seq<byte>) {
    EXIT < s && AllDigits(s[|EXIT|..])
  }

  /** Some alternative of exitRe matches all of s, up to its end. */
  predicate Candidate(s: seq<byte>) {
    s != [] && (s <= EXIT || FullMatch(s))
  }

  /** Where the leftmost match of exitRe starts; the end, if there is none. */
  function MatchStart(s: seq<byte>): (i: nat)
    ensures i <= |s| && (i < |s| ==> Candidate(s[i..]))
  {
    if s == [] || Candidate(s) then 0
    else
      assert forall k: nat :: k < |s[1..]| ==> s[1..][k..] == s[k + 1..];
      1 + MatchStart(s[1..])
  }

  /** strconv.Atoi of digits, which may be too large. */
  function NumberOf(digits: seq<byte>): nat
    requires AllDigits(digits)
  {
    if digits == [] then 0
    else
      assert forall c <- digits[..|digits| - 1] :: c in digits;
      assert digits[|digits| - 1] in digits;
      NumberOf(digits[..|digits| - 1]) * 10 + (digits[|digits| - 1] as int - 48)
  }

  /** The exit code at the end of the whole output, if there is one that fits an int. */
  function ExitCode(s: seq<byte>): Option<nat> {
    if FullMatch(s) && NumberOf(s[|EXIT|..]) <= MAX_INT then Some(NumberOf(s[|EXIT|..])) else None
  }

  /** What the filter makes of the output when it sees it all at once: what is passed on, and the code. */
  function Whole(output: seq<byte>): (seq<byte>, Option<nat>) {
    var i := MatchStart(output);
    if ExitCode(output[i..]).Some? then (output[..i], ExitCode(output[i..])) else (output, None)
  }

  // ---------------------------------------------------------------- chunks make no difference

  /** What starts a match is the start of a match. */
  lemma CandidatePrefix(s: seq<byte>, more: seq<byte>)
    requires s != [] && Candidate(s + more)
    ensures Candidate(s)
  {
    var t := s + more;
    if |s| <= |EXIT| {
      assert s == t[..|s|];
      if EXIT < t { assert EXIT == t[..|EXIT|] && s == EXIT[..|s|]; }
    } else {
      assert t[..|EXIT|] == s[..|EXIT|];
      assert forall c <- s[|EXIT|..] :: c in t[|EXIT|..] by {
        assert t[|EXIT|..] == s[|EXIT|..] + more;
      }
    }
  }

  lemma RestOf(s: seq<byte>, more: seq<byte>, k: nat)
    requires s != [] && k <= |s[1..]|
    ensures (s + more)[1..] == s[1..] + more && s[1..][k..] == s[k + 1..]
  {
  }

  /** Bytes that cannot belong to a match when they are passed on never will. */
  lemma {:induction false} MatchStartAppend(s: seq<byte>, more: seq<byte>)
    ensures MatchStart(s + more) == MatchStart(s) + MatchStart(s[MatchStart(s)..] + more)
  {
    hide Candidate;
    if s == [] {
      assert s + more == more && s[0..] + more == more;
    } else if Candidate(s) {
      assert s[0..] == s;
    } else {
      if Candidate(s + more) { CandidatePrefix(s, more); }
      MatchStartAppend(s[1..], more);
      RestOf(s, more, MatchStart(s[1..]));
    }
  }

  /** What is held back is a match from its first byte on. */
  lemma HeldIsMatch(output: seq<byte>)
    ensures MatchStart(output[MatchStart(output)..]) == 0
  {
    hide Candidate;
    var held := output[MatchStart(output)..];
    assert held != [] ==> Candidate(held);
  }

  /** Whatever a command prints, the code appended to it is found, and nothing else is taken away. */
  lemma FindsAppendedCode(printed: seq<byte>, digits: seq<byte>)
    requires digits != [] && AllDigits(digits) && NumberOf(digits) <= MAX_INT
    ensures Whole(printed + EXIT + digits) == (printed, Some(NumberOf(digits)))
  {
    hide Candidate, NumberOf;
    var s := printed + EXIT + digits;
    AppendedCodeStarts(printed, digits);
    assert s[|printed|..] == EXIT + digits && s[..|printed|] == printed;
    assert (EXIT + digits)[|EXIT|..] == digits && EXIT < EXIT + digits;
  }

  /** The decimal digits of n, as a shell prints them. */
  function Decimal(n: nat): (s: seq<byte>)
    ensures s != []
    decreases n
  {
    if n < 10 then [(n + 48) as byte] else Decimal(n / 10) + [(n % 10 + 48) as byte]
  }

  lemma {:induction false} DecimalIsNumber(n: nat)
    ensures AllDigits(Decimal(n)) && NumberOf(Decimal(n)) == n
    decreases n
  {
    if n < 10 {
      assert NumberOf(Decimal(n)[..0]) == 0;
    } else {
      var high, low := Decimal(n / 10), (n % 10 + 48) as byte;
      DecimalIsNumber(n / 10);
      assert forall c <- high + [low] :: c in high || c == low;
      assert (high + [low])[..|high|] == high;
    }
  }

  function Bytes(text: string): seq<byte>
    requires forall i :: 0 <= i < |text| ==> text[i] as int < 256
  {
    seq(|text|, i requires 0 <= i < |text| => text[i] as int as byte)
  }

  /** The wrapper prints exitcode=$? last: the filter takes that away, and finds the code. */
  lemma FindsExitCode(printed: seq<byte>, code: nat)
    requires code <= 0x7FFF_FFFF_FFFF_FFFF
    ensures Whole(printed + Bytes("exitcode=") + Decimal(code)) == (printed, Some(code))
  {
    DecimalIsNumber(code);
    hide NumberOf, Decimal, Whole;
    assert Bytes("exitcode=") == EXIT;
    FindsAppendedCode(printed, Decimal(code));
  }

  lemma {:induction false} AppendedCodeStarts(printed: seq<byte>, digits: seq<byte>)
    requires digits != [] && AllDigits(digits)
    ensures MatchStart(printed + EXIT + digits) == |printed|
  {
    hide Candidate;
    var s := printed + EXIT + digits;
    CandidateAt(printed, digits);
    if printed == [] {
      assert s == EXIT + digits;
    } else {
      AppendedCodeStarts(printed[1..], digits);
      assert s[1..] == printed[1..] + EXIT + digits;
    }
  }

  /** No match starts earlier: the equals sign of the appended code is no digit. */
  lemma CandidateAt(printed: seq<byte>, digits: seq<byte>)
    requires digits != [] && AllDigits(digits)
    ensures Candidate(printed + EXIT + digits) <==> printed == []
  {
    var s := printed + EXIT + digits;
    var at := |printed| + 8;
    assert s[at] == EXIT[8] == 61;
    if printed == [] {
      assert s == EXIT + digits && s[|EXIT|..] == digits;
    } else {
      assert s[|EXIT|..][at - |EXIT|] == 61;
      assert s[|EXIT|..][at - |EXIT|] in s[|EXIT|..];
    }
  }

  lemma Recut(done: seq<byte>, more: seq<byte>, i: nat, j: nat)
    requires i <= |done| && j <= |done[i..] + more|
    ensures (done + more)[..i + j] == done[..i] + (done[i..] + more)[..j]
    ensures (done + more)[i + j..] == (done[i..] + more)[j..]
  {
    assert done == done[..i] + done[i..];
  }

  // ---------------------------------------------------------------- the filter

  class Filter {
    var w: seq<byte>
    var buf: seq<byte>

    /** w has got everything up to the place where output could still turn out to end in an exit code. */
    ghost predicate Holds(output: seq<byte>)
      reads this
    {
      w == output[..MatchStart(output)] && buf == output[MatchStart(output)..]
    }

    constructor ()
      ensures Holds([])
    {
      w, buf := [], [];
    }

    method Write(data: seq<byte>, ghost output: seq<byte>) returns (n: nat)
      requires Holds(output)
      modifies this
      ensures Holds(output + data) && n == |data|
    {
      hide Candidate, MatchStart;
      MatchStartAppend(output, data);
      n := |data|;
      var b := buf + data;
      var start := MatchStart(b);
      Recut(output, data, MatchStart(output), start);
      w, buf := w + b[..start], b[start..];
    }

    method Finish(ghost output: seq<byte>) returns (code: Option<nat>)
      requires Holds(output)
      modifies this
      ensures buf == [] && (w, code) == Whole(output)
    {
      hide Candidate, NumberOf;
      var b := buf;
      buf := [];
      assert output == w + b;
      HeldIsMatch(output);
      var match_ := b[MatchStart(b)..];
      if !FullMatch(match_) {
        w := w + b;
        return None;
      }
      var number := NumberOf(match_[|EXIT|..]);
      if number > MAX_INT {
        w := w + b;
        return None;
      }
      return Some(number);
    }
  }

  /** However the output is cut into writes, the filter passes on and finds what it would find in one piece. */
  method FilterAll(chunks: seq<seq<byte>>) returns (passed: seq<byte>, code: Option<nat>)
    ensures (passed, code) == Whole(Flatten(chunks))
  {
    hide Whole, Flatten;
    FlattenNothing();
    var f := new Filter();
    var i := 0;
    while i < |chunks|
      invariant i <= |chunks| && f.Holds(Flatten(chunks[..i]))
    {
      var n := f.Write(chunks[i], Flatten(chunks[..i]));
      FlattenAppend(chunks[..i], chunks[i]);
      assert chunks[..i + 1] == chunks[..i] + [chunks[i]];
      i := i + 1;
    }
    assert chunks[..i] == chunks;
    code := f.Finish(Flatten(chunks));
    passed := f.w;
  }
}
