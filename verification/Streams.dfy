/** Byte streams: what io.Reader promises its callers, and searching for a byte. */
module Streams {
  import opened Prelude

  /** An error of the source itself, or one of package bufio's own. */
  datatype Error = FromSource(code: int) | NoProgress | BufferFull | NegativeCount | InvalidUnread | TooLong

  const EOF := FromSource(0)

  /** What one Read of a source gave: how many bytes, how many were left after it, and its error. */
  datatype Reading = Reading(n: nat, left: nat, err: Option<Error>)

  /** An io.Reader over a fixed stream. How it cuts the stream into chunks, when it returns nothing and
      when it reports an error are left open. */
  class Source {
    var rest: seq<byte>
    ghost var log: seq<Reading>

    constructor (stream: seq<byte>)
      ensures rest == stream && log == []
    {
      rest, log := stream, [];
    }

    /** Reads into p[lo..]. What lies behind the bytes read may be used as scratch space. */
    method Read(p: array<byte>, lo: nat) returns (n: nat, err: Option<Error>)
      requires lo <= p.Length
      modifies this, p
      ensures n <= |old(rest)| && lo + n <= p.Length
      ensures rest == old(rest)[n..] && p[lo..lo + n] == old(rest)[..n] && p[..lo] == old(p[..lo])
      ensures err.Some? ==> err.value.FromSource?
      ensures log == old(log) + [Reading(n, |rest|, err)]
    {
      err := None;
      if * {
        var code: int := *;
        err := Some(FromSource(code));
      }
      n :| n <= |rest| && lo + n <= p.Length;
      Deliver(p, lo, rest[..n]);
      rest, log := rest[n..], log + [Reading(n, |rest[n..]|, err)];
    }

    method Deliver(p: array<byte>, lo: nat, chunk: seq<byte>)
      requires lo + |chunk| <= p.Length
      modifies p
      ensures p[lo..lo + |chunk|] == chunk && p[..lo] == old(p[..lo])
    {
      forall i | lo <= i < p.Length {
        p[i] := if i < lo + |chunk| then chunk[i - lo] else 0;
      }
    }
  }

  /** The reads from k on, count of them, gave nothing at all. */
  ghost predicate Idle(log: seq<Reading>, k: nat, count: nat) {
    k + count <= |log| && forall i :: k <= i < k + count ==> log[i].n == 0 && log[i].err == None
  }

  /** Why a caller that made the reads from index from on may fail with e: the last of them reported it, or the
      last patience reads gave nothing. left is what is left of the stream. */
  ghost predicate Explains(log: seq<Reading>, from: nat, left: nat, patience: nat, e: Error) {
    && from < |log| && log[|log| - 1].left == left
    && (log[|log| - 1].err == Some(e) || (e == NoProgress && from + patience <= |log| && Idle(log, |log| - patience, patience)))
  }

  lemma ExplainsMore(log: seq<Reading>, from: nat, since: nat, left: nat, patience: nat, e: Error)
    requires from <= since && Explains(log, since, left, patience, e)
    ensures Explains(log, from, left, patience, e)
  {
  }

  /** The source, in the reads from index from on, reported only io.EOF and only when nothing was left, and never
      gave nothing patience times in a row. */
  ghost predicate Obeys(log: seq<Reading>, from: nat, patience: nat) {
    && (forall i :: from <= i < |log| ==> log[i].err == None || (log[i].err == Some(EOF) && log[i].left == 0))
    && (forall k :: from <= k <= |log| - patience ==> !Idle(log, k, patience))
  }

  /** Such a source ends nothing before its stream ends. */
  lemma EndsWithStream(log: seq<Reading>, from: nat, left: nat, patience: nat, e: Error)
    requires Explains(log, from, left, patience, e) && Obeys(log, from, patience)
    ensures e == EOF && left == 0
  {
  }

  const NL: byte := 10
  const CR: byte := 13

  /** dropCR */
  function DropCR(s: seq<byte>): seq<byte> {
    if s != [] && s[|s| - 1] == CR then s[..|s| - 1] else s
  }

  /** It drops one carriage return at the end, and nothing else. */
  lemma DropCRIs(s: seq<byte>)
    ensures DropCR(s + [13]) == s
    ensures (s == [] || s[|s| - 1] != 13) ==> DropCR(s) == s
  {
    assert (s + [13])[..|s|] == s;
  }

  /** bytes.IndexByte: the first position of c, or -1. */
  function IndexByte(s: seq<byte>, c: byte): (i: int)
    ensures -1 <= i < |s|
    ensures i >= 0 ==> s[i] == c && c !in s[..i]
    ensures i < 0 ==> c !in s
  {
    if s == [] then -1
    else if s[0] == c then 0
    else
      var i := IndexByte(s[1..], c);
      if i < 0 then -1
      else
        assert s[..i + 1] == [s[0]] + s[1..][..i];
        i + 1
  }

  /** The first position of c is where nothing before it is c. */
  lemma IndexByteIs(s: seq<byte>, c: byte, i: nat)
    requires i < |s| && s[i] == c && c !in s[..i]
    ensures IndexByte(s, c) == i
  {
    var k := IndexByte(s, c);
    assert s[i] in s;
    BeforeDiffers(s, c, i, k);
    BeforeDiffers(s, c, k, i);
  }

  lemma BeforeDiffers(s: seq<byte>, c: byte, i: int, k: int)
    ensures 0 <= k < i <= |s| && c !in s[..i] ==> s[k] != c
  {
    if 0 <= k < i <= |s| { assert s[k] == s[..i][k]; }
  }

  /** What follows a match does not matter. */
  lemma IndexByteConcat(s: seq<byte>, c: byte, more: seq<byte>)
    ensures IndexByte(s, c) >= 0 ==> IndexByte(s + more, c) == IndexByte(s, c)
    ensures c !in s ==> IndexByte(s + more, c) == (if IndexByte(more, c) < 0 then -1 else |s| + IndexByte(more, c))
  {
    var i, j := IndexByte(s, c), IndexByte(more, c);
    hide IndexByte;
    if i >= 0 {
      assert (s + more)[..i] == s[..i];
      IndexByteIs(s + more, c, i);
    } else if j >= 0 {
      assert (s + more)[..|s| + j] == s + more[..j];
      IndexByteIs(s + more, c, |s| + j);
    } else {
      var k := IndexByte(s + more, c);
      assert k >= 0 ==> c in s || c in more;
    }
  }

  /** copy(dst[at:], src), where src fits. */
  method CopyTo(dst: array<byte>, at: nat, src: seq<byte>)
    requires at + |src| <= dst.Length
    modifies dst
    ensures dst[..at + |src|] == old(dst[..at]) + src && dst[at + |src|..] == old(dst[at + |src|..])
  {
    forall i | 0 <= i < |src| {
      dst[at + i] := src[i];
    }
  }
}
