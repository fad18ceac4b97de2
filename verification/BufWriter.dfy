/** bufio.Writer (go/src/bufio/bufio.go): what is accepted reaches the sink in order, or waits in the buffer. */
module BufWriter {
  import opened Prelude
  import opened Streams

  const DEFAULT_BUF_SIZE := 4096

  datatype WriteError = FromSink(code: int) | ShortWrite

  /** What one Write of a sink was given, how much of it the sink took, and its error. */
  datatype Writing = Writing(given: nat, taken: nat, err: Option<WriteError>)

  /** Why a caller that made the writes from index from on fails with e: the last of them reported it, or was short
      without saying so. */
  ghost predicate Failed(log: seq<Writing>, from: nat, e: WriteError) {
    from < |log| && var last := log[|log| - 1];
    if last.err.Some? then last.err == Some(e) else e == ShortWrite && last.taken < last.given
  }

  /** An io.Writer: it may take part of what it is given. One that obeys reports an error when it does. */
  class Sink {
    const obeys: bool
    const takesStrings: bool
    var out: seq<byte>
    ghost var log: seq<Writing>

    constructor (obeys: bool, takesStrings: bool)
      ensures out == [] && log == [] && this.obeys == obeys && this.takesStrings == takesStrings
    {
      this.obeys, this.takesStrings, out, log := obeys, takesStrings, [], [];
    }

    method Write(p: seq<byte>) returns (n: nat, err: Option<WriteError>)
      modifies this
      ensures n <= |p| && out == old(out) + p[..n]
      ensures obeys && n < |p| ==> err.Some?
      ensures log == old(log) + [Writing(|p|, n, err)] && (err.Some? ==> err.value.FromSink?)
    {
      n :| n <= |p|;
      out := out + p[..n];
      var fails := *;
      var code: int := *;
      err := if fails || (obeys && n < |p|) then Some(FromSink(code)) else None;
      log := log + [Writing(|p|, n, err)];
    }
  }

  class Writer {
    const buf: array<byte>
    const wr: Sink
    var n: nat
    var err: Option<WriteError>

    ghost predicate Valid()
      reads this
    {
      n <= buf.Length && buf.Length > 0
    }

    /** Everything accepted so far: what the sink took, then what waits in the buffer. */
    function Accepted(): seq<byte>
      reads this, buf, wr
      requires Valid()
    {
      wr.out + buf[..n]
    }

    /** NewWriterSize */
    constructor (wr: Sink, size: int)
      ensures Valid() && this.wr == wr && fresh(buf) && buf.Length == (if size <= 0 then 4096 else size)
      ensures Accepted() == wr.out && n == 0 && err == None
    {
      this.wr := wr;
      buf := new byte[if size <= 0 then DEFAULT_BUF_SIZE else size];
      n, err := 0, None;
      new;
      assert wr.out + [] == wr.out;
    }

    function Available(): int
      reads this
    {
      buf.Length - n
    }

    /** Nothing changed. */
    twostate predicate Untouched()
      reads this, buf, wr
    {
      n == old(n) && err == old(err) && buf[..] == old(buf[..]) && wr.out == old(wr.out) && wr.log == old(wr.log)
    }

    /** The error is the one that stood before, or comes from the writes made since. */
    twostate predicate Accounted()
      reads this`err, wr
    {
      && |old(wr.log)| <= |wr.log|
      && (if old(err).Some? then err == old(err) else err.Some? ==> Failed(wr.log, |old(wr.log)|, err.value))
    }

    /** copy(b.buf[0:b.n-k], b.buf[k:b.n]) */
    method SlideDown(k: nat)
      requires k <= n <= buf.Length
      modifies buf
      ensures buf[..n - k] == old(buf[..n])[k..]
    {
      forall i | 0 <= i < n - k {
        buf[i] := buf[k + i];
      }
    }

    method Flush() returns (e: Option<WriteError>)
      requires Valid()
      modifies this, buf, wr
      ensures Valid() && Accepted() == old(Accepted()) && e == err && n <= old(n)
      ensures err.None? ==> n == 0 && wr.out == old(Accepted())
      ensures old(err).Some? || old(n) == 0 ==> Untouched()
      ensures old(err).None? && old(n) > 0 ==>
                && |wr.log| == |old(wr.log)| + 1 && var last := wr.log[|old(wr.log)|];
                && last.given == old(n) && n == old(n) - last.taken
                && err == if last.err.None? && last.taken < old(n) then Some(ShortWrite) else last.err
      ensures Accounted()
    {
      assert wr.out + [] == wr.out;
      if err.Some? || n == 0 {
        return err;
      }
      var k;
      k, e := wr.Write(buf[..n]);
      if k < n && e.None? {
        e := Some(ShortWrite);
      }
      if e.Some? {
        SplitAt(old(wr.out), buf[..n], k);
        if k > 0 && k < n {
          SlideDown(k);
        }
        assert buf[..n - k] == old(buf[..n])[k..];
        n, err := n - k, e;
        return;
      }
      assert old(buf[..n])[..k] == old(buf[..n]);
      n := 0;
      assert buf[..0] == [];
    }

    /** copy(b.buf[b.n:], p); b.n += n */
    method Take(p: seq<byte>) returns (k: nat)
      requires Valid()
      modifies this`n, buf
      ensures Valid() && k == Min(|p|, old(Available())) && n == old(n) + k && Accepted() == old(Accepted()) + p[..k]
    {
      k := Min(|p|, Available());
      CopyTo(buf, n, p[..k]);
      n := n + k;
    }

    /** A large write into an empty buffer goes straight to the sink. */
    method WriteThrough(p: seq<byte>) returns (k: nat)
      requires Valid() && n == 0 && err.None?
      modifies this`err, wr
      ensures Valid() && k <= |p| && Accepted() == old(Accepted()) + p[..k]
      ensures wr.obeys && k < |p| ==> err.Some?
      ensures wr.log == old(wr.log) + [Writing(|p|, k, err)]
    {
      k, err := wr.Write(p);
      assert buf[..0] == [] && old(wr.out) + [] == old(wr.out) && wr.out + [] == wr.out;
    }

    method Write(p: seq<byte>) returns (nn: nat, e: Option<WriteError>)
      requires Valid() && wr.obeys
      modifies this, buf, wr
      ensures Valid() && nn <= |p| && Accepted() == old(Accepted()) + p[..nn]
      ensures |p| <= old(Available()) ==> wr.log == old(wr.log)
      ensures e == err && (e.None? ==> nn == |p|)
      ensures old(err).Some? ==> nn == 0 && Untouched()
      ensures Accounted()
    {
      nn := 0;
      assert old(Accepted()) + p[..0] == Accepted();
      while |p| - nn > Available() && err.None?
        invariant Valid() && nn <= |p| && Accepted() == old(Accepted()) + p[..nn]
        invariant |p| <= old(Available()) ==> nn == 0 && n == old(n) && wr.log == old(wr.log)
        invariant Accounted() && (old(err).Some? ==> nn == 0 && Untouched())
        decreases |p| - nn, n, err.None?
      {
        ghost var before := Accepted();
        var k;
        if n == 0 {
          k := WriteThrough(p[nn..]);
        } else {
          k := Take(p[nn..]);
          var _ := Flush();
        }
        PiecesJoin(old(Accepted()), p, nn, k);
        nn := nn + k;
      }
      if err.Some? {
        return nn, err;
      }
      var k := Take(p[nn..]);
      PiecesJoin(old(Accepted()), p, nn, k);
      return nn + k, None;
    }

    method WriteByte(c: byte) returns (e: Option<WriteError>)
      requires Valid()
      modifies this, buf, wr
      ensures Valid() && e == err && Accepted() == if e.None? then old(Accepted()) + [c] else old(Accepted())
      ensures old(Available()) > 0 ==> wr.log == old(wr.log)
      ensures old(err).Some? ==> Untouched()
      ensures Accounted()
    {
      if err.Some? {
        return err;
      }
      if Available() <= 0 {
        var f := Flush();
        if f.Some? {
          return err;
        }
      }
      var k := Take([c]);
      assert [c][..1] == [c];
      return None;
    }

    /** Like Write; asks at most once whether the sink takes strings. */
    method WriteString(s: seq<byte>) returns (nn: nat, e: Option<WriteError>)
      requires Valid() && wr.obeys
      modifies this, buf, wr
      ensures Valid() && nn <= |s| && Accepted() == old(Accepted()) + s[..nn]
      ensures |s| <= old(Available()) ==> wr.log == old(wr.log)
      ensures e == err && (e.None? ==> nn == |s|)
      ensures old(err).Some? ==> nn == 0 && Untouched()
      ensures Accounted()
    {
      nn := 0;
      var sw, tryStringWriter := false, true;
      assert old(Accepted()) + s[..0] == Accepted();
      while |s| - nn > Available() && err.None?
        invariant Valid() && nn <= |s| && Accepted() == old(Accepted()) + s[..nn]
        invariant |s| <= old(Available()) ==> nn == 0 && n == old(n) && wr.log == old(wr.log)
        invariant Accounted() && (old(err).Some? ==> nn == 0 && Untouched())
        invariant sw ==> wr.takesStrings && tryStringWriter
        decreases |s| - nn, n, err.None?
      {
        var k;
        if n == 0 && !sw && tryStringWriter {
          sw, tryStringWriter := wr.takesStrings, wr.takesStrings;
        }
        if n == 0 && tryStringWriter {
          k := WriteThrough(s[nn..]);
        } else {
          k := Take(s[nn..]);
          var _ := Flush();
        }
        PiecesJoin(old(Accepted()), s, nn, k);
        nn := nn + k;
      }
      if err.Some? {
        return nn, err;
      }
      var k := Take(s[nn..]);
      PiecesJoin(old(Accepted()), s, nn, k);
      return nn + k, None;
    }
  }

  lemma SplitAt(a: seq<byte>, p: seq<byte>, k: nat)
    requires k <= |p|
    ensures a + p == a + p[..k] + p[k..]
  {
  }

  lemma PiecesJoin(a: seq<byte>, p: seq<byte>, i: nat, k: nat)
    requires i + k <= |p|
    ensures a + p[..i] + p[i..][..k] == a + p[..i + k]
  {
  }
}
