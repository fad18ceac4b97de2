/** bufio.Reader (go/src/bufio/bufio.go): a buffer over an io.Reader that behaves like the plain stream. */
module BufReader {
  import opened Prelude
  import opened Streams

  const MIN_READ_BUFFER_SIZE := 16
  const MAX_CONSECUTIVE_EMPTY_READS := 100

  class Reader {
    const buf: array<byte>
    const rd: Source
    var r: nat
    var w: nat
    var err: Option<Error>
    var lastByte: int

    ghost predicate Valid()
      reads this
    {
      buf.Length >= MIN_READ_BUFFER_SIZE && r <= w <= buf.Length && -1 <= lastByte < 256
      && (err.Some? ==> err.value.FromSource? || err.value.NoProgress?)
    }

    /** buf[r:w] */
    function Unread(): seq<byte>
      reads this`r, this`w, buf
      requires r <= w <= buf.Length
    {
      buf[r..w]
    }

    /** What the caller has yet to see: the buffered bytes, then those the source still holds. */
    function Pending(): seq<byte>
      reads this`r, this`w, buf, rd
      requires r <= w <= buf.Length
    {
      Unread() + rd.rest
    }

    /** NewReaderSize */
    constructor (rd: Source, size: nat)
      ensures Valid() && this.rd == rd && fresh(buf) && buf.Length == Max(size, 16)
      ensures Pending() == rd.rest && r == w == 0 && err == None && lastByte == -1
    {
      this.rd := rd;
      buf := new byte[Max(size, MIN_READ_BUFFER_SIZE)];
      r, w, err, lastByte := 0, 0, None, -1;
      new;
      assert [] + rd.rest == rd.rest;
    }

    /** Slides the unread bytes to the start of buf. */
    method Slide()
      requires Valid()
      modifies this`r, this`w, buf
      ensures Valid() && Unread() == old(Unread()) && r == 0
    {
      if r > 0 {
        forall i | 0 <= i < w - r {
          buf[i] := buf[r + i];
        }
        r, w := 0, w - r;
      }
    }

    /** One Read of the source into the free space behind w. */
    method Append() returns (n: nat, e: Option<Error>)
      requires Valid()
      modifies this`w, buf, rd
      ensures Valid() && w == old(w) + n && Pending() == old(Pending()) && old(Unread()) <= Unread()
      ensures e.Some? ==> e.value.FromSource?
      ensures n <= |old(rd.rest)| && rd.rest == old(rd.rest)[n..] && rd.log == old(rd.log) + [Reading(n, |rd.rest|, e)]
    {
      ghost var kept := buf[..w];
      n, e := rd.Read(buf, w);
      Grown(kept, n);
      MoveOver(kept[r..], old(rd.rest), n);
      w := w + n;
    }

    /** What was read follows what was unread. */
    lemma Grown(kept: seq<byte>, n: nat)
      requires r <= w && w + n <= buf.Length && buf[..w] == kept
      ensures buf[r..w + n] == kept[r..] + buf[w..w + n] && kept[r..] == buf[r..w]
    {
      assert buf[r..w] == buf[..w][r..];
    }

    /** An error is the pending one, or comes from the reads made since: the last of them reported it, or a hundred
        of them gave nothing. */
    twostate predicate Accounted(new e: Option<Error>)
      reads this`err, rd
    {
      && |old(rd.log)| <= |rd.log| && |rd.rest| <= |old(rd.rest)|
      && (e.Some? ==> e == old(err) || Explains(rd.log, |old(rd.log)|, |rd.rest|, 100, e.value))
    }

    /** Reads until there is something; the error is that of the last read, or NoProgress after a hundred that gave
        nothing. */
    method Fill()
      requires Valid() && w - r < buf.Length
      modifies this`r, this`w, this`err, buf, rd
      ensures Valid() && r == 0
      ensures Pending() == old(Pending()) && old(Unread()) <= Unread()
      ensures err.None? ==> old(err).None? && |rd.rest| < |old(rd.rest)|
      ensures |old(rd.log)| < |rd.log| <= |old(rd.log)| + 100
      ensures Idle(rd.log, |old(rd.log)|, |rd.log| - 1 - |old(rd.log)|)
      ensures var last := rd.log[|rd.log| - 1];
              if last.err.Some? then err == last.err
              else if last.n > 0 then err == old(err)
              else |rd.log| == |old(rd.log)| + 100 && err == Some(NoProgress)
      ensures Accounted(err)
    {
      Slide();
      var i := MAX_CONSECUTIVE_EMPTY_READS;
      while i > 0
        invariant Valid() && r == 0 && w == old(w) - old(r) && rd.rest == old(rd.rest)
        invariant Pending() == old(Pending()) && Unread() == old(Unread()) && err == old(err)
        invariant i >= 0 && |rd.log| == |old(rd.log)| + MAX_CONSECUTIVE_EMPTY_READS - i
        invariant Idle(rd.log, |old(rd.log)|, |rd.log| - |old(rd.log)|)
        invariant i < MAX_CONSECUTIVE_EMPTY_READS ==> rd.log[|rd.log| - 1].left == |rd.rest|
        decreases i
      {
        var n, e := Append();
        if e.Some? {
          err := e;
          return;
        }
        if n > 0 {
          return;
        }
        i := i - 1;
      }
      err := Some(NoProgress);
    }

    method ReadErr() returns (e: Option<Error>)
      modifies this`err
      ensures e == old(err) && err == None
    {
      e, err := err, None;
    }

    method Peek(n: int) returns (s: seq<byte>, e: Option<Error>)
      requires Valid()
      modifies this, buf, rd
      ensures Valid() && Pending() == old(Pending())
      ensures n < 0 <==> e == Some(NegativeCount)
      ensures s <= Pending() && (n >= 0 ==> |s| <= n)
      ensures e.None? <==> |s| == n
      ensures n > buf.Length ==> e == Some(BufferFull)
      ensures n >= 0 ==> lastByte == -1
      ensures (0 <= n <= buf.Length ==> Accounted(e)) && Accounted(err)
      ensures old(err).Some? ==>
                rd.rest == old(rd.rest) && rd.log == old(rd.log) && (0 <= n <= buf.Length && e.Some? ==> e == old(err) && err.None?)
    {
      hide Idle;
      if n < 0 {
        return [], Some(NegativeCount);
      }
      lastByte := -1;
      while w - r < n && w - r < buf.Length && err.None?
        invariant Valid() && Pending() == old(Pending()) && lastByte == -1 && Accounted(err)
        invariant old(err).Some? ==> err == old(err) && rd.rest == old(rd.rest) && rd.log == old(rd.log)
        decreases |rd.rest|, err.None?
      {
        Fill();
      }
      if n > buf.Length {
        return Unread(), Some(BufferFull);
      }
      var count := n;
      if w - r < n {
        count := w - r;
        e := ReadErr();
        if e.None? {
          e := Some(BufferFull);
        }
      } else {
        e := None;
      }
      s := buf[r..r + count];
      assert s == Unread()[..count];
    }

    /** Skips up to want buffered bytes, filling an empty buffer first. */
    method SkipSome(want: nat) returns (skip: nat)
      requires Valid() && want > 0
      modifies this`r, this`w, this`err, buf, rd
      ensures Valid() && skip <= want && Skipped(old(Pending()), skip, Pending())
      ensures skip == 0 ==> err.Some?
      ensures want <= old(w - r) ==> skip == want && rd.rest == old(rd.rest)
      ensures Accounted(err)
    {
      if w == r {
        Fill();
      }
      skip := Min(w - r, want);
      r := r + skip;
    }

    method Discard(n: int) returns (discarded: nat, e: Option<Error>)
      requires Valid()
      modifies this, buf, rd
      ensures Valid()
      ensures n < 0 <==> e == Some(NegativeCount)
      ensures Skipped(old(Pending()), discarded, Pending())
      ensures if e.None? then discarded == n else discarded < Max(n, 1)
      ensures 0 <= n <= old(w - r) ==> e.None? && rd.rest == old(rd.rest)
      ensures n > 0 ==> lastByte == -1
      ensures (n >= 0 ==> Accounted(e)) && Accounted(err)
    {
      hide Explains, Skipped;
      discarded := 0;
      NothingSkipped(Pending());
      if n < 0 {
        return 0, Some(NegativeCount);
      }
      if n == 0 {
        return 0, None;
      }
      lastByte := -1;
      while true
        invariant Valid() && lastByte == -1 && discarded < n && Skipped(old(Pending()), discarded, Pending())
        invariant Accounted(err) && (err.Some? ==> err == old(err) && discarded == 0)
        invariant n <= old(w - r) ==> discarded == 0 && w - r == old(w - r) && rd.rest == old(rd.rest)
        decreases |Pending()|
      {
        ghost var before, since := Pending(), |rd.log|;
        ghost var stood := err;
        var skip := SkipSome(n - discarded);
        if err.Some? && err != stood {
          ExplainsMore(rd.log, |old(rd.log)|, since, |rd.rest|, 100, err.value);
        }
        SkipShrinks(before, skip, Pending());
        SkipMore(old(Pending()), discarded, before, skip);
        discarded := discarded + skip;
        if discarded == n {
          return discarded, None;
        }
        if err.Some? {
          e := ReadErr();
          return;
        }
      }
    }

    /** Bytes that are handed over leave the pending stream, and the last of them can be unread. */
    twostate predicate Consumed(bytes: seq<byte>)
      reads this, buf, rd
      requires old(Valid()) && Valid()
    {
      old(Pending()) == bytes + Pending() && (bytes != [] ==> lastByte == bytes[|bytes| - 1] as int)
    }

    /** Copies as much as fits from the buffer. */
    method CopyOut(p: array<byte>) returns (n: nat)
      requires Valid() && p != buf && r < w && p.Length > 0
      modifies this`r, this`lastByte, p
      ensures Valid() && n == Min(p.Length, old(w - r)) && Consumed(p[..n])
    {
      n := Min(p.Length, w - r);
      SplitOff(n);
      CopyFront(p, buf[r..r + n]);
      r := r + n;
      lastByte := buf[r - 1] as int;
    }

    lemma SplitOff(n: nat)
      requires r + n <= w <= buf.Length
      ensures Pending() == buf[r..r + n] + (buf[r + n..w] + rd.rest)
    {
      assert buf[r..w] == buf[r..r + n] + buf[r + n..w];
    }

    lemma FirstByte()
      requires r < w <= buf.Length
      ensures Pending() == [buf[r]] + (buf[r + 1..w] + rd.rest)
    {
      assert buf[r..w] == [buf[r]] + buf[r + 1..w];
      assert [buf[r]] + buf[r + 1..w] + rd.rest == [buf[r]] + (buf[r + 1..w] + rd.rest);
    }

    /** A large read into an empty buffer goes straight to p. */
    method ReadDirect(p: array<byte>) returns (n: nat, e: Option<Error>)
      requires Valid() && p != buf && r == w && err.None?
      modifies this`lastByte, this`err, rd, p
      ensures Valid() && n <= p.Length && Consumed(p[..n])
      ensures err.None? && rd.log == old(rd.log) + [Reading(n, |rd.rest|, e)] && |rd.rest| <= |old(rd.rest)|
    {
      n, err := rd.Read(p, 0);
      assert p[0..n] == p[..n] && Unread() == [];
      if n > 0 {
        lastByte := p[n - 1] as int;
      }
      e := ReadErr();
    }

    /** Takes bytes from the buffer, or from at most one Read of the source. */
    method Read(p: array<byte>) returns (n: nat, e: Option<Error>)
      requires Valid() && p != buf
      modifies this, buf, rd, p
      ensures Valid() && n <= p.Length && Consumed(p[..n])
      ensures |rd.log| <= |old(rd.log)| + 1
      ensures old(w - r) > 0 ==> n == Min(p.Length, old(w - r)) && e.None? && rd.log == old(rd.log)
      ensures old(w - r) == 0 && old(err).Some? ==> n == 0 && e == old(err) && rd.log == old(rd.log)
      ensures Accounted(e) && Accounted(err)
    {
      if p.Length == 0 {
        assert p[..0] + Pending() == Pending();
        if w - r > 0 {
          return 0, None;
        }
        e := ReadErr();
        return 0, e;
      }
      if r == w {
        if err.Some? {
          e := ReadErr();
          assert p[..0] + Pending() == Pending();
          return 0, e;
        }
        if p.Length >= buf.Length {
          n, e := ReadDirect(p);
          return;
        }
        r, w := 0, 0;
        assert Pending() == old(Pending());
        n, err := Append();
        if n == 0 {
          e := ReadErr();
          assert p[..0] + Pending() == Pending();
          return;
        }
      }
      n := CopyOut(p);
      e := None;
    }

    method ReadByte() returns (c: byte, e: Option<Error>)
      requires Valid()
      modifies this, buf, rd
      ensures Valid() && if e.None? then Consumed([c]) else c == 0 && Pending() == old(Pending()) && r == w && err.None?
      ensures old(err).Some? ==>
                rd.rest == old(rd.rest) && rd.log == old(rd.log) && e == if old(w - r) == 0 then old(err) else None
      ensures Accounted(e) && Accounted(err)
    {
      hide Idle;
      while r == w
        invariant Valid() && Pending() == old(Pending()) && Accounted(err)
        invariant old(err).Some? ==> err == old(err) && rd.rest == old(rd.rest) && rd.log == old(rd.log) && w - r == old(w - r)
        decreases |rd.rest|, err.None?
      {
        if err.Some? {
          e := ReadErr();
          return 0, e;
        }
        Fill();
      }
      FirstByte();
      c := buf[r];
      r, lastByte := r + 1, c as int;
      e := None;
    }

    /** After a read, the last byte it handed over goes back to the front of the stream. */
    method UnreadByte() returns (e: Option<Error>)
      requires Valid()
      modifies this, buf
      ensures Valid()
      ensures e.Some? <==> old(lastByte) < 0 || (old(r) == 0 && old(w) > 0)
      ensures if e.Some? then Pending() == old(Pending()) && lastByte == old(lastByte)
              else lastByte == -1 && Pending() == [old(lastByte) as byte] + old(Pending())
    {
      if lastByte < 0 || (r == 0 && w > 0) {
        return Some(InvalidUnread);
      }
      if r > 0 {
        r := r - 1;
      } else {
        w := 1;
      }
      PutBack(lastByte as byte);
      lastByte := -1;
      e := None;
    }

    /** b.buf[b.r] = c */
    method PutBack(c: byte)
      requires r < w <= buf.Length
      modifies buf
      ensures Unread() == [c] + old(buf[r + 1..w]) && Pending() == [c] + (old(buf[r + 1..w]) + rd.rest)
    {
      buf[r] := c;
      assert buf[r..w] == [c] + buf[r + 1..w];
    }

    /** Hands over the next n buffered bytes. */
    method Take(n: nat) returns (line: seq<byte>)
      requires Valid() && n <= w - r
      modifies this`r, this`lastByte
      ensures Valid() && line == old(Unread())[..n] && r == old(r) + n && Consumed(line)
    {
      line := buf[r..r + n];
      r := r + n;
      assert old(Unread()) == line + Unread();
      if line != [] {
        lastByte := line[n - 1] as int;
      }
    }

    /** Where the line that ReadSlice returns ends: fills the buffer until it holds delim, is full or has an error. */
    method FindSlice(delim: byte) returns (n: nat, e: Option<Error>)
      requires Valid()
      modifies this`r, this`w, this`err, buf, rd
      ensures Valid() && n <= w - r && Pending() == old(Pending())
      ensures if e.None? then n > 0 && IndexByte(Unread()[..n], delim) == n - 1 else delim !in Unread() && n == w - r
      ensures e == Some(BufferFull) ==> n == buf.Length
      ensures e.Some? ==> e.value.FromSource? || e.value.NoProgress? || e.value.BufferFull?
      ensures e.Some? && e != Some(BufferFull) ==> err.None?
      ensures old(err).Some? ==>
                rd.rest == old(rd.rest) && rd.log == old(rd.log) && if e.None? then err == old(err) else e == old(err)
      ensures (e != Some(BufferFull) ==> Accounted(e)) && Accounted(err)
    {
      hide IndexByte, Idle;
      var s: nat := 0;
      while true
        invariant Valid() && s <= w - r && delim !in Unread()[..s]
        invariant Pending() == old(Pending()) && Accounted(err)
        invariant old(err).Some? ==> err == old(err) && rd.rest == old(rd.rest) && rd.log == old(rd.log)
        decreases |rd.rest|, err.None?
      {
        var i := IndexByte(buf[r + s..w], delim);
        assert buf[r + s..w] == Unread()[s..];
        SearchResumes(Unread(), delim, s);
        if i >= 0 {
          return i + s + 1, None;
        }
        if err.Some? {
          e := ReadErr();
          return w - r, e;
        }
        if w - r >= buf.Length {
          return w - r, Some(BufferFull);
        }
        s := w - r;
        assert Unread()[..s] == Unread();
        Fill();
      }
    }

    /** Reads up to and including the first delim; only an error ends a line earlier. */
    method ReadSlice(delim: byte) returns (line: seq<byte>, e: Option<Error>)
      requires Valid()
      modifies this, buf, rd
      ensures Valid() && Consumed(line)
      ensures if e.None? then line != [] && IndexByte(line, delim) == |line| - 1 else delim !in line && r == w
      ensures e == Some(BufferFull) ==> |line| == buf.Length && r == buf.Length && buf[..] == line
      ensures e.Some? ==> e.value.FromSource? || e.value.NoProgress? || e.value.BufferFull?
      ensures e.Some? && e != Some(BufferFull) ==> err.None?
      ensures old(err).Some? ==>
                rd.rest == old(rd.rest) && rd.log == old(rd.log) && if e.None? then err == old(err) else e == old(err)
      ensures (e != Some(BufferFull) ==> Accounted(e)) && Accounted(err)
    {
      hide IndexByte, Idle;
      var n;
      n, e := FindSlice(delim);
      line := Take(n);
    }

    /** Takes a carriage return at the end of a full buffer back, in case a newline follows. */
    method PutBackCR(full: seq<byte>) returns (line: seq<byte>)
      requires Valid() && full == buf[..] && r == buf.Length && NL !in full
      modifies this`r
      ensures Valid() && IsFragment(full + old(Pending()), line, Pending())
    {
      line := full;
      if line[|line| - 1] == CR {
        r := r - 1;
        line := line[..|line| - 1];
        assert Unread() == [CR] && full == line + [CR];
        assert full + old(Pending()) == line + Pending();
        assert forall x <- line :: x in full;
        assert Pending()[0] == CR;
      }
    }

    /** One piece of a line, without its end. An error after at least one byte ends the line and is dropped. */
    method ReadLine() returns (line: seq<byte>, isPrefix: bool, e: Option<Error>, ghost dropped: Option<Error>)
      requires Valid()
      modifies this, buf, rd
      ensures Valid()
      ensures if isPrefix then e.None? && IsFragment(old(Pending()), line, Pending())
              else if e.Some? then line == [] && Pending() == old(Pending())
              else if dropped.Some? then line != [] && IsPart(old(Pending()), line, Pending())
              else IsLine(old(Pending()), line, Pending())
      ensures e.Some? ==> e.value.FromSource? || e.value.NoProgress?
      ensures Accounted(e) && Accounted(dropped) && Accounted(err)
      ensures old(err).Some? ==> rd.rest == old(rd.rest) && rd.log == old(rd.log)
    {
      hide IndexByte, IsFragment, IsLine, Idle;
      line, e := ReadSlice(NL);
      if e == Some(BufferFull) {
        line := PutBackCR(line);
        return line, true, None, None;
      }
      isPrefix, dropped := false, None;
      if line == [] {
        assert [] + Pending() == Pending();
        return;
      }
      LineEnds(line, Pending());
      dropped, e := e, None;
      if line[|line| - 1] == NL {
        var drop := 1;
        if |line| > 1 && line[|line| - 2] == CR {
          drop := 2;
        }
        assert line[..|line| - drop] == DropCR(line[..|line| - 1]);
        line := line[..|line| - drop];
      }
    }

    /** readLineSlice of net/textproto: the pieces of a line put together; a negative lim sets no limit. */
    method ReadLineSlice(lim: int) returns (line: seq<byte>, e: Option<Error>, ghost dropped: Option<Error>)
      requires Valid()
      modifies this, buf, rd
      ensures Valid()
      ensures if e.Some? then line == [] && (lim < 0 ==> e != Some(TooLong))
              else if dropped.Some? then IsPart(old(Pending()), line, Pending())
              else IsLine(old(Pending()), line, Pending())
      ensures (e != Some(TooLong) ==> Accounted(e)) && Accounted(dropped) && Accounted(err)
    {
      hide Idle;
      line, e, dropped := [], None, None;
      while true
        invariant Accounted(err)
        invariant Valid() && ((line == [] && Pending() == old(Pending())) || IsFragment(old(Pending()), line, Pending()))
        decreases |Pending()|
      {
        ghost var before := Pending();
        var l, more;
        l, more, e, dropped := ReadLine();
        if e.Some? {
          return [], e, None;
        }
        if lim >= 0 && |line| + |l| > lim {
          return [], Some(TooLong), None;
        }
        JoinPieces(old(Pending()), line, before, l, Pending());
        line := line + l;
        if !more {
          return;
        }
      }
    }

    /** Reads until the first delim: the buffers filled on the way, the rest, and the total length. */
    method CollectFragments(delim: byte)
      returns (fullBuffers: seq<seq<byte>>, finalFragment: seq<byte>, totalLen: nat, e: Option<Error>)
      requires Valid()
      modifies this, buf, rd
      ensures Valid() && totalLen == |Flatten(fullBuffers) + finalFragment|
      ensures old(Pending()) == Flatten(fullBuffers) + finalFragment + Pending()
      ensures delim !in Flatten(fullBuffers)
      ensures if e.None? then finalFragment != [] && IndexByte(finalFragment, delim) == |finalFragment| - 1
              else delim !in finalFragment && w == r && e != Some(BufferFull)
      ensures Accounted(e) && Accounted(err)
    {
      hide IndexByte, Flatten, Idle;
      FlattenNothing();
      fullBuffers, totalLen := [], 0;
      while true
        invariant Valid() && old(Pending()) == Flatten(fullBuffers) + Pending()
        invariant totalLen == |Flatten(fullBuffers)| && delim !in Flatten(fullBuffers) && Accounted(err)
        decreases |Pending()|
      {
        finalFragment, e := ReadSlice(delim);
        if e != Some(BufferFull) {
          break;
        }
        FlattenAppend(fullBuffers, finalFragment);
        Regroup(old(Pending()), Flatten(fullBuffers), finalFragment, Pending());
        fullBuffers, totalLen := fullBuffers + [finalFragment], totalLen + |finalFragment|;
      }
      Regroup(old(Pending()), Flatten(fullBuffers), finalFragment, Pending());
      totalLen := totalLen + |finalFragment|;
    }

    /** The stream up to and including its first delim, or up to an error if that comes first. From a source that
        reports nothing but its end, that is all there is of a stream without delim. */
    method ReadBytes(delim: byte) returns (line: array<byte>, e: Option<Error>)
      requires Valid()
      modifies this, buf, rd
      ensures Valid() && fresh(line)
      ensures old(Pending()) == line[..] + Pending()
      ensures if e.None? then IndexByte(old(Pending()), delim) == line.Length - 1 >= 0 else delim !in line[..]
      ensures Accounted(e) && Accounted(err)
      ensures Obeys(rd.log, |old(rd.log)|, 100) && PlainEnd(old(err), old(rd.rest)) ==>
                && (e.Some? <==> delim !in old(Pending()))
                && (e.Some? ==> e == Some(EOF) && line[..] == old(Pending()) && Pending() == [])
                && PlainEnd(err, rd.rest)
    {
      hide IndexByte, Idle, Obeys, Explains;
      var full, frag, n;
      full, frag, n, e := CollectFragments(delim);
      line := JoinFragments(full, frag, n);
      WholeLine(Flatten(full), frag, delim, Pending());
      assert e.Some? ==> Pending() == rd.rest;
      if Obeys(rd.log, |old(rd.log)|, 100) {
        EndsPlainly(old(err), rd.log, |old(rd.log)|, |rd.rest|, e);
        EndsPlainly(old(err), rd.log, |old(rd.log)|, |rd.rest|, err);
      }
    }

    /** The part of ReadBytes that copies full pieces and fragment into an array of the length they need. */
    static method JoinFragments(full: seq<seq<byte>>, frag: seq<byte>, totalLen: nat) returns (line: array<byte>)
      requires totalLen == |Flatten(full) + frag|
      ensures fresh(line) && line[..] == Flatten(full) + frag
    {
      hide Flatten;
      line := new byte[totalLen];
      var n, i := 0, 0;
      FlattenNothing();
      assert full[..0] == [];
      while i < |full|
        invariant i <= |full| && n == |Flatten(full[..i])| <= line.Length && line[..n] == Flatten(full[..i])
      {
        FlattenAppend(full[..i], full[i]);
        assert full[..i + 1] == full[..i] + [full[i]];
        FlattenPrefix(full, i + 1);
        CopyTo(line, n, full[i]);
        n, i := n + |full[i]|, i + 1;
      }
      assert full[..i] == full;
      CopyTo(line, n, frag);
      assert line[..] == line[..n + |frag|];
    }
  }

  /** There is no error, or it is the end of the stream. */
  predicate PlainEnd(err: Option<Error>, rest: seq<byte>) {
    err == None || (err == Some(EOF) && rest == [])
  }

  lemma EndsPlainly(before: Option<Error>, log: seq<Reading>, from: nat, left: nat, e: Option<Error>)
    requires Obeys(log, from, 100) && (e.Some? ==> e == before || Explains(log, from, left, 100, e.value))
    ensures e.Some? ==> e == before || (e == Some(EOF) && left == 0)
  {
    if e.Some? && e != before { EndsWithStream(log, from, left, 100, e.value); }
  }

  /** after is what is left of before without its first n bytes. */
  predicate Skipped(before: seq<byte>, n: nat, after: seq<byte>) {
    n <= |before| && after == before[n..]
  }

  lemma NothingSkipped(s: seq<byte>)
    ensures Skipped(s, 0, s)
  {
  }

  lemma SkipShrinks(before: seq<byte>, n: nat, after: seq<byte>)
    requires Skipped(before, n, after)
    ensures n <= |before| && |after| == |before| - n && after == before[n..]
  {
  }

  lemma SkipMore(before: seq<byte>, n: nat, after: seq<byte>, k: nat)
    requires Skipped(before, n, after) && k <= |after|
    ensures Skipped(before, n + k, after[k..])
  {
  }

  /** copy(dst, src) */
  method CopyFront(dst: array<byte>, src: seq<byte>)
    requires |src| <= dst.Length
    modifies dst
    ensures dst[..|src|] == src
  {
    forall i | 0 <= i < |src| {
      dst[i] := src[i];
    }
  }

  lemma MoveOver(unread: seq<byte>, rest: seq<byte>, n: nat)
    requires n <= |rest|
    ensures unread + rest[..n] + rest[n..] == unread + rest
  {
  }

  lemma Regroup(p: seq<byte>, a: seq<byte>, b: seq<byte>, c: seq<byte>)
    ensures p == a + (b + c) ==> p == a + b + c
  {
    assert a + (b + c) == a + b + c;
  }

  lemma WholeLine(full: seq<byte>, frag: seq<byte>, delim: byte, rest: seq<byte>)
    requires delim !in full
    ensures frag != [] && IndexByte(frag, delim) == |frag| - 1 ==> IndexByte(full + frag + rest, delim) == |full + frag| - 1
  {
    IndexByteConcat(full, delim, frag + rest);
    IndexByteConcat(frag, delim, rest);
    assert full + (frag + rest) == full + frag + rest;
  }

  /** The pieces of a line make up the line, wherever the buffer cut it. */
  lemma JoinPieces(p: seq<byte>, line: seq<byte>, q: seq<byte>, l: seq<byte>, after: seq<byte>)
    requires (line == [] && p == q) || IsFragment(p, line, q)
    ensures IsFragment(q, l, after) ==> IsFragment(p, line + l, after)
    ensures IsPart(q, l, after) ==> IsPart(p, line + l, after)
    ensures IsLine(q, l, after) ==> IsLine(p, line + l, after)
  {
    assert line + (l + after) == line + l + after && [] + l == l;
    if line != [] && IsLine(q, l, after) { JoinLine(p, line, q, l, after); }
    hide IndexByte, IsLine;
  }

  lemma JoinLine(p: seq<byte>, line: seq<byte>, q: seq<byte>, l: seq<byte>, after: seq<byte>)
    requires IsFragment(p, line, q) && IsLine(q, l, after)
    ensures IsLine(p, line + l, after)
  {
    var k := IndexByte(q, NL);
    IndexByteConcat(line, NL, q);
    hide IndexByte;
    assert p[..|line| + k] == line + q[..k];
    assert p[|line| + k + 1..] == q[k + 1..];
  }

  /** The next line of a stream, without its end, and what follows it. */
  ghost predicate IsLine(before: seq<byte>, line: seq<byte>, after: seq<byte>) {
    var k := IndexByte(before, NL);
    k >= 0 && line == DropCR(before[..k]) && after == before[k + 1..]
  }

  /** Nothing but the line's end is between the line and what follows. */
  lemma LineAndEnd(before: seq<byte>, line: seq<byte>, after: seq<byte>)
    requires IsLine(before, line, after)
    ensures before == line + [10] + after || before == line + [13, 10] + after
    ensures forall c <- line :: c != 10
    ensures before == line + [10] + after ==> line == [] || line[|line| - 1] != 13
  {
    var k := IndexByte(before, NL);
    hide IndexByte;
    assert before == before[..k] + [10] + before[k + 1..];
    if line != before[..k] { assert before[..k] == line + [13] && line + [13] + [10] == line + [13, 10]; }
    else if before == line + [10] + after && k > 0 { assert before[..k][k - 1] == line[k - 1]; }
    DropCRIs(line);
  }

  /** Some bytes of a line that has not ended. */
  ghost predicate IsPart(before: seq<byte>, part: seq<byte>, after: seq<byte>) {
    NL !in part && before == part + after
  }

  /** As much of a line as fits; a carriage return at its end does not belong to the line's end. */
  ghost predicate IsFragment(before: seq<byte>, part: seq<byte>, after: seq<byte>) {
    part != [] && IsPart(before, part, after) && (part[|part| - 1] == CR && after != [] ==> after[0] != NL)
  }

  lemma LineEnds(line: seq<byte>, after: seq<byte>)
    ensures line != [] && IndexByte(line, NL) == |line| - 1 ==>
              IsLine(line + after, DropCR(line[..|line| - 1]), after)
  {
    IndexByteConcat(line, NL, after);
    if line != [] {
      assert (line + after)[..|line| - 1] == line[..|line| - 1];
      assert (line + after)[|line|..] == after;
    }
  }

  /** What was searched before need not be searched again. */
  lemma SearchResumes(u: seq<byte>, c: byte, s: nat)
    requires s <= |u| && c !in u[..s]
    ensures var i := IndexByte(u[s..], c);
            if i < 0 then c !in u else IndexByte(u[..i + s + 1], c) == i + s
  {
    var i := IndexByte(u[s..], c);
    hide IndexByte;
    assert u == u[..s] + u[s..];
    if i >= 0 {
      assert u[..i + s + 1][..i + s] == u[..s] + u[s..][..i];
      IndexByteIs(u[..i + s + 1], c, i + s);
    }
  }
}
