/** bufio.Scanner with ScanLines (go/src/bufio/scan.go): the lines of a stream, however it is chunked and buffered. */
module LineScanner {
  import opened Prelude
  import opened Streams

  const MAX_SCAN_TOKEN_SIZE := 64 * 1024
  const START_BUF_SIZE := 4096
  const MAX_CONSECUTIVE_EMPTY_READS := 100

  // ---------------------------------------------------------------- the lines of a text

  function FirstLine(text: seq<byte>): seq<byte> {
    var k := IndexByte(text, NL);
    DropCR(if k < 0 then text else text[..k])
  }

  function AfterLine(text: seq<byte>): (rest: seq<byte>)
    ensures text != [] ==> |rest| < |text|
  {
    var k := IndexByte(text, NL);
    if k < 0 then [] else text[k + 1..]
  }

  /** Every line without its end; what follows the last newline is a line unless it is empty. */
  function Lines(text: seq<byte>): seq<seq<byte>>
    decreases |text|
  {
    if text == [] then [] else [FirstLine(text)] + Lines(AfterLine(text))
  }

  predicate WholeLines(text: seq<byte>) {
    text == [] || text[|text| - 1] == NL
  }

  lemma LineSplits(a: seq<byte>, b: seq<byte>)
    requires NL in a
    ensures FirstLine(a + b) == FirstLine(a) && AfterLine(a + b) == AfterLine(a) + b
  {
    IndexByteConcat(a, NL, b);
    CutConcat(a, b, IndexByte(a, NL));
    hide IndexByte;
  }

  lemma CutConcat(a: seq<byte>, b: seq<byte>, k: nat)
    requires k < |a|
    ensures (a + b)[..k] == a[..k] && (a + b)[k + 1..] == a[k + 1..] + b
  {
  }

  /** Lines splits where a line ends. */
  lemma {:induction false} LinesConcat(a: seq<byte>, b: seq<byte>)
    requires WholeLines(a)
    ensures Lines(a + b) == Lines(a) + Lines(b)
    decreases |a|
  {
    hide FirstLine, AfterLine, IndexByte, WholeLines;
    if a == [] {
      assert a + b == b;
    } else {
      WholeLinesAfter(a);
      LineSplits(a, b);
      LinesConcat(AfterLine(a), b);
    }
  }

  lemma WholeLinesAfter(a: seq<byte>)
    requires a != [] && WholeLines(a)
    ensures NL in a && WholeLines(AfterLine(a))
  {
    assert a[|a| - 1] in a;
    var k := IndexByte(a, NL);
    hide IndexByte;
    assert k + 1 < |a| ==> a[k + 1..][|a| - k - 2] == a[|a| - 1];
  }

  /** Lines that a newline ends, with a carriage return before it or not. */
  function Text(lines: seq<seq<byte>>, crlf: bool): seq<byte> {
    if lines == [] then [] else lines[0] + (if crlf then [13, 10] else [10]) + Text(lines[1..], crlf)
  }

  /** No newline, and no carriage return at the end. */
  predicate OneLine(l: seq<byte>) {
    (forall c <- l :: c != 10) && (l == [] || l[|l| - 1] != 13)
  }

  /** They are the lines of the text, whichever of the two ends them. */
  lemma {:induction false} LinesOfText(lines: seq<seq<byte>>, crlf: bool)
    requires forall l <- lines :: OneLine(l)
    ensures Lines(Text(lines, crlf)) == lines
  {
    hide FirstLine, AfterLine;
    if lines != [] {
      var l, more := lines[0], Text(lines[1..], crlf);
      assert l in lines && forall k <- lines[1..] :: k in lines;
      LinesOfText(lines[1..], crlf);
      OneLineOfText(l, crlf, more);
      assert lines == [l] + lines[1..];
    }
  }

  lemma OneLineOfText(l: seq<byte>, crlf: bool, more: seq<byte>)
    requires OneLine(l)
    ensures var s := l + (if crlf then [13, 10] else [10]) + more;
            s != [] && FirstLine(s) == l && AfterLine(s) == more
  {
    var kept := if crlf then l + [13] else l;
    var s := l + (if crlf then [13, 10] else [10]) + more;
    assert s == kept + [10] + more && s[|kept|] == 10 && s[..|kept|] == kept && s[|kept| + 1..] == more;
    IndexByteIs(s, NL, |kept|);
    hide IndexByte;
    DropCRIs(l);
  }

  /** ScanLines: how far to advance, and the token, if there is one yet. */
  function ScanLines(data: seq<byte>, atEOF: bool): (int, Option<seq<byte>>) {
    if atEOF && data == [] then (0, None)
    else
      var i := IndexByte(data, NL);
      if i >= 0 then (i + 1, Some(DropCR(data[..i])))
      else if atEOF then (|data|, Some(DropCR(data)))
      else (0, None)
  }

  lemma ScanLinesIs(data: seq<byte>, atEOF: bool, rest: seq<byte>)
    ensures var (n, token) := ScanLines(data, atEOF);
            && 0 <= n <= |data|
            && (token.None? <==> if atEOF then data == [] else NL !in data)
            && (token.None? ==> n == 0)
            && (token.Some? ==> n > 0 && token == Some(FirstLine(data)) && data[n..] == AfterLine(data))
            && (token.Some? && !atEOF ==>
                  n == IndexByte(data + rest, NL) + 1 && token == Some(FirstLine(data + rest))
                  && data[n..] + rest == AfterLine(data + rest))
  {
    if NL in data { LineSplits(data, rest); }
    IndexByteConcat(data, NL, rest);
  }

  // ---------------------------------------------------------------- the scanner

  class Scanner {
    const r: Source
    var maxTokenSize: int
    var token: Option<seq<byte>>
    var buf: array<byte>
    var start: nat
    var end: nat
    var err: Option<Error>
    var scanCalled: bool

    ghost predicate Valid()
      reads this
    {
      start <= end <= buf.Length && (!scanCalled ==> end == 0)
    }

    /** The largest size that the buffer may take. */
    function Limit(): int
      reads this
    {
      Max(maxTokenSize, buf.Length)
    }

    /** buf[start:end] */
    function Data(): seq<byte>
      reads this`buf, this`start, this`end, buf
      requires start <= end <= buf.Length
    {
      buf[start..end]
    }

    function Pending(): seq<byte>
      reads this`buf, this`start, this`end, buf, r
      requires start <= end <= buf.Length
    {
      Data() + r.rest
    }

    /** NewScanner */
    constructor (r: Source)
      ensures Valid() && this.r == r && fresh(buf) && !scanCalled
      ensures Pending() == r.rest && err == None && Limit() == 65536
    {
      this.r := r;
      maxTokenSize, token, buf := MAX_SCAN_TOKEN_SIZE, None, new byte[0];
      start, end, err, scanCalled := 0, 0, None, false;
      new;
      assert [] + r.rest == r.rest;
    }

    /** Buffer: the initial buffer and the largest token; allowed only before the first Scan. */
    method Buffer(b: array<byte>, max: int)
      requires Valid() && !scanCalled
      modifies this`buf, this`maxTokenSize
      ensures Valid() && buf == b && Limit() == Max(max, b.Length) && Pending() == old(Pending())
    {
      buf, maxTokenSize := b, max;
    }

    /** Only io.EOF may be replaced by a later error. */
    method SetErr(e: Error)
      modifies this`err
      ensures err == if old(err) == None || old(err) == Some(EOF) then Some(e) else old(err)
    {
      if err.None? || err == Some(EOF) {
        err := Some(e);
      }
    }

    /** Shifts the data to the beginning of the buffer, or moves it to a larger one. */
    method MakeRoom() returns (ok: bool)
      requires Valid() && err.None? && scanCalled
      modifies this`buf, this`start, this`end, this`err, buf
      ensures Valid() && Data() == old(Data()) && Pending() == old(Pending())
      ensures Limit() == old(Limit()) && (buf == old(buf) || fresh(buf))
      ensures if ok then err.None? && end < buf.Length else err == Some(TooLong) && |Data()| == Limit()
      ensures buf.Length == old(buf.Length)
              || (buf.Length > old(buf.Length) == end
                  && buf.Length == Min(if old(buf.Length) == 0 then 4096 else 2 * old(buf.Length), maxTokenSize))
    {
      hide Data, Pending;
      if start > 0 && (end == buf.Length || start > buf.Length / 2) {
        Shift();
      }
      if end == buf.Length {
        if buf.Length >= maxTokenSize {
          WholeBuffer();
          SetErr(TooLong);
          return false;
        }
        var newSize := buf.Length * 2;
        if newSize == 0 {
          newSize := START_BUF_SIZE;
        }
        Enlarge(Min(newSize, maxTokenSize));
      }
      return true;
    }

    /** copy(buf, buf[start:end]) */
    method Shift()
      requires Valid() && scanCalled
      modifies this`start, this`end, buf
      ensures Valid() && start == 0 && end == old(end) - old(start) && Data() == old(Data()) && Pending() == old(Pending())
    {
      forall i | 0 <= i < end - start {
        buf[i] := buf[start + i];
      }
      start, end := 0, end - start;
    }

    /** copy(newBuf, buf[start:end]) */
    method Enlarge(newSize: nat)
      requires Valid() && scanCalled && end - start <= newSize
      modifies this`buf, this`start, this`end
      ensures Valid() && start == 0 && end == old(end) - old(start) && buf.Length == newSize && fresh(buf)
      ensures Data() == old(Data()) && Pending() == old(Pending())
    {
      var newBuf := new byte[newSize];
      forall i | 0 <= i < end - start {
        newBuf[i] := buf[start + i];
      }
      buf, start, end := newBuf, 0, end - start;
    }

    lemma WholeBuffer()
      requires Valid()
      ensures |Data()| == end - start
    {
    }

    /** A new error comes from the reads made since: the last of them reported it, or a hundred and one of them gave
        nothing. After an error nothing is read. */
    twostate predicate Accounted()
      reads this`err, r
    {
      && |old(r.log)| <= |r.log| && |r.rest| <= |old(r.rest)|
      && (old(err).Some? ==> err == old(err) && r.rest == old(r.rest) && r.log == old(r.log))
      && (old(err).None? && err.Some? && err != Some(TooLong) ==> Explains(r.log, |old(r.log)|, |r.rest|, 101, err.value))
    }

    /** Reads until there is more data or an error; gives up after too many empty reads. */
    method ReadMore()
      requires Valid() && err.None? && end < buf.Length && scanCalled
      modifies this`end, this`err, buf, r
      ensures Valid() && Pending() == old(Pending()) && old(Data()) <= Data() && |r.rest| <= |old(r.rest)|
      ensures (err.Some? ==> FromReading(err.value)) && (err.None? ==> |r.rest| < |old(r.rest)|)
      ensures |old(r.log)| < |r.log| <= |old(r.log)| + 101 && Idle(r.log, |old(r.log)|, |r.log| - 1 - |old(r.log)|)
      ensures var last := r.log[|r.log| - 1];
              if last.err.Some? then err == last.err
              else if last.n > 0 then err.None?
              else |r.log| == |old(r.log)| + 101 && err == Some(NoProgress) && Data() == old(Data())
      ensures Accounted()
    {
      var loop := 0;
      while true
        invariant Valid() && loop <= MAX_CONSECUTIVE_EMPTY_READS && err.None?
        invariant end == old(end) && r.rest == old(r.rest) && Data() == old(Data())
        invariant |r.log| == |old(r.log)| + loop && Idle(r.log, |old(r.log)|, loop)
        decreases MAX_CONSECUTIVE_EMPTY_READS - loop
      {
        var n, e := Append();
        if e.Some? {
          SetErr(e.value);
          return;
        }
        if n > 0 {
          return;
        }
        loop := loop + 1;
        if loop > MAX_CONSECUTIVE_EMPTY_READS {
          SetErr(NoProgress);
          return;
        }
      }
    }

    /** One Read of the source into the free space behind end. */
    method Append() returns (n: nat, e: Option<Error>)
      requires Valid() && scanCalled
      modifies this`end, buf, r
      ensures n <= |old(r.rest)| && r.rest == old(r.rest)[n..]
      ensures Valid() && end == old(end) + n && Data() == old(Data()) + old(r.rest)[..n]
      ensures e.Some? ==> e.value.FromSource?
      ensures r.log == old(r.log) + [Reading(n, |r.rest|, e)]
    {
      n, e := r.Read(buf, end);
      assert buf[..end + n] == buf[..end] + buf[end..end + n];
      end := end + n;
      assert buf[start..end] == buf[..end][start..] == old(buf[..end][start..]) + old(r.rest)[..n];
      assert old(buf[..end][start..]) == old(buf[start..end]);
    }

    /** Asks ScanLines for a token in the data at hand. */
    method TryToken() returns (ok: bool)
      requires Valid()
      modifies this`start, this`token
      ensures Valid()
      ensures ok ==> Found(old(Pending()), Pending(), token, err, r.rest, Limit())
      ensures !ok ==> Pending() == old(Pending()) && if err.Some? then Data() == [] else NL !in Data()
    {
      hide Found, ScanLines, IndexByte;
      TokenFound(Data(), err, r.rest, Limit());
      if end == start && err.None? {
        return false;
      }
      var (n, t) := ScanLines(buf[start..end], err.Some?);
      start, token := start + n, t;
      assert Data() == old(Data())[n..];
      return token.Some?;
    }

    /** Makes room and reads, unless the line is too long for the buffer. */
    method GetMore() returns (ok: bool)
      requires Valid() && err.None? && scanCalled && NL !in Data()
      modifies this, buf, r
      ensures Valid() && scanCalled && Limit() == old(Limit()) && (buf == old(buf) || fresh(buf))
      ensures Pending() == old(Pending()) && |r.rest| <= |old(r.rest)| && (err.None? ==> |r.rest| < |old(r.rest)|)
      ensures if ok then err.Some? ==> FromReading(err.value)
              else err == Some(TooLong) && end - start == Limit() && TooLarge(Pending(), Limit())
      ensures Accounted()
    {
      hide TooLarge, IndexByte, FromReading, Data, Pending, Idle;
      ok := MakeRoom();
      if ok {
        ReadMore();
      } else {
        Full();
      }
    }

    lemma Full()
      requires Valid() && NL !in Data()
      ensures |Data()| == end - start && TooLarge(Pending(), |Data()|)
    {
      hide TooLarge, IndexByte;
      FullIsTooLarge(Data(), r.rest);
    }

    method Start()
      requires Valid()
      modifies this`scanCalled
      ensures Valid() && scanCalled && Pending() == old(Pending())
    {
      scanCalled := true;
    }

    /** Forgets where the data was, of which there is none left. */
    method ShutDown()
      requires Valid() && Data() == []
      modifies this`start, this`end
      ensures Valid() && Pending() == old(Pending()) == r.rest
    {
      start, end := 0, 0;
    }

    /** The next line of what was read before an error, or of all that is pending while there is none. */
    method Scan() returns (ok: bool)
      requires Valid()
      modifies this, buf, r
      ensures Valid() && Limit() == old(Limit()) && (buf == old(buf) || fresh(buf))
      ensures Accounted()
      ensures if ok then Found(old(Pending()), Pending(), token, err, r.rest, Limit())
              else err.Some? && Pending() == old(Pending())
                   && if old(err).None? && err == Some(TooLong) then end - start == Limit() else Pending() == r.rest
      ensures old(err).None? ==> err.None? || err == Some(TooLong) || FromReading(err.value)
      ensures old(err).None? && err == Some(TooLong) ==> !ok
      ensures old(err).None? && (err.None? || !FromReading(err.value)) ==>
                (err == Some(TooLong) <==> TooLarge(old(Pending()), Limit()))
    {
      hide Found, TooLarge, IndexByte, Data, Pending, Idle;
      Start();
      while true
        invariant Valid() && scanCalled && Limit() == old(Limit()) && (buf == old(buf) || fresh(buf))
        invariant Pending() == old(Pending())
        invariant Accounted()
        invariant old(err).None? && err.Some? ==> FromReading(err.value)
        decreases |r.rest|, err.None?
      {
        ok := TryToken();
        if ok {
          FoundIsNotTooLarge(old(Pending()), Pending(), token, err, r.rest, Limit());
          return;
        }
        if err.Some? {
          ShutDown();
          return false;
        }
        var more := GetMore();
        if !more {
          return false;
        }
      }
    }
  }

  /** What was read of the pending bytes before the error, if there is one. */
  function Before(pending: seq<byte>, err: Option<Error>, rest: seq<byte>): seq<byte> {
    if err.None? then pending else if |rest| <= |pending| then pending[..|pending| - |rest|] else []
  }

  predicate Splits(pending: seq<byte>, err: Option<Error>, rest: seq<byte>) {
    err.Some? ==> pending == Before(pending, err, rest) + rest
  }

  /** What ScanLines finds in the data at hand. */
  lemma TokenFound(data: seq<byte>, err: Option<Error>, rest: seq<byte>, limit: int)
    requires |data| <= limit
    ensures var (n, t) := ScanLines(data, err.Some?);
            && 0 <= n <= |data| && (t.Some? ==> Found(data + rest, data[n..] + rest, t, err, rest, limit))
            && (t.None? ==> n == 0 && if err.Some? then data == [] else NL !in data)
  {
    hide FirstLine, AfterLine, IndexByte, LineFits;
    var (n, t) := ScanLines(data, err.Some?);
    ScanLinesIs(data, err.Some?, rest);
    BeforeIs(data, rest);
    BeforeIs(data[n..], rest);
    FitsData(data, rest, limit);
    hide ScanLines;
    assert err.None? && t.Some? ==> NL in data;
    assert forall c: byte :: c in data ==> c in data + rest;
  }

  lemma FitsData(data: seq<byte>, rest: seq<byte>, limit: int)
    requires |data| <= limit
    ensures LineFits(data, limit, limit) && (NL in data ==> LineFits(data + rest, limit, limit))
  {
    IndexByteConcat(data, NL, rest);
    hide IndexByte;
  }

  lemma FullIsTooLarge(data: seq<byte>, rest: seq<byte>)
    requires NL !in data
    ensures TooLarge(data + rest, |data|)
  {
    assert (data + rest)[..|data|] == data;
  }

  lemma BeforeIs(data: seq<byte>, rest: seq<byte>)
    ensures forall err: Option<Error> :: err.Some? ==> Before(data + rest, err, rest) == data
    ensures forall err: Option<Error> :: Splits(data + rest, err, rest)
  {
    assert (data + rest)[..|data|] == data;
  }

  predicate GotLine(text: seq<byte>, token: Option<seq<byte>>, after: seq<byte>) {
    text != [] && token == Some(FirstLine(text)) && after == AfterLine(text)
  }

  /** The buffer is as large as it may be, and holds no end of the line. */
  predicate TooLarge(pending: seq<byte>, limit: int) {
    0 <= limit <= |pending| && NL !in pending[..limit]
  }

  /** The source reported it, or Scan gave up on a source that returns nothing. */
  predicate FromReading(e: Error) {
    e.FromSource? || e == NoProgress
  }

  /** The first line with its newline takes at most limit bytes; without a newline, at most last bytes. */
  predicate LineFits(text: seq<byte>, limit: int, last: int) {
    var k := IndexByte(text, NL);
    if k < 0 then |text| <= last else k < limit
  }

  predicate AllFit(text: seq<byte>, limit: int, last: int)
    decreases |text|
  {
    text == [] || (LineFits(text, limit, last) && AllFit(AfterLine(text), limit, last))
  }

  lemma {:induction false} AllFitConcat(a: seq<byte>, b: seq<byte>, limit: int, last: int)
    requires WholeLines(a)
    ensures AllFit(a + b, limit, last) <==> AllFit(a, limit, last) && AllFit(b, limit, last)
    decreases |a|
  {
    if a == [] {
      assert a + b == b;
    } else {
      WholeLinesAfter(a);
      LineSplits(a, b);
      IndexByteConcat(a, NL, b);
      hide FirstLine, AfterLine, IndexByte;
      AllFitConcat(AfterLine(a), b, limit, last);
    }
  }

  /** What the first line of text takes from it. */
  function LineBytes(text: seq<byte>): seq<byte> {
    var k := IndexByte(text, NL);
    if k < 0 then text else text[..k + 1]
  }

  lemma LineTaken(done: seq<byte>, text: seq<byte>, limit: int)
    requires WholeLines(done) && text != [] && LineFits(text, limit, limit) && AllFit(done, limit, limit)
    ensures Lines(done + LineBytes(text)) == Lines(done) + [FirstLine(text)]
    ensures AllFit(done + LineBytes(text), limit, limit)
    ensures text == LineBytes(text) + AfterLine(text) && LineBytes(text) != []
    ensures if NL in text then WholeLines(done + LineBytes(text)) else AfterLine(text) == []
  {
    hide IndexByte, FirstLine, AfterLine, LineBytes, LineFits, WholeLines;
    var b := LineBytes(text);
    FirstLineOnly(text, limit);
    LinesConcat(done, b);
    AllFitConcat(done, b, limit, limit);
    assert Lines(b) == [FirstLine(text)];
    WholeAppend(done, b);
  }

  lemma FirstLineOnly(text: seq<byte>, limit: int)
    requires text != [] && LineFits(text, limit, limit)
    ensures var b := LineBytes(text);
            && b != [] && FirstLine(b) == FirstLine(text) && AfterLine(b) == [] && LineFits(b, limit, limit)
            && text == b + AfterLine(text) && if NL in text then WholeLines(b) else AfterLine(text) == []
  {
    var b, k := LineBytes(text), IndexByte(text, NL);
    if k >= 0 {
      assert b[..k] == text[..k] && b[k] == NL;
      IndexByteIs(b, NL, k);
    }
    hide IndexByte;
  }

  lemma WholeAppend(a: seq<byte>, b: seq<byte>)
    requires b != []
    ensures WholeLines(b) ==> WholeLines(a + b)
  {
  }

  /** Lines short enough for the buffer never make it too large. */
  lemma FittingIsNotTooLarge(done: seq<byte>, left: seq<byte>, limit: int)
    requires WholeLines(done) && limit > 0 && AllFit(done + left, limit, limit - 1)
    ensures !TooLarge(left, limit)
  {
    hide IndexByte, AfterLine;
    AllFitConcat(done, left, limit, limit - 1);
    InPrefix(left, IndexByte(left, NL), limit);
  }

  lemma InPrefix(s: seq<byte>, k: int, n: int)
    ensures 0 <= k < n <= |s| ==> s[k] in s[..n]
  {
    if 0 <= k < n <= |s| { assert s[..n][k] == s[k]; }
  }

  /** Where a run of Scan stands: text has been taken from input, and its lines handed over. */
  predicate Scanned(input: seq<byte>, text: seq<byte>, tokens: seq<seq<byte>>, pending: seq<byte>,
                    err: Option<Error>, rest: seq<byte>, limit: int)
  {
    && input == text + pending && tokens == Lines(text) && AllFit(text, limit, limit)
    && err != Some(TooLong) && (WholeLines(text) || (err.Some? && pending == rest))
  }

  /** What Scan promises when it finds a line. */
  predicate Found(pending: seq<byte>, after: seq<byte>, token: Option<seq<byte>>, err: Option<Error>, rest: seq<byte>, limit: int) {
    var text := Before(pending, err, rest);
    && Splits(pending, err, rest) && Splits(after, err, rest)
    && GotLine(text, token, Before(after, err, rest)) && LineFits(text, limit, limit) && (err.None? ==> NL in text)
  }

  lemma ScanStarts(input: seq<byte>, err: Option<Error>, rest: seq<byte>, limit: int)
    requires err.None?
    ensures Scanned(input, [], [], input, err, rest, limit)
  {
    assert [] + input == input;
  }

  lemma ScanStep(input: seq<byte>, text: seq<byte>, tokens: seq<seq<byte>>, pending: seq<byte>, after: seq<byte>,
                 token: Option<seq<byte>>, err0: Option<Error>, rest0: seq<byte>, err: Option<Error>, rest: seq<byte>, limit: int)
    requires Scanned(input, text, tokens, pending, err0, rest0, limit) && Found(pending, after, token, err, rest, limit)
    requires (err == Some(TooLong) ==> err0.Some?) && (err0.Some? ==> err == err0 && rest == rest0)
    ensures token.Some? && |after| < |pending|
    ensures Scanned(input, text + LineBytes(Before(pending, err, rest)), tokens + [token.value], after, err, rest, limit)
  {
    var line := LineBytes(Before(pending, err, rest));
    BeforeIs([], rest);
    assert [] + rest == rest;
    LineTaken(text, Before(pending, err, rest), limit);
    hide IndexByte, FirstLine, AfterLine, LineFits, Lines, AllFit, LineBytes, WholeLines, Before, Splits;
    TakenIs(text, pending, after, err, rest, line);
  }

  lemma TakenIs(done: seq<byte>, pending: seq<byte>, after: seq<byte>, err: Option<Error>, rest: seq<byte>, taken: seq<byte>)
    requires Splits(pending, err, rest) && Splits(after, err, rest)
    requires Before(pending, err, rest) == taken + Before(after, err, rest)
    ensures done + pending == done + taken + after && |pending| == |taken| + |after|
    ensures Before(after, err, rest) == [] ==> err.None? || after == rest
  {
    if err.None? {
      Associative(done, taken, after);
    } else {
      Associative(taken, Before(after, err, rest), rest);
      Associative(done, taken, after);
    }
  }

  lemma Associative(a: seq<byte>, b: seq<byte>, c: seq<byte>)
    ensures a + b + c == a + (b + c)
    ensures [] + c == c
  {
  }

  /** The loop that scanners are made for: every token until Scan says no. text is what they were scanned from. */
  method ScanAll(s: Scanner) returns (tokens: seq<seq<byte>>, ghost text: seq<byte>)
    requires s.Valid() && s.err.None?
    modifies s, s.buf, s.r
    ensures s.Valid() && s.Limit() == old(s.Limit()) && s.err.Some?
    ensures old(s.Pending()) == text + s.Pending() && tokens == Lines(text)
    ensures if s.err == Some(TooLong) then WholeLines(text) && TooLarge(s.Pending(), s.Limit())
            else s.Pending() == s.r.rest
    ensures AllFit(text, s.Limit(), s.Limit())
    ensures s.Limit() > 0 && AllFit(old(s.Pending()), s.Limit(), s.Limit() - 1) ==> s.err != Some(TooLong)
    ensures s.err != Some(TooLong) ==> Explains(s.r.log, |old(s.r.log)|, |s.r.rest|, 101, s.err.value)
    ensures s.err != Some(TooLong) && Obeys(s.r.log, |old(s.r.log)|, 101) ==>
              s.err == Some(EOF) && s.Pending() == [] && tokens == Lines(old(s.Pending()))
  {
    hide Explains, Obeys;
    hide IndexByte, FirstLine, AfterLine, LineFits, TooLarge, Lines, AllFit, LineBytes, Before, Splits, GotLine, Scanned, Found, WholeLines;
    tokens, text := [], [];
    ghost var input := s.Pending();
    ScanStarts(input, s.err, s.r.rest, s.Limit());
    while true
      invariant s.Valid() && s.Limit() == old(s.Limit()) && (s.buf == old(s.buf) || fresh(s.buf))
      invariant Scanned(input, text, tokens, s.Pending(), s.err, s.r.rest, s.Limit())
      invariant |old(s.r.log)| <= |s.r.log|
      invariant s.err.None? || Explains(s.r.log, |old(s.r.log)|, |s.r.rest|, 101, s.err.value)
      decreases |s.Pending()|
    {
      ghost var pending, err, rest, since := s.Pending(), s.err, s.r.rest, |s.r.log|;
      var ok := s.Scan();
      if err.None? && s.err.Some? && s.err != Some(TooLong) {
        ExplainsMore(s.r.log, |old(s.r.log)|, since, |s.r.rest|, 101, s.err.value);
      }
      if !ok {
        ScanEnds(input, text, tokens, pending, err, rest, s.err, s.r.rest, s.Limit());
        if s.err != Some(TooLong) && Obeys(s.r.log, |old(s.r.log)|, 101) {
          EndsWithStream(s.r.log, |old(s.r.log)|, |s.r.rest|, 101, s.err.value);
          assert text + [] == text;
        }
        return;
      }
      ScanStep(input, text, tokens, pending, s.Pending(), s.token, err, rest, s.err, s.r.rest, s.Limit());
      tokens, text := tokens + [s.token.value], text + LineBytes(Before(pending, s.err, s.r.rest));
    }
  }

  lemma ScanEnds(input: seq<byte>, text: seq<byte>, tokens: seq<seq<byte>>, pending: seq<byte>,
                 err0: Option<Error>, rest0: seq<byte>, err: Option<Error>, rest: seq<byte>, limit: int)
    requires Scanned(input, text, tokens, pending, err0, rest0, limit)
    requires err.Some? && (err0.Some? ==> err == err0 && rest == rest0)
    requires if err0.None? && err == Some(TooLong) then TooLarge(pending, limit) else pending == rest
    ensures input == text + pending && tokens == Lines(text) && AllFit(text, limit, limit)
    ensures if err == Some(TooLong) then WholeLines(text) && TooLarge(pending, limit) else pending == rest
    ensures limit > 0 && AllFit(input, limit, limit - 1) ==> err != Some(TooLong)
  {
    if WholeLines(text) && limit > 0 && AllFit(input, limit, limit - 1) {
      FittingIsNotTooLarge(text, pending, limit);
    }
  }

  /** Without an error from the source, Scan finds no line in what is too large. */
  lemma FoundIsNotTooLarge(pending: seq<byte>, after: seq<byte>, token: Option<seq<byte>>, err: Option<Error>, rest: seq<byte>, limit: int)
    requires Found(pending, after, token, err, rest, limit)
    ensures err.None? ==> !TooLarge(pending, limit)
  {
    if err.None? { InPrefix(pending, IndexByte(pending, NL), limit); }
  }

  /** After an error the data at hand is the last line. */
  lemma LastToken(data: seq<byte>, after: seq<byte>, token: Option<seq<byte>>, err: Option<Error>, rest: seq<byte>, limit: int)
    requires err.Some? && NL !in data && Found(data + rest, after, token, err, rest, limit)
    ensures data != [] && token == Some(DropCR(data)) && after == rest
  {
    hide IndexByte, LineFits;
    BeforeIs(data, rest);
    assert [] + rest == rest;
  }

  lemma NothingMore(after: seq<byte>, token: Option<seq<byte>>, err: Option<Error>, rest: seq<byte>, limit: int)
    ensures err.Some? ==> !Found(rest, after, token, err, rest, limit)
  {
    hide LineFits;
  }

  /** The documentation says that scanning stops for good when a token is too long. Instead the next Scan hands
      over what the buffer holds as one more token, unless the buffer has no room for anything; then it stops. */
  method ScanAfterTooLong(s: Scanner) returns (first: bool, second: bool, token: Option<seq<byte>>, third: bool)
    requires s.Valid() && s.err.None?
    modifies s, s.buf, s.r
    ensures s.Valid()
    ensures !first && s.err == Some(TooLong) ==>
              && TooLarge(old(s.Pending()), s.Limit())
              && (second <==> s.Limit() > 0)
              && (second ==> token == Some(DropCR(old(s.Pending())[..s.Limit()])))
              && !third && s.Pending() == s.r.rest == old(s.Pending())[s.Limit()..]
  {
    hide Found, TooLarge;
    first := s.Scan();
    ghost var data, rest, err := s.Data(), s.r.rest, s.err;
    Taken(data, rest, s.Limit());
    second := s.Scan();
    token := s.token;
    if second && !first && err == Some(TooLong) {
      LastToken(data, s.Pending(), s.token, err, rest, s.Limit());
    }
    third := s.Scan();
    NothingMore(s.Pending(), s.token, s.err, rest, s.Limit());
  }

  lemma Taken(data: seq<byte>, rest: seq<byte>, limit: int)
    ensures limit == |data| ==> (data + rest)[..limit] == data && (data + rest)[limit..] == rest
    ensures limit == |data| && TooLarge(data + rest, limit) ==> NL !in data
    ensures data + rest == rest ==> data == []
  {
    if data + rest == rest { assert |data + rest| == |data| + |rest|; }
    assert (data + rest)[..|data|] == data;
  }
}
