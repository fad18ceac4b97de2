/** bytes.Buffer (go/src/bytes/buffer.go): a queue of bytes in one array that is reset, resliced, slid down or replaced. */
module BytesBuffer {
  import opened Prelude
  import opened Streams
  import opened Utf8

  const SMALL_BUFFER_SIZE := 64
  const MAX_INT := 0x7FFF_FFFF_FFFF_FFFF

  /** How a call ends: normally, or in a panic. */
  datatype Outcome = Done | TooLarge | NegativeSize | OutOfRange

  const OP_READ := -1
  const OP_INVALID := 0

  /** The slice buf is data[:len], its capacity data.Length. */
  class Buffer {
    var data: array<byte>
    var isNil: bool
    var len: nat
    var off: nat
    var lastRead: int
    ghost var refused: seq<nat>            // the sizes of the allocations that failed

    ghost predicate Valid()
      reads this`data, this`isNil, this`len, this`off, this`lastRead
    {
      off <= len <= data.Length && (isNil ==> data.Length == 0) && -1 <= lastRead <= 4
    }

    /** Bytes: the unread portion. */
    function Contents(): seq<byte>
      reads this`data, this`len, this`off, data
      requires off <= len <= data.Length
    {
      data[off..len]
    }

    function Available(): int
      reads this
    {
      data.Length - len
    }

    constructor ()
      ensures Valid() && fresh(data) && Contents() == []
    {
      data, isNil, len, off, lastRead, refused := new byte[0], true, 0, 0, OP_INVALID, [];
    }

    /** NewBuffer: takes over a slice of n bytes. */
    constructor Of(buf: array<byte>, n: nat)
      requires n <= buf.Length
      ensures Valid() && data == buf && Contents() == buf[..n]
    {
      data, isNil, len, off, lastRead, refused := buf, false, n, 0, OP_INVALID, [];
    }

    method Reset()
      requires Valid()
      modifies this`len, this`off, this`lastRead
      ensures Valid() && Contents() == [] && len == off == 0 && lastRead == OP_INVALID
    {
      len, off, lastRead := 0, 0, OP_INVALID;
    }

    method Truncate(n: int) returns (o: Outcome)
      requires Valid()
      modifies this`len, this`off, this`lastRead
      ensures Valid() && (o == Done <==> 0 <= n <= |old(Contents())|)
      ensures Contents() == if o == Done then old(Contents())[..n] else old(Contents())
    {
      if n == 0 {
        Reset();
        assert old(Contents())[..0] == [];
        return Done;
      }
      lastRead := OP_INVALID;
      if n < 0 || n > len - off {
        return OutOfRange;
      }
      assert data[off..off + n] == data[off..len][..n];
      len := off + n;
      return Done;
    }

    method TryGrowByReslice(n: nat) returns (i: nat, ok: bool)
      requires Valid()
      modifies this`len
      ensures Valid() && ok == (n <= old(Available()))
      ensures if ok then i == old(len) && len == i + n && data[off..i] == old(Contents())
              else len == old(len) && Contents() == old(Contents())
    {
      if n <= data.Length - len {
        i := len;
        len := len + n;
        return i, true;
      }
      return 0, false;
    }

    /** The array was kept, or is new. */
    twostate predicate SameOrFresh()
      reads this
    {
      data == old(data) || fresh(data)
    }

    /** growSlice: a new array with room for n bytes behind those of buf[off:]; allocating may fail. */
    method GrowSlice(n: nat) returns (b2: array<byte>, o: Outcome)
      requires Valid()
      modifies this`refused
      ensures o == Done || o == TooLarge
      ensures refused == old(refused) + if o == Done then [] else [Max(len - off + n, 2 * (data.Length - off))]
      ensures o == Done ==> fresh(b2) && b2.Length >= len - off + n && b2.Length >= 2 * (data.Length - off)
                            && b2[..len - off] == Contents()
    {
      var c := len - off + n;
      if c < 2 * (data.Length - off) {
        c := 2 * (data.Length - off);
      }
      var capacity :| capacity >= c;
      var fails := *;
      b2 := new byte[capacity];
      if fails {
        refused := refused + [c];
        return b2, TooLarge;
      }
      forall i | 0 <= i < len - off {
        b2[i] := data[off + i];
      }
      return b2, Done;
    }

    /** copy(buf, buf[off:]) */
    method Slide()
      requires Valid()
      modifies data
      ensures data[..len - off] == old(Contents())
    {
      forall i | 0 <= i < len - off {
        data[i] := data[off + i];
      }
    }

    /** There is room for n more bytes in the array, or in the first small one, or in an array twice as large as needed. */
    predicate Fits(n: nat)
      reads this`data, this`isNil, this`len, this`off
    {
      || n <= data.Length - (if off == len then 0 else len)
      || (isNil && n <= 64)
      || len - off + n <= data.Length / 2
    }

    /** What a call that made room for n bytes did: it failed only if they did not fit, and then because the size was
        too large or the one allocation that it asked for was refused. */
    twostate predicate Grown(n: nat, new o: Outcome)
      reads this`refused
    {
      if o == Done then refused == old(refused) && (old(Fits(n)) || 2 * old(data.Length) + n <= 0x7FFF_FFFF_FFFF_FFFF)
      else
        && !old(Fits(n))
        && if 2 * old(data.Length) + n > 0x7FFF_FFFF_FFFF_FFFF then refused == old(refused)
           else refused == old(refused) + [if old(off) == old(len) then Max(n, 2 * old(data.Length))
                                           else Max(old(len) + n, 2 * (old(data.Length) - old(off)))]
    }

    /** grow: makes room for n bytes at index m, in whichever way. */
    method GrowBy(n: nat) returns (m: nat, o: Outcome)
      requires Valid()
      modifies this`data, this`isNil, this`len, this`off, this`lastRead, this`refused, data
      ensures Valid() && SameOrFresh() && (o == Done || o == TooLarge) && Grown(n, o)
      ensures o == TooLarge ==> Contents() == old(Contents())
      ensures o == Done ==> off <= m && len == m + n && data[off..m] == old(Contents())
      ensures lastRead == old(lastRead) || lastRead == OP_INVALID
    {
      hide Contents;
      NothingUnread();
      var l := len - off;
      if l == 0 && off != 0 {
        Reset();
      }
      var ok;
      m, ok := TryGrowByReslice(n);
      if ok {
        return m, Done;
      }
      if isNil && n <= SMALL_BUFFER_SIZE {
        NothingUnread();
        AllocateSmall(n);
        return 0, Done;
      }
      o := MakeSpace(n);
      return l, o;
    }

    lemma NothingUnread()
      requires Valid()
      ensures off == len ==> Contents() == []
    {
    }

    method AllocateSmall(n: nat)
      requires Valid() && isNil && n <= SMALL_BUFFER_SIZE
      modifies this`data, this`isNil, this`len, this`off
      ensures Valid() && fresh(data) && off == 0 && len == n && data[off..0] == []
    {
      data, isNil := new byte[SMALL_BUFFER_SIZE], false;
      len, off := n, 0;
    }

    /** Slides the bytes down in an array that is large enough for twice as many, or moves them to a new one. */
    method MakeSpace(n: nat) returns (o: Outcome)
      requires Valid()
      modifies this`data, this`isNil, this`len, this`off, this`refused, data
      ensures Valid() && SameOrFresh() && (o == Done || o == TooLarge)
      ensures if old(len - off) + n <= old(data.Length) / 2 then o == Done && refused == old(refused)
              else if 2 * old(data.Length) + n > 0x7FFF_FFFF_FFFF_FFFF then o == TooLarge && refused == old(refused)
              else refused == old(refused) + if o == Done then [] else [Max(old(len) + n, 2 * (old(data.Length) - old(off)))]
      ensures o == TooLarge ==> Contents() == old(Contents())
      ensures o == Done ==> off == 0 && len == old(len) - old(off) + n && data[off..len - n] == old(Contents())
    {
      hide Contents;
      var l, c := len - off, data.Length;
      if n <= c / 2 - l {
        Slide();
      } else if c > MAX_INT - c - n {
        return TooLarge;
      } else {
        var b2;
        b2, o := GrowSlice(off + n);
        if o != Done {
          return o;
        }
        data, isNil := b2, false;
      }
      off, len := 0, l + n;
      assert data[0..l] == data[..l];
      return Done;
    }

    method Grow(n: int) returns (o: Outcome)
      requires Valid()
      modifies this, data
      ensures Valid() && SameOrFresh() && Contents() == old(Contents())
      ensures n < 0 <==> o == NegativeSize
      ensures o == Done ==> Available() >= n
      ensures n >= 0 ==> Grown(n, o)
    {
      if n < 0 {
        return NegativeSize;
      }
      var m;
      m, o := GrowBy(n);
      if o == Done {
        len := m;
      }
    }

    /** Room for n more bytes, resliced if possible. */
    method Extend(n: nat) returns (m: nat, o: Outcome)
      requires Valid()
      modifies this, data
      ensures Valid() && SameOrFresh() && lastRead == OP_INVALID && (o == Done || o == TooLarge) && Grown(n, o)
      ensures o == TooLarge ==> Contents() == old(Contents())
      ensures o == Done ==> off <= m && len == m + n && data[off..m] == old(Contents())
    {
      lastRead := OP_INVALID;
      var ok;
      m, ok := TryGrowByReslice(n);
      o := Done;
      if !ok {
        m, o := GrowBy(n);
      }
    }

    /** copy(b.buf[m:], p) */
    method CopyAt(m: nat, p: seq<byte>)
      requires off <= m && m + |p| <= data.Length
      modifies data
      ensures data[off..m + |p|] == old(data[off..m]) + p
    {
      ghost var kept := data[..m];
      CopyTo(data, m, p);
      assert data[off..m + |p|] == data[..m + |p|][off..] == kept[off..] + p;
    }

    /** Write, and WriteString. */
    method Write(p: seq<byte>) returns (o: Outcome)
      requires Valid()
      modifies this, data
      ensures Valid() && SameOrFresh() && (o == Done || o == TooLarge)
      ensures Contents() == if o == Done then old(Contents()) + p else old(Contents())
      ensures lastRead == OP_INVALID && Grown(|p|, o)
    {
      hide Grown;
      var m;
      m, o := Extend(|p|);
      if o == Done {
        CopyAt(m, p);
      }
    }

    method WriteByte(c: byte) returns (o: Outcome)
      requires Valid()
      modifies this, data
      ensures Valid() && SameOrFresh() && (o == Done || o == TooLarge)
      ensures Contents() == if o == Done then old(Contents()) + [c] else old(Contents())
      ensures lastRead == OP_INVALID && Grown(1, o)
    {
      var m;
      m, o := Extend(1);
      if o == Done {
        data[m] := c;
      }
    }

    method WriteRune(r: int) returns (o: Outcome)
      requires Valid()
      modifies this, data
      ensures Valid() && SameOrFresh() && (o == Done || o == TooLarge)
      ensures Contents() == if o == Done then old(Contents()) + EncodeRune(r) else old(Contents())
      ensures lastRead == OP_INVALID && Grown(if 0 <= r < 0x80 then 1 else 4, o)
    {
      hide EncodeRune, Grown;
      if 0 <= r < RUNE_SELF {
        AsciiRune(r);
        o := WriteByte(r as byte);
        return;
      }
      var m;
      m, o := Extend(4);
      if o == Done {
        var e := EncodeRune(r);
        CopyAt(m, e);
        len := m + |e|;
      }
    }

    method Read(p: array<byte>) returns (n: nat, eof: bool)
      requires Valid() && p != data
      modifies this`len, this`off, this`lastRead, p
      ensures Valid() && n == Min(p.Length, |old(Contents())|) && old(Contents()) == p[..n] + Contents()
      ensures eof <==> old(Contents()) == [] && p.Length > 0
      ensures if n > 0 then CanUnread(1, [p[n - 1]]) else lastRead == OP_INVALID
    {
      lastRead := OP_INVALID;
      if len <= off {
        Reset();
        return 0, p.Length != 0;
      }
      n := Min(p.Length, len - off);
      CopyOut(p, n);
      off := off + n;
      if n > 0 {
        lastRead := OP_READ;
      }
      return n, false;
    }

    /** copy(p, b.buf[b.off:]) */
    method CopyOut(p: array<byte>, n: nat)
      requires Valid() && p != data && n <= p.Length && n <= len - off
      modifies p
      ensures p[..n] == data[off..off + n] && Contents() == p[..n] + data[off + n..len]
      ensures n > 0 ==> data[off + n - 1..off + n] == [p[n - 1]]
    {
      Unread(n);
      CopyTo(p, 0, data[off..off + n]);
      assert p[..n] == p[..0 + n];
      assert n > 0 ==> p[..n][n - 1] == data[off..off + n][n - 1];
    }

    lemma Unread(n: nat)
      requires Valid() && n <= len - off
      ensures Contents()[..n] == data[off..off + n] && Contents() == data[off..off + n] + data[off + n..len]
    {
    }

    method Next(n: nat) returns (s: seq<byte>)
      requires Valid()
      modifies this`off, this`lastRead
      ensures Valid() && |s| == Min(n, |old(Contents())|) && old(Contents()) == s + Contents()
      ensures if s != [] then CanUnread(1, [s[|s| - 1]]) else lastRead == OP_INVALID
    {
      lastRead := OP_INVALID;
      var k := n;
      if k > len - off {
        k := len - off;
      }
      s := data[off..off + k];
      off := off + k;
      if k > 0 {
        lastRead := OP_READ;
      }
    }

    method ReadByte() returns (c: Option<byte>)
      requires Valid()
      modifies this`len, this`off, this`lastRead
      ensures Valid() && (c.None? <==> old(Contents()) == [])
      ensures if c.None? then Contents() == [] else old(Contents()) == [c.value] + Contents() && CanUnread(1, [c.value])
    {
      if len <= off {
        Reset();
        return None;
      }
      c := Some(data[off]);
      off, lastRead := off + 1, OP_READ;
    }

    method ReadRune() returns (r: int, size: nat)
      requires Valid()
      modifies this`len, this`off, this`lastRead
      ensures Valid() && (size == 0 <==> old(Contents()) == [])
      ensures size > 0 ==> (r, size) == DecodeRune(old(Contents())) && old(Contents()) == old(Contents())[..size] + Contents()
      ensures size > 0 ==> lastRead == size && CanUnread(size, old(Contents())[..size])
    {
      hide DecodeRune;
      if len <= off {
        Reset();
        return 0, 0;
      }
      DecodeAscii(Contents());
      var c := data[off];
      if c < 0x80 {
        r, size := c as int, 1;
      } else {
        var d := DecodeRune(data[off..len]);
        r, size := d.0, d.1;
      }
      assert (r, size) == DecodeRune(Contents());
      Unread(size);
      off, lastRead := off + size, size;
    }

    /** The last size bytes that were read still lie before off. */
    predicate CanUnread(size: nat, bytes: seq<byte>)
      reads this, data
      requires Valid()
    {
      lastRead != OP_INVALID && size <= off && data[off - size..off] == bytes
    }

    method UnreadByte() returns (ok: bool)
      requires Valid()
      modifies this`off, this`lastRead
      ensures Valid() && (ok <==> old(lastRead) != OP_INVALID)
      ensures ok && old(off) > 0 ==> old(off) <= data.Length && Contents() == [data[old(off) - 1]] + old(Contents())
      ensures !ok || old(off) == 0 ==> Contents() == old(Contents())
    {
      if lastRead == OP_INVALID {
        return false;
      }
      lastRead := OP_INVALID;
      if off > 0 {
        off := off - 1;
      }
      return true;
    }

    method UnreadRune() returns (ok: bool)
      requires Valid()
      modifies this`off, this`lastRead
      ensures Valid() && (ok <==> old(lastRead) > OP_INVALID)
      ensures ok && old(off) >= old(lastRead) ==>
                old(off) <= data.Length && Contents() == data[old(off) - old(lastRead)..old(off)] + old(Contents())
    {
      if lastRead <= OP_INVALID {
        return false;
      }
      if off >= lastRead {
        off := off - lastRead;
      }
      lastRead := OP_INVALID;
      return true;
    }

    /** readSlice, and with a copy ReadBytes: up to and including the first delim. */
    method ReadBytes(delim: byte) returns (line: seq<byte>, eof: bool)
      requires Valid()
      modifies this`off, this`lastRead
      ensures Valid() && old(Contents()) == line + Contents()
      ensures line != [] ==> CanUnread(1, [line[|line| - 1]])
      ensures if eof then delim !in line && Contents() == [] else IndexByte(old(Contents()), delim) == |line| - 1 >= 0
    {
      hide IndexByte;
      var i := IndexByte(data[off..len], delim);
      var end := off + i + 1;
      eof := false;
      if i < 0 {
        end := len;
        eof := true;
      }
      line := data[off..end];
      off, lastRead := end, OP_READ;
    }
  }

  lemma AsciiRune(r: int)
    requires 0 <= r < RUNE_SELF
    ensures EncodeRune(r) == [r as byte]
  {
  }

  lemma DecodeAscii(p: seq<byte>)
    requires p != []
    ensures p[0] < 0x80 ==> DecodeRune(p) == (p[0] as int, 1)
  {
  }
}
