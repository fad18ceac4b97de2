/** io.Pipe (go/src/io/pipe.go) as a step system: one step is one channel operation, one lock
    operation or one load or store of a close error. Any number of reads, writes and closes interleave. */
module Pipe {
  import opened Prelude

  datatype Error = ErrClosedPipe | EOF | Custom(code: int)

  /** onceError: a cell that stores an error once. */
  class OnceError {
    var err: Option<Error>

    constructor ()
      ensures err == None
    {
      err := None;
    }

    method Store(e: Error)
      modifies this
      ensures err == StoreOnce(old(err), e)
    {
      if err != None {
        return;
      }
      err := Some(e);
    }
  }

  function StoreOnce(old_: Option<Error>, e: Error): Option<Error> {
    if old_ == None then Some(e) else old_
  }

  /** Where one call of read stands. */
  datatype Reader =
    | RStart(cap: nat)
    | RSelect(cap: nat)                    // waits for wrCh or done
    | RHold(data: seq<byte>)               // has copied data, sends its length on rdCh
    | RLoad                                // done was closed: loads rerr
    | RLoad2(rerr: Option<Error>)          // ... then werr
    | RDone(got: seq<byte>, err: Option<Error>)

  /** Where one call of write stands; n bytes are acknowledged. */
  datatype WriterPc =
    | WStart
    | WLock                                // waits for wrMu
    | WSelect(n: nat, once: bool)          // head of the loop, wrMu held
    | WAck(n: nat)                         // slice sent, waits for the count on rdCh
    | WLoad(n: nat, locked: bool)          // done was closed: loads werr
    | WLoad2(n: nat, locked: bool, werr: Option<Error>)
    | WDone(n: nat, err: Option<Error>)

  datatype Writer = Writer(b: seq<byte>, pc: WriterPc)

  datatype State = State(
    readers: map<int, Reader>,
    writers: map<int, Writer>,
    wrMu: Option<int>,
    done: bool,
    rerr: Option<Error>,
    werr: Option<Error>,
    // history: readers in the order they received a slice, writers in the order they took wrMu,
    // and for each of these writers how many bytes readers have copied from it
    takers: seq<int>,
    order: seq<int>,
    parts: seq<nat>)

  datatype Action =
    | NewReader(r: int, cap: nat)
    | NewWriter(w: int, b: seq<byte>)
    | ReadBegin(r: int)
    | ReadSeesDone(r: int)
    | ReadLoad(r: int)
    | WriteBegin(w: int)
    | WriteLock(w: int)
    | SendSlice(w: int, r: int)            // wrCh
    | SendCount(w: int, r: int)            // rdCh
    | WriteSeesDone(w: int)
    | WriteReturn(w: int)
    | WriteLoad(w: int)
    | StoreReadErr(e: Option<Error>)       // closeRead
    | StoreWriteErr(e: Option<Error>)      // closeWrite
    | CloseDone                            // once.Do(close(done)), after either store

  function Init(): State {
    State(map[], map[], None, false, None, None, [], [], [])
  }

  function ReadCloseError(rerr: Option<Error>, werr: Option<Error>): Error {
    if rerr == None && werr.Some? then werr.value else ErrClosedPipe
  }

  function WriteCloseError(werr: Option<Error>, rerr: Option<Error>): Error {
    if werr == None && rerr.Some? then rerr.value else ErrClosedPipe
  }

  predicate Looping(w: Writer) {
    w.pc.WSelect? && (w.pc.once || w.pc.n < |w.b|)
  }

  predicate Enabled(s: State, a: Action) {
    match a
    case NewReader(r, _) => r !in s.readers
    case NewWriter(w, _) => w !in s.writers
    case ReadBegin(r) => r in s.readers && s.readers[r].RStart?
    case ReadSeesDone(r) => r in s.readers && s.readers[r].RSelect? && s.done
    case ReadLoad(r) => r in s.readers && (s.readers[r].RLoad? || s.readers[r].RLoad2?)
    case WriteBegin(w) => w in s.writers && s.writers[w].pc.WStart?
    case WriteLock(w) => w in s.writers && s.writers[w].pc.WLock? && s.wrMu == None
    case SendSlice(w, r) =>
      w in s.writers && r in s.readers && Looping(s.writers[w]) && s.writers[w].pc.n <= |s.writers[w].b| && s.readers[r].RSelect?
    case SendCount(w, r) => w in s.writers && r in s.readers && s.writers[w].pc.WAck? && s.readers[r].RHold?
    case WriteSeesDone(w) => w in s.writers && Looping(s.writers[w]) && s.done
    case WriteReturn(w) => w in s.writers && s.writers[w].pc.WSelect? && !Looping(s.writers[w])
    case WriteLoad(w) => w in s.writers && (s.writers[w].pc.WLoad? || s.writers[w].pc.WLoad2?)
    case StoreReadErr(_) => true
    case StoreWriteErr(_) => true
    case CloseDone => s.rerr.Some? || s.werr.Some?
  }

  function AddToLast(parts: seq<nat>, n: nat): seq<nat> {
    if parts == [] then [] else parts[..|parts| - 1] + [parts[|parts| - 1] + n]
  }

  function SetR(s: State, r: int, v: Reader): State {
    s.(readers := s.readers[r := v])
  }

  function SetW(s: State, w: int, pc: WriterPc): State
    requires w in s.writers
  {
    s.(writers := s.writers[w := s.writers[w].(pc := pc)])
  }

  function Next(s: State, a: Action): State
    requires Enabled(s, a)
  {
    match a
    case NewReader(r, cap) => SetR(s, r, RStart(cap))
    case NewWriter(w, b) => s.(writers := s.writers[w := Writer(b, WStart)])
    case ReadBegin(r) => SetR(s, r, if s.done then RLoad else RSelect(s.readers[r].cap))
    case ReadSeesDone(r) => SetR(s, r, RLoad)
    case ReadLoad(r) =>
      if s.readers[r].RLoad? then SetR(s, r, RLoad2(s.rerr))
      else SetR(s, r, RDone([], Some(ReadCloseError(s.readers[r].rerr, s.werr))))
    case WriteBegin(w) => SetW(s, w, if s.done then WLoad(0, false) else WLock)
    case WriteLock(w) => SetW(s, w, WSelect(0, true)).(wrMu := Some(w), order := s.order + [w], parts := s.parts + [0])
    case SendSlice(w, r) =>
      var n, b := s.writers[w].pc.n, s.writers[w].b;
      var data := b[n..n + Min(s.readers[r].cap, |b| - n)];
      SetR(SetW(s, w, WAck(n)), r, RHold(data)).(takers := s.takers + [r], parts := AddToLast(s.parts, |data|))
    case SendCount(w, r) =>
      SetR(SetW(s, w, WSelect(s.writers[w].pc.n + |s.readers[r].data|, false)), r, RDone(s.readers[r].data, None))
    case WriteSeesDone(w) => SetW(s, w, WLoad(s.writers[w].pc.n, true))
    case WriteReturn(w) => SetW(s, w, WDone(s.writers[w].pc.n, None)).(wrMu := None)
    case WriteLoad(w) =>
      var pc := s.writers[w].pc;
      if pc.WLoad? then SetW(s, w, WLoad2(pc.n, pc.locked, s.werr))
      else SetW(s, w, WDone(pc.n, Some(WriteCloseError(pc.werr, s.rerr)))).(wrMu := if pc.locked then None else s.wrMu)
    case StoreReadErr(e) => s.(rerr := StoreOnce(s.rerr, if e == None then ErrClosedPipe else e.value))
    case StoreWriteErr(e) => s.(werr := StoreOnce(s.werr, if e == None then EOF else e.value))
    case CloseDone => s.(done := true)
  }

  // ---------------------------------------------------------------- what was transferred

  /** What a read got out of the pipe so far. */
  function Got(s: State, r: int): seq<byte> {
    if r !in s.readers then []
    else match s.readers[r]
      case RHold(data) => data
      case RDone(data, _) => data
      case _ => []
  }

  /** The part of a write's slice that readers copied. */
  function Sent(s: State, i: nat): seq<byte>
    requires i < |s.order| && i < |s.parts|
  {
    var w := s.order[i];
    if w in s.writers && s.parts[i] <= |s.writers[w].b| then s.writers[w].b[..s.parts[i]] else []
  }

  function AllGot(s: State): seq<seq<byte>> {
    seq(|s.takers|, i requires 0 <= i < |s.takers| => Got(s, s.takers[i]))
  }

  function AllSent(s: State): seq<seq<byte>>
    requires |s.order| == |s.parts|
  {
    seq(|s.order|, i requires 0 <= i < |s.order| => Sent(s, i))
  }

  // ---------------------------------------------------------------- the invariant

  predicate Holds(pc: WriterPc) {
    pc.WSelect? || pc.WAck? || (pc.WLoad? && pc.locked) || (pc.WLoad2? && pc.locked)
  }

  /** The n that the call has counted so far. */
  function Counted(pc: WriterPc): nat {
    match pc
    case WStart => 0
    case WLock => 0
    case WSelect(n, _) => n
    case WAck(n) => n
    case WLoad(n, _) => n
    case WLoad2(n, _, _) => n
    case WDone(n, _) => n
  }

  /** wrMu is held by the writer in its loop, which is the last one that took it. */
  ghost predicate LockInv(s: State) {
    && (forall w <- s.writers :: Holds(s.writers[w].pc) <==> s.wrMu == Some(w))
    && (s.wrMu.Some? ==> s.wrMu.value in s.writers && s.order != [] && s.order[|s.order| - 1] == s.wrMu.value)
    && (forall i :: 0 <= i < |s.order| ==> s.order[i] in s.writers)
    && (forall i, j :: 0 <= i < j < |s.order| ==> s.order[i] != s.order[j])
    && (forall i :: 0 <= i < |s.order| ==> s.wrMu == Some(s.order[i]) || s.writers[s.order[i]].pc.WDone?)
  }

  /** n never runs ahead of the slice, a nil error means the whole slice, and before the lock n is 0. */
  ghost predicate CountInv(s: State) {
    && |s.parts| == |s.order|
    && (forall w <- s.writers :: CountOf(s.writers[w]) && (w !in s.order ==> Counted(s.writers[w].pc) == 0))
    && (forall i :: 0 <= i < |s.order| ==> s.order[i] in s.writers && PartOf(s.writers[s.order[i]], s.parts[i]))
  }

  predicate CountOf(w: Writer) {
    Counted(w.pc) <= |w.b| && (w.pc.WDone? && w.pc.err == None ==> w.pc.n == |w.b|)
  }

  predicate PartOf(w: Writer, part: nat) {
    Counted(w.pc) <= part <= |w.b| && (!w.pc.WAck? ==> part == Counted(w.pc))
  }

  /** A reader that holds a slice and a writer that waits for its count come in one matching pair. */
  ghost predicate PairInv(s: State) {
    && (forall r <- s.readers :: s.readers[r].RHold? ==> Acking(s) && s.takers != [] && r == s.takers[|s.takers| - 1])
    && (Acking(s) ==> Matched(s))
  }

  predicate Acking(s: State) {
    s.wrMu.Some? && s.wrMu.value in s.writers && s.writers[s.wrMu.value].pc.WAck?
  }

  /** The last taker holds exactly the bytes between what the lock holder counted and what was taken from it. */
  predicate Matched(s: State)
    requires Acking(s)
  {
    && s.takers != [] && s.parts != []
    && var r, w, part := s.takers[|s.takers| - 1], s.writers[s.wrMu.value], s.parts[|s.parts| - 1];
       r in s.readers && s.readers[r].RHold? && Counted(w.pc) <= part <= |w.b|
       && s.readers[r].data == w.b[Counted(w.pc)..part]
  }

  ghost predicate ReadInv(s: State) {
    && (forall i :: 0 <= i < |s.takers| ==> s.takers[i] in s.readers)
    && (forall i, j :: 0 <= i < j < |s.takers| ==> s.takers[i] != s.takers[j])
    && (forall r <- s.readers :: r in s.takers <==> s.readers[r].RHold? || (s.readers[r].RDone? && s.readers[r].err == None))
    && (forall r <- s.readers :: s.readers[r].RDone? && s.readers[r].err.Some? ==> s.readers[r].got == [])
  }

  ghost predicate TransferInv(s: State) {
    |s.order| == |s.parts| && Flatten(AllGot(s)) == Flatten(AllSent(s))
  }

  /** Why calls fail: reads because the write end was closed or, if the read end was, with ErrClosedPipe. */
  ghost predicate ErrInv(s: State) {
    && (s.done ==> s.rerr.Some? || s.werr.Some?)
    && (forall r <- s.readers :: ReadErr(s.readers[r], s.done, s.rerr, s.werr))
    && (forall w <- s.writers :: WriteErr(s.writers[w].pc, s.done, s.rerr, s.werr))
  }

  predicate ReadErr(p: Reader, done: bool, rerr: Option<Error>, werr: Option<Error>) {
    match p
    case RLoad => done
    case RLoad2(e) => if e.Some? then rerr == e else werr.Some?
    case RDone(_, Some(e)) => werr == Some(e) || (e == ErrClosedPipe && rerr.Some?)
    case _ => true
  }

  predicate WriteErr(p: WriterPc, done: bool, rerr: Option<Error>, werr: Option<Error>) {
    match p
    case WLoad(_, _) => done
    case WLoad2(_, _, e) => if e.Some? then werr == e else rerr.Some?
    case WDone(_, Some(e)) => rerr == Some(e) || (e == ErrClosedPipe && werr.Some?)
    case _ => true
  }

  ghost predicate Inv(s: State) {
    LockInv(s) && CountInv(s) && PairInv(s) && ReadInv(s) && TransferInv(s) && ErrInv(s)
  }

  // ---------------------------------------------------------------- every run

  /** states is a run from a new pipe in which acts happen one after another. */
  ghost predicate Run(states: seq<State>, acts: seq<Action>) {
    && |states| == |acts| + 1 && states[0] == Init()
    && forall i :: 0 <= i < |acts| ==> Enabled(states[i], acts[i]) && states[i + 1] == Next(states[i], acts[i])
  }

  lemma {:induction false} RunKeepsInv(states: seq<State>, acts: seq<Action>)
    requires Run(states, acts)
    ensures Inv(states[|acts|])
  {
    if acts == [] {
      assert AllGot(Init()) == [] && AllSent(Init()) == [];
    } else {
      var n := |acts| - 1;
      RunKeepsInv(states[..n + 1], acts[..n]);
      InvStep(states[n], acts[n]);
    }
  }

  /** In every reachable state the bytes readers received, in the order of their rendezvous, are the
      delivered prefixes of the writes in the order they took the lock. A finished write reports as n
      exactly what was delivered from it, and a nil error means that was all of it. */
  lemma ReadersGetWhatWritersSent(states: seq<State>, acts: seq<Action>)
    requires Run(states, acts)
    ensures var s := states[|acts|];
            && |s.order| == |s.parts| && Flatten(AllGot(s)) == Flatten(AllSent(s))
            && (forall i :: 0 <= i < |s.order| ==>
                  s.order[i] in s.writers && var w := s.writers[s.order[i]];
                  s.parts[i] <= |w.b| && (w.pc.WDone? ==> s.parts[i] == w.pc.n && (w.pc.err == None ==> w.pc.n == |w.b|)))
            && (forall w <- s.writers | s.writers[w].pc.WDone? && w !in s.order :: s.writers[w].pc.n == 0)
            && (forall r <- s.readers | s.readers[r].RDone? :: r in s.takers <==> s.readers[r].err == None)
  {
    RunKeepsInv(states, acts);
    var s := states[|acts|];
    forall i | 0 <= i < |s.order|
      ensures s.order[i] in s.writers && PartOf(s.writers[s.order[i]], s.parts[i]) && CountOf(s.writers[s.order[i]])
    {
    }
    hide LockInv, PairInv, ErrInv;
  }

  /** A reader with a slice in hand always finds its writer waiting for the count, and only that one,
      and a waiting writer its reader, whether or not the pipe was closed meanwhile. */
  lemma NobodyStranded(states: seq<State>, acts: seq<Action>)
    requires Run(states, acts)
    ensures var s := states[|acts|];
            && (forall r <- s.readers | s.readers[r].RHold? ::
                  exists w :: w in s.writers && Enabled(s, SendCount(w, r))
                              && forall w2 <- s.writers | s.writers[w2].pc.WAck? :: w2 == w)
            && (forall w <- s.writers | s.writers[w].pc.WAck? ::
                  exists r :: r in s.readers && Enabled(s, SendCount(w, r))
                              && forall r2 <- s.readers | s.readers[r2].RHold? :: r2 == r)
  {
    RunKeepsInv(states, acts);
    var s := states[|acts|];
    forall r <- s.readers | s.readers[r].RHold?
      ensures exists w :: w in s.writers && Enabled(s, SendCount(w, r))
                          && forall w2 <- s.writers | s.writers[w2].pc.WAck? :: w2 == w
    {
      assert Enabled(s, SendCount(s.wrMu.value, r));
    }
    forall w <- s.writers | s.writers[w].pc.WAck?
      ensures exists r :: r in s.readers && Enabled(s, SendCount(w, r))
                          && forall r2 <- s.readers | s.readers[r2].RHold? :: r2 == r
    {
      assert Acking(s);
      assert Enabled(s, SendCount(w, s.takers[|s.takers| - 1]));
    }
  }

  /** The first close error of each end is final, and a closed pipe stays closed. */
  lemma {:induction false} FirstErrorStays(states: seq<State>, acts: seq<Action>, k: nat)
    requires Run(states, acts) && k <= |acts|
    ensures var s, t := states[k], states[|acts|];
            (s.rerr.Some? ==> t.rerr == s.rerr) && (s.werr.Some? ==> t.werr == s.werr) && (s.done ==> t.done)
    decreases |acts|
  {
    hide Next, Enabled;
    if k < |acts| {
      var n := |acts| - 1;
      FirstErrorStays(states[..n + 1], acts[..n], k);
      ErrorStays(states[n], acts[n]);
    }
  }

  lemma ErrorStays(s: State, a: Action)
    requires Enabled(s, a)
    ensures var t := Next(s, a);
            (s.rerr.Some? ==> t.rerr == s.rerr) && (s.werr.Some? ==> t.werr == s.werr) && (s.done ==> t.done)
  {
  }

  /** While the read end is open, a failed read reports the write end's close error; while the write
      end is open, a failed write reports the read end's; otherwise ErrClosedPipe is possible too. */
  lemma WhyCallsFail(states: seq<State>, acts: seq<Action>)
    requires Run(states, acts)
    ensures var s := states[|acts|];
            && (forall r <- s.readers | s.readers[r].RDone? && s.readers[r].err.Some? ::
                  s.readers[r].got == [] && (s.werr == s.readers[r].err || (s.rerr.Some? && s.readers[r].err == Some(ErrClosedPipe))))
            && (forall w <- s.writers | s.writers[w].pc.WDone? && s.writers[w].pc.err.Some? ::
                  s.rerr == s.writers[w].pc.err || (s.werr.Some? && s.writers[w].pc.err == Some(ErrClosedPipe)))
  {
    RunKeepsInv(states, acts);
    var s := states[|acts|];
    forall r <- s.readers ensures ReadErr(s.readers[r], s.done, s.rerr, s.werr) {}
    forall w <- s.writers ensures WriteErr(s.writers[w].pc, s.done, s.rerr, s.werr) {}
  }

  // ---------------------------------------------------------------- what the calls of a run settle

  /** What the first CloseWithError of the write end was given; a plain close means EOF. */
  function FirstWriteClose(acts: seq<Action>): Option<Error> {
    if acts == [] then None
    else
      match acts[0]
      case StoreWriteErr(Some(e)) => Some(e)
      case StoreWriteErr(None) => Some(EOF)
      case _ => FirstWriteClose(acts[1..])
  }

  /** The same for the read end; a plain close means ErrClosedPipe. */
  function FirstReadClose(acts: seq<Action>): Option<Error> {
    if acts == [] then None
    else
      match acts[0]
      case StoreReadErr(Some(e)) => Some(e)
      case StoreReadErr(None) => Some(ErrClosedPipe)
      case _ => FirstReadClose(acts[1..])
  }

  lemma {:induction false} FirstCloseAppend(acts: seq<Action>, a: Action)
    ensures FirstWriteClose(acts + [a]) == if FirstWriteClose(acts).Some? then FirstWriteClose(acts) else FirstWriteClose([a])
    ensures FirstReadClose(acts + [a]) == if FirstReadClose(acts).Some? then FirstReadClose(acts) else FirstReadClose([a])
  {
    if acts == [] {
      assert acts + [a] == [a];
    } else {
      assert (acts + [a])[0] == acts[0] && (acts + [a])[1..] == acts[1..] + [a];
      FirstCloseAppend(acts[1..], a);
    }
  }

  /** The error of each end is that of the first close of it. */
  lemma {:induction false} ErrorsAreFirst(states: seq<State>, acts: seq<Action>)
    requires Run(states, acts)
    ensures states[|acts|].werr == FirstWriteClose(acts) && states[|acts|].rerr == FirstReadClose(acts)
  {
    hide Next, Enabled, FirstWriteClose, FirstReadClose;
    if acts == [] {
      NoClose();
    } else {
      var n := |acts| - 1;
      ErrorsAreFirst(states[..n + 1], acts[..n]);
      FirstCloseAppend(acts[..n], acts[n]);
      assert acts == acts[..n] + [acts[n]];
      CloseStores(states[n], acts[n]);
    }
  }

  lemma NoClose()
    ensures FirstWriteClose([]) == None && FirstReadClose([]) == None
  {
  }

  lemma CloseStores(s: State, a: Action)
    requires Enabled(s, a)
    ensures Next(s, a).werr == if s.werr.Some? then s.werr else FirstWriteClose([a])
    ensures Next(s, a).rerr == if s.rerr.Some? then s.rerr else FirstReadClose([a])
  {
    assert [a][1..] == [];
  }

  /** After a plain close of the write end, and none of the read end, a read fails with EOF. */
  lemma PlainCloseIsEOF(states: seq<State>, acts: seq<Action>, r: int)
    requires Run(states, acts) && FirstWriteClose(acts) == Some(EOF) && forall a <- acts :: !a.StoreReadErr?
    requires r in states[|acts|].readers && states[|acts|].readers[r].RDone? && states[|acts|].readers[r].err.Some?
    ensures states[|acts|].readers[r] == RDone([], Some(EOF))
  {
    ErrorsAreFirst(states, acts);
    NoReadClose(acts);
    WhyCallsFail(states, acts);
    hide Run;
  }

  lemma {:induction false} NoReadClose(acts: seq<Action>)
    requires forall a <- acts :: !a.StoreReadErr?
    ensures FirstReadClose(acts) == None
  {
    if acts != [] {
      assert acts[0] in acts && forall a <- acts[1..] :: a in acts;
      NoReadClose(acts[1..]);
    }
  }

  lemma {:induction false} NoWriteClose(acts: seq<Action>)
    requires forall a <- acts :: !a.StoreWriteErr?
    ensures FirstWriteClose(acts) == None
  {
    if acts != [] {
      assert acts[0] in acts && forall a <- acts[1..] :: a in acts;
      NoWriteClose(acts[1..]);
    }
  }

  /** After a plain close of the read end, and none of the write end, a write fails with ErrClosedPipe. */
  lemma PlainCloseOfReader(states: seq<State>, acts: seq<Action>, w: int)
    requires Run(states, acts) && FirstReadClose(acts) == Some(ErrClosedPipe) && forall a <- acts :: !a.StoreWriteErr?
    requires w in states[|acts|].writers && states[|acts|].writers[w].pc.WDone? && states[|acts|].writers[w].pc.err.Some?
    ensures states[|acts|].writers[w].pc.err == Some(ErrClosedPipe)
  {
    ErrorsAreFirst(states, acts);
    NoWriteClose(acts);
    WhyCallsFail(states, acts);
    hide Run;
  }

  // ---------------------------------------------------------------- calls on a closed pipe

  /** A read that began, or begins, after the pipe was closed. */
  predicate ReadsClosed(s: State, r: int) {
    && s.done
    && (r in s.readers ==>
      s.readers[r].RStart? || s.readers[r].RLoad? || s.readers[r].RLoad2? || (s.readers[r].RDone? && s.readers[r].err.Some?))
  }

  /** It finds its own end closed, too. */
  predicate ReadsOwnClosed(s: State, r: int) {
    && s.rerr.Some?
    && (r in s.readers ==> match s.readers[r]
      case RLoad2(e) => e.Some?
      case RDone(_, e) => e == None || e == Some(ErrClosedPipe)
      case _ => true)
  }

  predicate WritesClosed(s: State, w: int) {
    && s.done
    && (w in s.writers ==>
      var pc := s.writers[w].pc; pc.WStart? || pc.WLoad? || pc.WLoad2? || (pc.WDone? && pc.err.Some?))
  }

  predicate WritesOwnClosed(s: State, w: int) {
    && s.werr.Some?
    && (w in s.writers ==> match s.writers[w].pc
      case WLoad2(_, _, e) => e.Some?
      case WDone(_, e) => e == None || e == Some(ErrClosedPipe)
      case _ => true)
  }

  lemma ClosedStays(s: State, a: Action, r: int, w: int)
    requires Enabled(s, a)
    ensures ReadsClosed(s, r) ==> ReadsClosed(Next(s, a), r)
    ensures ReadsOwnClosed(s, r) ==> ReadsOwnClosed(Next(s, a), r)
    ensures WritesClosed(s, w) ==> WritesClosed(Next(s, a), w)
    ensures WritesOwnClosed(s, w) ==> WritesOwnClosed(Next(s, a), w)
  {
    hide *;
    if ReadsClosed(s, r) { ReadsStayClosed(s, a, r); }
    if ReadsOwnClosed(s, r) { ReadsStayOwnClosed(s, a, r); }
    if WritesClosed(s, w) { WritesStayClosed(s, a, w); }
    if WritesOwnClosed(s, w) { WritesStayOwnClosed(s, a, w); }
  }

  lemma ReadsStayClosed(s: State, a: Action, r: int)
    requires Enabled(s, a) && ReadsClosed(s, r)
    ensures ReadsClosed(Next(s, a), r)
  {
  }

  lemma ReadsStayOwnClosed(s: State, a: Action, r: int)
    requires Enabled(s, a) && ReadsOwnClosed(s, r)
    ensures ReadsOwnClosed(Next(s, a), r)
  {
    hide *;
    if a.ReadLoad? { ReadLoadStaysOwnClosed(s, a, r); } else { ReadOtherStaysOwnClosed(s, a, r); }
  }

  lemma ReadLoadStaysOwnClosed(s: State, a: Action, r: int)
    requires Enabled(s, a) && ReadsOwnClosed(s, r) && a.ReadLoad?
    ensures ReadsOwnClosed(Next(s, a), r)
  {
  }

  lemma ReadOtherStaysOwnClosed(s: State, a: Action, r: int)
    requires Enabled(s, a) && ReadsOwnClosed(s, r) && !a.ReadLoad?
    ensures ReadsOwnClosed(Next(s, a), r)
  {
  }

  lemma WritesStayClosed(s: State, a: Action, w: int)
    requires Enabled(s, a) && WritesClosed(s, w)
    ensures WritesClosed(Next(s, a), w)
  {
  }

  lemma WritesStayOwnClosed(s: State, a: Action, w: int)
    requires Enabled(s, a) && WritesOwnClosed(s, w)
    ensures WritesOwnClosed(Next(s, a), w)
  {
    hide *;
    if a.WriteLoad? { WriteLoadStaysOwnClosed(s, a, w); } else { WriteOtherStaysOwnClosed(s, a, w); }
  }

  lemma WriteLoadStaysOwnClosed(s: State, a: Action, w: int)
    requires Enabled(s, a) && WritesOwnClosed(s, w) && a.WriteLoad?
    ensures WritesOwnClosed(Next(s, a), w)
  {
  }

  lemma WriteOtherStaysOwnClosed(s: State, a: Action, w: int)
    requires Enabled(s, a) && WritesOwnClosed(s, w) && !a.WriteLoad?
    ensures WritesOwnClosed(Next(s, a), w)
  {
  }

  lemma {:induction false} ClosedStaysInRun(states: seq<State>, acts: seq<Action>, k: nat, r: int, w: int)
    requires Run(states, acts) && k <= |acts|
    ensures ReadsClosed(states[k], r) ==> ReadsClosed(states[|acts|], r)
    ensures ReadsOwnClosed(states[k], r) ==> ReadsOwnClosed(states[|acts|], r)
    ensures WritesClosed(states[k], w) ==> WritesClosed(states[|acts|], w)
    ensures WritesOwnClosed(states[k], w) ==> WritesOwnClosed(states[|acts|], w)
    decreases |acts|
  {
    hide Next, Enabled, ReadsClosed, ReadsOwnClosed, WritesClosed, WritesOwnClosed;
    if k < |acts| {
      var n := |acts| - 1;
      ClosedStaysInRun(states[..n + 1], acts[..n], k, r, w);
      ClosedStays(states[n], acts[n], r, w);
    }
  }

  /** A read that begins when the pipe is closed gets no data but an error: ErrClosedPipe if its own end is closed. */
  lemma ReadOfClosedPipe(states: seq<State>, acts: seq<Action>, k: nat, r: int)
    requires Run(states, acts) && k <= |acts| && states[k].done && (r !in states[k].readers || states[k].readers[r].RStart?)
    requires r in states[|acts|].readers && states[|acts|].readers[r].RDone?
    ensures var call := states[|acts|].readers[r];
            call.got == [] && call.err.Some? && (states[k].rerr.Some? ==> call.err == Some(ErrClosedPipe))
  {
    ClosedStaysInRun(states, acts, k, r, 0);
    WhyCallsFail(states, acts);
    hide Run;
  }

  /** So does a write. */
  lemma WriteOfClosedPipe(states: seq<State>, acts: seq<Action>, k: nat, w: int)
    requires Run(states, acts) && k <= |acts| && states[k].done && (w !in states[k].writers || states[k].writers[w].pc.WStart?)
    requires w in states[|acts|].writers && states[|acts|].writers[w].pc.WDone?
    ensures var pc := states[|acts|].writers[w].pc;
            pc.err.Some? && (states[k].werr.Some? ==> pc.err == Some(ErrClosedPipe))
  {
    ClosedStaysInRun(states, acts, k, 0, w);
    hide Run;
  }

  // ---------------------------------------------------------------- calls that succeed, and calls that wait

  ghost predicate MetReader(acts: seq<Action>, w: int) {
    exists i :: 0 <= i < |acts| && acts[i].SendSlice? && acts[i].w == w
  }

  predicate PastReader(s: State, w: int) {
    w in s.writers &&
    match s.writers[w].pc
    case WSelect(_, once) => !once
    case WAck(_) => true
    case WDone(_, e) => e == None
    case _ => false
  }

  /** A write succeeds only after it met a reader, also when it has nothing to write. */
  lemma {:induction false} WriteMeetsReader(states: seq<State>, acts: seq<Action>, w: int)
    requires Run(states, acts) && PastReader(states[|acts|], w)
    ensures MetReader(acts, w)
  {
    hide Next, Enabled, PastReader;
    if acts == [] {
      NobodyPast(w);
    } else {
      var n := |acts| - 1;
      MeetsOrMet(states[n], acts[n], w);
      if PastReader(states[n], w) {
        WriteMeetsReader(states[..n + 1], acts[..n], w);
        var i :| 0 <= i < n && acts[..n][i].SendSlice? && acts[..n][i].w == w;
        assert acts[i].SendSlice? && acts[i].w == w;
      }
    }
  }

  lemma NobodyPast(w: int)
    ensures !PastReader(Init(), w)
  {
  }

  lemma MeetsOrMet(s: State, a: Action, w: int)
    requires Enabled(s, a) && PastReader(Next(s, a), w)
    ensures PastReader(s, w) || (a.SendSlice? && a.w == w)
  {
  }

  /** A read takes as much of the slice as fits: all that is left of it, or all there is room for. */
  lemma SliceFillsReader(s: State, w: int, r: int)
    requires Enabled(s, SendSlice(w, r))
    ensures var t := Next(s, SendSlice(w, r)); var n, b := s.writers[w].pc.n, s.writers[w].b;
            t.readers[r].RHold? && var data := t.readers[r].data;
            && data == b[n..n + |data|] && |data| <= s.readers[r].cap
            && (|data| == s.readers[r].cap || n + |data| == |b|)
  {
  }

  predicate OfReader(a: Action, r: int) {
    (a.ReadBegin? || a.ReadSeesDone? || a.ReadLoad? || a.SendSlice? || a.SendCount?) && a.r == r
  }

  predicate OfWriter(a: Action, w: int) {
    (a.WriteBegin? || a.WriteLock? || a.SendSlice? || a.SendCount? || a.WriteSeesDone? || a.WriteReturn? || a.WriteLoad?) && a.w == w
  }

  /** How far a read has come. */
  function ReadStage(p: Reader): nat {
    match p
    case RStart(_) => 0
    case RSelect(_) => 1
    case RHold(_) => 2
    case RLoad => 3
    case RLoad2(_) => 4
    case RDone(_, _) => 5
  }

  /** Every step of a read brings it closer to its end; every step of a write moves it, and so does the reader's part
      in it. Closing the pipe closes it, and calls begin with what they were given. */
  lemma StepsMove(s: State, a: Action)
    requires Enabled(s, a)
    ensures var t := Next(s, a);
            && (forall r :: OfReader(a, r) ==> r in s.readers && r in t.readers && ReadStage(t.readers[r]) > ReadStage(s.readers[r]))
            && (forall w :: OfWriter(a, w) ==>
                  w in s.writers && w in t.writers && t.writers[w].b == s.writers[w].b && t.writers[w].pc != s.writers[w].pc)
            && (a.CloseDone? ==> t.done)
            && (a.NewReader? ==> a.r in t.readers && t.readers[a.r] == RStart(a.cap))
            && (a.NewWriter? ==> a.w in t.writers && t.writers[a.w] == Writer(a.b, WStart))
  {
  }

  /** A read that has not ended can go on, unless the pipe is open and no write is ready to hand over its slice. */
  lemma ReadGoesOn(states: seq<State>, acts: seq<Action>, r: int)
    requires Run(states, acts) && r in states[|acts|].readers && !states[|acts|].readers[r].RDone?
    ensures var s := states[|acts|];
            (exists a :: OfReader(a, r) && Enabled(s, a))
            <==> !s.readers[r].RSelect? || s.done || exists w <- s.writers :: Looping(s.writers[w])
  {
    RunKeepsInv(states, acts);
    NobodyStranded(states, acts);
    var s := states[|acts|];
    hide Run, LockInv, PairInv, ReadInv, TransferInv, ErrInv;
    match s.readers[r]
    case RStart(_) => assert OfReader(ReadBegin(r), r) && Enabled(s, ReadBegin(r));
    case RHold(_) =>
      var w :| w in s.writers && Enabled(s, SendCount(w, r));
      assert OfReader(SendCount(w, r), r);
    case RLoad => assert OfReader(ReadLoad(r), r) && Enabled(s, ReadLoad(r));
    case RLoad2(_) => assert OfReader(ReadLoad(r), r) && Enabled(s, ReadLoad(r));
    case RSelect(_) =>
      if s.done { assert OfReader(ReadSeesDone(r), r) && Enabled(s, ReadSeesDone(r)); }
      if exists w <- s.writers :: Looping(s.writers[w]) {
        var w :| w in s.writers && Looping(s.writers[w]);
        assert CountOf(s.writers[w]);
        assert OfReader(SendSlice(w, r), r) && Enabled(s, SendSlice(w, r));
      }
  }

  /** What a write that has not ended waits for. */
  ghost predicate WriteMayGoOn(s: State, w: int)
    requires w in s.writers
  {
    if s.writers[w].pc.WLock? then s.wrMu == None
    else !Looping(s.writers[w]) || s.done || exists r <- s.readers :: s.readers[r].RSelect?
  }

  /** A write that has not ended can go on, unless it waits for the lock, or the pipe is open and no read is ready. */
  lemma WriteGoesOn(states: seq<State>, acts: seq<Action>, w: int)
    requires Run(states, acts) && w in states[|acts|].writers && !states[|acts|].writers[w].pc.WDone?
    ensures var s := states[|acts|]; (exists a :: OfWriter(a, w) && Enabled(s, a)) <==> WriteMayGoOn(s, w)
  {
    hide Next, OfWriter, WriteMayGoOn, LockInv, PairInv, ReadInv, TransferInv, ErrInv;
    RunKeepsInv(states, acts);
    NobodyStranded(states, acts);
    var s := states[|acts|];
    assert CountOf(s.writers[w]);
    if WriteMayGoOn(s, w) {
      if Looping(s.writers[w]) { WriteStepIn(s, w); } else { WriteStepOut(s, w); }
    }
    if exists a :: OfWriter(a, w) && Enabled(s, a) {
      var a :| OfWriter(a, w) && Enabled(s, a);
      WriteStepMay(s, w, a);
    }
  }

  lemma WriteStepMay(s: State, w: int, a: Action)
    requires w in s.writers && OfWriter(a, w) && Enabled(s, a)
    ensures WriteMayGoOn(s, w)
  {
  }

  lemma WriteStepIn(s: State, w: int)
    requires w in s.writers && CountOf(s.writers[w]) && Looping(s.writers[w]) && WriteMayGoOn(s, w)
    ensures exists a :: OfWriter(a, w) && Enabled(s, a)
  {
    if s.done {
      assert OfWriter(WriteSeesDone(w), w) && Enabled(s, WriteSeesDone(w));
    } else {
      var r :| r in s.readers && s.readers[r].RSelect?;
      assert OfWriter(SendSlice(w, r), w) && Enabled(s, SendSlice(w, r));
    }
  }

  lemma WriteStepOut(s: State, w: int)
    requires w in s.writers && !s.writers[w].pc.WDone? && !Looping(s.writers[w]) && WriteMayGoOn(s, w)
    requires s.writers[w].pc.WAck? ==> exists r <- s.readers :: Enabled(s, SendCount(w, r))
    ensures exists a :: OfWriter(a, w) && Enabled(s, a)
  {
    match s.writers[w].pc
    case WStart => assert OfWriter(WriteBegin(w), w) && Enabled(s, WriteBegin(w));
    case WLock => assert OfWriter(WriteLock(w), w) && Enabled(s, WriteLock(w));
    case WAck(_) =>
      var r :| r in s.readers && Enabled(s, SendCount(w, r));
      assert OfWriter(SendCount(w, r), w);
    case WLoad(_, _) => assert OfWriter(WriteLoad(w), w) && Enabled(s, WriteLoad(w));
    case WLoad2(_, _, _) => assert OfWriter(WriteLoad(w), w) && Enabled(s, WriteLoad(w));
    case WSelect(_, _) => assert OfWriter(WriteReturn(w), w) && Enabled(s, WriteReturn(w));
  }

  // ---------------------------------------------------------------- every step keeps it

  /** Steps of a write that move only that write, and leave the queue for wrMu alone. */
  predicate LoneWriteStep(a: Action) {
    a.NewWriter? || a.WriteBegin? || a.WriteSeesDone?
  }

  /** Steps that touch no write. */
  predicate NoWriteStep(a: Action) {
    a.NewReader? || a.ReadBegin? || a.ReadSeesDone? || a.ReadLoad? || a.StoreReadErr? || a.StoreWriteErr? || a.CloseDone?
  }

  lemma LockStep(s: State, a: Action)
    requires LockInv(s) && Enabled(s, a)
    ensures LockInv(Next(s, a))
  {
    hide LockInv, Next, Enabled;
    if NoWriteStep(a) {
      LockStepNone(s, a);
    } else if LoneWriteStep(a) {
      LockStepLone(s, a);
    } else if a.WriteLock? {
      LockStepEnter(s, a);
    } else if a.WriteLoad? {
      LockStepLoad(s, a);
    } else {
      LockStepHolder(s, a);
    }
  }

  lemma LockStepNone(s: State, a: Action)
    requires LockInv(s) && Enabled(s, a) && NoWriteStep(a)
    ensures LockInv(Next(s, a))
  {
  }

  lemma LockStepLone(s: State, a: Action)
    requires LockInv(s) && Enabled(s, a) && LoneWriteStep(a)
    ensures LockInv(Next(s, a))
  {
  }

  lemma LockStepHolder(s: State, a: Action)
    requires LockInv(s) && Enabled(s, a) && (a.SendSlice? || a.SendCount? || a.WriteReturn?)
    ensures LockInv(Next(s, a))
  {
  }

  lemma LockStepEnter(s: State, a: Action)
    requires LockInv(s) && Enabled(s, a) && a.WriteLock?
    ensures LockInv(Next(s, a))
  {
  }

  lemma LockStepLoad(s: State, a: Action)
    requires LockInv(s) && Enabled(s, a) && a.WriteLoad?
    ensures LockInv(Next(s, a))
  {
    if s.writers[a.w].pc.locked { LockStepUnlock(s, a); }
  }

  lemma LockStepUnlock(s: State, a: Action)
    requires LockInv(s) && Enabled(s, a) && a.WriteLoad? && s.writers[a.w].pc.locked
    ensures LockInv(Next(s, a))
  {
  }

  lemma ErrStep(s: State, a: Action)
    requires ErrInv(s) && Enabled(s, a)
    ensures ErrInv(Next(s, a))
  {
    hide ErrInv, Next, Enabled;
    if NoWriteStep(a) {
      ErrStepRead(s, a);
    } else {
      if a.WriteLoad? { ErrStepLoad(s, a); } else { ErrStepWrite(s, a); }
    }
  }

  lemma ErrStepLoad(s: State, a: Action)
    requires ErrInv(s) && Enabled(s, a) && a.WriteLoad?
    ensures ErrInv(Next(s, a))
  {
  }

  lemma ErrStepRead(s: State, a: Action)
    requires ErrInv(s) && Enabled(s, a) && NoWriteStep(a)
    ensures ErrInv(Next(s, a))
  {
  }

  lemma ErrStepWrite(s: State, a: Action)
    requires ErrInv(s) && Enabled(s, a) && !NoWriteStep(a) && !a.WriteLoad?
    ensures ErrInv(Next(s, a))
  {
  }

  lemma CountStep(s: State, a: Action)
    requires LockInv(s) && CountInv(s) && PairInv(s) && Enabled(s, a)
    ensures CountInv(Next(s, a))
  {
    hide LockInv, CountInv, PairInv, Next, Enabled;
    if NoWriteStep(a) {
      CountStepNoWrite(s, a);
    } else if a.SendSlice? {
      CountStepSend(s, a);
    } else if a.SendCount? {
      CountStepAck(s, a);
    } else if a.WriteLoad? {
      CountStepLoad(s, a);
    } else if a.WriteLock? || a.NewWriter? || a.WriteBegin? {
      CountStepEnter(s, a);
    } else {
      CountStepLeave(s, a);
    }
  }

  lemma CountStepNoWrite(s: State, a: Action)
    requires CountInv(s) && Enabled(s, a) && NoWriteStep(a)
    ensures CountInv(Next(s, a))
  {
  }

  lemma CountStepSend(s: State, a: Action)
    requires LockInv(s) && CountInv(s) && PairInv(s) && Enabled(s, a) && a.SendSlice?
    ensures CountInv(Next(s, a))
  {
    hide LockInv, PairInv, Next, Enabled, Matched;
    SenderHolds(s, a.w, a.r);
    SliceGoes(s, a.w, a.r);
    assert PartOf(s.writers[a.w], s.parts[|s.parts| - 1]);
  }

  /** Who sends holds the lock, and so is the last in the order. */
  lemma SenderHolds(s: State, w: int, r: int)
    requires LockInv(s) && Enabled(s, SendSlice(w, r))
    ensures w in s.writers && s.writers[w].pc.WSelect? && s.order != [] && s.order[|s.order| - 1] == w
    ensures forall i :: 0 <= i < |s.order| - 1 ==> s.order[i] != w
  {
    assert Holds(s.writers[w].pc);
  }

  lemma SliceGoes(s: State, w: int, r: int)
    requires Enabled(s, SendSlice(w, r)) && s.parts != []
    ensures var t := Next(s, SendSlice(w, r)); var n, b, k := s.writers[w].pc.n, s.writers[w].b, |s.parts| - 1;
            && t.writers == s.writers[w := s.writers[w].(pc := WAck(n))] && t.order == s.order
            && |t.parts| == |s.parts| && (forall i :: 0 <= i < k ==> t.parts[i] == s.parts[i])
            && n <= |b| && s.parts[k] <= t.parts[k] <= s.parts[k] + |b| - n
  {
  }

  lemma CountStepAck(s: State, a: Action)
    requires LockInv(s) && CountInv(s) && PairInv(s) && Enabled(s, a) && a.SendCount?
    ensures CountInv(Next(s, a))
  {
  }

  lemma CountStepEnter(s: State, a: Action)
    requires LockInv(s) && CountInv(s) && Enabled(s, a) && (a.WriteLock? || a.NewWriter? || a.WriteBegin?)
    ensures CountInv(Next(s, a))
  {
  }

  lemma CountStepLeave(s: State, a: Action)
    requires LockInv(s) && CountInv(s) && Enabled(s, a) && (a.WriteSeesDone? || a.WriteReturn?)
    ensures CountInv(Next(s, a))
  {
  }

  lemma CountStepLoad(s: State, a: Action)
    requires CountInv(s) && Enabled(s, a) && a.WriteLoad?
    ensures CountInv(Next(s, a))
  {
  }

  lemma ReadStep(s: State, a: Action)
    requires ReadInv(s) && PairInv(s) && Enabled(s, a)
    ensures ReadInv(Next(s, a))
  {
    hide ReadInv, PairInv, Next, Enabled;
    if a.SendSlice? {
      ReadStepSend(s, a);
    } else if a.SendCount? || a.ReadLoad? {
      ReadStepDone(s, a);
    } else {
      ReadStepOther(s, a);
    }
  }

  lemma ReadStepSend(s: State, a: Action)
    requires ReadInv(s) && PairInv(s) && Enabled(s, a) && a.SendSlice?
    ensures ReadInv(Next(s, a))
  {
  }

  lemma ReadStepDone(s: State, a: Action)
    requires ReadInv(s) && Enabled(s, a) && (a.SendCount? || a.ReadLoad?)
    ensures ReadInv(Next(s, a))
  {
  }

  lemma ReadStepOther(s: State, a: Action)
    requires ReadInv(s) && Enabled(s, a) && !a.SendSlice? && !a.SendCount? && !a.ReadLoad?
    ensures ReadInv(Next(s, a))
  {
  }

  lemma PairStep(s: State, a: Action)
    requires LockInv(s) && CountInv(s) && PairInv(s) && ReadInv(s) && Enabled(s, a)
    ensures PairInv(Next(s, a))
  {
    if a.SendSlice? || a.SendCount? {
      PairStepSend(s, a);
    } else if NoWriteStep(a) {
      PairStepRead(s, a);
    } else {
      PairStepWrite(s, a);
    }
  }

  lemma PairStepSend(s: State, a: Action)
    requires LockInv(s) && CountInv(s) && PairInv(s) && ReadInv(s) && Enabled(s, a) && (a.SendSlice? || a.SendCount?)
    ensures PairInv(Next(s, a))
  {
    hide LockInv, CountInv, PairInv, ReadInv, Next, Enabled;
    if a.SendSlice? { PairStepSlice(s, a); } else { PairStepCount(s, a); }
  }

  lemma PairStepSlice(s: State, a: Action)
    requires LockInv(s) && CountInv(s) && PairInv(s) && ReadInv(s) && Enabled(s, a) && a.SendSlice?
    ensures PairInv(Next(s, a))
  {
  }

  lemma PairStepCount(s: State, a: Action)
    requires LockInv(s) && PairInv(s) && ReadInv(s) && Enabled(s, a) && a.SendCount?
    ensures PairInv(Next(s, a))
  {
  }

  lemma PairStepRead(s: State, a: Action)
    requires PairInv(s) && ReadInv(s) && Enabled(s, a) && NoWriteStep(a)
    ensures PairInv(Next(s, a))
  {
  }

  lemma PairStepWrite(s: State, a: Action)
    requires LockInv(s) && PairInv(s) && Enabled(s, a) && !a.SendSlice? && !a.SendCount? && !NoWriteStep(a)
    ensures PairInv(Next(s, a))
  {
    hide LockInv, PairInv, Next, Enabled;
    if LoneWriteStep(a) {
      PairStepLone(s, a);
    } else {
      PairStepHolder(s, a);
    }
  }

  lemma PairStepLone(s: State, a: Action)
    requires LockInv(s) && PairInv(s) && Enabled(s, a) && LoneWriteStep(a)
    ensures PairInv(Next(s, a))
  {
  }

  lemma PairStepHolder(s: State, a: Action)
    requires LockInv(s) && PairInv(s) && Enabled(s, a) && (a.WriteLock? || a.WriteReturn? || a.WriteLoad?)
    ensures PairInv(Next(s, a))
  {
  }

  // ---------------------------------------------------------------- what was transferred, step by step

  lemma SameGot(s: State, a: Action, i: nat)
    requires ReadInv(s) && Enabled(s, a) && i < |s.takers|
    requires a.SendSlice? ==> s.takers[i] != a.r
    ensures Got(Next(s, a), s.takers[i]) == Got(s, s.takers[i])
  {
  }

  /** A write keeps its slice, and the history only grows. */
  lemma SlicesStay(s: State, a: Action, w: int)
    requires Enabled(s, a) && w in s.writers
    ensures w in Next(s, a).writers && Next(s, a).writers[w].b == s.writers[w].b
  {
  }

  lemma HistoryStays(s: State, a: Action, i: nat)
    requires |s.parts| == |s.order| && Enabled(s, a) && i < |s.order| && (a.SendSlice? ==> i < |s.order| - 1)
    ensures var t := Next(s, a); i < |t.order| == |t.parts| && t.order[i] == s.order[i] && t.parts[i] == s.parts[i]
  {
  }

  lemma SameSent(s: State, a: Action, i: nat)
    requires LockInv(s) && CountInv(s) && Enabled(s, a) && i < |s.order|
    requires a.SendSlice? ==> i < |s.order| - 1
    ensures i < |Next(s, a).order| && i < |Next(s, a).parts| && Sent(Next(s, a), i) == Sent(s, i)
  {
    hide Next, Enabled;
    SlicesStay(s, a, s.order[i]);
    HistoryStays(s, a, i);
  }

  lemma SamePieces(s: State, a: Action)
    requires LockInv(s) && CountInv(s) && ReadInv(s) && Enabled(s, a) && !a.SendSlice?
    ensures var t := Next(s, a);
            |t.order| == |t.parts| && AllGot(t) == AllGot(s)
            && AllSent(t) == AllSent(s) + (if a.WriteLock? then [[]] else [])
  {
    hide ReadInv, LockInv, CountInv, Got, Sent, Next, Enabled;
    var t := Next(s, a);
    SameHistory(s, a);
    forall i: nat | i < |s.takers| ensures Got(t, s.takers[i]) == Got(s, s.takers[i]) { SameGot(s, a, i); }
    forall i: nat | i < |s.order| ensures Sent(t, i) == Sent(s, i) { SameSent(s, a, i); }
    if a.WriteLock? { NothingSent(s, a); }
    assert AllGot(t) == AllGot(s);
  }

  lemma SameHistory(s: State, a: Action)
    requires CountInv(s) && Enabled(s, a) && !a.SendSlice?
    ensures var t := Next(s, a);
            && |s.parts| == |s.order| && t.takers == s.takers
            && t.order == s.order + (if a.WriteLock? then [a.w] else [])
            && t.parts == s.parts + (if a.WriteLock? then [0] else [])
  {
    hide PartOf, CountOf, Looping;
  }

  lemma NothingSent(s: State, a: Action)
    requires CountInv(s) && Enabled(s, a) && a.WriteLock?
    ensures Sent(Next(s, a), |s.order|) == []
  {
    hide PartOf, CountOf;
  }

  /** Every step but SendSlice hands over nothing. */
  lemma TransferStep(s: State, a: Action)
    requires Inv(s) && Enabled(s, a)
    ensures TransferInv(Next(s, a))
  {
    if a.SendSlice? {
      SendSliceTransfers(s, a.w, a.r);
    } else {
      SamePieces(s, a);
      FlattenAppend(AllSent(s), []);
      assert AllSent(s) + [] == AllSent(s);
    }
  }

  /** SendSlice adds the same bytes to what the reader got and to what was sent from the writer. */
  lemma SendSliceAdds(s: State, w: int, r: int) returns (data: seq<byte>)
    requires LockInv(s) && CountInv(s) && ReadInv(s) && Enabled(s, SendSlice(w, r))
    ensures var t, k := Next(s, SendSlice(w, r)), |s.order| - 1;
            |t.order| == |t.parts| == |s.order| == |s.parts| > 0 && r !in s.takers
            && t.takers == s.takers + [r] && Got(t, r) == data && Sent(t, k) == Sent(s, k) + data
  {
    hide LockInv, CountInv, ReadInv, Next, Enabled;
    LastHolds(s, w, r);
    data := SendSliceNext(s, w, r);
    NotTaken(s, w, r);
    var k, b := |s.order| - 1, s.writers[w].b;
    assert b[..s.parts[k] + |data|] == b[..s.parts[k]] + data;
  }

  /** The writer in its loop is the last one that took the lock. */
  lemma LastHolds(s: State, w: int, r: int)
    requires LockInv(s) && CountInv(s) && Enabled(s, SendSlice(w, r))
    ensures var k := |s.order| - 1;
            && |s.order| == |s.parts| > 0 && s.order[k] == w && w in s.writers && s.writers[w].pc.WSelect?
            && s.parts[k] == s.writers[w].pc.n <= |s.writers[w].b|
  {
    assert Holds(s.writers[w].pc);
    assert PartOf(s.writers[s.order[|s.order| - 1]], s.parts[|s.order| - 1]);
  }

  lemma SendSliceNext(s: State, w: int, r: int) returns (data: seq<byte>)
    requires Enabled(s, SendSlice(w, r)) && |s.order| == |s.parts| > 0
    ensures var t, k, b, n := Next(s, SendSlice(w, r)), |s.order| - 1, s.writers[w].b, s.writers[w].pc.n;
            && t.order == s.order && t.parts == s.parts[k := s.parts[k] + |data|] && t.takers == s.takers + [r]
            && w in t.writers && t.writers[w].b == b && n + |data| <= |b| && data == b[n..n + |data|] && Got(t, r) == data
  {
    data := Next(s, SendSlice(w, r)).readers[r].data;
  }

  lemma NotTaken(s: State, w: int, r: int)
    requires ReadInv(s) && Enabled(s, SendSlice(w, r))
    ensures r !in s.takers
  {
  }

  lemma SendSlicePieces(s: State, w: int, r: int) returns (data: seq<byte>)
    requires Inv(s) && Enabled(s, SendSlice(w, r))
    ensures var t, k := Next(s, SendSlice(w, r)), |s.order| - 1;
            |t.order| == |t.parts| == |s.order| > 0
            && AllGot(t) == AllGot(s) + [data]
            && AllSent(t) == AllSent(s)[..k] + [AllSent(s)[k] + data]
  {
    hide ReadInv, PairInv, LockInv, CountInv, ErrInv, TransferInv, Sent, Got, Next, Enabled;
    var a := SendSlice(w, r);
    var t, k := Next(s, a), |s.order| - 1;
    data := SendSliceAdds(s, w, r);
    forall i: nat | i < |s.takers| ensures Got(t, s.takers[i]) == Got(s, s.takers[i]) { SameGot(s, a, i); }
    forall i: nat | i < k ensures Sent(t, i) == Sent(s, i) { SameSent(s, a, i); }
    assert AllGot(t) == AllGot(s) + [data];
  }

  lemma SentLength(s: State)
    requires |s.order| == |s.parts|
    ensures |AllSent(s)| == |s.order|
  {
  }

  lemma SendSliceTransfers(s: State, w: int, r: int)
    requires Inv(s) && Enabled(s, SendSlice(w, r))
    ensures TransferInv(Next(s, SendSlice(w, r)))
  {
    hide ReadInv, PairInv, LockInv, CountInv, ErrInv, AllSent, AllGot, Next, Enabled;
    var data := SendSlicePieces(s, w, r);
    var k := |s.order| - 1;
    SentLength(s);
    var before, last := AllSent(s)[..k], AllSent(s)[k];
    assert AllSent(s) == before + [last];
    FlattenAppend(AllGot(s), data);
    FlattenAppend(before, last + data);
    FlattenAppend(before, last);
  }

  lemma InvStep(s: State, a: Action)
    requires Inv(s) && Enabled(s, a)
    ensures Inv(Next(s, a))
  {
    LockStep(s, a);
    CountStep(s, a);
    PairStep(s, a);
    ReadStep(s, a);
    TransferStep(s, a);
    ErrStep(s, a);
  }
}
