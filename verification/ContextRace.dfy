/** The locks of package context (go/src/context/context.go): creations and cancellations of any number of
    goroutines interleave between their lock regions. One step is what a goroutine does between two
    acquisitions of a lock, or one load of a done channel. Contexts are those of ContextTree; a timer that fires is
    one more call of cancel. */
module ContextRace {
  import opened Prelude
  import opened ContextTree

  /** A context whose lock is held by a goroutine inside cancel, with the children it has still to visit. The
      recursion of cancel holds the locks from its target down to where it is. */
  datatype Lock = Lock(owner: int, todo: set<Context>)

  /** What a goroutine is about to do. arm is the cause for the timer that a new context is to get, and stop a child
      whose timer is still to be stopped before the loop goes on. */
  datatype Thread =
    | Joining(c: Context, arm: Option<Option<Error>>)      // found the parent's done channel open
    | TakingOver(c: Context, arm: Option<Option<Error>>)   // found it closed
    | Arming(target: Context, cause: Option<Error>)        // sets the timer of a context that was made
    | Working(target: Context, at: Context, err: Error, why: Error, stop: Option<Context>) // in the loop of cancel for at
    | Removing(target: Context)                            // about to call removeChild
    | Detaching(target: Context)                           // in removeChild, about to lock the parent
    | Stopping(target: Context)                            // about to stop the target's timer

  datatype State = State(
    view: View,
    locks: map<Context, Lock>,
    threads: map<int, Thread>,
    // history: calls that found their target live, those of them whose loop has ended, calls that found it canceled
    won: seq<Event>,
    finished: seq<Event>,
    lost: seq<Event>)

  datatype Action =
    | AskDone(c: Context)
    | Begin(t: int, c: Context, arm: Option<Option<Error>>)
    | Join(t: int)
    | TakeOver(t: int)
    | Call(t: int, c: Context, err: Error, why: Error)
    | Visit(t: int, d: Context)
    | Leave(t: int)
    | Look(t: int)
    | Detach(t: int)
    | Arm(t: int)
    | StopChild(t: int)
    | Stop(t: int)

  predicate Starting(th: Thread) {
    th.Joining? || th.TakingOver?
  }

  /** Done needs the lock only to make the channel. */
  predicate CanLoad(s: State, c: Context) {
    c in s.view && (s.view[c].done != NoChan || c !in s.locks)
  }

  predicate SameCell(c: Context, d: Context) {
    Cancelable(c) && Cancelable(d) && c.cell == d.cell
  }

  ghost predicate Enabled(s: State, a: Action) {
    match a
    case AskDone(c) => CanLoad(s, c)
    case Begin(t, c, arm) =>
      && t !in s.threads && Cancelable(c) && (c.CancelCtx? ==> arm == None) && c !in s.view && (forall d <- s.view :: !SameCell(c, d))
      && (forall u <- s.threads :: Starting(s.threads[u]) ==> !SameCell(c, s.threads[u].c))
      && (Up(c).Some? ==> CanLoad(s, Up(c).value))
    case Join(t) => t in s.threads && s.threads[t].Joining? && ParentFree(s, s.threads[t].c)
    case TakeOver(t) => t in s.threads && s.threads[t].TakingOver? && ParentFree(s, s.threads[t].c)
    case Call(t, c, err, why) => t !in s.threads && c in s.view && c !in s.locks
    case Visit(t, d) =>
      && t in s.threads && s.threads[t].Working? && s.threads[t].stop == None && d in s.view && d !in s.locks
      && s.threads[t].at in s.locks && d in s.locks[s.threads[t].at].todo
    case Leave(t) =>
      && t in s.threads && s.threads[t].Working? && s.threads[t].stop == None && s.threads[t].at in s.view
      && s.threads[t].at in s.locks && s.locks[s.threads[t].at].todo == {}
    case Look(t) =>
      && t in s.threads && s.threads[t].Removing? && Cancelable(s.threads[t].target)
      && (Up(s.threads[t].target).Some? ==> CanLoad(s, Up(s.threads[t].target).value))
    case Detach(t) => t in s.threads && s.threads[t].Detaching? && ParentFree(s, s.threads[t].target)
    case Arm(t) => t in s.threads && s.threads[t].Arming? && s.threads[t].target in s.view && s.threads[t].target !in s.locks
    case StopChild(t) =>
      && t in s.threads && s.threads[t].Working? && s.threads[t].stop.Some?
      && s.threads[t].stop.value in s.view && s.threads[t].stop.value !in s.locks
    case Stop(t) => t in s.threads && s.threads[t].Stopping? && s.threads[t].target in s.view && s.threads[t].target !in s.locks
  }

  predicate ParentFree(s: State, c: Context) {
    Cancelable(c) && Up(c).Some? && Up(c).value in s.view && Up(c).value !in s.locks
  }

  /** err, cause and done as cancel sets them; the children stay until its loop has ended. */
  function Mark(x: CtxState, err: Error, why: Error): CtxState {
    x.(err := Some(err), cause := Some(why), done := CloseChan(x.done))
  }

  function End(s: State, t: int): State {
    s.(threads := s.threads - {t})
  }

  /** After the context is registered: its timer is set, if it is to have one. */
  function Made(s: State, t: int, c: Context, arm: Option<Option<Error>>): State {
    if arm.Some? then s.(threads := s.threads[t := Arming(c, arm.value)]) else End(s, t)
  }

  /** After removeChild: a timer context stops its timer. */
  function Removed(s: State, t: int, c: Context): State {
    if c.TimerCtx? then s.(threads := s.threads[t := Stopping(c)]) else End(s, t)
  }

  function SetTimer(s: State, c: Context, timer: Timer): State
    requires c in s.view
  {
    s.(view := s.view[c := s.view[c].(timer := timer)])
  }

  ghost function Next(s: State, a: Action): State
    requires Enabled(s, a)
  {
    match a
    case AskDone(c) => s.(view := MakeDone(s.view, c))
    case Begin(t, c, arm) =>
      if Up(c) == None then Made(s, t, c, arm).(view := s.view[c := Fresh]) // nothing can cancel the parent
      else
        var v := MakeDone(s.view, Up(c).value);
        s.(view := v,
          threads := s.threads[t := if Closed(v[Up(c).value].done) then TakingOver(c, arm) else Joining(c, arm)])
    case Join(t) => Joined(s, t, s.threads[t].c, s.threads[t].arm)
    case TakeOver(t) => Overtaken(s, t, s.threads[t].c, s.threads[t].arm)
    case Call(t, c, err, why) =>
      if s.view[c].err.Some? then
        // a canceled timer context goes on to removeChild
        s.(lost := s.lost + [Event(c, err, why)], threads := if c.TimerCtx? then s.threads[t := Removing(c)] else s.threads)
      else
        s.(view := s.view[c := Mark(s.view[c], err, why)], locks := s.locks[c := Lock(t, s.view[c].children)],
          threads := s.threads[t := Working(c, c, err, why, None)], won := s.won + [Event(c, err, why)])
    case Visit(t, d) => Visited(s, t, d)
    case Leave(t) => Left(s, t)
    case Look(t) => Looked(s, t, s.threads[t].target)
    case Detach(t) =>
      var p := Up(s.threads[t].target).value;
      Removed(s, t, s.threads[t].target).(view := s.view[p := s.view[p].(children := s.view[p].children - {s.threads[t].target})])
    case Arm(t) =>
      var c := s.threads[t].target;
      End(if s.view[c].err == None then SetTimer(s, c, Armed(s.threads[t].cause)) else s, t)
    case StopChild(t) =>
      SetTimer(s, s.threads[t].stop.value, Unarmed).(threads := s.threads[t := s.threads[t].(stop := None)])
    case Stop(t) => End(SetTimer(s, s.threads[t].target, Unarmed), t)
  }

  /** The lock region of propagateCancel. */
  function Joined(s: State, t: int, c: Context, arm: Option<Option<Error>>): State
    requires ParentFree(s, c)
  {
    var p := Up(c).value;
    if s.view[p].err.Some? then Overtaken(s, t, c, arm)
    else Made(s, t, c, arm).(view := s.view[p := s.view[p].(children := s.view[p].children + {c})][c := Fresh])
  }

  /** The new context, which nothing refers to yet, takes over the parent's error and cause. */
  function Overtaken(s: State, t: int, c: Context, arm: Option<Option<Error>>): State
    requires ParentFree(s, c)
  {
    var x := s.view[Up(c).value];
    if x.err.Some? && x.cause.Some? then
      Made(s, t, c, arm).(view := s.view[c := Canceling(Fresh, x.err.value, x.cause.value)])
    else End(s, t)
  }

  function ToStop(d: Context): Option<Context> {
    if d.TimerCtx? then Some(d) else None
  }

  /** One child in the loop of cancel: it was canceled before, or cancel goes on with its children. */
  ghost function Visited(s: State, t: int, d: Context): State
    requires Enabled(s, Visit(t, d))
  {
    var th := s.threads[t];
    var locks := s.locks[th.at := s.locks[th.at].(todo := s.locks[th.at].todo - {d})];
    if s.view[d].err.Some? then s.(locks := locks, threads := s.threads[t := th.(stop := ToStop(d))])
    else
      s.(view := s.view[d := Mark(s.view[d], th.err, th.why)], locks := locks[d := Lock(t, s.view[d].children)],
        threads := s.threads[t := th.(at := d)])
  }

  /** The loop has ended: c.children = nil, and the lock is released. */
  ghost function Left(s: State, t: int): State
    requires Enabled(s, Leave(t))
  {
    var th := s.threads[t];
    var n := th.at;
    var back := if n == th.target || !Cancelable(n) || Up(n) == None then Removing(th.target)
                else th.(at := Up(n).value, stop := ToStop(n));
    s.(view := s.view[n := s.view[n].(children := {})], locks := s.locks - {n}, threads := s.threads[t := back],
      finished := if n == th.target then s.finished + [Event(n, th.err, th.why)] else s.finished)
  }

  /** removeChild up to the parent's lock. */
  ghost function Looked(s: State, t: int, c: Context): State
    requires Cancelable(c)
  {
    if Up(c) == None then Removed(s, t, c)
    else
      var p := Up(c).value;
      var v := MakeDone(s.view, p);
      if p !in v || v[p].done == ClosedChan then Removed(s, t, c).(view := v)
      else s.(view := v, threads := s.threads[t := Detaching(c)])
  }

  function Init(): State {
    State(map[], map[], map[], [], [], [])
  }

  // ---------------------------------------------------------------- the invariant

  predicate IsKid(n: Context, d: Context) {
    Cancelable(d) && Up(d) == Some(n)
  }

  /** A canceled context that is still in its parent's children is on its way out. */
  predicate Leaving(th: Thread, d: Context) {
    (th.Working? || th.Removing? || th.Detaching?) && th.target == d
  }

  ghost predicate Pending(s: State, d: Context) {
    exists t <- s.threads :: Leaving(s.threads[t], d)
  }

  predicate Canceled(s: State, n: Context) {
    n in s.view && s.view[n].err.Some?
  }

  /** A child of a canceled context waits to be visited, or is canceled, and all below it too unless the same
      goroutine is at work there. */
  predicate KidDone(s: State, n: Context, d: Context) {
    || (n in s.locks && d in s.locks[n].todo)
    || (Canceled(s, d) && (d in s.locks ==> n in s.locks && s.locks[d].owner == s.locks[n].owner))
  }

  ghost predicate LiveNode(s: State, n: Context)
    requires n in s.view
  {
    && s.view[n].cause == None && !Closed(s.view[n].done) && n !in s.locks
    && (forall d <- s.view :: IsKid(n, d) ==> d in s.view[n].children || (Canceled(s, d) && d !in s.locks))
    && (forall d <- s.view[n].children :: d in s.view && IsKid(n, d) && (Canceled(s, d) ==> Pending(s, d)))
  }

  ghost predicate CanceledNode(s: State, n: Context)
    requires n in s.view
  {
    && s.view[n].cause.Some? && Closed(s.view[n].done) && (n !in s.locks ==> s.view[n].children == {})
    && (forall d <- s.view[n].children :: d in s.view && IsKid(n, d))
    && forall d <- s.view :: IsKid(n, d) ==> KidDone(s, n, d)
  }

  ghost predicate NodeOk(s: State, n: Context)
    requires n in s.view
  {
    && Cancelable(n) && (Up(n).Some? ==> Up(n).value in s.view)
    && if s.view[n].err == None then LiveNode(s, n) else CanceledNode(s, n)
  }

  /** A lock is held by a goroutine whose recursion is at or below it. */
  ghost predicate LockOk(s: State, n: Context)
    requires n in s.locks
  {
    var t := s.locks[n].owner;
    && n in s.view && t in s.threads && s.threads[t].Working?
    && Governs(s.threads[t].target, n) && Governs(n, s.threads[t].at)
    && s.view[n].err == Some(s.threads[t].err) && s.view[n].cause == Some(s.threads[t].why)
    && forall d <- s.locks[n].todo :: d in s.view && IsKid(n, d)
  }

  ghost predicate ThreadOk(s: State, t: int)
    requires t in s.threads
  {
    match s.threads[t]
    case Working(target, at, _, _, stop) =>
      && target in s.view && at in s.view && Governs(target, at)
      && (stop.Some? ==> Canceled(s, stop.value) && stop.value !in s.locks)
      && forall m <- s.view :: Governs(target, m) && Governs(m, at) ==> m in s.locks && s.locks[m].owner == t
    case Removing(c) => Canceled(s, c) && c !in s.locks
    case Detaching(c) => Canceled(s, c) && c !in s.locks && Cancelable(c) && Up(c).Some?
    case Stopping(c) => Canceled(s, c) && c !in s.locks
    case Arming(c, _) => c in s.view && c.TimerCtx?
    case Joining(c, arm) => NewBelow(s, c, arm)
    case TakingOver(c, arm) => NewBelow(s, c, arm) && Canceled(s, Up(c).value)
  }

  ghost predicate NodeInv(s: State) {
    forall n {:trigger NodeOk(s, n)} :: n in s.view ==> NodeOk(s, n)
  }

  ghost predicate LockInv(s: State) {
    forall n {:trigger LockOk(s, n)} :: n in s.locks ==> LockOk(s, n)
  }

  ghost predicate ThreadInv(s: State) {
    forall t {:trigger ThreadOk(s, t)} :: t in s.threads ==> ThreadOk(s, t)
  }

  predicate NewBelow(s: State, c: Context, arm: Option<Option<Error>>) {
    Cancelable(c) && (c.CancelCtx? ==> arm == None) && c !in s.view && Up(c).Some? && Up(c).value in s.view
  }

  /** A goroutine that will stop a timer. */
  predicate Stops(th: Thread, n: Context) {
    (th.Working? && th.stop == Some(n)) || ((th.Removing? || th.Detaching? || th.Stopping?) && th.target == n)
  }

  ghost predicate StopPending(s: State, n: Context) {
    exists t <- s.threads :: Stops(s.threads[t], n)
  }

  /** Only timer contexts have timers, and the timer of a canceled one is on its way to be stopped. */
  ghost predicate TimerOk(s: State, n: Context)
    requires n in s.view
  {
    && (n.CancelCtx? ==> s.view[n].timer == Unarmed)
    && (s.view[n].err.Some? && s.view[n].timer.Armed? ==> n in s.locks || StopPending(s, n))
  }

  ghost predicate TimerInv(s: State) {
    forall n {:trigger TimerOk(s, n)} :: n in s.view ==> TimerOk(s, n)
  }

  /** Different contexts have different cells. */
  ghost predicate CellInv(s: State) {
    && (forall c <- s.view, d <- s.view :: SameCell(c, d) ==> c == d)
    && (forall t <- s.threads, d <- s.view :: Starting(s.threads[t]) ==> !SameCell(s.threads[t].c, d))
    && (forall t <- s.threads, u <- s.threads ::
      Starting(s.threads[t]) && Starting(s.threads[u]) && SameCell(s.threads[t].c, s.threads[u].c) ==> t == u)
  }

  /** A canceled context was canceled by a call for itself, or as its parent was. */
  ghost predicate CauseOk(s: State, n: Context)
    requires n in s.view
  {
    s.view[n].err.Some? && s.view[n].cause.Some? ==>
      || Event(n, s.view[n].err.value, s.view[n].cause.value) in s.won
      || (Cancelable(n) && Up(n).Some? && Up(n).value in s.view
          && s.view[Up(n).value].err == s.view[n].err && s.view[Up(n).value].cause == s.view[n].cause)
  }

  ghost predicate CauseInv(s: State) {
    forall n {:trigger CauseOk(s, n)} :: n in s.view ==> CauseOk(s, n)
  }

  /** A call wins at most once for a context, which has its error and cause from then on; the others lose. */
  ghost predicate CallInv(s: State) {
    && (forall e <- s.won ::
      e.target in s.view && s.view[e.target].err == Some(e.err) && s.view[e.target].cause == Some(e.cause))
    && (forall i, j :: 0 <= i < j < |s.won| ==> s.won[i].target != s.won[j].target)
    && (forall e <- s.lost :: Canceled(s, e.target))
  }

  /** A call that won finishes when it releases the lock of its target, and after every call below its target. */
  ghost predicate FinishInv(s: State) {
    && (forall e <- s.finished :: e in s.won && e.target !in s.locks)
    && (forall e <- s.won :: e in s.finished || (e.target in s.locks && OwnTarget(s, e.target)))
    && Upwards(s.finished)
    && (forall t <- s.threads :: s.threads[t].Working? ==>
      Event(s.threads[t].target, s.threads[t].err, s.threads[t].why) in s.won)
  }

  predicate OwnTarget(s: State, n: Context)
    requires n in s.locks
  {
    var t := s.locks[n].owner;
    t in s.threads && s.threads[t].Working? && s.threads[t].target == n
  }

  /** No target lies below an earlier one. */
  predicate Upwards(log: seq<Event>) {
    forall i, j :: 0 <= i < j < |log| ==> !Governs(log[i].target, log[j].target)
  }

  ghost predicate Inv(s: State) {
    NodeInv(s) && LockInv(s) && ThreadInv(s) && CellInv(s) && CauseInv(s) && CallInv(s) && FinishInv(s)
    && TimerInv(s)
  }

  // ---------------------------------------------------------------- every run

  ghost predicate Run(states: seq<State>, acts: seq<Action>) {
    && |states| == |acts| + 1 && states[0] == Init()
    && forall i :: 0 <= i < |acts| ==> Enabled(states[i], acts[i]) && states[i + 1] == Next(states[i], acts[i])
  }

  lemma {:induction false} RunKeepsInv(states: seq<State>, acts: seq<Action>)
    requires Run(states, acts)
    ensures Inv(states[|acts|])
  {
    hide Next, Enabled;
    if acts != [] {
      var n := |acts| - 1;
      RunKeepsInv(states[..n + 1], acts[..n]);
      hide Inv;
      InvStep(states[n], acts[n]);
    }
  }

  /** When cancel has returned from its loop, the context and all its descendants that exist by then are canceled. */
  lemma CancelReturns(states: seq<State>, acts: seq<Action>, t: int, d: Context)
    requires Run(states, acts) && t in states[|acts|].threads && d in states[|acts|].view
    requires states[|acts|].threads[t].Removing? || states[|acts|].threads[t].Detaching?
    requires Governs(states[|acts|].threads[t].target, d)
    ensures Canceled(states[|acts|], d)
  {
    RunKeepsInv(states, acts);
    var s := states[|acts|];
    ThreadOf(s, t);
    hide Run, NodeInv, ThreadInv;
    SettledBelow(s, s.threads[t].target, d);
  }

  /** Which goroutine an action belongs to. */
  predicate By(a: Action, t: int) {
    !a.AskDone? && !a.Begin? && !a.Call? && a.t == t
  }

  /** While a goroutine is inside an operation, it or another one can go on: locks are taken downwards only. */
  lemma NobodyBlocks(states: seq<State>, acts: seq<Action>, inside: int)
    requires Run(states, acts) && inside in states[|acts|].threads
    ensures exists t, a :: t in states[|acts|].threads && By(a, t) && Enabled(states[|acts|], a)
  {
    RunKeepsInv(states, acts);
    var s := states[|acts|];
    hide Run, NodeInv, LockInv, ThreadInv, CellInv, CauseInv, CallInv, FinishInv, Enabled;
    if exists u <- s.threads :: s.threads[u].Working? {
      var t := Deepest(s.threads);
      DeepestGoesOn(s, t);
    } else {
      FreeGoesOn(s, inside);
    }
  }

  /** Every interleaving is as good as the same calls one after the other: when no operation is under way,
      ContextTree's invariant holds for the log of the calls that canceled something, each once and in the order in
      which their loops ended, and then the calls that found their target canceled. */
  lemma RunsAreSequential(states: seq<State>, acts: seq<Action>)
    requires Run(states, acts) && states[|acts|].threads == map[]
    ensures var s := states[|acts|];
            && ContextTree.Inv(s.view, s.finished + s.lost)
            && (forall e :: e in s.finished <==> e in s.won)
            && (forall i, j :: 0 <= i < j < |s.finished| ==> s.finished[i].target != s.finished[j].target)
  {
    RunKeepsInv(states, acts);
    hide Run, Inv, ContextTree.Inv;
    QuietIsSequential(states[|acts|]);
  }

  /** No timer of a canceled context outlives the operations that are under way. */
  lemma NoTimerLeft(states: seq<State>, acts: seq<Action>, n: Context)
    requires Run(states, acts) && states[|acts|].threads == map[] && Canceled(states[|acts|], n)
    ensures states[|acts|].view[n].timer == Unarmed
  {
    RunKeepsInv(states, acts);
    hide Run, NodeInv, LockInv, TimerInv;
    NoLocks(states[|acts|]);
    TimerOf(states[|acts|], n);
  }

  /** Once the lock of a canceled context is free, everything below it is canceled, and no goroutine is at work there. */
  lemma {:induction false} SettledBelow(s: State, n: Context, d: Context)
    requires NodeInv(s) && Canceled(s, n) && n !in s.locks && d in s.view && Governs(n, d)
    ensures Canceled(s, d) && d !in s.locks
    decreases Size(d)
  {
    hide NodeInv, Pending, Governs, Up;
    if d != n {
      NodeOf(s, d);
      GovernsUp(n, d);
      SettledBelow(s, n, Up(d).value);
      NodeOf(s, Up(d).value);
      hide Size;
      assert IsKid(Up(d).value, d);
    }
  }

  /** The call that a canceled context has its error and cause from: the winning one with the nearest target. */
  lemma {:induction false} NearestCall(s: State, n: Context) returns (e: Event)
    requires NodeInv(s) && CauseInv(s) && CallInv(s) && Canceled(s, n)
    ensures e in s.won && Governs(e.target, n) && s.view[n].err == Some(e.err) && s.view[n].cause == Some(e.cause)
    ensures forall f <- s.won :: Governs(f.target, n) ==> Size(f.target) <= Size(e.target) && (f.target == e.target ==> f == e)
    decreases Size(n)
  {
    hide NodeInv, CauseInv, Pending, Governs, Size, Up;
    NodeOf(s, n);
    CauseOf(s, n);
    LiveHasNoCause(s, n);
    var here := Event(n, s.view[n].err.value, s.view[n].cause.value);
    if here in s.won {
      e := here;
      GovernsSelf(n);
      forall f | f in s.won && Governs(f.target, n)
        ensures Size(f.target) <= Size(n)
      {
        GovernsSize(f.target, n);
      }
    } else {
      var p := Up(n).value;
      KidGoverned(p, n);
      GovernsUp(n, n);
      e := NearestCall(s, p);
    }
  }

  // ---------------------------------------------------------------- facts about the tree

  lemma GovernsSelf(c: Context)
    requires Cancelable(c)
    ensures Governs(c, c)
  {
  }

  lemma NotBoth(a: Context, b: Context)
    ensures Governs(a, b) && Governs(b, a) ==> a == b
  {
    if Governs(a, b) && Governs(b, a) {
      GovernsSize(a, b);
      GovernsSize(b, a);
    }
  }

  /** What governs a child is the child or governs its parent, and the child does not. */
  lemma KidGoverned(n: Context, d: Context)
    requires IsKid(n, d)
    ensures forall m :: Governs(m, d) <==> m == d || Governs(m, n)
    ensures Governs(d, d) && Governs(n, d) && !Governs(d, n) && n != d
  {
    forall m
      ensures Governs(m, d) <==> m == d || Governs(m, n)
    {
      GovernsUp(m, d);
    }
    NearestGoverns(d.parent);
    GovernsSelf(n);
    NotBoth(n, d);
    GovernsUp(d, d);
    if Governs(d, n) { GovernsSize(d, n); }
  }

  // ---------------------------------------------------------------- every step keeps it

  lemma NodeOf(s: State, n: Context)
    requires NodeInv(s) && n in s.view
    ensures NodeOk(s, n)
  {
  }

  lemma LockOf(s: State, n: Context)
    requires LockInv(s) && n in s.locks
    ensures LockOk(s, n)
  {
  }

  lemma ThreadOf(s: State, t: int)
    requires ThreadInv(s) && t in s.threads
    ensures ThreadOk(s, t)
  {
  }

  /** A step that passes a context and its children by. */
  lemma NodeFrame(s: State, s2: State, n: Context)
    requires n in s.view && NodeOk(s, n) && forall m <- s.view :: m in s2.view
    requires SameButDone(s.view[n], s2.view[n])
    requires n in s.locks <==> n in s2.locks
    requires n in s.locks ==> s2.locks[n] == s.locks[n]
    requires forall d <- s2.view :: IsKid(n, d) ==> d in s.view && s2.view[d].err == s.view[d].err && SameLock(s, s2, d)
    requires forall d <- s.view[n].children :: Pending(s, d) ==> Pending(s2, d)
    ensures NodeOk(s2, n)
  {
    hide Pending, Up;
  }

  /** Only a done channel was made for a live context, or a timer was set or stopped. */
  predicate SameButDone(x: CtxState, y: CtxState) {
    x.err == y.err && x.cause == y.cause && x.children == y.children && (y.done == x.done || (x.err == None && y.done == Own(false)))
  }

  predicate SameLock(s: State, s2: State, d: Context) {
    (d in s.locks <==> d in s2.locks) && (d in s.locks ==> s.locks[d].owner == s2.locks[d].owner)
  }

  /** Timers do not matter to what cancellation relies on. */
  lemma NodeTimer(s: State, a: Action, n: Context)
    requires NodeInv(s) && Enabled(s, a) && (a.Arm? || a.StopChild? || a.Stop?) && n in Next(s, a).view
    ensures NodeOk(Next(s, a), n)
  {
    hide Up, NodeInv, NodeOk, Pending;
    NodeOf(s, n);
    SameTargets(s, Next(s, a));
    NodeFrame(s, Next(s, a), n);
  }

  lemma NodeAskDone(s: State, a: Action, n: Context)
    requires NodeInv(s) && Enabled(s, a) && a.AskDone? && n in Next(s, a).view
    ensures NodeOk(Next(s, a), n)
  {
    hide Up, NodeInv, NodeOk, Pending;
    NodeOf(s, n);
    DoneMade(s, a.c);
    SamePending(s, Next(s, a));
    NodeFrame(s, Next(s, a), n);
  }

  /** Making a done channel touches a live context only. */
  lemma DoneMade(s: State, p: Context)
    requires NodeInv(s)
    ensures var v := MakeDone(s.view, p);
            && v.Keys == s.view.Keys
            && forall n <- s.view :: SameButDone(s.view[n], v[n]) && v[n].timer == s.view[n].timer
  {
    hide Pending, Up;
    if p in s.view { NodeOf(s, p); }
  }

  lemma SamePending(s: State, s2: State)
    ensures s.threads == s2.threads ==> forall d :: Pending(s, d) ==> Pending(s2, d)
  {
  }

  /** Threads that do not leave anything come and go. */
  lemma MorePending(s: State, s2: State)
    requires forall t <- s.threads :: Starting(s.threads[t]) || (t in s2.threads && s2.threads[t] == s.threads[t])
    ensures forall d :: Pending(s, d) ==> Pending(s2, d)
  {
    forall d | Pending(s, d)
      ensures Pending(s2, d)
    {
      var t :| t in s.threads && Leaving(s.threads[t], d);
      assert t in s2.threads && Leaving(s2.threads[t], d);
    }
  }

  lemma LocksKnown(s: State)
    requires LockInv(s)
    ensures forall m <- s.locks :: m in s.view
  {
    forall m | m in s.locks ensures m in s.view { LockOf(s, m); }
  }

  lemma NodeBegin(s: State, a: Action, n: Context)
    requires NodeInv(s) && LockInv(s) && Enabled(s, a) && a.Begin? && n in Next(s, a).view
    ensures NodeOk(Next(s, a), n)
  {
    hide Up, NodeInv, NodeOk, LockInv, Pending;
    var s2 := Next(s, a);
    MorePending(s, s2);
    LocksKnown(s);
    if n in s.view {
      NodeOf(s, n);
      if Up(a.c).Some? { DoneMade(s, Up(a.c).value); }
      NodeFrame(s, s2, n);
    } else {
      NewNode(s, s2, n);
    }
  }

  /** A new context has no children. */
  lemma NewNode(s: State, s2: State, c: Context)
    requires NodeInv(s) && c !in s.view && c !in s2.locks && Cancelable(c) && c in s2.view
    requires forall n <- s2.view :: n == c || n in s.view
    requires Up(c).Some? ==> Up(c).value in s2.view && Up(c).value != c
    requires s2.view[c] == Fresh || exists e, w :: s2.view[c] == Canceling(Fresh, e, w)
    ensures NodeOk(s2, c)
  {
    hide Up, Pending;
    forall d | d in s2.view
      ensures !IsKid(c, d)
    {
      if d != c { NodeOf(s, d); }
    }
  }

  /** Join and TakeOver: c is new below p. */
  lemma NodeStart(s: State, a: Action, n: Context)
    requires NodeInv(s) && LockInv(s) && ThreadInv(s) && Enabled(s, a) && (a.Join? || a.TakeOver?) && n in Next(s, a).view
    ensures NodeOk(Next(s, a), n)
  {
    hide Up, NodeInv, NodeOk, LockInv, ThreadInv, Pending, Governs, Next, Canceling, ThreadOk;
    var s2, c := Next(s, a), s.threads[a.t].c;
    var p := Up(c).value;
    StartPending(s, a);
    LocksKnown(s);
    ThreadOf(s, a.t);
    NodeOf(s, p);
    ParentSettled(s, a);
    if n == c {
      NewNode(s, s2, c);
    } else if n == p {
      ParentOfNew(s, s2, c);
    } else {
      NodeOf(s, n);
      NodeFrame(s, s2, n);
    }
  }

  lemma StartPending(s: State, a: Action)
    requires Enabled(s, a) && (a.Join? || a.TakeOver?)
    ensures forall d :: Pending(s, d) ==> Pending(Next(s, a), d)
  {
    hide Up, Pending;
    MorePending(s, Next(s, a));
  }

  /** What is known of the parent at that point. */
  lemma ParentSettled(s: State, a: Action)
    requires NodeInv(s) && ThreadInv(s) && Enabled(s, a) && (a.Join? || a.TakeOver?)
    ensures var c := s.threads[a.t].c; var p := Up(c).value; var s2, x := Next(s, a), s.view[p];
            && c !in s.view && Cancelable(c) && s2.locks == s.locks
            && (x.err.Some? ==> x.cause.Some? && s2.view == s.view[c := Canceling(Fresh, x.err.value, x.cause.value)])
            && (x.err.None? ==> s2.view == s.view[p := x.(children := x.children + {c})][c := Fresh])
  {
    hide Up, NodeInv, ThreadInv, Pending, Governs;
    ThreadOf(s, a.t);
    NodeOf(s, Up(s.threads[a.t].c).value);
  }

  lemma ParentOfNew(s: State, s2: State, c: Context)
    requires c !in s.view && Cancelable(c) && Up(c).Some? && Up(c).value in s.view && Up(c).value !in s.locks
    requires c !in s.locks && s2.locks == s.locks && NodeOk(s, Up(c).value)
    requires forall d :: Pending(s, d) ==> Pending(s2, d)
    requires var p := Up(c).value; var x := s.view[p];
             s2.view == if x.err.Some? && x.cause.Some? then s.view[c := Canceling(Fresh, x.err.value, x.cause.value)]
                        else s.view[p := x.(children := x.children + {c})][c := Fresh]
    ensures NodeOk(s2, Up(c).value)
  {
    hide Up, Pending;
  }

  lemma NodeCall(s: State, a: Action, n: Context)
    requires NodeInv(s) && Enabled(s, a) && a.Call? && n in Next(s, a).view
    ensures NodeOk(Next(s, a), n)
  {
    hide Up, NodeInv, NodeOk, Pending;
    var s2, c := Next(s, a), a.c;
    MorePending(s, s2);
    NodeOf(s, n);
    NodeOf(s, c);
    if s.view[c].err.Some? || (n != c && !IsKid(n, c)) {
      NodeFrame(s, s2, n);
    } else if n == c {
      Marked(s, s2, c, Lock(a.t, s.view[c].children), a.err, a.why);
    } else {
      assert Leaving(s2.threads[a.t], c);
      assert Pending(s2, c) by { NowPending(s2, a.t, c); }
      KidMarked(s, s2, n, c);
    }
  }

  lemma NowPending(s: State, t: int, c: Context)
    requires t in s.threads && Leaving(s.threads[t], c)
    ensures Pending(s, c)
  {
  }

  /** A live context is canceled, and its children become the work to do. */
  lemma Marked(s: State, s2: State, c: Context, l: Lock, err: Error, why: Error)
    requires c in s.view && NodeOk(s, c) && s.view[c].err == None && s2.view == s.view[c := Mark(s.view[c], err, why)]
    requires l.todo == s.view[c].children && c in s2.locks && s2.locks[c] == l
    requires forall d :: d != c && IsKid(c, d) ==> SameLock(s, s2, d)
    ensures NodeOk(s2, c)
  {
    hide Up, Pending;
    forall d | d in s2.view && IsKid(c, d)
      ensures KidDone(s2, c, d)
    {
      KidGoverned(c, d);
    }
  }

  /** Its live parent has it among its children, a canceled one has it still to visit. */
  lemma KidMarked(s: State, s2: State, n: Context, c: Context)
    requires n in s.view && c in s.view && n != c && IsKid(n, c) && NodeOk(s, n) && s.view[c].err == None
    requires s2.view.Keys == s.view.Keys && s2.view[n] == s.view[n] && Pending(s2, c)
    requires forall d <- s.view :: d != c ==> s2.view[d].err == s.view[d].err
    requires SameLock(s, s2, n) && (n in s.locks ==> s2.locks[n] == s.locks[n])
    requires forall d <- s.view :: d != c ==> SameLock(s, s2, d)
    requires forall d :: Pending(s, d) ==> Pending(s2, d)
    ensures NodeOk(s2, n)
  {
    hide Up, Pending;
  }

  /** Threads may change what they do, not what they are about to remove. */
  lemma SameTargets(s: State, s2: State)
    requires forall t <- s.threads, d: Context :: Leaving(s.threads[t], d) ==> t in s2.threads && Leaving(s2.threads[t], d)
    ensures forall d :: Pending(s, d) ==> Pending(s2, d)
  {
    forall d | Pending(s, d)
      ensures Pending(s2, d)
    {
      var t :| t in s.threads && Leaving(s.threads[t], d);
      assert t in s2.threads && Leaving(s2.threads[t], d);
    }
  }

  /** A goroutine in cancel holds the lock of where it is. */
  lemma AtOwned(s: State, t: int)
    requires NodeInv(s) && ThreadInv(s) && t in s.threads && s.threads[t].Working?
    ensures var at := s.threads[t].at; at in s.view && at in s.locks && s.locks[at].owner == t && Cancelable(at) && Governs(at, at)
  {
    hide Up, NodeInv, ThreadInv, Pending;
    ThreadOf(s, t);
    NodeOf(s, s.threads[t].at);
    GovernsSelf(s.threads[t].at);
  }

  lemma NodeVisit(s: State, a: Action, n: Context)
    requires NodeInv(s) && LockInv(s) && ThreadInv(s) && Enabled(s, a) && a.Visit? && n in Next(s, a).view
    ensures NodeOk(Next(s, a), n)
  {
    hide Up, NodeInv, NodeOk, LockInv, LockOk, ThreadInv, Pending, Governs;
    AtOwned(s, a.t);
    var s2, d := Next(s, a), a.d;
    var at := s.threads[a.t].at;
    SameTargets(s, s2);
    NodeOf(s, n);
    NodeOf(s, d);
    VisitIsKid(s, a);
    if n == at {
      VisitedKid(s, a);
    } else if n == d && s.view[d].err == None {
      Marked(s, s2, d, s2.locks[d], s.threads[a.t].err, s.threads[a.t].why);
    } else {
      OtherParent(at, n, d);
      NodeFrame(s, s2, n);
    }
  }

  lemma OtherParent(at: Context, n: Context, d: Context)
    requires IsKid(at, d) && n != at
    ensures !IsKid(n, d)
  {
  }

  lemma VisitIsKid(s: State, a: Action)
    requires LockInv(s) && Enabled(s, a) && a.Visit?
    ensures var at := s.threads[a.t].at;
            at in s.view && IsKid(at, a.d) && at != a.d && s.view[at].err.Some?
  {
    LockOf(s, s.threads[a.t].at);
    hide Governs, Up;
    KidGoverned(s.threads[a.t].at, a.d);
  }

  /** The visited child is canceled, and its lock, if it is taken, is held by the same goroutine. */
  lemma VisitedKid(s: State, a: Action)
    requires NodeInv(s) && LockInv(s) && Enabled(s, a) && a.Visit?
    requires s.threads[a.t].at in s.view && s.locks[s.threads[a.t].at].owner == a.t
    ensures NodeOk(Next(s, a), s.threads[a.t].at)
  {
    hide Up, NodeInv, LockInv, LockOk, Pending, Governs;
    VisitIsKid(s, a);
    NodeOf(s, s.threads[a.t].at);
  }

  lemma NodeLeave(s: State, a: Action, n: Context)
    requires NodeInv(s) && LockInv(s) && ThreadInv(s) && Enabled(s, a) && a.Leave? && n in Next(s, a).view
    ensures NodeOk(Next(s, a), n)
  {
    hide Up, NodeInv, NodeOk, LockInv, LockOk, ThreadInv, Pending, Governs;
    AtOwned(s, a.t);
    var s2, at := Next(s, a), s.threads[a.t].at;
    SameTargets(s, s2);
    NodeOf(s, n);
    LockOf(s, at);
    if n == at {
      LeftNode(s, a);
    } else if IsKid(n, at) {
      LeftKid(s, a, n);
    } else {
      NodeFrame(s, s2, n);
    }
  }

  lemma LeftNode(s: State, a: Action)
    requires NodeInv(s) && LockInv(s) && Enabled(s, a) && a.Leave? && s.locks[s.threads[a.t].at].owner == a.t
    ensures NodeOk(Next(s, a), s.threads[a.t].at)
  {
    hide Up, NodeInv, LockInv, Pending, Governs;
    var s2, at := Next(s, a), s.threads[a.t].at;
    NodeOf(s, at);
    LockOf(s, at);
    forall d | d in s2.view && IsKid(at, d)
      ensures KidDone(s2, at, d)
    {
      KidGoverned(at, d);
      if d in s.locks { LockOf(s, d); }
    }
  }

  lemma LeftKid(s: State, a: Action, n: Context)
    requires LockInv(s) && Enabled(s, a) && a.Leave? && n in s.view && NodeOk(s, n) && n != s.threads[a.t].at
    requires IsKid(n, s.threads[a.t].at) && forall d :: Pending(s, d) ==> Pending(Next(s, a), d)
    ensures NodeOk(Next(s, a), n)
  {
    hide Up, LockInv, Pending, Governs;
    LockOf(s, s.threads[a.t].at);
  }

  lemma NodeLook(s: State, a: Action, n: Context)
    requires NodeInv(s) && ThreadInv(s) && Enabled(s, a) && a.Look? && n in Next(s, a).view
    ensures NodeOk(Next(s, a), n)
  {
    hide Up, NodeInv, NodeOk, ThreadInv, Pending, Governs;
    var s2, c := Next(s, a), s.threads[a.t].target;
    NodeOf(s, n);
    if Up(c).Some? { DoneMade(s, Up(c).value); }
    forall d | d in s.view[n].children && Pending(s, d)
      ensures Pending(s2, d) || s.view[n].err.Some?
    {
      LookPending(s, a, n, d);
    }
    LookFrame(s, s2, n);
  }

  lemma LookFrame(s: State, s2: State, n: Context)
    requires n in s.view && NodeOk(s, n) && s2.view.Keys == s.view.Keys && s2.locks == s.locks
    requires forall m <- s.view :: SameButDone(s.view[m], s2.view[m])
    requires forall d <- s.view[n].children :: Pending(s, d) ==> Pending(s2, d) || s.view[n].err.Some?
    ensures NodeOk(s2, n)
  {
    hide Up, Pending;
  }

  lemma LookPending(s: State, a: Action, n: Context, d: Context)
    requires NodeInv(s) && Enabled(s, a) && a.Look? && n in s.view && d in s.view[n].children && Pending(s, d)
    ensures Pending(Next(s, a), d) || s.view[n].err.Some?
  {
    hide NodeInv, Up;
    NodeOf(s, n);
    var t :| t in s.threads && Leaving(s.threads[t], d);
    if t != a.t || (t in Next(s, a).threads && Next(s, a).threads[t].Detaching?) {
      assert t in Next(s, a).threads && Leaving(Next(s, a).threads[t], d);
    }
  }

  lemma NodeDetach(s: State, a: Action, n: Context)
    requires NodeInv(s) && ThreadInv(s) && Enabled(s, a) && a.Detach? && n in Next(s, a).view
    ensures NodeOk(Next(s, a), n)
  {
    hide Up, NodeInv, NodeOk, ThreadInv, Pending, Governs;
    var s2, c := Next(s, a), s.threads[a.t].target;
    var p := Up(c).value;
    NodeOf(s, n);
    ThreadOf(s, a.t);
    forall d | d != c && Pending(s, d)
      ensures Pending(s2, d)
    {
      DetachPending(s, a, d);
    }
    if n == p { Detached(s, s2, p, c); } else { DetachElsewhere(s, s2, n, p, c); }
  }

  lemma DetachPending(s: State, a: Action, d: Context)
    requires Enabled(s, a) && a.Detach? && d != s.threads[a.t].target && Pending(s, d)
    ensures Pending(Next(s, a), d)
  {
    hide Up;
    var t :| t in s.threads && Leaving(s.threads[t], d);
    assert t in Next(s, a).threads && Leaving(Next(s, a).threads[t], d);
  }

  /** A canceled context whose lock is free leaves its parent's children. */
  lemma Detached(s: State, s2: State, p: Context, c: Context)
    requires p in s.view && NodeOk(s, p) && Canceled(s, c) && c !in s.locks && s2.locks == s.locks
    requires s2.view == s.view[p := s.view[p].(children := s.view[p].children - {c})]
    requires forall d :: d != c && Pending(s, d) ==> Pending(s2, d)
    ensures NodeOk(s2, p)
  {
    hide Up, Pending;
  }

  lemma DetachElsewhere(s: State, s2: State, n: Context, p: Context, c: Context)
    requires n in s.view && p in s.view && n != p && NodeOk(s, n) && s2.locks == s.locks && IsKid(p, c)
    requires s2.view == s.view[p := s.view[p].(children := s.view[p].children - {c})]
    requires forall d :: d != c && Pending(s, d) ==> Pending(s2, d)
    ensures NodeOk(s2, n)
  {
    hide Up, Pending;
    OtherParent(p, n, c);
  }

  /** Every context is all right after every step. */
  lemma NodeStep(s: State, a: Action)
    requires NodeInv(s) && LockInv(s) && ThreadInv(s) && Enabled(s, a)
    ensures NodeInv(Next(s, a))
  {
    hide NodeOk, LockInv, ThreadInv, Enabled, Next;
    forall n | n in Next(s, a).view
      ensures NodeOk(Next(s, a), n)
    {
      hide NodeInv;
      match a
      case AskDone(_) => NodeAskDone(s, a, n);
      case Begin(_, _, _) => NodeBegin(s, a, n);
      case Join(_) => NodeStart(s, a, n);
      case TakeOver(_) => NodeStart(s, a, n);
      case Call(_, _, _, _) => NodeCall(s, a, n);
      case Visit(_, _) => NodeVisit(s, a, n);
      case Leave(_) => NodeLeave(s, a, n);
      case Look(_) => NodeLook(s, a, n);
      case Detach(_) => NodeDetach(s, a, n);
      case Arm(_) => NodeTimer(s, a, n);
      case StopChild(_) => NodeTimer(s, a, n);
      case Stop(_) => NodeTimer(s, a, n);
    }
  }

  // ---------------------------------------------------------------- locks

  /** A goroutine that stays where it is in the recursion. */
  predicate SameWork(x: Thread, y: Thread) {
    x.Working? && y.Working? && y.target == x.target && y.at == x.at && y.err == x.err && y.why == x.why
  }

  lemma LockFrame(s: State, s2: State, n: Context)
    requires n in s.locks && LockOk(s, n) && n in s2.locks && s2.locks[n].owner == s.locks[n].owner
    requires s2.locks[n].todo <= s.locks[n].todo && forall m <- s.view :: m in s2.view
    requires n in s.view ==> s2.view[n].err == s.view[n].err && s2.view[n].cause == s.view[n].cause
    requires s.locks[n].owner in s.threads ==>
               s.locks[n].owner in s2.threads && SameWork(s.threads[s.locks[n].owner], s2.threads[s.locks[n].owner])
    ensures LockOk(s2, n)
  {
    hide Up, Governs;
  }

  /** Steps that neither take nor release a lock. */
  predicate Lockless(a: Action) {
    !a.Call? && !a.Visit? && !a.Leave?
  }

  lemma LocklessStep(s: State, a: Action)
    requires NodeInv(s) && ThreadInv(s) && Enabled(s, a) && Lockless(a)
    ensures var s2 := Next(s, a);
            && s2.locks == s.locks && (forall m <- s.view :: m in s2.view)
            && (forall m <- s.view :: s2.view[m].err == s.view[m].err && s2.view[m].cause == s.view[m].cause)
            && (forall t <- s.threads :: s.threads[t].Working? ==> t in s2.threads && SameWork(s.threads[t], s2.threads[t]))
            && forall t <- s2.threads :: s2.threads[t].Working? ==> t in s.threads && SameWork(s.threads[t], s2.threads[t])
  {
    hide Up, Governs, NodeInv, ThreadInv, Pending, NodeOk, Next, Enabled;
    LocklessThreads(s, a);
    LocklessView(s, a);
  }

  lemma LocklessThreads(s: State, a: Action)
    requires Enabled(s, a) && Lockless(a)
    ensures var s2 := Next(s, a);
            && s2.locks == s.locks
            && (forall t <- s.threads :: s.threads[t].Working? ==> t in s2.threads && SameWork(s.threads[t], s2.threads[t]))
            && forall t <- s2.threads :: s2.threads[t].Working? ==> t in s.threads && SameWork(s.threads[t], s2.threads[t])
  {
    hide Up, Governs, Next, Enabled;
    OneThread(s, a);
    if !a.AskDone? { LocklessThread(s, a); }
    LocksStay(s, a);
  }

  lemma LocksStay(s: State, a: Action)
    requires Enabled(s, a) && Lockless(a)
    ensures Next(s, a).locks == s.locks
  {
    hide Up, Governs;
  }

  lemma LocklessThread(s: State, a: Action)
    requires Enabled(s, a) && Lockless(a) && !a.AskDone?
    ensures var t, s2 := a.t, Next(s, a);
            && (t in s.threads && s.threads[t].Working? ==> t in s2.threads && SameWork(s.threads[t], s2.threads[t]))
            && (t in s2.threads && s2.threads[t].Working? ==> t in s.threads && SameWork(s.threads[t], s2.threads[t]))
  {
    hide Up, Governs;
  }

  /** Making a context, and ending a cancellation. */
  predicate Making(a: Action) {
    a.AskDone? || a.Begin? || a.Join? || a.TakeOver? || a.Arm?
  }

  predicate Ending(a: Action) {
    a.Look? || a.Detach? || a.StopChild? || a.Stop?
  }

  /** A step is that of one goroutine. */
  lemma OneThread(s: State, a: Action)
    requires Enabled(s, a)
    ensures forall u <- s.threads :: a.AskDone? || a.t != u ==> u in Next(s, a).threads && Next(s, a).threads[u] == s.threads[u]
    ensures forall u <- Next(s, a).threads :: a.AskDone? || a.t != u ==> u in s.threads
  {
    hide Up, Governs, Next, Enabled;
    if Making(a) {
      OneThreadMake(s, a);
    } else if !Lockless(a) {
      OneThreadCancel(s, a);
    } else {
      OneThreadEnd(s, a);
    }
  }

  lemma OneThreadMake(s: State, a: Action)
    requires Enabled(s, a) && Making(a)
    ensures forall u <- s.threads :: a.AskDone? || a.t != u ==> u in Next(s, a).threads && Next(s, a).threads[u] == s.threads[u]
    ensures forall u <- Next(s, a).threads :: a.AskDone? || a.t != u ==> u in s.threads
  {
    hide Up, Governs;
  }

  lemma OneThreadCancel(s: State, a: Action)
    requires Enabled(s, a) && !Lockless(a)
    ensures forall u <- s.threads :: a.AskDone? || a.t != u ==> u in Next(s, a).threads && Next(s, a).threads[u] == s.threads[u]
    ensures forall u <- Next(s, a).threads :: a.AskDone? || a.t != u ==> u in s.threads
  {
    hide Up, Governs;
  }

  lemma OneThreadEnd(s: State, a: Action)
    requires Enabled(s, a) && Ending(a)
    ensures forall u <- s.threads :: a.AskDone? || a.t != u ==> u in Next(s, a).threads && Next(s, a).threads[u] == s.threads[u]
    ensures forall u <- Next(s, a).threads :: a.AskDone? || a.t != u ==> u in s.threads
  {
    hide Up, Governs;
  }

  lemma LocklessView(s: State, a: Action)
    requires NodeInv(s) && ThreadInv(s) && Enabled(s, a) && Lockless(a)
    ensures var s2 := Next(s, a);
            forall m <- s.view :: m in s2.view && s2.view[m].err == s.view[m].err && s2.view[m].cause == s.view[m].cause
  {
    hide Up, Governs, NodeInv, ThreadInv, Pending, NodeOk;
    if a.Join? || a.TakeOver? {
      ParentSettled(s, a);
    } else if a.AskDone? {
      DoneMade(s, a.c);
    } else if a.Begin? && Up(a.c).Some? {
      DoneMade(s, Up(a.c).value);
    } else if a.Look? && Up(s.threads[a.t].target).Some? {
      DoneMade(s, Up(s.threads[a.t].target).value);
    }
  }

  lemma LockCall(s: State, a: Action, n: Context)
    requires NodeInv(s) && LockInv(s) && Enabled(s, a) && a.Call? && n in Next(s, a).locks
    ensures LockOk(Next(s, a), n)
  {
    hide Up, Governs, NodeInv, LockInv, LockOk, Pending, NodeOk;
    if n in s.locks {
      LockOf(s, n);
      LockKnown(s, n);
      LockFrame(s, Next(s, a), n);
    } else {
      NodeOf(s, n);
      LockTaken(s, a);
    }
  }

  lemma LockKnown(s: State, n: Context)
    requires n in s.locks && LockOk(s, n)
    ensures n in s.view && s.locks[n].owner in s.threads && s.threads[s.locks[n].owner].Working?
  {
  }

  lemma LockTaken(s: State, a: Action)
    requires Enabled(s, a) && a.Call? && NodeOk(s, a.c) && s.view[a.c].err == None
    ensures LockOk(Next(s, a), a.c)
  {
    hide Up, Governs, Pending;
    GovernsSelf(a.c);
  }

  lemma LockVisit(s: State, a: Action, n: Context)
    requires NodeInv(s) && LockInv(s) && ThreadInv(s) && Enabled(s, a) && a.Visit? && n in Next(s, a).locks
    ensures LockOk(Next(s, a), n)
  {
    hide Up, Governs, NodeInv, LockInv, ThreadInv, LockOk, Pending, NodeOk;
    AtOwned(s, a.t);
    VisitIsKid(s, a);
    LocksKnown(s);
    LockOf(s, s.threads[a.t].at);
    if n in s.locks {
      LockOf(s, n);
      LockKnown(s, n);
      if s.locks[n].owner != a.t || s.view[a.d].err.Some? { LockFrame(s, Next(s, a), n); } else { LockDeeper(s, a, n); }
    } else {
      NodeOf(s, a.d);
      LockVisited(s, a);
    }
  }

  lemma LockDeeper(s: State, a: Action, n: Context)
    requires Enabled(s, a) && a.Visit? && n in s.locks && LockOk(s, n) && s.locks[n].owner == a.t && s.view[a.d].err.None?
    requires IsKid(s.threads[a.t].at, a.d)
    ensures LockOk(Next(s, a), n)
  {
    hide Up, Governs, Pending;
    KidGoverned(s.threads[a.t].at, a.d);
  }

  lemma LockVisited(s: State, a: Action)
    requires Enabled(s, a) && a.Visit? && NodeOk(s, a.d) && s.view[a.d].err == None
    requires LockOk(s, s.threads[a.t].at) && s.locks[s.threads[a.t].at].owner == a.t && IsKid(s.threads[a.t].at, a.d)
    ensures LockOk(Next(s, a), a.d)
  {
    hide Up, Governs, Pending;
    KidGoverned(s.threads[a.t].at, a.d);
  }

  lemma LockLeave(s: State, a: Action, n: Context)
    requires NodeInv(s) && LockInv(s) && ThreadInv(s) && Enabled(s, a) && a.Leave? && n in Next(s, a).locks
    ensures LockOk(Next(s, a), n)
  {
    hide Up, Governs, NodeInv, LockInv, ThreadInv, LockOk, Pending, NodeOk;
    AtOwned(s, a.t);
    LockOf(s, n);
    LockKnown(s, n);
    LockOf(s, s.threads[a.t].at);
    if s.locks[n].owner != a.t { LockFrame(s, Next(s, a), n); } else { LockHigher(s, a, n); }
  }

  lemma LockHigher(s: State, a: Action, n: Context)
    requires Enabled(s, a) && a.Leave? && n in s.locks && LockOk(s, n) && s.locks[n].owner == a.t
    requires n != s.threads[a.t].at && Cancelable(s.threads[a.t].at) && LockOk(s, s.threads[a.t].at) && s.locks[s.threads[a.t].at].owner == a.t
    ensures LockOk(Next(s, a), n)
  {
    hide Up, Governs, Pending;
    var th := s.threads[a.t];
    LeftUp(th.target, th.at, n);
  }

  /** What lies between target and at lies between target and at's parent. */
  lemma LeftUp(target: Context, at: Context, n: Context)
    requires Governs(target, n) && Governs(n, at) && n != at && Cancelable(at)
    ensures target != at && Cancelable(at) && Up(at).Some? && Governs(n, Up(at).value) && Governs(target, Up(at).value)
  {
    GovernsTransitive(target, n, at);
    NotBoth(n, at);
    GovernsUp(n, at);
    GovernsUp(target, at);
  }

  lemma LockStep(s: State, a: Action)
    requires NodeInv(s) && LockInv(s) && ThreadInv(s) && Enabled(s, a)
    ensures LockInv(Next(s, a))
  {
    hide NodeInv, NodeOk, ThreadInv, Enabled, Next, LockOk;
    forall n | n in Next(s, a).locks
      ensures LockOk(Next(s, a), n)
    {
      hide LockInv;
      if a.Call? {
        LockCall(s, a, n);
      } else if a.Visit? {
        LockVisit(s, a, n);
      } else if a.Leave? {
        LockLeave(s, a, n);
      } else {
        LocklessStep(s, a);
        LockOf(s, n);
        LockKnown(s, n);
        LockFrame(s, Next(s, a), n);
      }
    }
  }

  // ---------------------------------------------------------------- threads

  lemma ThreadFrame(s: State, s2: State, t: int)
    requires t in s.threads && ThreadOk(s, t) && t in s2.threads && s2.threads[t] == s.threads[t]
    requires forall m <- s.view :: m in s2.view && (s.view[m].err.Some? ==> s2.view[m].err.Some?)
    requires forall m <- s.locks :: s.locks[m].owner == t ==> m in s2.locks && s2.locks[m].owner == t
    requires forall m <- s2.locks :: m in s.locks || !Canceled(s, m)
    requires forall m <- s2.view :: m in s.view || (Starting(s.threads[t]) ==> m != s.threads[t].c)
    requires s.threads[t].Working? ==> forall m <- s2.view :: m in s.view || !Governs(m, s.threads[t].at)
    ensures ThreadOk(s2, t)
  {
    hide Up, Governs;
  }

  /** What governs a known context is known. */
  lemma {:induction false} AncestorKnown(s: State, m: Context, n: Context)
    requires NodeInv(s) && n in s.view && Governs(m, n)
    ensures m in s.view
    decreases Size(n)
  {
    hide NodeInv, Pending, Governs;
    NodeOf(s, n);
    GovernsUp(m, n);
    if m != n { AncestorKnown(s, m, Up(n).value); }
  }

  /** The context that a step adds, if any. */
  function Added(s: State, a: Action): Option<Context> {
    match a
    case Begin(_, c, _) => Some(c)
    case Join(t) => if t in s.threads && s.threads[t].Joining? then Some(s.threads[t].c) else None
    case TakeOver(t) => if t in s.threads && s.threads[t].TakingOver? then Some(s.threads[t].c) else None
    case _ => None
  }

  lemma ViewGrows(s: State, a: Action)
    requires NodeInv(s) && ThreadInv(s) && Enabled(s, a)
    ensures var s2 := Next(s, a);
            && (forall m <- s.view :: m in s2.view && (s.view[m].err.Some? ==> s2.view[m].err.Some?))
            && (forall m <- s2.view :: m in s.view || Added(s, a) == Some(m))
            && (forall m <- s2.locks :: m in s.locks || !Canceled(s, m))
  {
    hide Up, Governs, NodeInv, ThreadInv, Pending, NodeOk;
    if Lockless(a) { LocklessStep(s, a); }
    if a.Join? || a.TakeOver? {
      ParentSettled(s, a);
    } else if a.AskDone? {
      DoneMade(s, a.c);
    } else if a.Begin? && Up(a.c).Some? {
      DoneMade(s, Up(a.c).value);
    } else if a.Look? && Up(s.threads[a.t].target).Some? {
      DoneMade(s, Up(s.threads[a.t].target).value);
    }
  }

  /** A context that is added is new, and no other goroutine is about to add it. */
  lemma AddedIsNew(s: State, a: Action, c: Context)
    requires NodeInv(s) && ThreadInv(s) && CellInv(s) && Enabled(s, a) && Added(s, a) == Some(c)
    ensures c !in s.view && (forall n <- s.view :: !Governs(c, n))
    ensures forall u <- s.threads :: Starting(s.threads[u]) && s.threads[u].c == c ==> a.t == u && !a.Begin?
  {
    hide Up, Governs, NodeInv, ThreadInv, Pending, NodeOk;
    if !a.Begin? { ThreadOf(s, a.t); }
    forall n | n in s.view && Governs(c, n) ensures false { AncestorKnown(s, c, n); }
    assert SameCell(c, c);
  }

  lemma ThreadStays(s: State, a: Action, u: int)
    requires NodeInv(s) && LockInv(s) && ThreadInv(s) && CellInv(s) && Enabled(s, a)
    requires u in s.threads && u in Next(s, a).threads && (a.AskDone? || a.t != u)
    ensures ThreadOk(Next(s, a), u)
  {
    hide Up, Governs, NodeInv, LockInv, ThreadInv, CellInv, Pending, NodeOk, LockOk, ThreadOk;
    var s2 := Next(s, a);
    ThreadOf(s, u);
    ViewGrows(s, a);
    if Added(s, a).Some? { AddedIsNew(s, a, Added(s, a).value); }
    OthersLocks(s, a, u);
    AtKnown(s, u);
    ThreadFrame(s, s2, u);
  }

  lemma AtKnown(s: State, u: int)
    requires u in s.threads && ThreadOk(s, u)
    ensures s.threads[u].Working? ==> s.threads[u].at in s.view
  {
  }

  lemma OthersLocks(s: State, a: Action, u: int)
    requires NodeInv(s) && LockInv(s) && ThreadInv(s) && Enabled(s, a) && u in s.threads && (a.AskDone? || a.t != u)
    ensures u in Next(s, a).threads && Next(s, a).threads[u] == s.threads[u]
    ensures forall m <- s.locks :: s.locks[m].owner == u ==> m in Next(s, a).locks && Next(s, a).locks[m].owner == u
  {
    hide Up, Governs, NodeInv, LockInv, ThreadInv, Pending, NodeOk, LockOk, ThreadOk, Next, Enabled;
    OneThread(s, a);
    OwnLocks(s, a, u);
  }

  lemma OwnLocks(s: State, a: Action, u: int)
    requires NodeInv(s) && LockInv(s) && ThreadInv(s) && Enabled(s, a) && (a.AskDone? || a.t != u)
    ensures forall m <- s.locks :: s.locks[m].owner == u ==> m in Next(s, a).locks && Next(s, a).locks[m].owner == u
  {
    hide Up, Governs, NodeInv, LockInv, ThreadInv, Pending, NodeOk, LockOk, ThreadOk;
    if a.Visit? || a.Leave? { AtOwned(s, a.t); }
    if Lockless(a) { LocksStay(s, a); }
  }

  lemma ThreadVisit(s: State, a: Action)
    requires NodeInv(s) && LockInv(s) && ThreadInv(s) && Enabled(s, a) && a.Visit?
    ensures ThreadOk(Next(s, a), a.t)
  {
    hide Up, Governs, NodeInv, LockInv, ThreadInv, Pending, NodeOk, LockOk;
    AtOwned(s, a.t);
    ThreadOf(s, a.t);
    VisitIsKid(s, a);
    KidGoverned(s.threads[a.t].at, a.d);
  }

  lemma ThreadLeave(s: State, a: Action)
    requires NodeInv(s) && LockInv(s) && ThreadInv(s) && Enabled(s, a) && a.Leave?
    ensures ThreadOk(Next(s, a), a.t)
  {
    hide Up, Governs, NodeInv, LockInv, ThreadInv, Pending, LockOk;
    AtOwned(s, a.t);
    ThreadOf(s, a.t);
    var th := s.threads[a.t];
    var at := th.at;
    NodeOf(s, at);
    VisitedAreCanceled(s, at);
    if at == th.target {
    } else {
      GovernsUp(th.target, at);
      KidGoverned(Up(at).value, at);
    }
  }

  lemma VisitedAreCanceled(s: State, n: Context)
    requires LockInv(s) && n in s.locks
    ensures n in s.view && s.view[n].err.Some?
  {
    LockOf(s, n);
    hide Governs, LockInv;
  }

  lemma ThreadCall(s: State, a: Action)
    requires NodeInv(s) && Enabled(s, a) && a.Call? && a.t in Next(s, a).threads
    ensures ThreadOk(Next(s, a), a.t)
  {
    hide Up, Governs, NodeInv, Pending;
    NodeOf(s, a.c);
    GovernsSelf(a.c);
    forall m
      ensures Governs(a.c, m) && Governs(m, a.c) ==> m == a.c
    {
      NotBoth(a.c, m);
    }
  }

  lemma ThreadBegin(s: State, a: Action)
    requires NodeInv(s) && Enabled(s, a) && a.Begin? && a.t in Next(s, a).threads
    ensures ThreadOk(Next(s, a), a.t)
  {
    hide Up, Governs, NodeInv, Pending;
    if Up(a.c).Some? { NodeOf(s, Up(a.c).value); }
    UpOther(a.c);
  }

  lemma UpOther(c: Context)
    requires Cancelable(c)
    ensures Up(c) != Some(c)
  {
    GovernsUp(c, c);
  }

  lemma ThreadLook(s: State, a: Action)
    requires NodeInv(s) && ThreadInv(s) && Enabled(s, a) && a.Look? && a.t in Next(s, a).threads
    ensures ThreadOk(Next(s, a), a.t)
  {
    hide Up, Governs, NodeInv, ThreadInv, Pending, NodeOk;
    ThreadOf(s, a.t);
    var c := s.threads[a.t].target;
    if Up(c).Some? { DoneMade(s, Up(c).value); }
  }

  /** The context is made, and its timer is to be set. */
  lemma ThreadMade(s: State, a: Action)
    requires NodeInv(s) && ThreadInv(s) && Enabled(s, a) && (a.Join? || a.TakeOver?) && a.t in Next(s, a).threads
    ensures ThreadOk(Next(s, a), a.t)
  {
    hide Up, Governs, NodeInv, ThreadInv, Pending, NodeOk;
    ThreadOf(s, a.t);
    ParentSettled(s, a);
  }

  lemma ThreadTimer(s: State, a: Action)
    requires NodeInv(s) && ThreadInv(s) && Enabled(s, a) && (a.Detach? || a.Arm? || a.StopChild? || a.Stop?)
    requires a.t in Next(s, a).threads
    ensures ThreadOk(Next(s, a), a.t)
  {
    hide Up, Governs, NodeInv, ThreadInv, Pending, NodeOk;
    ThreadOf(s, a.t);
  }

  lemma ThreadStep(s: State, a: Action)
    requires NodeInv(s) && LockInv(s) && ThreadInv(s) && CellInv(s) && Enabled(s, a)
    ensures ThreadInv(Next(s, a))
  {
    hide Up, Governs, NodeInv, NodeOk, LockInv, LockOk, CellInv, ThreadOk, Pending;
    forall t | t in Next(s, a).threads
      ensures ThreadOk(Next(s, a), t)
    {
      if t in s.threads && (a.AskDone? || a.t != t) {
        ThreadStays(s, a, t);
      } else {
        hide ThreadInv;
        match a
        case Begin(_, _, _) => ThreadBegin(s, a);
        case Call(_, _, _, _) => ThreadCall(s, a);
        case Visit(_, _) => ThreadVisit(s, a);
        case Leave(_) => ThreadLeave(s, a);
        case Look(_) => ThreadLook(s, a);
        case Join(_) => ThreadMade(s, a);
        case TakeOver(_) => ThreadMade(s, a);
        case _ => ThreadTimer(s, a);
      }
    }
  }

  // ---------------------------------------------------------------- cells and causes

  lemma CellStep(s: State, a: Action)
    requires NodeInv(s) && ThreadInv(s) && CellInv(s) && Enabled(s, a)
    ensures CellInv(Next(s, a))
  {
    hide Up, Governs, NodeInv, NodeOk, ThreadInv, ThreadOk, Pending, Next, Enabled;
    ViewGrows(s, a);
    ThreadsStart(s, a);
    AddedStarts(s, a);
  }

  /** The context that is added is that of the goroutine, or differs from all cells so far. */
  lemma AddedStarts(s: State, a: Action)
    requires Enabled(s, a)
    ensures Added(s, a).Some? && !a.Begin? ==>
              a.t in s.threads && Starting(s.threads[a.t]) && Added(s, a) == Some(s.threads[a.t].c)
    ensures a.Begin? ==>
              && (forall d <- s.view :: !SameCell(a.c, d))
              && (forall u <- s.threads :: Starting(s.threads[u]) ==> !SameCell(a.c, s.threads[u].c))
    ensures forall c, d :: SameCell(c, d) <==> SameCell(d, c)
    ensures a.AskDone? ==> Added(s, a) == None
  {
    hide Up, Governs;
  }

  /** A goroutine that is about to add a context was so before, or begins. */
  lemma ThreadsStart(s: State, a: Action)
    requires Enabled(s, a)
    ensures forall t <- Next(s, a).threads :: Starting(Next(s, a).threads[t]) ==>
              if t in s.threads then Next(s, a).threads[t] == s.threads[t] && !((a.Join? || a.TakeOver?) && a.t == t)
              else a.Begin? && a.t == t && Next(s, a).threads[t].c == a.c
    ensures a.Begin? && Up(a.c) != None ==> Next(s, a).view.Keys == s.view.Keys
    ensures a.Begin? && Up(a.c) == None ==> a.t !in Next(s, a).threads || !Starting(Next(s, a).threads[a.t])
  {
    hide Up, Governs, Next, Enabled;
    OneThread(s, a);
    if !a.AskDone? { OwnStart(s, a); }
    if a.Begin? { BeginKeys(s, a); }
  }

  lemma OwnStart(s: State, a: Action)
    requires Enabled(s, a) && !a.AskDone?
    ensures var t, s2 := a.t, Next(s, a);
            t in s2.threads && Starting(s2.threads[t]) ==> t !in s.threads && a.Begin? && s2.threads[t].c == a.c
  {
    hide Up, Governs, Next, Enabled;
    if Making(a) { OwnStartMake(s, a); } else { OwnStartOther(s, a); }
  }

  lemma OwnStartMake(s: State, a: Action)
    requires Enabled(s, a) && Making(a) && !a.AskDone?
    ensures var t, s2 := a.t, Next(s, a);
            t in s2.threads && Starting(s2.threads[t]) ==> t !in s.threads && a.Begin? && s2.threads[t].c == a.c
  {
    hide Up, Governs;
  }

  lemma OwnStartOther(s: State, a: Action)
    requires Enabled(s, a) && !Making(a)
    ensures a.t in Next(s, a).threads ==> !Starting(Next(s, a).threads[a.t])
  {
    hide Up, Governs;
  }

  lemma BeginKeys(s: State, a: Action)
    requires Enabled(s, a) && a.Begin?
    ensures Up(a.c) != None ==> Next(s, a).view.Keys == s.view.Keys
    ensures Up(a.c) == None ==> a.t !in Next(s, a).threads || !Starting(Next(s, a).threads[a.t])
  {
    hide Up, Governs;
  }

  /** Errors and causes, once set, stay; only cancel sets them, as one of three steps. */
  lemma ErrStays(s: State, a: Action, n: Context)
    requires NodeInv(s) && ThreadInv(s) && Enabled(s, a) && n in s.view
    ensures var s2 := Next(s, a);
            && n in s2.view && ((s2.view[n].err == s.view[n].err && s2.view[n].cause == s.view[n].cause)
                || (s.view[n].err == None && ((a.Call? && a.c == n) || (a.Visit? && a.d == n))))
  {
    hide Up, Governs, NodeInv, NodeOk, ThreadInv, Pending;
    if Lockless(a) { LocklessStep(s, a); }
  }

  lemma CauseStep(s: State, a: Action)
    requires NodeInv(s) && LockInv(s) && ThreadInv(s) && CauseInv(s) && Enabled(s, a)
    ensures CauseInv(Next(s, a))
  {
    hide Up, Governs, NodeInv, NodeOk, LockInv, LockOk, ThreadInv, ThreadOk, Pending, Next, Enabled;
    forall n | n in Next(s, a).view
      ensures CauseOk(Next(s, a), n)
    {
      hide CauseInv;
      if n !in s.view {
        CauseOfNew(s, a, n);
      } else {
        CauseOf(s, n);
        ErrStays(s, a, n);
        CauseKept(s, a, n);
      }
    }
  }

  lemma CauseOf(s: State, n: Context)
    requires CauseInv(s) && n in s.view
    ensures CauseOk(s, n)
  {
  }

  lemma CauseOfNew(s: State, a: Action, n: Context)
    requires NodeInv(s) && ThreadInv(s) && Enabled(s, a) && n in Next(s, a).view && n !in s.view
    ensures CauseOk(Next(s, a), n)
  {
    hide Up, Governs, NodeInv, NodeOk, ThreadInv, ThreadOk, Pending;
    ViewGrows(s, a);
    if a.Join? || a.TakeOver? { ParentSettled(s, a); }
    if a.Begin? && Up(a.c).Some? { DoneMade(s, Up(a.c).value); }
  }

  lemma CauseKept(s: State, a: Action, n: Context)
    requires NodeInv(s) && LockInv(s) && ThreadInv(s) && Enabled(s, a) && n in s.view && CauseOk(s, n)
    requires n in Next(s, a).view
    ensures CauseOk(Next(s, a), n)
  {
    hide Up, Governs, NodeInv, NodeOk, LockInv, LockOk, ThreadInv, ThreadOk, Pending, Next, Enabled;
    ErrStays(s, a, n);
    WonGrows(s, a);
    if s.view[n].err == None {
      NodeOf(s, n);
      LiveHasNoCause(s, n);
      if Next(s, a).view[n].err.Some? { NowCanceled(s, a, n); }
    } else if Cancelable(n) && Up(n).Some? && Up(n).value in s.view {
      ErrStays(s, a, Up(n).value);
    }
  }

  lemma LiveHasNoCause(s: State, n: Context)
    requires n in s.view && NodeOk(s, n)
    ensures s.view[n].err == None <==> s.view[n].cause == None
  {
    hide Up, Pending;
  }

  lemma WonGrows(s: State, a: Action)
    requires Enabled(s, a)
    ensures s.won <= Next(s, a).won && s.lost <= Next(s, a).lost
    ensures forall e <- s.won :: e in Next(s, a).won
  {
    hide Up, Governs;
  }

  lemma NowCanceled(s: State, a: Action, n: Context)
    requires LockInv(s) && NodeInv(s) && ThreadInv(s) && Enabled(s, a) && n in s.view && n in Next(s, a).view
    requires s.view[n].err == None && Next(s, a).view[n].err.Some?
    ensures CauseOk(Next(s, a), n)
  {
    hide Up, Governs, NodeInv, NodeOk, LockInv, LockOk, ThreadInv, ThreadOk, Pending;
    ErrStays(s, a, n);
    if a.Visit? {
      AtOwned(s, a.t);
      VisitIsKid(s, a);
      LockCause(s, s.threads[a.t].at);
    }
  }

  lemma LockCause(s: State, n: Context)
    requires LockInv(s) && n in s.locks
    ensures var t := s.locks[n].owner;
            && n in s.view && t in s.threads && s.threads[t].Working?
            && s.view[n].err == Some(s.threads[t].err) && s.view[n].cause == Some(s.threads[t].why)
  {
    LockOf(s, n);
    hide Governs, LockInv;
  }

  lemma CallStep(s: State, a: Action)
    requires NodeInv(s) && ThreadInv(s) && CallInv(s) && Enabled(s, a)
    ensures CallInv(Next(s, a))
  {
    hide Up, Governs, NodeInv, NodeOk, ThreadInv, ThreadOk, Pending, Next, Enabled;
    forall n | n in s.view
      ensures var s2 := Next(s, a);
              && n in s2.view && ((s2.view[n].err == s.view[n].err && s2.view[n].cause == s.view[n].cause)
                  || (s.view[n].err == None && ((a.Call? && a.c == n) || (a.Visit? && a.d == n))))
    {
      ErrStays(s, a, n);
    }
    Calls(s, a);
  }

  lemma Calls(s: State, a: Action)
    requires Enabled(s, a)
    ensures var s2 := Next(s, a);
            && (a.Call? ==> a.c in s.view) &&
            if !a.Call? then s2.won == s.won && s2.lost == s.lost
            else if s.view[a.c].err.Some? then s2.won == s.won && s2.lost == s.lost + [Event(a.c, a.err, a.why)] && s2.view == s.view
            else
              && s2.won == s.won + [Event(a.c, a.err, a.why)] && s2.lost == s.lost && a.c in s.view && a.c in s2.view
              && s2.view[a.c].err == Some(a.err) && s2.view[a.c].cause == Some(a.why)
  {
    hide Up, Governs;
  }

  lemma FinishStep(s: State, a: Action)
    requires NodeInv(s) && LockInv(s) && ThreadInv(s) && CallInv(s) && FinishInv(s) && Enabled(s, a)
    ensures FinishInv(Next(s, a))
  {
    hide NodeInv, LockInv, ThreadInv, CallInv, FinishInv, Next, Enabled;
    if a.Call? {
      FinishCall(s, a);
    } else if a.Visit? {
      FinishVisit(s, a);
    } else if a.Leave? {
      FinishLeave(s, a);
    } else {
      FinishLockless(s, a);
    }
  }

  lemma FinishLockless(s: State, a: Action)
    requires NodeInv(s) && ThreadInv(s) && FinishInv(s) && Enabled(s, a) && Lockless(a)
    ensures FinishInv(Next(s, a))
  {
    LocklessStep(s, a);
    LocklessCalls(s, a);
    hide Up, Governs, NodeInv, NodeOk, ThreadInv, Upwards, Next, Enabled;
  }

  lemma LocklessCalls(s: State, a: Action)
    requires Enabled(s, a) && Lockless(a)
    ensures Next(s, a).won == s.won && Next(s, a).finished == s.finished
  {
    hide Up, Governs;
  }

  lemma FinishCall(s: State, a: Action)
    requires CallInv(s) && FinishInv(s) && Enabled(s, a) && a.Call?
    ensures FinishInv(Next(s, a))
  {
    hide Up, Governs, Upwards;
  }

  lemma FinishVisit(s: State, a: Action)
    requires NodeInv(s) && LockInv(s) && ThreadInv(s) && CallInv(s) && FinishInv(s) && Enabled(s, a) && a.Visit?
    ensures FinishInv(Next(s, a))
  {
    hide Up, Governs, NodeInv, NodeOk, LockInv, LockOk, ThreadInv, ThreadOk, Pending, Upwards;
    AtOwned(s, a.t);
    VisitIsKid(s, a);
  }

  lemma AtBelow(s: State, t: int)
    requires ThreadInv(s) && t in s.threads && s.threads[t].Working?
    ensures Governs(s.threads[t].target, s.threads[t].at)
  {
    ThreadOf(s, t);
    hide Governs, ThreadInv;
  }

  lemma FinishLeave(s: State, a: Action)
    requires NodeInv(s) && LockInv(s) && ThreadInv(s) && CallInv(s) && FinishInv(s) && Enabled(s, a) && a.Leave?
    ensures FinishInv(Next(s, a))
  {
    hide Up, Governs, NodeInv, NodeOk, LockInv, LockOk, ThreadInv, ThreadOk, Pending, Upwards, Outcome, Size;
    AtOwned(s, a.t);
    LockCause(s, s.threads[a.t].at);
    AtBelow(s, a.t);
    GovernsUp(s.threads[a.t].target, s.threads[a.t].at);
    FinishedLast(s, s.threads[a.t].at);
    UpwardsAppend(s.finished, Event(s.threads[a.t].at, s.threads[a.t].err, s.threads[a.t].why));
  }

  /** What is still locked lies below no finished call. */
  lemma FinishedLast(s: State, at: Context)
    requires NodeInv(s) && CallInv(s) && FinishInv(s) && at in s.view && at in s.locks
    ensures forall e <- s.finished :: !Governs(e.target, at)
  {
    hide Up, Governs, NodeInv, NodeOk, Upwards;
    forall e | e in s.finished
      ensures !Governs(e.target, at)
    {
      if Governs(e.target, at) { SettledBelow(s, e.target, at); }
    }
  }

  lemma UpwardsAppend(log: seq<Event>, e: Event)
    requires Upwards(log)
    ensures (forall f <- log :: !Governs(f.target, e.target)) ==> Upwards(log + [e])
  {
    hide Governs;
  }

  // ---------------------------------------------------------------- timers

  lemma TimerOf(s: State, n: Context)
    requires TimerInv(s) && n in s.view
    ensures TimerOk(s, n)
  {
  }

  lemma TimerStep(s: State, a: Action)
    requires NodeInv(s) && LockInv(s) && ThreadInv(s) && TimerInv(s) && Enabled(s, a)
    ensures TimerInv(Next(s, a))
  {
    hide Up, Governs, NodeInv, NodeOk, LockInv, LockOk, ThreadInv, ThreadOk, Pending, TimerOk, Next, Enabled;
    forall n | n in Next(s, a).view
      ensures TimerOk(Next(s, a), n)
    {
      if n in s.view {
        TimerOf(s, n);
        TimerKept(s, a, n);
      } else {
        TimerOfNew(s, a, n);
      }
    }
  }

  lemma TimerOfNew(s: State, a: Action, n: Context)
    requires NodeInv(s) && ThreadInv(s) && Enabled(s, a) && n in Next(s, a).view && n !in s.view
    ensures TimerOk(Next(s, a), n)
  {
    hide Up, Governs, NodeInv, NodeOk, ThreadInv, ThreadOk, StopPending;
    ViewGrows(s, a);
    if a.Join? || a.TakeOver? { ParentSettled(s, a); }
    if a.Begin? && Up(a.c).Some? { DoneMade(s, Up(a.c).value); }
  }

  lemma TimerKept(s: State, a: Action, n: Context)
    requires NodeInv(s) && LockInv(s) && ThreadInv(s) && Enabled(s, a) && n in s.view && n in Next(s, a).view && TimerOk(s, n)
    ensures TimerOk(Next(s, a), n)
  {
    hide Up, Governs, NodeInv, NodeOk, LockInv, LockOk, ThreadInv, ThreadOk, Pending, StopPending, Next, Enabled;
    NodeOf(s, n);
    NodeKind(s, n);
    ErrStays(s, a, n);
    TimerChange(s, a, n);
    if n in s.locks && n !in Next(s, a).locks { LockReleased(s, a, n); }
    if StopPending(s, n) { StopStays(s, a, n); }
  }

  lemma NodeKind(s: State, n: Context)
    requires n in s.view && NodeOk(s, n)
    ensures Cancelable(n)
  {
  }

  /** Timers are set on live contexts of that kind, and stopped. */
  lemma TimerChange(s: State, a: Action, n: Context)
    requires NodeInv(s) && ThreadInv(s) && Enabled(s, a) && n in s.view && n in Next(s, a).view
    ensures var x, y := s.view[n], Next(s, a).view[n];
            y.timer == x.timer || y.timer == Unarmed || (x.err == None && y.err == None && n.TimerCtx?)
    ensures s.view[n].err == None && Next(s, a).view[n].err.Some? ==> n in Next(s, a).locks
  {
    hide Up, Governs, NodeInv, NodeOk, ThreadInv, Pending, StopPending;
    if a.Join? || a.TakeOver? { ParentSettled(s, a); }
    if a.AskDone? { DoneMade(s, a.c); }
    if a.Begin? && Up(a.c).Some? { DoneMade(s, Up(a.c).value); }
    if a.Look? && Up(s.threads[a.t].target).Some? { DoneMade(s, Up(s.threads[a.t].target).value); }
    if a.Arm? { ThreadOf(s, a.t); }
  }

  /** Who releases the lock of a timer context stops its timer. */
  lemma LockReleased(s: State, a: Action, n: Context)
    requires NodeInv(s) && ThreadInv(s) && Enabled(s, a) && n in s.locks && n !in Next(s, a).locks
    ensures n.TimerCtx? ==> StopPending(Next(s, a), n)
  {
    hide Up, Governs, NodeInv, NodeOk, ThreadInv, Pending, StopPending;
    if Lockless(a) { LocksStay(s, a); }
    if a.Leave? && n.TimerCtx? {
      AtBelow(s, a.t);
      GovernsUp(s.threads[a.t].target, n);
      assert Stops(Next(s, a).threads[a.t], n);
      NowStops(Next(s, a), a.t, n);
    }
  }

  lemma NowStops(s: State, t: int, n: Context)
    requires t in s.threads && Stops(s.threads[t], n)
    ensures StopPending(s, n)
  {
  }

  lemma StopStays(s: State, a: Action, n: Context)
    requires Enabled(s, a) && StopPending(s, n) && n in s.view && n in Next(s, a).view
    ensures n.TimerCtx? ==> StopPending(Next(s, a), n) || Next(s, a).view[n].timer == Unarmed
  {
    hide Up, Governs, StopPending, Next, Enabled;
    if n.TimerCtx? {
      var t := Stopper(s, n);
      StopGoesOn(s, a, n, t);
      if Next(s, a).view[n].timer != Unarmed { NowStops(Next(s, a), t, n); }
    }
  }

  lemma Stopper(s: State, n: Context) returns (t: int)
    requires StopPending(s, n)
    ensures t in s.threads && Stops(s.threads[t], n)
  {
    t :| t in s.threads && Stops(s.threads[t], n);
  }

  lemma StopGoesOn(s: State, a: Action, n: Context, t: int)
    requires Enabled(s, a) && n.TimerCtx? && n in s.view && n in Next(s, a).view && t in s.threads && Stops(s.threads[t], n)
    ensures Next(s, a).view[n].timer == Unarmed || (t in Next(s, a).threads && Stops(Next(s, a).threads[t], n))
  {
    hide Up, Governs, Next, Enabled, Stops;
    OneThread(s, a);
    if !a.AskDone? && a.t == t { OwnStop(s, a, n); }
  }

  lemma OwnStop(s: State, a: Action, n: Context)
    requires Enabled(s, a) && !a.AskDone? && n.TimerCtx? && n in s.view && n in Next(s, a).view
    requires a.t in s.threads && Stops(s.threads[a.t], n)
    ensures Next(s, a).view[n].timer == Unarmed || (a.t in Next(s, a).threads && Stops(Next(s, a).threads[a.t], n))
  {
    hide Up, Governs;
  }

  lemma InvStep(s: State, a: Action)
    requires Inv(s) && Enabled(s, a)
    ensures Inv(Next(s, a))
  {
    hide NodeInv, LockInv, ThreadInv, CellInv, CauseInv, CallInv, FinishInv, TimerInv, Next, Enabled;
    NodeStep(s, a);
    LockStep(s, a);
    ThreadStep(s, a);
    CellStep(s, a);
    CauseStep(s, a);
    CallStep(s, a);
    FinishStep(s, a);
    TimerStep(s, a);
  }

  // ---------------------------------------------------------------- timers that are asked for are set

  /** What the last call that made context d asked for: no timer, or one with a cause. */
  function Asked(acts: seq<Action>, d: Context): Option<Option<Option<Error>>> {
    if acts == [] then None
    else
      var a := acts[|acts| - 1];
      if a.Begin? && a.c == d then Some(a.arm) else Asked(acts[..|acts| - 1], d)
  }

  /** The context that a goroutine is making, and the timer that is still to be set for it. */
  function Promise(th: Thread): Option<(Context, Option<Option<Error>>)> {
    match th
    case Joining(c, arm) => Some((c, arm))
    case TakingOver(c, arm) => Some((c, arm))
    case Arming(c, cause) => Some((c, Some(cause)))
    case _ => None
  }

  ghost predicate Arms(s: State, d: Context, cause: Option<Error>) {
    exists t <- s.threads :: s.threads[t] == Arming(d, cause)
  }

  /** While d is live it has the timer that was asked for, or a goroutine is about to set it. */
  ghost predicate TimerAsFor(s: State, d: Context, arm: Option<Option<Error>>) {
    && (d in s.view && s.view[d].err == None ==>
          match arm
          case None => s.view[d].timer == Unarmed
          case Some(cause) => s.view[d].timer == Armed(cause) || Arms(s, d, cause))
    && forall t <- s.threads :: Promise(s.threads[t]).Some? && Promise(s.threads[t]).value.0 == d ==>
         Promise(s.threads[t]).value.1 == arm
  }

  /** Nobody ever made d. */
  ghost predicate Unmade(s: State, d: Context) {
    d !in s.view && forall t <- s.threads :: Promise(s.threads[t]).Some? ==> Promise(s.threads[t]).value.0 != d
  }

  ghost predicate TimerFor(s: State, d: Context, asked: Option<Option<Option<Error>>>) {
    if asked.None? then Unmade(s, d) else TimerAsFor(s, d, asked.value)
  }

  lemma {:induction false} TimerForRun(states: seq<State>, acts: seq<Action>, d: Context)
    requires Run(states, acts)
    ensures TimerFor(states[|acts|], d, Asked(acts, d))
  {
    hide Next, Enabled, TimerFor, Inv;
    if acts == [] {
      NobodyMade(d);
    } else {
      var n := |acts| - 1;
      RunKeepsInv(states[..n + 1], acts[..n]);
      TimerForRun(states[..n + 1], acts[..n], d);
      TimerForStep(states[n], acts[n], d, Asked(acts[..n], d));
    }
  }

  lemma NobodyMade(d: Context)
    ensures TimerFor(Init(), d, None)
  {
  }

  lemma TimerForStep(s: State, a: Action, d: Context, asked: Option<Option<Option<Error>>>)
    requires Inv(s) && Enabled(s, a) && TimerFor(s, d, asked)
    ensures TimerFor(Next(s, a), d, if a.Begin? && a.c == d then Some(a.arm) else asked)
  {
    hide NodeInv, LockInv, ThreadInv, CauseInv, CallInv, FinishInv, TimerInv, CellInv, Up, Governs, Next, Enabled, Arms;
    PromisesKept(s, a);
    if a.Begin? && a.c == d {
      BeginsUnmade(s, a);
    }
    if d in Next(s, a).view {
      if d in s.view {
        TimerMoves(s, a, d);
        if asked.Some? && asked.value.Some? && Arms(s, d, asked.value.value) { ArmsOrSet(s, a, d, asked.value.value); }
      } else {
        ViewGrows(s, a);
        if !a.Begin? { assert Promise(s.threads[a.t]) == Some((d, s.threads[a.t].arm)); }
        if Next(s, a).view[d].err == None { NewTimer(s, a, d); }
      }
    }
  }

  /** Nobody else is making what is begun. */
  lemma BeginsUnmade(s: State, a: Action)
    requires NodeInv(s) && ThreadInv(s) && CellInv(s) && Enabled(s, a) && a.Begin?
    ensures Unmade(s, a.c)
  {
    hide NodeInv, ThreadInv, ThreadOk, Up, Governs;
    assert SameCell(a.c, a.c);
    forall t | t in s.threads && Promise(s.threads[t]).Some?
      ensures Promise(s.threads[t]).value.0 != a.c
    {
      if s.threads[t].Arming? { ArmsKnown(s, t); }
    }
  }

  lemma ArmsKnown(s: State, t: int)
    requires ThreadInv(s) && t in s.threads && s.threads[t].Arming?
    ensures s.threads[t].target in s.view
  {
    hide ThreadInv, Up, Governs;
    ThreadOf(s, t);
  }

  /** A goroutine keeps its promise to make a context, with its timer, until that is done. */
  lemma PromisesKept(s: State, a: Action)
    requires Enabled(s, a)
    ensures forall t <- Next(s, a).threads :: Promise(Next(s, a).threads[t]).Some? ==>
              || (t in s.threads && Promise(s.threads[t]) == Promise(Next(s, a).threads[t]))
              || (a.Begin? && Promise(Next(s, a).threads[t]) == Some((a.c, a.arm)))
  {
    hide Up, Governs, Next, Enabled;
    OneThread(s, a);
    if !a.AskDone? && a.t in Next(s, a).threads { OwnPromise(s, a); }
  }

  lemma OwnPromise(s: State, a: Action)
    requires Enabled(s, a) && !a.AskDone? && a.t in Next(s, a).threads
    ensures var p := Promise(Next(s, a).threads[a.t]);
            p.None? || (a.t in s.threads && Promise(s.threads[a.t]) == p) || (a.Begin? && p == Some((a.c, a.arm)))
  {
    hide Up, Governs, Next, Enabled;
    if Making(a) { OwnPromiseMake(s, a); } else { NoPromise(s, a); }
  }

  lemma OwnPromiseMake(s: State, a: Action)
    requires Enabled(s, a) && !a.AskDone? && Making(a) && a.t in Next(s, a).threads
    ensures var p := Promise(Next(s, a).threads[a.t]);
            p.None? || (a.t in s.threads && Promise(s.threads[a.t]) == p) || (a.Begin? && p == Some((a.c, a.arm)))
  {
    hide Up, Governs;
  }

  lemma NoPromise(s: State, a: Action)
    requires Enabled(s, a) && !Making(a) && a.t in Next(s, a).threads
    ensures Promise(Next(s, a).threads[a.t]).None?
  {
    hide Up, Governs;
  }

  /** What a step does to the timer of a context. */
  lemma TimerMoves(s: State, a: Action, n: Context)
    requires NodeInv(s) && ThreadInv(s) && Enabled(s, a) && n in s.view && n in Next(s, a).view
    ensures var x, y := s.view[n], Next(s, a).view[n];
            y.err == None ==>
              && x.err == None
              && (y.timer == x.timer || (a.Arm? && y.timer.Armed? && a.t in s.threads && s.threads[a.t] == Arming(n, y.timer.cause)))
  {
    hide Up, Governs, NodeInv, NodeOk, ThreadInv, Pending, Next, Enabled;
    ErrStays(s, a, n);
    if Next(s, a).view[n].err == None {
      if a.Arm? || a.StopChild? || a.Stop? { TimerTouched(s, a, n); } else { TimerLeft(s, a, n); }
    }
  }

  lemma TimerTouched(s: State, a: Action, n: Context)
    requires NodeInv(s) && ThreadInv(s) && Enabled(s, a) && n in s.view && (a.Arm? || a.StopChild? || a.Stop?)
    requires s.view[n].err == None
    ensures n in Next(s, a).view
    ensures Next(s, a).view[n].timer == s.view[n].timer
            || (a.Arm? && a.t in s.threads && exists cause :: Next(s, a).view[n].timer == Armed(cause) && s.threads[a.t] == Arming(n, cause))
  {
    hide Up, Governs, NodeInv, NodeOk, ThreadInv, Pending;
    ThreadOf(s, a.t);
  }

  lemma TimerLeft(s: State, a: Action, n: Context)
    requires NodeInv(s) && ThreadInv(s) && Enabled(s, a) && n in s.view && !a.Arm? && !a.StopChild? && !a.Stop?
    requires n in Next(s, a).view && Next(s, a).view[n].err == None
    ensures Next(s, a).view[n].timer == s.view[n].timer
  {
    hide Up, Governs, NodeInv, NodeOk, ThreadInv, Pending;
    if a.Join? || a.TakeOver? { ParentSettled(s, a); }
    if a.AskDone? { DoneMade(s, a.c); }
    if a.Begin? && Up(a.c).Some? { DoneMade(s, Up(a.c).value); }
    if a.Look? && Up(s.threads[a.t].target).Some? { DoneMade(s, Up(s.threads[a.t].target).value); }
  }

  /** Who is to set a timer does so, or it is canceled. */
  lemma ArmsOrSet(s: State, a: Action, n: Context, cause: Option<Error>)
    requires NodeInv(s) && ThreadInv(s) && Enabled(s, a) && n in s.view && n in Next(s, a).view && Arms(s, n, cause)
    ensures var y := Next(s, a).view[n]; y.err == None ==> y.timer == Armed(cause) || Arms(Next(s, a), n, cause)
  {
    hide Up, Governs, NodeInv, ThreadInv, Next, Enabled;
    var t :| t in s.threads && s.threads[t] == Arming(n, cause);
    OneThread(s, a);
    if !a.AskDone? && a.t == t {
      ArmsNow(s, a, n, cause);
    } else {
      assert Next(s, a).threads[t] == Arming(n, cause);
    }
  }

  lemma ArmsNow(s: State, a: Action, n: Context, cause: Option<Error>)
    requires Enabled(s, a) && !a.AskDone? && a.t in s.threads && s.threads[a.t] == Arming(n, cause)
    ensures n in Next(s, a).view && (Next(s, a).view[n].err == None ==> Next(s, a).view[n].timer == Armed(cause))
  {
    hide Up, Governs;
  }

  /** A new context has no timer yet, but whoever made it sets the timer it was asked for. */
  lemma NewTimer(s: State, a: Action, n: Context)
    requires NodeInv(s) && ThreadInv(s) && Enabled(s, a) && n !in s.view && n in Next(s, a).view
    requires Next(s, a).view[n].err == None && Added(s, a) == Some(n)
    ensures Next(s, a).view[n].timer == Unarmed
    ensures var arm := if a.Begin? then a.arm else if a.t in s.threads && Starting(s.threads[a.t]) then s.threads[a.t].arm else None;
            arm.Some? ==> Arms(Next(s, a), n, arm.value)
  {
    hide Up, Governs, NodeInv, NodeOk, ThreadInv, Pending;
    NewIsArmed(s, a, n);
  }

  lemma NewIsArmed(s: State, a: Action, n: Context)
    requires Enabled(s, a) && n !in s.view && n in Next(s, a).view && Next(s, a).view[n].err == None && Added(s, a) == Some(n)
    ensures Next(s, a).view[n].timer == Unarmed
    ensures var arm := if a.Begin? then a.arm else s.threads[a.t].arm;
            arm.Some? ==> a.t in Next(s, a).threads && Next(s, a).threads[a.t] == Arming(n, arm.value)
  {
    hide Up, Governs;
    if !a.Begin? { assert s.threads[a.t].c == n; }
  }

  /** In every reachable state a live context has the timer that it was asked for, or somebody is about to set it;
      when no operation is under way it is set. */
  lemma LiveTimerIsSet(states: seq<State>, acts: seq<Action>, d: Context)
    requires Run(states, acts) && d in states[|acts|].view && states[|acts|].view[d].err == None
    ensures Asked(acts, d).Some? && TimerAsFor(states[|acts|], d, Asked(acts, d).value)
    ensures var s := states[|acts|];
            s.threads == map[] ==>
              s.view[d].timer == match Asked(acts, d).value { case None => Unarmed case Some(cause) => Armed(cause) }
  {
    TimerForRun(states, acts, d);
    hide Run;
  }

  // ---------------------------------------------------------------- what locks protect, and what may begin

  /** While a goroutine holds the lock of a context, nobody else changes anything of it, and the lock stays with its owner. */
  lemma LocksExclude(states: seq<State>, acts: seq<Action>, a: Action, n: Context)
    requires Run(states, acts) && Enabled(states[|acts|], a) && n in states[|acts|].locks
    requires a.AskDone? || a.t != states[|acts|].locks[n].owner
    ensures var s := states[|acts|]; var t := Next(s, a);
            && n in s.view && n in t.view && t.view[n] == s.view[n]
            && n in t.locks && t.locks[n] == s.locks[n]
  {
    RunKeepsInv(states, acts);
    var s := states[|acts|];
    hide Run, Next, Enabled, NodeInv, LockInv, ThreadInv, CauseInv, CallInv, FinishInv, TimerInv, CellInv;
    LockOf(s, n);
    if Lockless(a) {
      LocksStay(s, a);
      if a.AskDone? || a.Begin? || a.Look? { LoadsLeave(s, a, n); } else { FreeOnly(s, a, n); }
    } else {
      CancelsLeave(s, a, n);
    }
  }

  lemma LoadsLeave(s: State, a: Action, n: Context)
    requires NodeInv(s) && Enabled(s, a) && n in s.locks && n in s.view && (a.AskDone? || a.Begin? || a.Look?)
    ensures n in Next(s, a).view && Next(s, a).view[n] == s.view[n]
  {
    hide Up, Governs, NodeInv;
  }

  lemma FreeOnly(s: State, a: Action, n: Context)
    requires ThreadInv(s) && Enabled(s, a) && n in s.locks && n in s.view
    requires Lockless(a) && !a.AskDone? && !a.Begin? && !a.Look?
    ensures n in Next(s, a).view && Next(s, a).view[n] == s.view[n]
  {
    hide Up, Governs, ThreadInv;
    ThreadOf(s, a.t);
  }

  lemma CancelsLeave(s: State, a: Action, n: Context)
    requires LockInv(s) && ThreadInv(s) && NodeInv(s) && Enabled(s, a) && n in s.locks && n in s.view
    requires !Lockless(a) && a.t != s.locks[n].owner
    ensures n in Next(s, a).view && Next(s, a).view[n] == s.view[n]
    ensures n in Next(s, a).locks && Next(s, a).locks[n] == s.locks[n]
  {
    hide Up, Governs, NodeInv, LockInv, ThreadInv;
    if a.Visit? || a.Leave? { AtOwned(s, a.t); }
  }

  /** Whoever is not at work may cancel any context that is not locked, ask any such context for its done channel, and
      make a context of its own below any such context, with a timer or without. */
  lemma OperationsBegin(s: State, t: int, c: Context, err: Error, why: Error, arm: Option<Option<Error>>)
    requires t !in s.threads
    ensures c in s.view && c !in s.locks ==> Enabled(s, Call(t, c, err, why)) && Enabled(s, AskDone(c))
    ensures Cancelable(c) && (c.TimerCtx? || arm == None) && c !in s.view
            && (forall d <- s.view :: Cancelable(d) ==> d.cell != c.cell)
            && (forall u <- s.threads :: Starting(s.threads[u]) && Cancelable(s.threads[u].c) ==> s.threads[u].c.cell != c.cell)
            && (Up(c).Some? ==> Up(c).value in s.view && Up(c).value !in s.locks)
            ==> Enabled(s, Begin(t, c, arm))
  {
    hide Up;
  }

  /** How far an operation has come. */
  function Stage(th: Thread): nat {
    match th
    case Joining(_, _) => 0
    case TakingOver(_, _) => 0
    case Arming(_, _) => 1
    case Working(_, _, _, _, _) => 0
    case Removing(_) => 1
    case Detaching(_) => 2
    case Stopping(_) => 3
  }

  /** One turn of the loop of cancel stops a child's timer, takes a child off those to be visited, or ends the loop of
      the context where it is and releases its lock. */
  ghost predicate Turns(s: State, a: Action, t: State)
    requires !a.AskDone? && a.t in s.threads && s.threads[a.t].Working? && a.t in t.threads && t.threads[a.t].Working?
  {
    var x, y := s.threads[a.t], t.threads[a.t];
    && y.target == x.target && y.err == x.err && y.why == x.why
    && match a
       case StopChild(_) => y == x.(stop := None) && x.stop != None
       case Visit(_, d) =>
         x.at in s.locks && d in s.locks[x.at].todo && x.at in t.locks && t.locks[x.at].todo == s.locks[x.at].todo - {d}
       case Leave(_) => x.at in s.locks && x.at !in t.locks
       case _ => false
  }

  /** Every step of an operation brings it closer to its end, or is a turn of the loop. */
  lemma StepsMove(s: State, a: Action)
    requires Enabled(s, a) && !a.AskDone? && a.t in s.threads
    ensures var t := Next(s, a);
            if a.t !in t.threads then !s.threads[a.t].Working?
            else Stage(t.threads[a.t]) > Stage(s.threads[a.t])
                 || (s.threads[a.t].Working? && t.threads[a.t].Working? && Turns(s, a, t))
  {
    hide Up, Governs, Next, Enabled, Turns;
    if Making(a) {
      MakingMoves(s, a);
    } else if a.Look? || a.Detach? || a.Stop? {
      EndingMoves(s, a);
    } else {
      CancelMoves(s, a);
    }
  }

  lemma MakingMoves(s: State, a: Action)
    requires Enabled(s, a) && !a.AskDone? && a.t in s.threads && Making(a)
    ensures var t := Next(s, a);
            if a.t !in t.threads then !s.threads[a.t].Working? else Stage(t.threads[a.t]) > Stage(s.threads[a.t])
  {
    hide Up, Governs;
  }

  lemma EndingMoves(s: State, a: Action)
    requires Enabled(s, a) && (a.Look? || a.Detach? || a.Stop?) && a.t in s.threads
    ensures var t := Next(s, a);
            if a.t !in t.threads then !s.threads[a.t].Working? else Stage(t.threads[a.t]) > Stage(s.threads[a.t])
  {
    hide Up, Governs;
  }

  lemma CancelMoves(s: State, a: Action)
    requires Enabled(s, a) && !a.AskDone? && a.t in s.threads && !Making(a) && !a.Look? && !a.Detach? && !a.Stop?
    ensures var t := Next(s, a);
            a.t in t.threads && s.threads[a.t].Working?
            && if t.threads[a.t].Working? then Turns(s, a, t) else Stage(t.threads[a.t]) > 0
  {
    hide Up, Governs;
  }

  /** A call of cancel goes to work on a live context, and on a canceled timer context goes on to removeChild; a call
      of Done leaves a done channel. */
  lemma CallsGoOn(s: State, a: Action)
    requires Enabled(s, a)
    ensures a.AskDone? ==> a.c in Next(s, a).view && Next(s, a).view[a.c].done != NoChan
    ensures a.Call? && s.view[a.c].err == None ==>
              a.t in Next(s, a).threads && Next(s, a).threads[a.t] == Working(a.c, a.c, a.err, a.why, None)
    ensures a.Call? && s.view[a.c].err != None && a.c.TimerCtx? ==>
              a.t in Next(s, a).threads && Next(s, a).threads[a.t] == Removing(a.c)
    ensures a.Begin? ==> a.t in Next(s, a).threads || a.c in Next(s, a).view
  {
    hide Up, Governs;
  }

  // ---------------------------------------------------------------- nobody is blocked for good

  /** The goroutine whose recursion is deepest. */
  lemma {:induction false} Deepest(threads: map<int, Thread>) returns (t: int)
    requires exists u <- threads :: threads[u].Working?
    ensures t in threads && threads[t].Working?
    ensures forall u <- threads :: threads[u].Working? ==> Size(threads[u].at) <= Size(threads[t].at)
    decreases |threads|
  {
    hide Size;
    var u :| u in threads && threads[u].Working?;
    var rest := threads - {u};
    assert |rest| < |threads| by { assert rest.Keys == threads.Keys - {u}; }
    assert forall w <- threads :: w == u || (w in rest && rest[w] == threads[w]);
    t := u;
    if exists w <- rest :: rest[w].Working? {
      var w := Deepest(rest);
      if Size(threads[w].at) > Size(threads[u].at) { t := w; }
    }
  }

  lemma DeepestGoesOn(s: State, t: int)
    requires NodeInv(s) && LockInv(s) && ThreadInv(s) && t in s.threads && s.threads[t].Working?
    requires forall u <- s.threads :: s.threads[u].Working? ==> Size(s.threads[u].at) <= Size(s.threads[t].at)
    ensures exists a :: By(a, t) && Enabled(s, a)
  {
    hide NodeInv, LockInv, ThreadInv, Up, Governs, Size;
    AtOwned(s, t);
    var at := s.threads[t].at;
    LockOf(s, at);
    if s.threads[t].stop.Some? {
      ThreadOf(s, t);
      assert By(StopChild(t), t) && Enabled(s, StopChild(t));
    } else if s.locks[at].todo == {} {
      assert By(Leave(t), t) && Enabled(s, Leave(t));
    } else {
      var d :| d in s.locks[at].todo;
      KidGoverned(at, d);
      if d in s.locks {
        LockOf(s, d);
        GovernsSize(d, s.threads[s.locks[d].owner].at);
        GovernsSize(at, d);
      }
      assert By(Visit(t, d), t) && Enabled(s, Visit(t, d));
    }
  }

  lemma FreeGoesOn(s: State, t: int)
    requires NodeInv(s) && LockInv(s) && ThreadInv(s) && t in s.threads && forall u <- s.threads :: !s.threads[u].Working?
    ensures exists a :: By(a, t) && Enabled(s, a)
  {
    hide NodeInv, LockInv, ThreadInv, Up, Governs, Size, Pending;
    ThreadOf(s, t);
    forall n | n in s.locks ensures false { LockOf(s, n); }
    var a := match s.threads[t] case Joining(_, _) => Join(t) case TakingOver(_, _) => TakeOver(t)
             case Removing(_) => Look(t) case Arming(_, _) => Arm(t) case Stopping(_) => Stop(t) case _ => Detach(t);
    if s.threads[t].Removing? || s.threads[t].Detaching? { NodeOf(s, s.threads[t].target); }
    assert By(a, t) && Enabled(s, a);
  }

  // ---------------------------------------------------------------- an order that explains it all

  lemma {:induction false} OutcomeConcat(a: seq<Event>, b: seq<Event>, c: Context)
    ensures Outcome(a + b, c) == if Outcome(a, c).Some? then Outcome(a, c) else Outcome(b, c)
  {
    if a == [] {
      assert a + b == b;
    } else {
      assert (a + b)[0] == a[0] && (a + b)[1..] == a[1..] + b;
      OutcomeConcat(a[1..], b, c);
    }
  }

  /** In such an order the first call that reaches d is the one with the nearest target. */
  lemma {:induction false} OutcomeIsNearest(log: seq<Event>, e: Event, d: Context)
    requires Upwards(log) && e in log && Governs(e.target, d)
    requires forall f <- log :: Governs(f.target, d) ==> Size(f.target) <= Size(e.target) && (f.target == e.target ==> f == e)
    ensures Outcome(log, d) == Some(e)
  {
    hide Size, Governs;
    assert log == [log[0]] + log[1..];
    if Governs(log[0].target, d) {
      GovernsLinear(log[0].target, e.target, d);
      if Governs(e.target, log[0].target) { GovernsSize(e.target, log[0].target); }
    } else {
      OutcomeIsNearest(log[1..], e, d);
    }
  }

  lemma NoLocks(s: State)
    requires LockInv(s) && s.threads == map[]
    ensures s.locks.Keys == {} && forall d :: !Pending(s, d)
  {
    hide Governs, Up;
    forall n | n in s.locks ensures false { LockOf(s, n); }
  }

  /** A live context is governed by no target of a call. */
  lemma LiveNotGoverned(s: State, n: Context, e: Event)
    requires NodeInv(s) && LockInv(s) && CallInv(s) && s.threads == map[] && n in s.view && s.view[n].err == None
    requires e in s.won || e in s.lost
    ensures !Governs(e.target, n)
  {
    hide NodeInv, LockInv, Pending, Governs;
    NoLocks(s);
    if Governs(e.target, n) { SettledBelow(s, e.target, n); }
  }

  /** The state of one context when nothing is going on, as ContextTree describes it. */
  lemma QuietNode(s: State, n: Context, log: seq<Event>)
    requires NodeInv(s) && LockInv(s) && TimerInv(s) && s.threads == map[] && n in s.view
    requires s.view[n].err == None ==> Outcome(log, n) == None
    requires Canceled(s, n) ==>
               && Outcome(log, n).Some?
               && s.view[n].err == Some(Outcome(log, n).value.err) && s.view[n].cause == Some(Outcome(log, n).value.cause)
    ensures StateOf(s.view, n, Outcome(log, n))
  {
    hide NodeInv, LockInv, TimerInv, Pending, Governs, Outcome;
    NoLocks(s);
    NodeOf(s, n);
    TimerOf(s, n);
    if s.view[n].err == None {
      forall d | d in s.view[n].children || d in LiveKids(s.view, n)
        ensures d in s.view[n].children && d in LiveKids(s.view, n)
      {
      }
    }
  }

  lemma QuietOutcome(s: State, n: Context)
    requires Inv(s) && s.threads == map[] && n in s.view
    ensures var o := Outcome(s.finished + s.lost, n);
            if s.view[n].err == None then o == None
            else o.Some? && s.view[n].err == Some(o.value.err) && s.view[n].cause == Some(o.value.cause)
  {
    hide NodeInv, LockInv, ThreadInv, CellInv, CauseInv, CallInv, Governs, Size, Outcome, Upwards;
    NoLocks(s);
    OutcomeConcat(s.finished, s.lost, n);
    if s.view[n].err == None {
      var log := s.finished + s.lost;
      forall e | e in log
        ensures !Governs(e.target, n)
      {
        assert e in s.finished || e in s.lost;
        LiveNotGoverned(s, n, e);
      }
      OutcomeIsEarliest(log, n);
    } else {
      var e := NearestCall(s, n);
      OutcomeIsNearest(s.finished, e, n);
    }
  }

  lemma QuietIsSequential(s: State)
    requires Inv(s) && s.threads == map[]
    ensures ContextTree.Inv(s.view, s.finished + s.lost) && forall e :: e in s.finished <==> e in s.won
    ensures forall i, j :: 0 <= i < j < |s.finished| ==> s.finished[i].target != s.finished[j].target
  {
    var log := s.finished + s.lost;
    hide NodeInv, LockInv, ThreadInv, CellInv, CauseInv, Governs, Up, StateOf, Outcome;
    NoLocks(s);
    QuietShape(s);
    forall c | c in s.view
      ensures StateOf(s.view, c, Outcome(log, c))
    {
      QuietOutcome(s, c);
      QuietNode(s, c, log);
    }
    forall e | e in log
      ensures e.target in s.view
    {
      assert e in s.finished || e in s.lost;
    }
    forall i, j | 0 <= i < j < |s.finished|
      ensures s.finished[i].target != s.finished[j].target
    {
      assert s.finished[i] in s.finished;
      NodeOf(s, s.finished[i].target);
      GovernsSelf(s.finished[i].target);
    }
  }

  lemma QuietShape(s: State)
    requires NodeInv(s) && CellInv(s)
    ensures Shape(s.view)
  {
    hide NodeInv, Up, Pending;
    forall c | c in s.view
      ensures Cancelable(c) && (Up(c).Some? ==> Up(c).value in s.view)
    {
      NodeOf(s, c);
    }
  }
}
