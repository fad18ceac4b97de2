/** The cancellation tree of package context (go/src/context/context.go). The immutable part of a
    context (its kind and its parent) is a datatype; what cancellation updates is a Cell. */
module ContextTree {
  import opened Prelude

  datatype Error = Canceled | DeadlineExceeded | Custom(code: int)

  /** A done channel: not made yet, made by Done, or the shared channel closed at start-up. */
  datatype Chan = NoChan | Own(closed: bool) | ClosedChan

  /** A timerCtx's timer together with the cause its callback will report. */
  datatype Timer = Unarmed | Armed(cause: Option<Error>)

  class Cell {
    var done: Chan
    var children: set<Context>
    var err: Option<Error>
    var cause: Option<Error>
    var timer: Timer

    function State(): CtxState
      reads this
    {
      CtxState(done, children, err, cause, timer)
    }

    constructor ()
      ensures State() == Fresh
    {
      done, children, err, cause, timer := NoChan, {}, None, None, Unarmed;
    }
  }

  datatype Context =
    | Background
    | ValueCtx(parent: Context, key: int, val: int)
    | WithoutCancelCtx(parent: Context)
    | CancelCtx(parent: Context, cell: Cell)
    | TimerCtx(parent: Context, cell: Cell, deadline: int)

  /** One call of a cancel function, or one timer that fired. */
  datatype Event = Event(target: Context, err: Error, cause: Error)

  /** What a cell holds. */
  datatype CtxState =
    CtxState(done: Chan, children: set<Context>, err: Option<Error>, cause: Option<Error>, timer: Timer)

  type View = map<Context, CtxState>

  predicate Cancelable(c: Context) {
    c.CancelCtx? || c.TimerCtx?
  }

  /** The innermost cancelable context at or above c that cancellation can reach c from. */
  function Nearest(c: Context): Option<Context> {
    match c
    case Background => None
    case ValueCtx(p, _, _) => Nearest(p)
    case WithoutCancelCtx(_) => None
    case CancelCtx(_, _) => Some(c)
    case TimerCtx(_, _, _) => Some(c)
  }

  function Up(c: Context): Option<Context>
    requires Cancelable(c)
  {
    Nearest(c.parent)
  }

  /** a is c or an ancestor of c not cut off by WithoutCancel, and can be canceled. */
  predicate Governs(a: Context, c: Context) {
    match c
    case Background => false
    case ValueCtx(p, _, _) => Governs(a, p)
    case WithoutCancelCtx(_) => false
    case CancelCtx(p, _) => a == c || Governs(a, p)
    case TimerCtx(p, _, _) => a == c || Governs(a, p)
  }

  /** The earliest event that reaches c: the specification of c's state. */
  function Outcome(log: seq<Event>, c: Context): Option<Event> {
    if log == [] then None
    else if Governs(log[0].target, c) then Some(log[0])
    else Outcome(log[1..], c)
  }

  function Deadline(c: Context): Option<int> {
    match c
    case Background => None
    case ValueCtx(p, _, _) => Deadline(p)
    case WithoutCancelCtx(_) => None
    case CancelCtx(p, _) => Deadline(p)
    case TimerCtx(_, _, d) => Some(d)
  }

  function ValueSpec(c: Context, key: int): Option<int> {
    match c
    case Background => None
    case ValueCtx(p, k, v) => if k == key then Some(v) else ValueSpec(p, key)
    case WithoutCancelCtx(p) => ValueSpec(p, key)
    case CancelCtx(p, _) => ValueSpec(p, key)
    case TimerCtx(p, _, _) => ValueSpec(p, key)
  }

  function Size(c: Context): nat {
    match c
    case Background => 0
    case ValueCtx(p, _, _) => 1 + Size(p)
    case WithoutCancelCtx(p) => 1 + Size(p)
    case CancelCtx(p, _) => 1 + Size(p)
    case TimerCtx(p, _, _) => 1 + Size(p)
  }

  /** A context and those it was made from, the innermost first. */
  function Ancestry(c: Context): (cs: seq<Context>)
    ensures cs != [] && cs[0] == c
  {
    match c
    case Background => [c]
    case ValueCtx(p, _, _) => [c] + Ancestry(p)
    case WithoutCancelCtx(p) => [c] + Ancestry(p)
    case CancelCtx(p, _) => [c] + Ancestry(p)
    case TimerCtx(p, _, _) => [c] + Ancestry(p)
  }

  predicate Gives(c: Context, key: int) {
    c.ValueCtx? && c.key == key
  }

  /** A value is that of the innermost context that was made with its key. */
  lemma {:induction false} ValueIsInnermost(c: Context, key: int)
    ensures ValueSpec(c, key) == None <==> forall a <- Ancestry(c) :: !Gives(a, key)
    ensures ValueSpec(c, key).Some? ==>
              exists i :: 0 <= i < |Ancestry(c)| && Gives(Ancestry(c)[i], key) && ValueSpec(c, key) == Some(Ancestry(c)[i].val)
                          && forall j :: 0 <= j < i ==> !Gives(Ancestry(c)[j], key)
  {
    if !c.Background? && !Gives(c, key) {
      var p := c.parent;
      ValueIsInnermost(p, key);
      assert Ancestry(c) == [c] + Ancestry(p);
      if ValueSpec(p, key).Some? {
        var i :| 0 <= i < |Ancestry(p)| && Gives(Ancestry(p)[i], key) && ValueSpec(p, key) == Some(Ancestry(p)[i].val)
                 && forall j :: 0 <= j < i ==> !Gives(Ancestry(p)[j], key);
        assert Ancestry(c)[i + 1] == Ancestry(p)[i];
        forall j | 0 <= j < i + 1
          ensures !Gives(Ancestry(c)[j], key)
        {
          if j > 0 { assert Ancestry(c)[j] == Ancestry(p)[j - 1]; }
        }
      }
    } else {
      assert Gives(c, key) ==> c in Ancestry(c);
    }
  }

  /** Nothing stops cancellation of a from reaching c: it was made from a, without WithoutCancel in between. */
  lemma {:induction false} GovernsIs(a: Context, c: Context)
    ensures Governs(a, c) <==>
            exists i :: 0 <= i < |Ancestry(c)| && Ancestry(c)[i] == a && Cancelable(a)
                        && forall j :: 0 <= j < i ==> !Ancestry(c)[j].WithoutCancelCtx?
  {
    if a == c {
      assert Ancestry(c)[0] == a;
    }
    if !c.Background? {
      var p := c.parent;
      GovernsIs(a, p);
      assert Ancestry(c) == [c] + Ancestry(p);
      if Governs(a, p) && !c.WithoutCancelCtx? {
        var i :| 0 <= i < |Ancestry(p)| && Ancestry(p)[i] == a && forall j :: 0 <= j < i ==> !Ancestry(p)[j].WithoutCancelCtx?;
        assert Ancestry(c)[i + 1] == a;
        forall j | 0 <= j < i + 1
          ensures !Ancestry(c)[j].WithoutCancelCtx?
        {
          if j > 0 { assert Ancestry(c)[j] == Ancestry(p)[j - 1]; }
        }
      }
      if exists i :: 0 < i < |Ancestry(c)| && Ancestry(c)[i] == a && Cancelable(a)
                     && forall j :: 0 <= j < i ==> !Ancestry(c)[j].WithoutCancelCtx? {
        var i :| 0 < i < |Ancestry(c)| && Ancestry(c)[i] == a && Cancelable(a)
                 && forall j :: 0 <= j < i ==> !Ancestry(c)[j].WithoutCancelCtx?;
        assert Ancestry(p)[i - 1] == a;
        forall j | 0 <= j < i - 1
          ensures !Ancestry(p)[j].WithoutCancelCtx?
        {
          assert Ancestry(p)[j] == Ancestry(c)[j + 1];
        }
        assert Ancestry(c)[0] == c;
      }
    }
  }

  /** A deadline is that of the innermost timer context that governs. */
  lemma {:induction false} DeadlineIsInnermost(c: Context)
    ensures Deadline(c) == None <==> forall a :: Governs(a, c) ==> !a.TimerCtx?
    ensures Deadline(c).Some? ==>
              exists a :: Governs(a, c) && a.TimerCtx? && Deadline(c) == Some(a.deadline)
                          && forall b :: Governs(b, c) && b.TimerCtx? ==> Governs(b, a)
  {
    match c
    case ValueCtx(p, _, _) => DeadlineIsInnermost(p);
    case CancelCtx(p, _) => DeadlineIsInnermost(p);
    case TimerCtx(_, _, _) => assert Governs(c, c);
    case _ =>
  }

  // ---------------------------------------------------------------- the tree order

  lemma {:induction false} NearestGoverns(c: Context)
    ensures Nearest(c).Some? ==>
              var m := Nearest(c).value; Cancelable(m) && Governs(m, c) && Size(m) <= Size(c)
    ensures forall a :: Governs(a, c) <==> Nearest(c).Some? && Governs(a, Nearest(c).value)
  {
    match c
    case Background =>
    case ValueCtx(p, _, _) => NearestGoverns(p);
    case WithoutCancelCtx(_) =>
    case CancelCtx(_, _) =>
    case TimerCtx(_, _, _) =>
  }

  /** Stepping to the registration parent: what governs a cancelable context is itself or governs its parent. */
  lemma {:induction false} GovernsUp(a: Context, c: Context)
    requires Cancelable(c)
    ensures Governs(a, c) <==> a == c || (Up(c).Some? && Governs(a, Up(c).value))
    ensures Up(c).Some? ==> Cancelable(Up(c).value) && Size(Up(c).value) < Size(c)
  {
    NearestGoverns(c.parent);
  }

  lemma {:induction false} GovernsSize(a: Context, c: Context)
    requires Governs(a, c)
    ensures Cancelable(a) && Size(a) <= Size(c)
    ensures Size(a) == Size(c) ==> a == c
  {
    match c
    case ValueCtx(p, _, _) => GovernsSize(a, p);
    case CancelCtx(p, _) => if a != c { GovernsSize(a, p); }
    case TimerCtx(p, _, _) => if a != c { GovernsSize(a, p); }
  }

  lemma {:induction false} GovernsTransitive(a: Context, b: Context, c: Context)
    requires Governs(a, b) && Governs(b, c)
    ensures Governs(a, c)
  {
    match c
    case ValueCtx(p, _, _) => GovernsTransitive(a, b, p);
    case CancelCtx(p, _) => if b != c { GovernsTransitive(a, b, p); }
    case TimerCtx(p, _, _) => if b != c { GovernsTransitive(a, b, p); }
  }

  /** Two governors of one context are comparable. */
  lemma {:induction false} GovernsLinear(a: Context, b: Context, c: Context)
    requires Governs(a, c) && Governs(b, c)
    ensures Governs(a, b) || Governs(b, a)
  {
    match c
    case ValueCtx(p, _, _) => GovernsLinear(a, b, p);
    case CancelCtx(p, _) => if a != c && b != c { GovernsLinear(a, b, p); }
    case TimerCtx(p, _, _) => if a != c && b != c { GovernsLinear(a, b, p); }
  }

  /** Subtrees of two different children of one context share nothing. */
  lemma {:induction false} SiblingsDisjoint(a: Context, b: Context, c: Context)
    requires Governs(a, c) && Governs(b, c) && Cancelable(a) && Cancelable(b)
    requires Up(a).Some? && Up(a) == Up(b)
    ensures a == b
  {
    GovernsLinear(a, b, c);
    GovernsUp(a, b);
    GovernsUp(b, a);
    if a != b {
      if Governs(a, b) { GovernsSize(a, Up(b).value); GovernsUp(a, a); }
      else { GovernsSize(b, Up(a).value); GovernsUp(b, b); }
    }
  }

  /** The members of s registered with d. */
  ghost function KidsIn(s: set<Context>, d: Context): set<Context> {
    set e | e in s && Cancelable(e) && Up(e) == Some(d)
  }

  ghost function Below(s: set<Context>, k: Context): set<Context> {
    set d | d in s && Governs(k, d)
  }

  /** s holds c, lies below c, and with every other member its registration parent. */
  ghost predicate TreeOf(s: set<Context>, c: Context) {
    forall d <- s :: Governs(c, d) && Cancelable(d) && (d != c ==> Up(d).Some? && Up(d).value in s)
  }

  lemma {:induction false} BelowAKid(s: set<Context>, c: Context, d: Context) returns (kid: Context)
    requires TreeOf(s, c) && d in s && d != c
    ensures kid in KidsIn(s, c) && Governs(kid, d)
    decreases Size(d)
  {
    GovernsUp(c, d);
    var p := Up(d).value;
    if p == c {
      GovernsUp(d, d);
      kid := d;
    } else {
      kid := BelowAKid(s, c, p);
      GovernsUp(kid, d);
    }
  }

  /** What lies below one child is again such a tree, and keeps its children. */
  lemma SubtreeOfKid(s: set<Context>, c: Context, kid: Context)
    requires TreeOf(s, c) && kid in KidsIn(s, c) && c in s
    ensures TreeOf(Below(s, kid), kid) && kid in Below(s, kid) && Below(s, kid) < s
    ensures forall d <- Below(s, kid) :: KidsIn(Below(s, kid), d) == KidsIn(s, d)
  {
    GovernsUp(kid, kid);
    if Governs(kid, c) { GovernsSize(kid, c); }
    forall d | d in Below(s, kid)
      ensures d != kid ==> Up(d).value in Below(s, kid)
      ensures KidsIn(Below(s, kid), d) == KidsIn(s, d)
    {
      GovernsUp(kid, d);
      GovernsSize(kid, d);
      if d == c { GovernsSize(kid, c); GovernsUp(kid, kid); }
      forall e | e in KidsIn(s, d)
        ensures e in Below(s, kid)
      {
        GovernsUp(kid, e);
      }
    }
  }

  // ---------------------------------------------------------------- the log

  lemma {:induction false} OutcomeAppend(log: seq<Event>, e: Event, c: Context)
    ensures Outcome(log + [e], c) ==
            if Outcome(log, c).Some? then Outcome(log, c)
            else if Governs(e.target, c) then Some(e) else None
  {
    if log == [] {
      assert ([] + [e])[1..] == [];
    } else {
      assert (log + [e])[1..] == log[1..] + [e];
      OutcomeAppend(log[1..], e, c);
    }
  }

  // ---------------------------------------------------------------- states and invariant

  predicate Closed(ch: Chan) {
    ch == ClosedChan || ch == Own(true)
  }

  /** What cancel makes of a done channel: close it, or store the shared closed one. */
  function CloseChan(ch: Chan): Chan {
    if ch == NoChan then ClosedChan else Own(true)
  }

  /** What the first cancellation of a context leaves in its cell. */
  function Canceling(s: CtxState, err: Error, why: Error): CtxState {
    CtxState(CloseChan(s.done), {}, Some(err), Some(why), Unarmed)
  }

  function Why(err: Error, cause: Option<Error>): Error {
    if cause.Some? then cause.value else err
  }

  ghost function LiveUnder(v: View, c: Context): set<Context> {
    set d | d in v && v[d].err == None && Governs(c, d)
  }

  ghost function LiveKids(v: View, c: Context): set<Context> {
    set d | d in v && Cancelable(d) && Up(d) == Some(c) && v[d].err == None
  }

  /** Cancellation of c as one update: every live context c governs, and no other. */
  ghost function CancelAll(v: View, s: set<Context>, err: Error, why: Error): View {
    map d | d in v :: if d in s then Canceling(v[d], err, why) else v[d]
  }

  ghost function CancelSpec(v: View, c: Context, err: Error, why: Error): View
    requires c in v
  {
    if v[c].err == None then CancelAll(v, LiveUnder(v, c), err, why) else v
  }

  /** removeChild: c leaves the children set it is registered in. */
  ghost function Detach(v: View, c: Context): View {
    if Cancelable(c) && Up(c).Some? && Up(c).value in v then
      var p := Up(c).value;
      v[p := v[p].(children := v[p].children - {c})]
    else v
  }

  ghost predicate Shape(v: View) {
    && (forall c <- v :: Cancelable(c) && (Up(c).Some? ==> Up(c).value in v))
    && (forall c <- v, d <- v :: c.cell == d.cell ==> c == d)
  }

  /** Below c every live context is reachable from c through children sets alone. */
  ghost predicate Consistent(v: View, c: Context) {
    var s := LiveUnder(v, c);
    && TreeOf(s, c)
    && forall d <- s ::
      v[d].children == KidsIn(s, d) && !Closed(v[d].done) && (d.CancelCtx? ==> v[d].timer == Unarmed)
  }

  /** Cancellation reaches a whole subtree, so that the children sets of the survivors stay exact. */
  ghost predicate StateOf(v: View, c: Context, o: Option<Event>)
    requires c in v
  {
    if o == None then
      && v[c].err == None && v[c].cause == None && !Closed(v[c].done)
      && v[c].children == LiveKids(v, c)
      && (c.CancelCtx? ==> v[c].timer == Unarmed)
    else
      && v[c].err == Some(o.value.err) && v[c].cause == Some(o.value.cause)
      && Closed(v[c].done) && v[c].children == {} && v[c].timer == Unarmed
  }

  ghost predicate Inv(v: View, log: seq<Event>) {
    && Shape(v)
    && (forall e <- log :: e.target in v)
    && (forall c <- v :: StateOf(v, c, Outcome(log, c)))
  }

  lemma {:induction false} OutcomeDescends(log: seq<Event>, a: Context, c: Context)
    requires Governs(a, c) && Outcome(log, a).Some?
    ensures Outcome(log, c).Some?
  {
    if Governs(log[0].target, a) {
      GovernsTransitive(log[0].target, a, c);
    } else if !Governs(log[0].target, c) {
      OutcomeDescends(log[1..], a, c);
    }
  }

  lemma InvConsistent(v: View, log: seq<Event>, c: Context)
    requires Inv(v, log) && c in v
    ensures Consistent(v, c)
  {
    var s := LiveUnder(v, c);
    forall d <- s
      ensures d != c ==> Up(d).Some? && Up(d).value in s
      ensures v[d].children == KidsIn(s, d)
    {
      GovernsUp(c, d);
      if d != c {
        var p := Up(d).value;
        GovernsUp(p, d);
        NearestGoverns(d.parent);
        assert StateOf(v, p, Outcome(log, p)) && StateOf(v, d, Outcome(log, d));
        if Outcome(log, p).Some? { OutcomeDescends(log, p, d); }
      }
      assert StateOf(v, d, Outcome(log, d));
      forall e | e in v && Cancelable(e) && Up(e) == Some(d)
        ensures Governs(c, e)
      {
        GovernsUp(c, e);
      }
    }
  }

  /** The children of a live context split what lies below it. */
  lemma KidsSplit(v: View, c: Context)
    requires Consistent(v, c) && c in v && v[c].err == None && Cancelable(c)
    ensures c in LiveUnder(v, c)
    ensures forall k <- v[c].children :: k in LiveUnder(v, c) && k != c && c !in Below(LiveUnder(v, c), k)
    ensures forall k <- v[c].children, l <- v[c].children | k != l :: Below(LiveUnder(v, c), k) !! Below(LiveUnder(v, c), l)
    ensures forall d <- LiveUnder(v, c) | d != c :: exists k <- v[c].children :: Governs(k, d)
  {
    GovernsUp(c, c);
    var s := LiveUnder(v, c);
    forall k <- v[c].children
      ensures k != c && c !in Below(s, k)
    {
      GovernsUp(k, k);
      if Governs(k, c) { GovernsSize(k, c); }
    }
    forall k <- v[c].children, l <- v[c].children | k != l
      ensures Below(s, k) !! Below(s, l)
    {
      forall d <- s | Governs(k, d) && Governs(l, d)
        ensures false
      {
        SiblingsDisjoint(k, l, d);
      }
    }
    forall d <- s | d != c
      ensures exists k <- v[c].children :: Governs(k, d)
    {
      var k := BelowAKid(s, c, d);
    }
  }

  /** A context out of reach of c keeps its live children, except c itself. */
  lemma OutOfReach(v: View, c: Context, err: Error, why: Error, d: Context)
    requires Shape(v) && c in v && d in v && !Governs(c, d)
    requires v[c].err != None ==> LiveUnder(v, c) == {}
    ensures var w := Detach(CancelSpec(v, c, err, why), c);
            w.Keys == v.Keys && LiveKids(w, d) == LiveKids(v, d) - {c}
            && w[d] == v[d].(children := if Up(c) == Some(d) then v[d].children - {c} else v[d].children)
  {
    hide Detach, CancelSpec, LiveKids;
    var u := CancelSpec(v, c, err, why);
    CancelSpecIs(v, c, err, why);
    DetachIs(u, c);
    OutOfReachKids(v, c, err, why, d);
  }

  lemma OutOfReachKids(v: View, c: Context, err: Error, why: Error, d: Context)
    requires Shape(v) && c in v && d in v && !Governs(c, d)
    requires v[c].err != None ==> LiveUnder(v, c) == {}
    ensures LiveKids(Detach(CancelSpec(v, c, err, why), c), d) == LiveKids(v, d) - {c}
  {
    hide Detach, CancelSpec, Governs, Nearest, Up, LiveUnder;
    var u := CancelSpec(v, c, err, why);
    LiveAfter(v, c, err, why);
    GovernsUp(c, c);
    forall k | k in v && Up(k) == Some(d)
      ensures Governs(c, k) <==> k == c
    {
      GovernsUp(c, k);
    }
  }

  /** Live is what was live and is not below c. */
  lemma LiveAfter(v: View, c: Context, err: Error, why: Error)
    requires Cancelable(c) && c in v && (v[c].err != None ==> LiveUnder(v, c) == {})
    ensures var w := Detach(CancelSpec(v, c, err, why), c);
            w.Keys == v.Keys && forall k <- v :: w[k].err == None <==> v[k].err == None && !Governs(c, k)
  {
    hide Detach, CancelSpec, Governs, Nearest, Up;
    CancelSpecIs(v, c, err, why);
    DetachIs(CancelSpec(v, c, err, why), c);
    assert forall k <- v :: k in LiveUnder(v, c) <==> v[k].err == None && Governs(c, k);
  }

  lemma CancelSpecIs(v: View, c: Context, err: Error, why: Error)
    requires c in v && (v[c].err != None ==> LiveUnder(v, c) == {})
    ensures var w := CancelSpec(v, c, err, why);
            w.Keys == v.Keys && forall d <- v :: w[d] == if d in LiveUnder(v, c) then Canceling(v[d], err, why) else v[d]
  {
  }

  lemma DetachIs(v: View, c: Context)
    requires Cancelable(c)
    ensures var w := Detach(v, c);
            w.Keys == v.Keys
            && forall d <- v :: w[d] == v[d].(children := if Up(c) == Some(d) then v[d].children - {c} else v[d].children)
  {
  }

  /** A context below c ends up canceled, by this event if it was live. */
  lemma WithinReach(v: View, c: Context, err: Error, why: Error, d: Context)
    requires Shape(v) && c in v && d in v && Governs(c, d)
    requires v[c].err != None ==> v[d].err != None
    ensures var w := Detach(CancelSpec(v, c, err, why), c);
            w.Keys == v.Keys && w[d] == if v[d].err == None then Canceling(v[d], err, why) else v[d]
  {
    NearestGoverns(c.parent);
    GovernsUp(c, c);
    GovernsSize(c, d);
    var w := Detach(CancelSpec(v, c, err, why), c);
    assert w.Keys == v.Keys;
  }

  /** Nothing below a canceled context is live. */
  lemma NoneLiveBelow(v: View, log: seq<Event>, c: Context)
    requires Inv(v, log) && c in v && v[c].err != None
    ensures LiveUnder(v, c) == {}
  {
    assert StateOf(v, c, Outcome(log, c));
    forall d | d in v && Governs(c, d)
      ensures v[d].err != None
    {
      OutcomeDescends(log, c, d);
      assert StateOf(v, d, Outcome(log, d));
    }
  }

  lemma CancelKeepsState(v: View, log: seq<Event>, c: Context, err: Error, why: Error, d: Context)
    requires Inv(v, log) && c in v && d in v
    ensures var w := Detach(CancelSpec(v, c, err, why), c);
            w.Keys == v.Keys && StateOf(w, d, Outcome(log + [Event(c, err, why)], d))
  {
    hide Detach, CancelSpec;
    OutcomeAppend(log, Event(c, err, why), d);
    assert StateOf(v, d, Outcome(log, d));
    if v[c].err != None { NoneLiveBelow(v, log, c); }
    if Governs(c, d) {
      assert v[c].err != None ==> d !in LiveUnder(v, c);
      WithinReach(v, c, err, why, d);
    } else {
      OutOfReach(v, c, err, why, d);
    }
  }

  /** Logging a cancellation, canceling what it reaches and detaching its target keeps the invariant. */
  lemma CancelKeepsInv(v: View, log: seq<Event>, c: Context, err: Error, why: Error)
    requires Inv(v, log) && c in v
    ensures Inv(Detach(CancelSpec(v, c, err, why), c), log + [Event(c, err, why)])
  {
    var w := Detach(CancelSpec(v, c, err, why), c);
    CancelKeepsState(v, log, c, err, why, c);
    forall d <- w
      ensures StateOf(w, d, Outcome(log + [Event(c, err, why)], d))
    {
      CancelKeepsState(v, log, c, err, why, d);
    }
  }

  /** The tree while c's cancel loop runs and the contexts in cut are done. */
  ghost function Midway(v: View, c: Context, cut: set<Context>, err: Error, why: Error): View
    requires c in v
  {
    CancelAll(v, cut, err, why)[c := Canceling(v[c], err, why).(children := v[c].children, timer := v[c].timer)]
  }

  lemma MidwayStarts(v: View, c: Context, err: Error, why: Error)
    requires Shape(v) && c in v && v[c].err == None && Consistent(v, c)
    ensures Midway(v, c, {}, err, why) == v[c := Canceling(v[c], err, why).(children := v[c].children, timer := v[c].timer)]
    ensures !Closed(v[c].done) && c in LiveUnder(v, c)
  {
    GovernsUp(c, c);
  }

  /** cut is what lies below the children that the loop is done with. */
  ghost predicate CutFor(s: set<Context>, kids: set<Context>, todo: set<Context>, cut: set<Context>) {
    forall k <- kids :: if k in todo then Below(s, k) !! cut else Below(s, k) <= cut
  }

  lemma CutNone(v: View, c: Context)
    requires Consistent(v, c) && c in v && v[c].err == None && Cancelable(c)
    ensures CutFor(LiveUnder(v, c), v[c].children, v[c].children, {}) && c in LiveUnder(v, c)
  {
    GovernsUp(c, c);
  }

  lemma CutMore(v: View, c: Context, todo: set<Context>, cut: set<Context>, kid: Context)
    requires Consistent(v, c) && c in v && v[c].err == None && Cancelable(c)
    requires kid in todo && kid in v[c].children && CutFor(LiveUnder(v, c), v[c].children, todo, cut)
    ensures var s := LiveUnder(v, c); CutFor(s, v[c].children, todo - {kid}, cut + Below(s, kid))
    ensures Below(LiveUnder(v, c), kid) !! cut && Below(LiveUnder(v, c), kid) <= LiveUnder(v, c) && c !in Below(LiveUnder(v, c), kid)
  {
    hide LiveUnder, Below, Consistent;
    KidsSplit(v, c);
    BelowIsPart(LiveUnder(v, c), kid);
  }

  lemma BelowIsPart(s: set<Context>, k: Context)
    ensures Below(s, k) <= s
  {
  }

  lemma CutAll(v: View, c: Context, cut: set<Context>)
    requires Consistent(v, c) && c in v && v[c].err == None && Cancelable(c)
    requires cut <= LiveUnder(v, c) && CutFor(LiveUnder(v, c), v[c].children, {}, cut)
    ensures cut + {c} == LiveUnder(v, c)
  {
    KidsSplit(v, c);
    forall d <- LiveUnder(v, c) | d != c
      ensures d in cut
    {
      var k :| k in v[c].children && Governs(k, d);
      assert d in Below(LiveUnder(v, c), k);
    }
  }

  /** The subtree of a child that the loop has not reached is intact. */
  lemma KidIntact(v: View, c: Context, cut: set<Context>, kid: Context, err: Error, why: Error)
    requires Shape(v) && c in v && v[c].err == None && Consistent(v, c)
    requires c !in cut && cut <= LiveUnder(v, c) && kid in v[c].children
    requires Below(LiveUnder(v, c), kid) !! cut
    ensures var m, s := Midway(v, c, cut, err, why), Below(LiveUnder(v, c), kid);
            && kid in s && s < LiveUnder(v, c) && c !in s && TreeOf(s, kid)
            && LiveUnder(m, kid) == s && (forall d <- s :: m[d] == v[d] && v[d].children == KidsIn(s, d))
  {
    hide Midway;
    KidTree(v, c, kid);
    MidwayIs(v, c, cut, err, why);
    var m, s := Midway(v, c, cut, err, why), Below(LiveUnder(v, c), kid);
    forall d | d in v && Governs(kid, d)
      ensures Governs(c, d)
    {
      GovernsTransitive(c, kid, d);
    }
    assert LiveUnder(m, kid) == s;
  }

  lemma KidTree(v: View, c: Context, kid: Context)
    requires Shape(v) && c in v && v[c].err == None && Consistent(v, c) && kid in v[c].children
    ensures var s := Below(LiveUnder(v, c), kid);
            && kid in s && s < LiveUnder(v, c) && c !in s && TreeOf(s, kid) && Governs(c, kid)
            && forall d <- s :: v[d].children == KidsIn(s, d)
  {
    KidsSplit(v, c);
    SubtreeOfKid(LiveUnder(v, c), c, kid);
  }

  lemma MidwayIs(v: View, c: Context, cut: set<Context>, err: Error, why: Error)
    requires c in v
    ensures var m := Midway(v, c, cut, err, why);
            m.Keys == v.Keys && forall d <- v :: if d == c || d in cut then m[d].err == Some(err) else m[d] == v[d]
  {
  }

  lemma CancelDone(v: View, c: Context, err: Error, why: Error)
    requires c in v && v[c].err == None && c in LiveUnder(v, c)
    ensures var m, w := Midway(v, c, LiveUnder(v, c) - {c}, err, why), CancelSpec(v, c, err, why);
            m[c := m[c].(children := {})] == w[c := w[c].(timer := v[c].timer)]
  {
  }

  /** The loop may cancel one more child, and that touches its subtree only. */
  lemma CancelNextKid(v: View, c: Context, cut: set<Context>, kid: Context, err: Error, why: Error)
    requires Shape(v) && c in v && v[c].err == None && Consistent(v, c)
    requires c !in cut && cut <= LiveUnder(v, c) && kid in v[c].children
    requires Below(LiveUnder(v, c), kid) !! cut
    ensures var m, s := Midway(v, c, cut, err, why), Below(LiveUnder(v, c), kid);
            && Shape(m) && kid in m && m[kid].err == None && (kid.CancelCtx? ==> m[kid].timer == Unarmed)
            && LiveUnder(m, kid) == s && s < LiveUnder(v, c) && c !in s && Consistent(m, kid)
            && CancelSpec(m, kid, err, why) == Midway(v, c, cut + s, err, why)
  {
    KidIntact(v, c, cut, kid, err, why);
    var m, s := Midway(v, c, cut, err, why), Below(LiveUnder(v, c), kid);
    assert m.Keys == v.Keys;
    CancelAllTwice(v, c, cut, s, err, why);
  }

  lemma CancelAllTwice(v: View, c: Context, cut: set<Context>, s: set<Context>, err: Error, why: Error)
    requires c in v && c !in s && s !! cut
    ensures CancelAll(Midway(v, c, cut, err, why), s, err, why) == Midway(v, c, cut + s, err, why)
  {
  }

  lemma {:induction false} OutcomeOfNearest(log: seq<Event>, c: Context)
    ensures Outcome(log, c) == if Nearest(c).Some? then Outcome(log, Nearest(c).value) else None
  {
    if log != [] {
      NearestGoverns(c);
      OutcomeOfNearest(log[1..], c);
    }
  }

  /** A canceled context is not registered anywhere, and its parent's state does not depend on it. */
  lemma CanceledIsDetached(v: View, log: seq<Event>, c: Context)
    requires Inv(v, log) && c in v
    ensures v[c].err != None ==> Detach(v, c) == v && v[c].timer == Unarmed
    ensures c.CancelCtx? ==> v[c].timer == Unarmed
    ensures Up(c).Some? ==> Up(c).value in v && !Governs(c, Up(c).value) &&
                            (v[Up(c).value].done == ClosedChan ==> v[Up(c).value].children == {})
  {
    assert StateOf(v, c, Outcome(log, c));
    if Up(c).Some? {
      GovernsUp(c, c);
      if Governs(c, Up(c).value) { GovernsSize(c, Up(c).value); }
      var p := Up(c).value;
      assert StateOf(v, p, Outcome(log, p));
      if v[c].err != None {
        assert c !in v[p].children;
        assert v[p].children - {c} == v[p].children;
      }
    }
  }

  /** Making the parent's done channel before or after detaching c comes to the same. */
  lemma DetachMakeDone(v: View, c: Context)
    requires Shape(v) && c in v && Up(c).Some? && Up(c).value in v
    ensures Detach(MakeDone(v, Up(c).value), c) == MakeDone(Detach(v, c), Up(c).value)
    ensures Touched(Detach(v, c), MakeDone(Detach(v, c), Up(c).value))
  {
  }

  /** The whole of cancel(true, err, cause), the lazy making of the parent's done channel included. */
  ghost function CancelFully(v: View, c: Context, err: Error, why: Error): View
    requires c in v && Cancelable(c)
  {
    var w := CancelSpec(v, c, err, why);
    if c.CancelCtx? && v[c].err != None then v
    else Detach(if Up(c).Some? then MakeDone(w, Up(c).value) else w, c)
  }

  /** The timer of a new context is set, unless its deadline has passed or it is canceled already. */
  ghost function Timed(v: View, c: Context, now: int, cause: Option<Error>): View
    requires c in v && c.TimerCtx?
  {
    if c.deadline <= now then CancelFully(v, c, DeadlineExceeded, Why(DeadlineExceeded, cause))
    else if v[c].err == None then v[c := v[c].(timer := Armed(cause))]
    else v
  }

  /** What a call of a cancel function relies on. */
  lemma CancelReady(v: View, log: seq<Event>, c: Context, err: Error, why: Error)
    requires Inv(v, log) && c in v
    ensures Shape(v) && Consistent(v, c) && ((c.CancelCtx? || v[c].err != None) ==> v[c].timer == Unarmed)
    ensures CancelSpec(v, c, err, why).Keys == v.Keys
    ensures Up(c).Some? ==> var p, w := Up(c).value, CancelSpec(v, c, err, why);
                            p in v && w[p] == v[p] && (w[p].done == ClosedChan ==> w[p].children == {})
  {
    InvConsistent(v, log, c);
    CanceledIsDetached(v, log, c);
  }

  /** A call of a cancel function keeps the invariant. */
  lemma CancelFullyKeepsInv(v: View, log: seq<Event>, c: Context, err: Error, why: Error)
    requires Inv(v, log) && c in v
    ensures Inv(CancelFully(v, c, err, why), log + [Event(c, err, why)])
  {
    var w := CancelSpec(v, c, err, why);
    CancelReady(v, log, c, err, why);
    CancelKeepsInv(v, log, c, err, why);
    CanceledIsDetached(v, log, c);
    hide StateOf, Consistent;
    assert Shape(w);
    if c.CancelCtx? && v[c].err != None {
      assert w == v;
    } else if Up(c).Some? {
      DetachMakeDone(w, c);
      TouchKeepsInv(Detach(w, c), Detach(MakeDone(w, Up(c).value), c), log + [Event(c, err, why)]);
    }
  }

  // ---------------------------------------------------------------- registration

  ghost function MakeDone(v: View, p: Context): View {
    if p in v && v[p].done == NoChan then v[p := v[p].(done := Own(false))] else v
  }

  const Fresh := CtxState(NoChan, {}, None, None, Unarmed)

  /** propagateCancel: a new child joins its live parent's children, or takes over its parent's cancellation. */
  ghost function Register(v: View, c: Context): View {
    if !Cancelable(c) || Up(c) == None || Up(c).value !in v then v[c := Fresh]
    else
      var p := Up(c).value;
      if v[p].err.Some? && v[p].cause.Some? then v[c := Canceling(Fresh, v[p].err.value, v[p].cause.value)]
      else v[c := Fresh][p := v[p].(children := v[p].children + {c})]
  }

  /** Only the making of a done channel and the arming of a live timer leave the rest of a state alone. */
  ghost predicate Touched(v: View, w: View) {
    && w.Keys == v.Keys
    && forall c <- v ::
      && w[c].err == v[c].err && w[c].cause == v[c].cause && w[c].children == v[c].children
      && (Closed(w[c].done) <==> Closed(v[c].done))
      && (w[c].timer == v[c].timer || w[c].timer == Unarmed || (c.TimerCtx? && v[c].err == None))
  }

  lemma TouchKeepsInv(v: View, w: View, log: seq<Event>)
    requires Inv(v, log) && Touched(v, w)
    ensures Inv(w, log)
  {
    forall c <- w
      ensures StateOf(w, c, Outcome(log, c))
    {
      assert StateOf(v, c, Outcome(log, c));
      assert LiveKids(w, c) == LiveKids(v, c);
    }
  }

  lemma {:induction false} OutcomeOfNew(v: View, log: seq<Event>, c: Context)
    requires Cancelable(c) && c !in v && forall e <- log :: e.target in v
    ensures Outcome(log, c) == if Up(c).Some? then Outcome(log, Up(c).value) else None
  {
    if log != [] {
      GovernsUp(log[0].target, c);
      NearestGoverns(c.parent);
      OutcomeOfNew(v, log[1..], c);
    }
  }

  lemma RegisterKids(v: View, c: Context, d: Context)
    requires Shape(v) && Cancelable(c) && c !in v && (Up(c).Some? ==> Up(c).value in v) && d in v
    ensures var w := Register(v, c);
            w.Keys == v.Keys + {c}
            && LiveKids(w, d) == LiveKids(v, d) + (if Up(c) == Some(d) && w[c].err == None then {c} else {})
  {
    var w := Register(v, c);
    assert w.Keys == v.Keys + {c};
    assert forall e <- v :: w[e].err == v[e].err;
  }

  lemma RegisterKeepsState(v: View, log: seq<Event>, c: Context, d: Context)
    requires Inv(v, log) && Cancelable(c) && c !in v && (Up(c).Some? ==> Up(c).value in v)
    requires d in v
    ensures d in Register(v, c) && StateOf(Register(v, c), d, Outcome(log, d))
  {
    var o := Outcome(log, d);
    assert StateOf(v, d, o);
    RegisterKids(v, c, d);
    if Up(c) == Some(d) {
      assert o == None ==> Register(v, c)[d].children == v[d].children + {c};
    } else {
      assert Register(v, c)[d] == v[d];
    }
  }

  lemma RegisterState(v: View, log: seq<Event>, c: Context)
    requires Inv(v, log) && Cancelable(c) && c !in v && (Up(c).Some? ==> Up(c).value in v)
    ensures c in Register(v, c) && StateOf(Register(v, c), c, Outcome(log, c))
  {
    OutcomeOfNew(v, log, c);
    GovernsUp(c, c);
    if Up(c).Some? {
      assert StateOf(v, Up(c).value, Outcome(log, Up(c).value));
    }
    assert LiveKids(Register(v, c), c) == {};
  }

  /** A new context starts in the state that the events so far give it. */
  lemma RegisterKeepsInv(v: View, log: seq<Event>, c: Context)
    requires Inv(v, log) && Cancelable(c) && c !in v && (Up(c).Some? ==> Up(c).value in v)
    requires forall d <- v :: d.cell != c.cell
    ensures Inv(Register(v, c), log)
  {
    hide Register, StateOf, Outcome, Governs, Up;
    var w := Register(v, c);
    RegisterState(v, log, c);
    RegisterShape(v, c);
    forall d <- w
      ensures StateOf(w, d, Outcome(log, d))
    {
      if d != c { RegisterKeepsState(v, log, c, d); }
    }
  }

  lemma RegisterShape(v: View, c: Context)
    requires Shape(v) && Cancelable(c) && c !in v && (Up(c).Some? ==> Up(c).value in v)
    requires forall d <- v :: d.cell != c.cell
    ensures Register(v, c).Keys == v.Keys + {c} && Shape(Register(v, c))
  {
    hide Up;
    RegisterKeys(v, c);
    hide Register;
  }

  lemma RegisterKeys(v: View, c: Context)
    requires Cancelable(c) && c !in v
    ensures Register(v, c).Keys == v.Keys + {c}
  {
    hide Up;
  }

  /** A context whose cell is new is nowhere in the tree, and nothing lies below it. */
  lemma LoneUnder(v: View, log: seq<Event>, c: Context)
    requires Inv(v, log) && Cancelable(c) && c !in v && (Up(c).Some? ==> Up(c).value in v)
    requires forall d <- v :: d.cell != c.cell
    ensures Shape(v) && Shape(v[c := Fresh]) && LiveUnder(v[c := Fresh], c) == {c}
    ensures Up(c) != Some(c)
    ensures Up(c).Some? ==> (v[Up(c).value].err.Some? ==> v[Up(c).value].cause.Some?)
                            && (v[Up(c).value].err.Some? <==> Closed(v[Up(c).value].done))
  {
    GovernsUp(c, c);
    if Up(c).Some? { assert StateOf(v, Up(c).value, Outcome(log, Up(c).value)); }
    forall d <- v
      ensures !Governs(c, d)
    {
      if Governs(c, d) { GovernorsKnown(v, c, d); }
    }
  }

  lemma {:induction false} GovernorsKnown(v: View, a: Context, c: Context)
    requires Shape(v) && c in v && Governs(a, c)
    ensures a in v
    decreases Size(c)
  {
    GovernsUp(a, c);
    if a != c { GovernorsKnown(v, a, Up(c).value); }
  }

  lemma LoneConsistent(v: View, c: Context, err: Error, why: Error)
    requires c in v && Cancelable(c) && v[c] == Fresh && LiveUnder(v, c) == {c}
    ensures Consistent(v, c)
    ensures CancelSpec(v, c, err, why) == v[c := Canceling(Fresh, err, why)]
  {
    GovernsUp(c, c);
  }

  /** The state a new context starts in, from the events so far. */
  lemma RegisterCases(v: View, log: seq<Event>, c: Context)
    requires Inv(v, log) && Cancelable(c) && c !in v && (Up(c).Some? ==> Up(c).value in v)
    ensures Up(c) == None ==> Register(v, c) == v[c := Fresh] && Outcome(log, c.parent) == None
    ensures Up(c).Some? && Closed(v[Up(c).value].done) ==>
              var o := Outcome(log, c.parent);
              o.Some? && Register(v, c) == v[c := Canceling(Fresh, o.value.err, o.value.cause)]
  {
    OutcomeOfNearest(log, c.parent);
    if Up(c).Some? { assert StateOf(v, Up(c).value, Outcome(log, Up(c).value)); }
  }

  lemma MakeDoneKeepsInv(v: View, log: seq<Event>, p: Option<Context>)
    requires Inv(v, log)
    ensures p.Some? ==> Inv(MakeDone(v, p.value), log)
  {
    if p.Some? { TouchKeepsInv(v, MakeDone(v, p.value), log); }
  }

  ghost function WithParentDone(v: View, c: Context): View
    requires Cancelable(c)
  {
    if Up(c).Some? then MakeDone(v, Up(c).value) else v
  }

  /** What propagateCancel relies on, and that it keeps the invariant. */
  lemma PropagatePlan(v0: View, log: seq<Event>, c: Context)
    requires Inv(v0, log) && Cancelable(c) && c !in v0 && (Up(c).Some? ==> Up(c).value in v0)
    requires forall d <- v0 :: d.cell != c.cell
    ensures var v := WithParentDone(v0, c);
            && Shape(v0) && Inv(v, log) && Inv(Register(v, c), log)
            && (Up(c) == None ==> Register(v, c) == v[c := Fresh])
            && (Up(c).Some? && Closed(v[Up(c).value].done) ==>
                  var o := Outcome(log, c.parent);
                  o.Some? && Register(v, c) == v[c := Canceling(Fresh, o.value.err, o.value.cause)])
  {
    LoneUnder(v0, log, c);
    MakeDoneKeepsInv(v0, log, Up(c));
    var v := WithParentDone(v0, c);
    RegisterCases(v, log, c);
    RegisterKeepsInv(v, log, c);
  }

  /** The target of the latest event is canceled, and its timer is stopped. */
  lemma CanceledNow(v: View, log: seq<Event>, e: Event)
    requires Inv(v, log + [e]) && e.target in v
    ensures v[e.target].err != None && v[e.target].timer == Unarmed
  {
    OutcomeAppend(log, e, e.target);
    GovernsUp(e.target, e.target);
    assert StateOf(v, e.target, Outcome(log + [e], e.target));
  }

  /** An event reaches the live contexts that its target governs, and no others. */
  lemma EventReaches(v: View, w: View, log: seq<Event>, e: Event, d: Context)
    requires Inv(v, log) && Inv(w, log + [e]) && d in v && d in w
    ensures if v[d].err == None && Governs(e.target, d) then w[d].err == Some(e.err) && w[d].cause == Some(e.cause)
            else w[d].err == v[d].err && w[d].cause == v[d].cause
  {
    OutcomeAppend(log, e, d);
    assert StateOf(v, d, Outcome(log, d)) && StateOf(w, d, Outcome(log + [e], d));
  }

  /** A new context has the error and cause of its nearest cancelable parent, if that is canceled. */
  lemma NewInherits(v: View, w: View, log: seq<Event>, c: Context)
    requires Inv(v, log) && Inv(w, log) && Cancelable(c) && c !in v && c in w && (Up(c).Some? ==> Up(c).value in v)
    ensures w[c].err == if Up(c).Some? then v[Up(c).value].err else None
    ensures w[c].cause == if Up(c).Some? then v[Up(c).value].cause else None
  {
    OutcomeOfNew(v, log, c);
    assert StateOf(w, c, Outcome(log, c));
    if Up(c).Some? { assert StateOf(v, Up(c).value, Outcome(log, Up(c).value)); }
  }

  /** Canceling a timer context again changes nothing but its parent's done channel. */
  lemma LateCancel(v: View, log: seq<Event>, c: Context, err: Error, why: Error)
    requires Inv(v, log) && c in v && c.TimerCtx?
    ensures v[c].err.Some? ==> CancelFully(v, c, err, why) == WithParentDone(v, c)
  {
    if v[c].err.Some? {
      MakeDoneKeepsInv(v, log, Up(c));
      CanceledIsDetached(WithParentDone(v, c), log, c);
    }
  }

  lemma NewIsUnarmed(v: View, log: seq<Event>, c: Context)
    requires Cancelable(c)
    ensures c in Register(v, c) && Register(v, c)[c].timer == Unarmed
  {
    NearestGoverns(c.parent);
    if Up(c) == Some(c) { GovernsUp(c, c); }
  }

  // ---------------------------------------------------------------- what the log says

  /** Once canceled, a context keeps its error and its cause through every later event. */
  lemma {:induction false} FirstCauseStays(log: seq<Event>, more: seq<Event>, c: Context)
    requires Outcome(log, c).Some?
    ensures Outcome(log + more, c) == Outcome(log, c)
  {
    assert (log + more)[0] == log[0];
    if !Governs(log[0].target, c) {
      assert (log + more)[1..] == log[1..] + more;
      FirstCauseStays(log[1..], more, c);
    }
  }

  /** Outcome is the first event whose target is c or an ancestor that c is not cut off from. */
  lemma {:induction false} OutcomeIsEarliest(log: seq<Event>, c: Context)
    ensures Outcome(log, c) == None <==> forall e <- log :: !Governs(e.target, c)
    ensures Outcome(log, c).Some? ==>
              exists i :: 0 <= i < |log| && Outcome(log, c) == Some(log[i]) && Governs(log[i].target, c)
                          && forall j :: 0 <= j < i ==> !Governs(log[j].target, c)
  {
    if log != [] && !Governs(log[0].target, c) {
      OutcomeIsEarliest(log[1..], c);
      assert forall e :: e in log <==> e == log[0] || e in log[1..];
      if Outcome(log, c).Some? {
        var i :| 0 <= i < |log| - 1 && Outcome(log[1..], c) == Some(log[1..][i]) && Governs(log[1..][i].target, c)
                 && forall j :: 0 <= j < i ==> !Governs(log[1..][j].target, c);
        assert log[i + 1] == log[1..][i];
        forall j | 0 <= j < i + 1
          ensures !Governs(log[j].target, c)
        {
          if j > 0 { assert log[j] == log[1..][j - 1]; }
        }
      }
    }
  }

  /** A context is canceled, with its done channel closed, exactly when it or a governing ancestor was. */
  lemma CanceledExactly(v: View, log: seq<Event>, c: Context)
    requires Inv(v, log) && c in v
    ensures v[c].err.Some? <==> exists e <- log :: Governs(e.target, c)
    ensures Closed(v[c].done) <==> exists e <- log :: Governs(e.target, c)
    ensures v[c].err == None ==> v[c].children == LiveKids(v, c)
  {
    OutcomeIsEarliest(log, c);
    assert StateOf(v, c, Outcome(log, c));
  }

  /** The two orders of canceling a parent and its child, as CancelCauseFunc's documentation tells them. */
  lemma CauseOrder(v: View, log: seq<Event>, child: Context, cause1: Error, cause2: Error)
    requires Inv(v, log) && child in v && v[child].err == None && Up(child).Some? && v[Up(child).value].err == None
    ensures var parent := Up(child).value; var p, c := Event(parent, Canceled, cause1), Event(child, Canceled, cause2);
            && Outcome(log + [p] + [c], parent) == Outcome(log + [p] + [c], child) == Some(p)
            && Outcome(log + [c] + [p], parent) == Some(p)
            && Outcome(log + [c] + [p], child) == Some(c)
  {
    var parent := Up(child).value;
    var p, c := Event(parent, Canceled, cause1), Event(child, Canceled, cause2);
    assert StateOf(v, parent, Outcome(log, parent)) && StateOf(v, child, Outcome(log, child));
    GovernsUp(child, child);
    GovernsUp(parent, parent);
    GovernsUp(parent, child);
    if Governs(child, parent) { GovernsSize(child, parent); }
    OutcomeAppend(log, p, parent);
    OutcomeAppend(log, p, child);
    OutcomeAppend(log, c, parent);
    OutcomeAppend(log, c, child);
    OutcomeAppend(log + [p], c, parent);
    OutcomeAppend(log + [p], c, child);
    OutcomeAppend(log + [c], p, parent);
    OutcomeAppend(log + [c], p, child);
  }

  // ---------------------------------------------------------------- the operations

  /** All contexts made from one Background, and every cancellation so far. */
  class Tree {
    ghost var all: set<Context>
    ghost var cells: set<Cell>
    ghost var log: seq<Event>

    ghost predicate Framed()
      reads this
    {
      forall c <- all :: Cancelable(c) && c.cell in cells
    }

    ghost function View(): View
      requires Framed()
      reads this, cells
    {
      map c | c in all :: c.cell.State()
    }

    ghost predicate Valid()
      reads this, cells
    {
      Framed() && Inv(View(), log)
    }

    ghost predicate Has(c: Context)
      reads this
    {
      Nearest(c).Some? ==> Nearest(c).value in all
    }

    /** Error and cause of the cancelable context that c is, or is promoted from. */
    ghost function Recorded(c: Context): (Option<Error>, Option<Error>)
      requires Framed() && Has(c)
      reads this, cells
    {
      var m := Nearest(c);
      if m.Some? then (View()[m.value].err, View()[m.value].cause) else (None, None)
    }

    constructor ()
      ensures Valid() && all == {} && log == [] && cells == {}
    {
      all, cells, log := {}, {}, [];
    }

    /** cancelCtx.cancel, without the removal from the parent. */
    method CancelCtxCancel(c: Context, err: Error, cause: Option<Error>)
      requires Framed() && c in all && Shape(View()) && Consistent(View(), c)
      modifies cells
      ensures View() == var w := CancelSpec(old(View()), c, err, Why(err, cause)); w[c := w[c].(timer := old(c.cell.timer))]
      decreases LiveUnder(View(), c), 2
    {
      if c.cell.err != None {
        return;
      }
      hide Consistent, LiveUnder, CancelSpec, Midway;
      ghost var v := View();
      assert v[c] == c.cell.State();
      MidwayStarts(v, c, err, Why(err, cause));
      c.cell.err := Some(err);
      c.cell.cause := Some(Why(err, cause));
      assert !Closed(c.cell.done); // closing a closed channel would panic
      c.cell.done := if c.cell.done == NoChan then ClosedChan else Own(true);
      assert View() == v[c := Canceling(v[c], err, Why(err, cause)).(children := v[c].children, timer := v[c].timer)];
      CancelKids(c, err, cause, v);
      CancelDone(v, c, err, Why(err, cause));
      DropChildren(c);
    }

    /** c.children = nil */
    method DropChildren(c: Context)
      requires Framed() && c in all && Shape(View())
      modifies c.cell`children
      ensures View() == old(View())[c := old(View())[c].(children := {})]
    {
      assert c.cell.State() == View()[c];
      c.cell.children := {};
      assert forall d <- all | d != c :: View()[d] == old(View()[d]);
    }

    /** The loop of cancel over c.children. */
    method CancelKids(c: Context, err: Error, cause: Option<Error>, ghost v: View)
      requires Framed() && c in all && c in v && v[c].err == None && Shape(v) && Consistent(v, c)
      requires View() == Midway(v, c, {}, err, Why(err, cause))
      modifies cells
      ensures View() == Midway(v, c, LiveUnder(v, c) - {c}, err, Why(err, cause))
      decreases LiveUnder(v, c), 1
    {
      hide CutFor, Below, LiveUnder, Consistent, CancelSpec, Shape;
      ghost var below := LiveUnder(v, c);
      var todo := c.cell.children;
      assert View()[c] == c.cell.State();
      CutNone(v, c);
      ghost var cut := {};
      while todo != {}
        invariant todo <= v[c].children && c !in cut && cut <= below
        invariant CutFor(below, v[c].children, todo, cut)
        invariant View() == Midway(v, c, cut, err, Why(err, cause))
      {
        var child :| child in todo;
        CutMore(v, c, todo, cut, child);
        CancelKid(c, child, err, cause, v, cut);
        todo, cut := todo - {child}, cut + Below(below, child);
      }
      CutAll(v, c, cut);
      assert cut == below - {c};
    }

    /** One turn of that loop. */
    method CancelKid(c: Context, child: Context, err: Error, cause: Option<Error>, ghost v: View, ghost cut: set<Context>)
      requires Framed() && c in all && c in v && v[c].err == None && Shape(v) && Consistent(v, c)
      requires View() == Midway(v, c, cut, err, Why(err, cause)) && c !in cut && cut <= LiveUnder(v, c)
      requires child in v[c].children && Below(LiveUnder(v, c), child) !! cut
      modifies cells
      ensures View() == Midway(v, c, cut + Below(LiveUnder(v, c), child), err, Why(err, cause))
      decreases LiveUnder(v, c), 0
    {
      hide Below, LiveUnder, Consistent, CancelSpec, Shape, Midway;
      CancelNextKid(v, c, cut, child, err, Why(err, cause));
      assert View()[child] == child.cell.State();
      CancelSubtree(child, err, cause);
    }

    /** canceler.cancel(false, err, cause): a timerCtx also stops its timer. */
    method CancelSubtree(c: Context, err: Error, cause: Option<Error>)
      requires Framed() && c in all && Shape(View()) && Consistent(View(), c)
      requires (c.CancelCtx? || c.cell.err != None) ==> c.cell.timer == Unarmed
      modifies cells
      ensures View() == CancelSpec(old(View()), c, err, Why(err, cause))
      decreases LiveUnder(View(), c), 3
    {
      CancelCtxCancel(c, err, cause);
      if c.TimerCtx? {
        if c.cell.timer != Unarmed {
          c.cell.timer := Unarmed;
        }
      }
    }

    /** Done of any context: made lazily in the cancelable context it is promoted from. */
    method Done(c: Context) returns (ch: Chan)
      requires Framed() && Has(c) && Shape(View())
      modifies cells
      ensures Nearest(c) == None ==> ch == NoChan && View() == old(View())
      ensures Nearest(c).Some? ==>
                View() == MakeDone(old(View()), Nearest(c).value) && ch == View()[Nearest(c).value].done != NoChan
    {
      match c
      case Background => ch := NoChan;
      case WithoutCancelCtx(_) => ch := NoChan;
      case ValueCtx(p, _, _) => ch := Done(p);
      case _ =>
        assert View()[c] == c.cell.State();
        if c.cell.done == NoChan {
          c.cell.done := Own(false);
          assert forall d <- all | d != c :: View()[d] == old(View()[d]);
        }
        ch := c.cell.done;
    }

    /** value(c, &cancelCtxKey) */
    method FindCancelCtx(c: Context) returns (r: Option<Context>)
      ensures r == Nearest(c)
    {
      var x := c;
      while true
        invariant Nearest(x) == Nearest(c)
        decreases x
      {
        match x
        case ValueCtx(p, _, _) => x := p;
        case CancelCtx(_, _) => return Some(x);
        case TimerCtx(_, _, _) => return Some(x);
        case WithoutCancelCtx(_) => return None;
        case Background => return None;
      }
    }

    /** value(c, key) for a user's key */
    method Value(c: Context, key: int) returns (r: Option<int>)
      ensures r == ValueSpec(c, key)
    {
      var x := c;
      while true
        invariant ValueSpec(x, key) == ValueSpec(c, key)
        decreases x
      {
        match x
        case ValueCtx(p, k, v) =>
          if k == key { return Some(v); }
          x := p;
        case CancelCtx(p, _) => x := p;
        case TimerCtx(p, _, _) => x := p;
        case WithoutCancelCtx(p) => x := p;
        case Background => return None;
      }
    }

    /** Err of any context reports the earliest cancellation that reaches it. */
    method Err(c: Context) returns (r: Option<Error>)
      requires Valid() && Has(c)
      ensures r == if Outcome(log, c).Some? then Some(Outcome(log, c).value.err) else None
    {
      OutcomeOfNearest(log, c);
      match c
      case Background => r := None;
      case WithoutCancelCtx(_) => r := None;
      case ValueCtx(p, _, _) => OutcomeOfNearest(log, p); r := Err(p);
      case _ =>
        assert StateOf(View(), c, Outcome(log, c));
        r := c.cell.err;
    }

    /** Cause of any context: the cause of the earliest cancellation of it or one of its parents. */
    method Cause(c: Context) returns (r: Option<Error>)
      requires Valid() && Has(c)
      ensures r == if Outcome(log, c).Some? then Some(Outcome(log, c).value.cause) else None
    {
      OutcomeOfNearest(log, c);
      var p := FindCancelCtx(c);
      if p.Some? {
        assert StateOf(View(), p.value, Outcome(log, p.value));
        r := p.value.cell.cause;
      } else {
        r := Err(c);
      }
    }

    /** The *cancelCtx a child registers with, unless its done channel is nil or the shared closed one. */
    method ParentCancelCtx(parent: Context) returns (p: Option<Context>)
      requires Framed() && Has(parent) && Shape(View())
      modifies cells
      ensures Nearest(parent) == None ==> p == None && View() == old(View())
      ensures Nearest(parent).Some? ==>
                && View() == MakeDone(old(View()), Nearest(parent).value)
                && p == if View()[Nearest(parent).value].done == ClosedChan then None else Nearest(parent)
    {
      var done := Done(parent);
      if done == ClosedChan || done == NoChan {
        return None;
      }
      p := FindCancelCtx(parent);
    }

    /** delete(p.children, child) */
    method DeleteChild(p: Context, c: Context)
      requires Framed() && Shape(View()) && p in all
      modifies cells
      ensures View() == old(View())[p := old(View())[p].(children := old(View())[p].children - {c})]
    {
      ghost var v := View();
      assert v[p] == p.cell.State();
      p.cell.children := p.cell.children - {c};
      assert forall d <- all | d != p :: View()[d] == v[d];
    }

    method RemoveChild(c: Context)
      requires Framed() && Shape(View()) && c in all
      requires Up(c).Some? && View()[Up(c).value].done == ClosedChan ==> View()[Up(c).value].children == {}
      modifies cells
      ensures View() == Detach(if Up(c).Some? then MakeDone(old(View()), Up(c).value) else old(View()), c)
    {
      var p := ParentCancelCtx(c.parent);
      if p.Some? {
        DeleteChild(p.value, c);
      } else if Up(c).Some? {
        assert {} - {c} == {};
      }
    }

    /** cancel(true, err, cause): a CancelFunc, a CancelCauseFunc or a timer's callback. */
    method Cancel(c: Context, err: Error, cause: Option<Error>)
      requires Valid() && c in all
      modifies this`log, cells
      ensures Valid()
      ensures log == old(log) + [Event(c, err, if cause.Some? then cause.value else err)]
      ensures View() == CancelFully(old(View()), c, err, Why(err, cause))
      ensures forall d <- old(all) ::
                if old(d.cell.err) == None && Governs(c, d) then
                  d.cell.err == Some(err) && d.cell.cause == Some(if cause.Some? then cause.value else err)
                else d.cell.err == old(d.cell.err) && d.cell.cause == old(d.cell.cause)
    {
      hide Inv, Consistent, CancelSpec, Detach, MakeDone;
      ghost var v := View();
      assert v[c] == c.cell.State();
      CancelReady(v, log, c, err, Why(err, cause));
      CancelFullyKeepsInv(v, log, c, err, Why(err, cause));
      log := log + [Event(c, err, Why(err, cause))];
      assert View() == v;
      if c.TimerCtx? || c.cell.err == None {
        CancelSubtree(c, err, cause);
        RemoveChild(c);
      }
      forall d | d in all
        ensures View()[d] == d.cell.State() && v[d] == old(d.cell.State())
        ensures if v[d].err == None && Governs(c, d) then View()[d].err == Some(err) && View()[d].cause == Some(Why(err, cause))
                else View()[d].err == v[d].err && View()[d].cause == v[d].cause
      {
        EventReaches(v, View(), old(log), Event(c, err, Why(err, cause)), d);
      }
    }

    /** The lock region of propagateCancel, for a parent that is live and for one that is canceled. */
    method RegisterUnderLock(p: Context, c: Context, ghost v: View)
      requires Framed() && p in all && c in all && Cancelable(c) && Up(c) == Some(p) && p != c
      requires Shape(View()) && c !in v && View() == v[c := Fresh] && LiveUnder(View(), c) == {c}
      requires p.cell.err.Some? ==> p.cell.cause.Some?
      modifies cells
      ensures View() == Register(v, c)
    {
      assert View()[c] == c.cell.State() && View()[p] == p.cell.State();
      if p.cell.err != None {
        CancelNew(c, p.cell.err.value, p.cell.cause);
      } else {
        p.cell.children := p.cell.children + {c};
        assert forall d <- all | d != p :: View()[d] == v[c := Fresh][d];
      }
    }

    /** c is about to be added: its parent belongs to the tree, its cell is new. */
    ghost predicate New(c: Context)
      requires Cancelable(c)
      reads this, c.cell
    {
      Has(c.parent) && c !in all && c.cell !in cells && c.cell.State() == Fresh
    }

    /** The parent was canceled before: the child takes over its error and cause. */
    method TakeOver(c: Context, err: Error, cause: Option<Error>)
      requires Valid() && Cancelable(c) && New(c)
      requires Register(View(), c) == View()[c := Canceling(Fresh, err, Why(err, cause))]
      modifies this`all, this`cells, cells, c.cell
      ensures all == old(all) + {c} && cells == old(cells) + {c.cell} && Framed()
      ensures View() == Register(old(View()), c)
    {
      ghost var v := View();
      LoneUnder(v, log, c);
      hide Inv, Register, LiveUnder, Shape;
      Enroll(c);
      assert View() == v[c := Fresh];
      CancelNew(c, err, cause);
    }

    /** The parent looked live: the child registers with it under its lock. */
    method Join(c: Context)
      requires Valid() && Cancelable(c) && New(c) && Up(c).Some? && View()[Up(c).value].done == Own(false)
      modifies this`all, this`cells, cells, c.cell
      ensures all == old(all) + {c} && cells == old(cells) + {c.cell} && Framed()
      ensures View() == Register(old(View()), c)
    {
      ghost var v := View();
      LoneUnder(v, log, c);
      hide Inv, Register, LiveUnder;
      var p := ParentCancelCtx(c.parent);
      Enroll(c);
      RegisterUnderLock(p.value, c, v);
    }

    /** propagateCancel for a parent that can be canceled, whose done channel was found closed or open. */
    method Attach(c: Context, done: Chan)
      requires Valid() && Cancelable(c) && New(c) && Up(c).Some?
      requires done == View()[Up(c).value].done != NoChan
      modifies this`all, this`cells, cells, c.cell
      ensures all == old(all) + {c} && cells == old(cells) + {c.cell} && Framed()
      ensures View() == Register(old(View()), c)
    {
      if Closed(done) {
        RegisterCases(View(), log, c);
        hide Inv, Register;
        var err := Err(c.parent);
        var cause := Cause(c.parent);
        TakeOver(c, err.value, cause);
      } else {
        Join(c);
      }
    }

    /** Makes c, whose cell is new, a child of the nearest cancelable context above it. */
    method PropagateCancel(c: Context)
      requires Valid() && Cancelable(c) && New(c)
      modifies this`all, this`cells, cells, c.cell
      ensures Valid() && all == old(all) + {c} && cells == old(cells) + {c.cell}
      ensures View() == Register(WithParentDone(old(View()), c), c)
    {
      PropagatePlan(View(), log, c);
      hide Inv, Register;
      var done := Done(c.parent);
      if done == NoChan {
        Enroll(c); // nothing can cancel the parent
      } else {
        Attach(c, done);
      }
    }

    /** child.cancel(false, err, cause) for a child that nothing refers to yet. */
    method CancelNew(c: Context, err: Error, cause: Option<Error>)
      requires Framed() && c in all && Shape(View()) && View()[c] == Fresh && LiveUnder(View(), c) == {c}
      modifies cells
      ensures View() == old(View())[c := Canceling(Fresh, err, Why(err, cause))]
    {
      assert View()[c] == c.cell.State();
      LoneConsistent(View(), c, err, Why(err, cause));
      hide Consistent, CancelSpec;
      CancelSubtree(c, err, cause);
    }

    ghost method Enroll(c: Context)
      requires Framed() && Cancelable(c) && c !in all && c.cell !in cells && c.cell.State() == Fresh
      modifies this`all, this`cells
      ensures Framed() && all == old(all) + {c} && cells == old(cells) + {c.cell}
      ensures View() == old(View())[c := Fresh]
    {
      ghost var v := View();
      all, cells := all + {c}, cells + {c.cell};
      assert forall d <- v :: View()[d] == v[d];
    }

    /** WithCancel and WithCancelCause; the returned function is Cancel(c, Canceled, cause). */
    method WithCancel(parent: Context) returns (c: Context)
      requires Valid() && Has(parent)
      modifies this`all, this`cells, cells
      ensures Valid() && log == old(log) && c.CancelCtx? && c.parent == parent && fresh(c.cell)
      ensures all == old(all) + {c} && cells == old(cells) + {c.cell}
      ensures View() == Register(WithParentDone(old(View()), c), c)
      ensures c in View() && Recorded(c) == old(Recorded(parent))
    {
      var cell := new Cell();
      c := CancelCtx(parent, cell);
      ghost var v := View();
      assert v == old(View());
      hide Inv, Register, WithParentDone, Consistent, Governs;
      PropagateCancel(c);
      NewInherits(v, View(), log, c);
    }

    /** WithDeadlineCause: never later than the parent's deadline, canceled at once if d has passed. */
    method WithDeadlineCause(parent: Context, d: int, now: int, cause: Option<Error>) returns (c: Context)
      requires Valid() && Has(parent)
      modifies this`all, this`cells, this`log, cells
      ensures Valid() && Cancelable(c) && c.parent == parent && fresh(c.cell) && all == old(all) + {c}
      ensures Deadline(c) == Some(if Deadline(parent).Some? then Min(Deadline(parent).value, d) else d)
      ensures c.TimerCtx? <==> !(Deadline(parent).Some? && Deadline(parent).value < d)
      ensures log == if c.TimerCtx? && d <= now then
                       old(log) + [Event(c, DeadlineExceeded, if cause.Some? then cause.value else DeadlineExceeded)]
                     else old(log)
      ensures c in View() && Recorded(c) ==
                if old(Recorded(parent)).0.None? && c.TimerCtx? && d <= now then
                  (Some(DeadlineExceeded), Some(if cause.Some? then cause.value else DeadlineExceeded))
                else old(Recorded(parent))
      ensures c.TimerCtx? && now < d && old(Recorded(parent)).0.None? ==> View()[c].timer == Armed(cause)
      ensures View() == var v := Register(WithParentDone(old(View()), c), c); if c.TimerCtx? then Timed(v, c, now, cause) else v
    {
      hide Inv, Register, Timed, WithParentDone;
      if Deadline(parent).Some? && Deadline(parent).value < d {
        c := WithCancel(parent);
      } else {
        c := NewTimerCtx(parent, d);
        FinishTimer(c, now, cause);
      }
    }

    /** Makes a timerCtx whose timer is not set yet. */
    method NewTimerCtx(parent: Context, d: int) returns (c: Context)
      requires Valid() && Has(parent)
      modifies this`all, this`cells, cells
      ensures Valid() && log == old(log) && c.TimerCtx? && c.parent == parent && c.deadline == d && fresh(c.cell)
      ensures all == old(all) + {c} && cells == old(cells) + {c.cell} && c.cell.timer == Unarmed
      ensures View() == Register(WithParentDone(old(View()), c), c)
      ensures c in View() && Recorded(c) == old(Recorded(parent))
    {
      hide Inv, Register;
      var cell := new Cell();
      c := TimerCtx(parent, cell, d);
      ghost var v := View();
      assert v == old(View());
      NewIsUnarmed(WithParentDone(View(), c), log, c);
      PropagateCancel(c);
      assert View()[c] == c.cell.State();
      NewInherits(v, View(), log, c);
    }

    /** The rest of WithDeadlineCause: the deadline has passed, or the timer of a live context is armed. */
    method FinishTimer(c: Context, now: int, cause: Option<Error>)
      requires Valid() && c in all && c.TimerCtx? && c.cell.timer == Unarmed
      modifies this`log, cells
      ensures Valid() && View() == Timed(old(View()), c, now, cause)
      ensures log == if c.deadline <= now then
                       old(log) + [Event(c, DeadlineExceeded, if cause.Some? then cause.value else DeadlineExceeded)]
                     else old(log)
      ensures Recorded(c) == if old(c.cell.err) == None && c.deadline <= now then
                               (Some(DeadlineExceeded), Some(if cause.Some? then cause.value else DeadlineExceeded))
                             else old(Recorded(c))
      ensures now < c.deadline && old(c.cell.err) == None ==> View()[c].timer == Armed(cause)
    {
      ghost var v := View();
      assert v[c] == c.cell.State();
      if c.deadline - now <= 0 {
        Cancel(c, DeadlineExceeded, cause);
      } else if c.cell.err == None {
        c.cell.timer := Armed(cause);
        assert View() == v[c := v[c].(timer := Armed(cause))];
        TouchKeepsInv(v, View(), log);
      }
    }

    /** The timer's callback runs, with the cause that WithDeadlineCause gave it. It may have been started before
        the timer was stopped, and run when the context has long been canceled; then it only makes the parent's
        done channel, if there is none yet. */
    method FireTimer(c: Context, cause: Option<Error>)
      requires Valid() && c in all && c.TimerCtx?
      requires c.cell.timer.Armed? ==> cause == c.cell.timer.cause
      modifies this`log, cells
      ensures Valid()
      ensures log == old(log) + [Event(c, DeadlineExceeded, if cause.Some? then cause.value else DeadlineExceeded)]
      ensures View() == CancelFully(old(View()), c, DeadlineExceeded, Why(DeadlineExceeded, cause))
      ensures forall d <- old(all) ::
                if old(d.cell.err) == None && Governs(c, d) then
                  d.cell.err == Some(DeadlineExceeded) && d.cell.cause == Some(if cause.Some? then cause.value else DeadlineExceeded)
                else d.cell.err == old(d.cell.err) && d.cell.cause == old(d.cell.cause)
      ensures old(c.cell.err).Some? ==> View() == WithParentDone(old(View()), c)
      ensures c.cell.timer == Unarmed && c.cell.err.Some?
    {
      hide Inv, CancelFully, WithParentDone;
      assert View()[c] == c.cell.State();
      LateCancel(View(), log, c, DeadlineExceeded, Why(DeadlineExceeded, cause));
      Cancel(c, DeadlineExceeded, cause);
      assert View()[c] == c.cell.State();
      CanceledNow(View(), old(log), log[|log| - 1]);
    }
  }
}
