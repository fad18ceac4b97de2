/** The table of JavaScript values that Go refers to (go/lib/wasm/wasm_exec.js): reference counts and reuse of ids. */
module WasmValues {
  import opened Prelude

  // ---------------------------------------------------------------- values and references

  /** Zero stands for both zeros, Number for the numbers other than NaN and zero. */
  datatype JsValue =
    | Undefined | Null | NaN | Bool(truth: bool) | Zero(negative: bool) | Number(code: int)
    | BigInt(int_: int) | Str(text: string) | Symbol(symbol: nat) | Function(function_: nat) | Object(object_: nat)

  const GLOBAL_THIS := Object(0)
  const GO_INSTANCE := Object(1)

  /** Maps compare their keys so that -0 is 0. */
  function Key(v: JsValue): JsValue {
    if v.Zero? then Zero(false) else v
  }

  /** Eight bytes of linear memory: a float64 that is not NaN, or a NaN that carries a type flag and an id. */
  datatype Word = Float(number: JsValue) | Boxed(flag: nat, id: nat)

  function TypeFlag(v: JsValue): nat {
    match v
    case Object(_) => 1
    case Str(_) => 2
    case Symbol(_) => 3
    case Function(_) => 4
    case _ => 0
  }

  datatype Count = Infinite | Finite(n: int)

  function Plus(c: Count, k: int): Count {
    if c.Infinite? then Infinite else Finite(c.n + k)
  }

  /** The fields _values, _goRefCounts, _ids and _idPool. */
  datatype Table = Table(values: seq<JsValue>, counts: seq<Count>, ids: map<JsValue, nat>, pool: seq<nat>)

  const BUILT_IN: seq<JsValue> := [NaN, Zero(false), Null, Bool(true), Bool(false), GLOBAL_THIS, GO_INSTANCE]

  function Initial(): Table {
    Table(BUILT_IN, seq(7, _ => Infinite),
          map[Zero(false) := 1, Null := 2, Bool(true) := 3, Bool(false) := 4, GLOBAL_THIS := 5, GO_INSTANCE := 6], [])
  }

  /** A write to a JavaScript array; one behind its end extends it. */
  function Put<T>(s: seq<T>, i: nat, v: T): seq<T>
    requires i <= |s|
  {
    if i < |s| then s[i := v] else s + [v]
  }

  /** Whether v is stored as a reference with an id of its own. */
  predicate Counted(v: JsValue) {
    !v.Undefined? && !v.NaN? && !v.Number?
  }

  /** The id on top of the pool, or a new one. */
  function NextId(t: Table): (id: nat)
    requires Shape(t)
    ensures id <= |t.values|
  {
    assert t.pool != [] ==> t.pool[|t.pool| - 1] in t.pool;
    if t.pool != [] then t.pool[|t.pool| - 1] else |t.values|
  }

  /** The table after storeValue makes sure that v has an id. */
  function WithId(t: Table, v: JsValue): Table
    requires Shape(t)
  {
    if Key(v) in t.ids then t
    else
      var id := NextId(t);
      Table(Put(t.values, id, v), Put(t.counts, id, Finite(0)), t.ids[Key(v) := id],
            if t.pool != [] then t.pool[..|t.pool| - 1] else [])
  }

  /** storeValue */
  function Store(t: Table, v: JsValue): (Table, Word)
    requires Shape(t)
  {
    if v.NaN? then (t, Boxed(0, 0))
    else if v.Number? then (t, Float(v))
    else if v.Undefined? then (t, Float(Zero(false)))
    else
      var t1 := WithId(t, v);
      var id := t1.ids[Key(v)];
      if id < |t1.counts| then (t1.(counts := t1.counts[id := Plus(t1.counts[id], 1)]), Boxed(TypeFlag(v), id))
      else (t1, Boxed(TypeFlag(v), id))
  }

  /** loadValue; an id outside the table reads undefined. */
  function Load(t: Table, w: Word): JsValue {
    match w
    case Float(number) => if number.Zero? then Undefined else number
    case Boxed(_, id) => if id < |t.values| then t.values[id] else Undefined
  }

  /** finalizeRef */
  function Finalize(t: Table, id: nat): Table
    requires Shape(t) && id < |t.values|
  {
    var t1 := t.(counts := t.counts[id := Plus(t.counts[id], -1)]);
    if t1.counts[id] != Finite(0) then t1
    else Table(t1.values[id := Null], t1.counts, t1.ids - {Key(t.values[id])}, t1.pool + [id])
  }

  // ---------------------------------------------------------------- the invariant

  /** A reference that Go holds: the id it was given, and the value it was stored for. */
  datatype Held = Held(id: nat, value: JsValue)

  /** What makes the operations defined at all. */
  predicate Shape(t: Table) {
    |t.counts| == |t.values| && (forall id <- t.pool :: id < |t.values|)
  }

  /** How many references to id are held. */
  function Outstanding(t: Table, refs: multiset<Held>, id: nat): nat
    requires id < |t.values|
  {
    refs[Held(id, t.values[id])]
  }

  predicate Live(t: Table, refs: multiset<Held>, id: nat)
    requires id < |t.values|
  {
    id < 7 || Outstanding(t, refs, id) > 0
  }

  /** Every reference that is held names the value it was stored for. */
  predicate RefsInv(t: Table, refs: multiset<Held>) {
    forall h <- refs :: h.id < |t.values| && h.value == t.values[h.id]
  }

  /** Built-in values are never given up; every other id is counted exactly. */
  predicate CountInv(t: Table, refs: multiset<Held>)
    requires Shape(t)
  {
    && BUILT_IN <= t.values
    && forall id :: 0 <= id < |t.values| ==> t.counts[id] == if id < 7 then Infinite else Finite(Outstanding(t, refs, id))
  }

  /** The pool holds every id that is not live, once. */
  predicate PoolInv(t: Table, refs: multiset<Held>)
    requires Shape(t)
  {
    && (forall id :: 0 <= id < |t.values| ==> (id in t.pool <==> !Live(t, refs, id)))
    && (forall i, j :: 0 <= i < j < |t.pool| ==> t.pool[i] != t.pool[j])
  }

  /** _ids is the inverse of _values on live ids, but for the slot of NaN. */
  predicate IdsInv(t: Table, refs: multiset<Held>)
    requires Shape(t)
  {
    && (forall v <- t.ids :: t.ids[v] < |t.values| && t.values[t.ids[v]] == v && t.ids[v] != 0 && Live(t, refs, t.ids[v]))
    && (forall id :: 0 < id < |t.values| && Live(t, refs, id) ==> t.values[id] in t.ids && t.ids[t.values[id]] == id)
    && (forall v <- t.ids :: Counted(v) && Key(v) == v)
  }

  predicate Inv(t: Table, refs: multiset<Held>) {
    Shape(t) && RefsInv(t, refs) && CountInv(t, refs) && PoolInv(t, refs) && IdsInv(t, refs)
  }

  lemma InitialIds()
    ensures forall v <- Initial().ids :: 0 < Initial().ids[v] < 7 && BUILT_IN[Initial().ids[v]] == v && Counted(v) && Key(v) == v
  {
    forall v <- Initial().ids
      ensures 0 < Initial().ids[v] < 7 && BUILT_IN[Initial().ids[v]] == v && Counted(v) && Key(v) == v
    {
      assert v in {Zero(false), Null, Bool(true), Bool(false), GLOBAL_THIS, GO_INSTANCE};
    }
  }

  lemma InitialInv()
    ensures Inv(Initial(), multiset{})
  {
    InitialIdsInv();
    hide IdsInv;
  }

  lemma InitialIdsInv()
    ensures Shape(Initial()) && IdsInv(Initial(), multiset{})
  {
    var t := Initial();
    InitialIds();
    forall id | 0 < id < 7
      ensures t.values[id] in t.ids && t.ids[t.values[id]] == id
    {
      InitialId(id);
    }
  }

  lemma InitialId(id: nat)
    requires 0 < id < 7
    ensures var t := Initial(); t.values[id] in t.ids && t.ids[t.values[id]] == id
  {
    if id < 3 { assert id == 1 || id == 2; } else if id < 5 { assert id == 3 || id == 4; } else { assert id == 5 || id == 6; }
  }

  /** What a word refers to, if it has an id. */
  function HeldBy(w: Word, v: JsValue): multiset<Held> {
    if w.Boxed? then multiset{Held(w.id, Key(v))} else multiset{}
  }

  lemma ZeroHasId(t: Table, refs: multiset<Held>)
    requires Inv(t, refs)
    ensures t.values[1] == Zero(false) && Zero(false) in t.ids && t.values[0] == NaN
  {
    assert BUILT_IN[1] == Zero(false) && BUILT_IN[0] == NaN;
  }

  /** The types of JavaScript that syscall/js tells apart. */
  datatype Type = TypeUndefined | TypeNull | TypeBoolean | TypeNumber | TypeString | TypeSymbol | TypeObject | TypeFunction

  /** Value.Type of syscall/js, which looks at the eight bytes only; none if it panics. */
  function TypeOf(w: Word): Option<Type> {
    if w == Float(Zero(false)) then Some(TypeUndefined)
    else if w == Boxed(0, 2) then Some(TypeNull)
    else if w == Boxed(0, 3) || w == Boxed(0, 4) then Some(TypeBoolean)
    else if w.Float? || w == Boxed(0, 1) || w == Boxed(0, 0) then Some(TypeNumber)
    else if w.flag == 1 then Some(TypeObject)
    else if w.flag == 2 then Some(TypeString)
    else if w.flag == 3 then Some(TypeSymbol)
    else if w.flag == 4 then Some(TypeFunction)
    else None
  }

  /** JavaScript's typeof, but for null. */
  function JsType(v: JsValue): Option<Type> {
    match v
    case Undefined => Some(TypeUndefined)
    case Null => Some(TypeNull)
    case Bool(_) => Some(TypeBoolean)
    case NaN | Zero(_) | Number(_) => Some(TypeNumber)
    case Str(_) => Some(TypeString)
    case Symbol(_) => Some(TypeSymbol)
    case Function(_) => Some(TypeFunction)
    case Object(_) => Some(TypeObject)
    case BigInt(_) => None
  }

  /** Go sees every value with its JavaScript type. A BigInt, which Go has no type for, makes Type panic. */
  lemma TypeIsKept(t: Table, refs: multiset<Held>, v: JsValue)
    requires Inv(t, refs)
    ensures TypeOf(Store(t, v).1) == JsType(v)
  {
    hide Inv;
    if Counted(v) { StoredId(t, refs, v); } else { BuiltInIds(t, refs); }
  }

  /** The ids of values that Go knows by their ids. */
  lemma BuiltInIds(t: Table, refs: multiset<Held>)
    requires Inv(t, refs)
    ensures Shape(t) && forall v <- t.ids ::
              && t.ids[v] != 0 && (t.ids[v] == 1 <==> v == Zero(false)) && (t.ids[v] == 2 <==> v == Null)
              && (t.ids[v] == 3 <==> v == Bool(true)) && (t.ids[v] == 4 <==> v == Bool(false))
    ensures {Zero(false), Null, Bool(true), Bool(false)} <= t.ids.Keys
  {
    assert BUILT_IN[1] == Zero(false) && BUILT_IN[2] == Null && BUILT_IN[3] == Bool(true) && BUILT_IN[4] == Bool(false);
    assert forall id :: 0 <= id < 7 ==> Live(t, refs, id) && t.values[id] == BUILT_IN[id];
    hide PoolInv;
  }

  lemma StoredId(t: Table, refs: multiset<Held>, v: JsValue)
    requires Inv(t, refs) && Counted(v)
    ensures Shape(t) && var w := Store(t, v).1;
            && w.Boxed? && w.flag == TypeFlag(v) && w.id != 0 && (w.id == 1 <==> v.Zero?) && (w.id == 2 <==> v == Null)
            && (w.id == 3 <==> v == Bool(true)) && (w.id == 4 <==> v == Bool(false))
  {
    hide Inv;
    BuiltInIds(t, refs);
    FreshId(t, refs);
  }

  /** Loading gives back what was stored; only the sign of zero is lost. */
  lemma LoadStored(t: Table, refs: multiset<Held>, v: JsValue)
    requires Inv(t, refs)
    ensures var (t1, w) := Store(t, v); Load(t1, w) == if v.Zero? then Zero(false) else v
  {
    ZeroHasId(t, refs);
  }

  lemma StoreKnown(t: Table, refs: multiset<Held>, v: JsValue)
    requires Inv(t, refs) && Counted(v) && Key(v) in t.ids
    ensures var (t1, w) := Store(t, v); Inv(t1, refs + HeldBy(w, v))
  {
    var (t1, w) := Store(t, v);
    var refs1 := refs + HeldBy(w, v);
    var id := t.ids[Key(v)];
    assert t1 == t.(counts := t.counts[id := Plus(t.counts[id], 1)]) && refs1 == refs + multiset{Held(id, t.values[id])};
    forall k | 0 <= k < |t.values|
      ensures Outstanding(t1, refs1, k) == Outstanding(t, refs, k) + if k == id then 1 else 0
    {
    }
  }

  /** A value that is stored for the first time, or again after it was given up. */
  lemma StoreNew(t: Table, refs: multiset<Held>, v: JsValue)
    requires Inv(t, refs) && Counted(v) && Key(v) !in t.ids
    ensures var (t1, w) := Store(t, v); Inv(t1, refs + HeldBy(w, v))
  {
    hide PoolInv, IdsInv, Live;
    var (t1, w) := Store(t, v);
    var id := NextId(t);
    var refs1 := refs + multiset{Held(id, v)};
    ZeroHasId(t, refs);
    FreshId(t, refs);
    assert Key(v) == v && refs1 == refs + HeldBy(w, v);
    assert t1.values == Put(t.values, id, v) && t1.counts == Put(t.counts, id, Finite(1));
    forall k | 0 <= k < |t1.values|
      ensures Outstanding(t1, refs1, k) == if k == id then 1 else Outstanding(t, refs, k)
    {
      assert k == id ==> Held(id, v) !in refs;
    }
    assert forall k <- t1.pool :: k in t.pool;
    PoolShrinks(t, t1, refs, refs1, id);
    IdsGrow(t, t1, refs, refs1, id, v);
  }

  lemma FreshId(t: Table, refs: multiset<Held>)
    requires Inv(t, refs)
    ensures var id := NextId(t); id >= 7 && (forall h <- refs :: h.id != id)
    ensures var id := NextId(t); id < |t.values| ==> id in t.pool && id !in t.pool[..|t.pool| - 1]
    ensures forall v <- t.ids :: t.ids[v] != NextId(t)
  {
    var id := NextId(t);
    if id < |t.values| {
      assert t.pool[|t.pool| - 1] in t.pool;
      assert !Live(t, refs, id);
      forall h <- refs
        ensures h.id != id
      {
        assert h == Held(h.id, t.values[h.id]);
      }
    }
  }

  lemma PoolShrinks(t: Table, t1: Table, refs: multiset<Held>, refs1: multiset<Held>, id: nat)
    requires Shape(t) && Shape(t1) && PoolInv(t, refs) && 7 <= id == NextId(t) && |t1.values| == Max(|t.values|, id + 1)
    requires t1.pool == if t.pool != [] then t.pool[..|t.pool| - 1] else []
    requires id < |t.values| ==> id in t.pool && id !in t.pool[..|t.pool| - 1]
    requires forall k :: 0 <= k < |t1.values| ==> Outstanding(t1, refs1, k) == if k == id then 1 else Outstanding(t, refs, k)
    ensures PoolInv(t1, refs1)
  {
    hide Outstanding;
    forall k | 0 <= k < |t1.values|
      ensures k in t1.pool <==> !Live(t1, refs1, k)
    {
      assert Outstanding(t1, refs1, k) == if k == id then 1 else Outstanding(t, refs, k);
      if t.pool != [] {
        assert t.pool == t1.pool + [id];
        assert k in t.pool <==> k in t1.pool || k == id;
      }
    }
  }

  lemma IdsGrow(t: Table, t1: Table, refs: multiset<Held>, refs1: multiset<Held>, id: nat, v: JsValue)
    requires Shape(t) && Shape(t1) && IdsInv(t, refs) && 7 <= id <= |t.values| && v !in t.ids && Counted(v) && Key(v) == v
    requires t1.values == Put(t.values, id, v) && t1.ids == t.ids[v := id]
    requires forall u <- t.ids :: t.ids[u] != id
    requires forall k :: 0 <= k < |t1.values| ==> Outstanding(t1, refs1, k) == if k == id then 1 else Outstanding(t, refs, k)
    ensures IdsInv(t1, refs1)
  {
    hide Outstanding;
    forall u <- t1.ids
      ensures t1.ids[u] < |t1.values| && t1.values[t1.ids[u]] == u && t1.ids[u] != 0 && Live(t1, refs1, t1.ids[u])
    {
      var k := t1.ids[u];
      assert Outstanding(t1, refs1, k) == if k == id then 1 else Outstanding(t, refs, k);
    }
    forall k | 0 < k < |t1.values| && Live(t1, refs1, k)
      ensures t1.values[k] in t1.ids && t1.ids[t1.values[k]] == k
    {
      assert Outstanding(t1, refs1, k) == if k == id then 1 else Outstanding(t, refs, k);
    }
  }

  /** Storing keeps the invariant, with one reference more. */
  lemma StoreKeepsInv(t: Table, refs: multiset<Held>, v: JsValue)
    requires Inv(t, refs)
    ensures var (t1, w) := Store(t, v); Inv(t1, refs + HeldBy(w, v))
  {
    hide Shape, RefsInv, CountInv, PoolInv, IdsInv;
    if v.NaN? { NaNIsHeld(t, refs); }
    else if v.Number? || v.Undefined? { assert refs + multiset{} == refs; }
    else if Key(v) in t.ids { StoreKnown(t, refs, v); }
    else { StoreNew(t, refs, v); }
  }

  lemma NaNIsHeld(t: Table, refs: multiset<Held>)
    requires Inv(t, refs)
    ensures Inv(t, refs + multiset{Held(0, NaN)})
  {
    ZeroHasId(t, refs);
    var refs1 := refs + multiset{Held(0, NaN)};
    assert forall k :: 0 < k < |t.values| ==> Outstanding(t, refs1, k) == Outstanding(t, refs, k);
  }

  lemma OneLess(t: Table, refs: multiset<Held>, h: Held, k: nat)
    requires RefsInv(t, refs) && h in refs && k < |t.values|
    ensures Outstanding(t, refs - multiset{h}, k) == Outstanding(t, refs, k) - if k == h.id then 1 else 0
  {
  }

  /** One of several references is given up, or one to a built-in value. */
  lemma FinalizeOne(t: Table, refs: multiset<Held>, h: Held)
    requires Inv(t, refs) && h in refs && (h.id < 7 || refs[h] > 1)
    ensures Inv(Finalize(t, h.id), refs - multiset{h})
  {
    var t1, refs1 := Finalize(t, h.id), refs - multiset{h};
    assert t1 == t.(counts := t.counts[h.id := Plus(t.counts[h.id], -1)]);
    forall k | 0 <= k < |t.values|
      ensures Outstanding(t1, refs1, k) == Outstanding(t, refs, k) - if k == h.id then 1 else 0
    {
      OneLess(t, refs, h, k);
    }
  }

  /** The last reference is given up: the id goes to the pool. */
  lemma FinalizeLast(t: Table, refs: multiset<Held>, h: Held)
    requires Inv(t, refs) && h in refs && h.id >= 7 && refs[h] == 1
    ensures Inv(Finalize(t, h.id), refs - multiset{h})
  {
    hide PoolInv, IdsInv;
    var t1, refs1, id := Finalize(t, h.id), refs - multiset{h}, h.id;
    HeldIsLive(t, refs, h);
    assert t1.values == t.values[id := Null] && t1.pool == t.pool + [id] && t1.ids == t.ids - {t.values[id]};
    assert forall k <- refs1 :: k in refs && k != h;
    forall k | 0 <= k < |t.values|
      ensures Outstanding(t1, refs1, k) == if k == id then 0 else Outstanding(t, refs, k)
    {
      OneLess(t, refs, h, k);
      assert Held(id, Null) in refs1 ==> Held(id, Null) in refs;
    }
    PoolGrows(t, t1, refs, refs1, id);
    IdsShrink(t, t1, refs, refs1, id);
  }

  lemma PoolGrows(t: Table, t1: Table, refs: multiset<Held>, refs1: multiset<Held>, id: nat)
    requires Shape(t) && Shape(t1) && PoolInv(t, refs) && 7 <= id < |t.values| == |t1.values| && Live(t, refs, id)
    requires t1.pool == t.pool + [id]
    requires forall k :: 0 <= k < |t1.values| ==> Outstanding(t1, refs1, k) == if k == id then 0 else Outstanding(t, refs, k)
    ensures PoolInv(t1, refs1)
  {
    hide Outstanding;
    forall k | 0 <= k < |t1.values|
      ensures k in t1.pool <==> !Live(t1, refs1, k)
    {
      assert Outstanding(t1, refs1, k) == if k == id then 0 else Outstanding(t, refs, k);
      assert k in t1.pool <==> k in t.pool || k == id;
    }
  }

  lemma IdsShrink(t: Table, t1: Table, refs: multiset<Held>, refs1: multiset<Held>, id: nat)
    requires Shape(t) && Shape(t1) && IdsInv(t, refs) && 7 <= id < |t.values| && Live(t, refs, id)
    requires t1.values == t.values[id := Null] && t1.ids == t.ids - {t.values[id]}
    requires forall k :: 0 <= k < |t1.values| ==> Outstanding(t1, refs1, k) == if k == id then 0 else Outstanding(t, refs, k)
    ensures IdsInv(t1, refs1)
  {
    hide Outstanding;
    forall u <- t1.ids
      ensures t1.ids[u] < |t1.values| && t1.values[t1.ids[u]] == u && t1.ids[u] != 0 && Live(t1, refs1, t1.ids[u])
    {
      var k := t.ids[u];
      assert k != id && Outstanding(t1, refs1, k) == Outstanding(t, refs, k);
    }
    forall k | 0 < k < |t1.values| && Live(t1, refs1, k)
      ensures t1.values[k] in t1.ids && t1.ids[t1.values[k]] == k
    {
      assert Outstanding(t1, refs1, k) == if k == id then 0 else Outstanding(t, refs, k);
      assert Live(t, refs, k);
    }
  }

  lemma FinalizeKeepsInv(t: Table, refs: multiset<Held>, h: Held)
    requires Inv(t, refs) && h in refs
    ensures Inv(Finalize(t, h.id), refs - multiset{h})
  {
    if h.id < 7 || refs[h] > 1 { FinalizeOne(t, refs, h); } else { FinalizeLast(t, refs, h); }
  }

  // ---------------------------------------------------------------- runs

  datatype Event = StoreValue(v: JsValue) | FinalizeRef(h: Held)

  /** The table, and the references that Go holds. */
  datatype State = State(t: Table, refs: multiset<Held>)

  /** Go finalizes only references that it holds. */
  predicate Allowed(s: State, e: Event) {
    Shape(s.t) && (e.FinalizeRef? ==> e.h in s.refs && e.h.id < |s.t.values|)
  }

  function Next(s: State, e: Event): State
    requires Allowed(s, e)
  {
    match e
    case StoreValue(v) => var (t, w) := Store(s.t, v); State(t, s.refs + HeldBy(w, v))
    case FinalizeRef(h) => State(Finalize(s.t, h.id), s.refs - multiset{h})
  }

  /** What the events lead to, if all of them are allowed. */
  function After(events: seq<Event>): Option<State> {
    if events == [] then Some(State(Initial(), multiset{}))
    else
      match After(events[..|events| - 1])
      case None => None
      case Some(s) => if Allowed(s, events[|events| - 1]) then Some(Next(s, events[|events| - 1])) else None
  }

  /** Every run can go on by storing any value, and by giving up any reference that is held. */
  lemma RunGoesOn(events: seq<Event>, v: JsValue, h: Held)
    requires After(events).Some?
    ensures After(events + [StoreValue(v)]).Some?
    ensures h in After(events).value.refs ==> After(events + [FinalizeRef(h)]).Some?
  {
    RunKeepsInv(events);
    assert (events + [StoreValue(v)])[..|events|] == events && (events + [FinalizeRef(h)])[..|events|] == events;
    hide Next, Store, Finalize;
  }

  lemma NextKeepsInv(s: State, e: Event)
    requires Inv(s.t, s.refs) && Allowed(s, e)
    ensures Inv(Next(s, e).t, Next(s, e).refs)
  {
    hide Inv, Store, Finalize;
    match e
    case StoreValue(v) => StoreKeepsInv(s.t, s.refs, v);
    case FinalizeRef(h) => FinalizeKeepsInv(s.t, s.refs, h);
  }

  /** In every reachable state the invariant holds. */
  lemma {:induction false} RunKeepsInv(events: seq<Event>)
    requires After(events).Some?
    ensures Inv(After(events).value.t, After(events).value.refs)
    decreases |events|
  {
    hide Inv, Allowed, Next;
    if events == [] {
      InitialInv();
    } else {
      RunKeepsInv(events[..|events| - 1]);
      NextKeepsInv(After(events[..|events| - 1]).value, events[|events| - 1]);
    }
  }

  /** Whatever was stored and given up in between, a reference that is held loads the value it was stored for;
      two references have the same id exactly when they are to the same value; and nobody holds an id that is handed out next. */
  lemma HeldReferencesLoad(events: seq<Event>, g: Held, h: Held, flag: nat)
    requires After(events).Some? && g in After(events).value.refs && h in After(events).value.refs
    ensures var t := After(events).value.t;
            Load(t, Boxed(flag, h.id)) == h.value && (g.id == h.id <==> g.value == h.value)
            && Shape(t) && h.id != NextId(t)
  {
    hide After, Inv;
    RunKeepsInv(events);
    var s := After(events).value;
    HeldIsLive(s.t, s.refs, g);
    HeldIsLive(s.t, s.refs, h);
  }

  lemma HeldIsLive(t: Table, refs: multiset<Held>, g: Held)
    requires Inv(t, refs) && g in refs
    ensures g.id < |t.values| && g.value == t.values[g.id]
    ensures if g.id == 0 then g.value == NaN else g.value != NaN && g.value in t.ids && t.ids[g.value] == g.id && Key(g.value) == g.value
    ensures Shape(t) && g.id != NextId(t)
  {
    ZeroHasId(t, refs);
    FreshId(t, refs);
    assert g == Held(g.id, t.values[g.id]);
    assert Live(t, refs, g.id);
  }

  // ---------------------------------------------------------------- the object

  class Go {
    var values: seq<JsValue>
    var goRefCounts: seq<Count>
    var ids: map<JsValue, nat>
    var idPool: seq<nat>

    function View(): Table
      reads this
    {
      Table(values, goRefCounts, ids, idPool)
    }

    /** The tables that run sets up. */
    constructor ()
      ensures View() == Initial()
    {
      values := [NaN, Zero(false), Null, Bool(true), Bool(false), GLOBAL_THIS, GO_INSTANCE];
      goRefCounts := seq(7, _ => Infinite);
      ids := map[Zero(false) := 1, Null := 2, Bool(true) := 3, Bool(false) := 4, GLOBAL_THIS := 5, GO_INSTANCE := 6];
      idPool := [];
    }

    method LoadValue(w: Word) returns (v: JsValue)
      ensures v == Load(View(), w)
    {
      if w.Float? {
        return if w.number.Zero? then Undefined else w.number;
      }
      return if w.id < |values| then values[w.id] else Undefined;
    }

    method StoreValue(v: JsValue) returns (w: Word)
      requires Shape(View()) && forall u <- ids :: ids[u] < |values|
      modifies this
      ensures (View(), w) == Store(old(View()), v)
    {
      if v.Number? || v.NaN? {
        return if v.NaN? then Boxed(0, 0) else Float(v);
      }
      if v == Undefined {
        return Float(Zero(false));
      }
      var id: nat;
      if Key(v) in ids {
        id := ids[Key(v)];
      } else {
        if idPool != [] {
          assert idPool[|idPool| - 1] in idPool;
          id, idPool := idPool[|idPool| - 1], idPool[..|idPool| - 1];
        } else {
          id := |values|;
        }
        values := Put(values, id, v);
        goRefCounts := Put(goRefCounts, id, Finite(0));
        ids := ids[Key(v) := id];
      }
      goRefCounts := goRefCounts[id := Plus(goRefCounts[id], 1)];
      return Boxed(TypeFlag(v), id);
    }

    method FinalizeRef(id: nat)
      requires Shape(View()) && id < |values|
      modifies this
      ensures View() == Finalize(old(View()), id)
    {
      goRefCounts := goRefCounts[id := Plus(goRefCounts[id], -1)];
      if goRefCounts[id] == Finite(0) {
        var v := values[id];
        values := values[id := Null];
        ids := ids - {Key(v)};
        idPool := idPool + [id];
      }
    }
  }
}
