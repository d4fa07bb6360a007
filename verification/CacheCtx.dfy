/** ApplyFuncIfNoError (utils/cache_ctx.go): a function runs in a cached context, whose
    writes reach the parent only when the function returns without error. The overlay
    machine is proved equal to snapshot-and-rollback on one plain store. */
module CacheCtx {
  import opened Wrappers

  type Key = string
  type Value = string
  type Store = map<Key, Value>

  /** Go variables of the running functions; they are not part of the store. */
  type Locals = map<string, string>

  datatype PanicValue =
    | ErrorOutOfGas(descriptor: string)
    | ErrorGasOverflow(descriptor: string)
    | Other(payload: string)

  function IsOutOfGasError(v: PanicValue): (r: (bool, string))
    ensures r == if v.ErrorOutOfGas? || v.ErrorGasOverflow? then (true, v.descriptor) else (false, "")
  {
    match v
    case ErrorOutOfGas(d) => (true, d)
    case ErrorGasOverflow(d) => (true, d)
    case Other(_) => (false, "")
  }

  predicate IsGasPanic(v: PanicValue) { IsOutOfGasError(v).0 }

  const PANIC_ERROR := "panic occurred during execution"

  const MAX_UINT64: nat := 0xFFFF_FFFF_FFFF_FFFF

  /** The gas meter, shared by a context and the contexts cached from it. */
  datatype GasMeter = GasMeter(limit: nat, consumed: nat)

  /** Functions over a context, as the trees of their statements. Expressions are arbitrary
      functions of the local variables, so what is read decides what is done next. */
  datatype Stmt =
    | Get(key: Locals -> Key, bind: (Locals, Option<Value>) -> Locals)
    | Set(key: Locals -> Key, val: Locals -> Value)
    | Delete(key: Locals -> Key)
    | Assign(f: Locals -> Locals)
    | ConsumeGas(amount: Locals -> nat, descriptor: string)
    | Seq(first: Stmt, second: Stmt)
    | If(cond: Locals -> bool, thn: Stmt, els: Stmt)
    | Return(err: Locals -> Option<string>)
    | Panic(v: Locals -> PanicValue)
    | Apply(body: Stmt, bindErr: (Locals, Option<string>) -> Locals)

  /** How a statement ends: it falls through, returns from its function, or panics. */
  datatype Outcome = Falls | Returns(err: Option<string>) | Panics(value: PanicValue) {
    /** The function this ended ran without error. */
    predicate Ok() { Falls? || this == Returns(None) }
  }

  /** What is never rolled back: the variables, the gas meter, and the record of all reads. */
  datatype Rest = Rest(locals: Locals, meter: GasMeter, seen: seq<(Key, Option<Value>)>)

  function Charge(m: GasMeter, amount: nat, descriptor: string): (r: (Outcome, GasMeter)) {
    if m.consumed + amount > MAX_UINT64 then
      (Panics(ErrorGasOverflow(descriptor)), m.(consumed := MAX_UINT64))
    else
      var m' := m.(consumed := m.consumed + amount);
      (if m'.consumed > m.limit then Panics(ErrorOutOfGas(descriptor)) else Falls, m')
  }

  function Peek(s: Store, k: Key): Option<Value> {
    if k in s then Some(s[k]) else None
  }

  function Poke(s: Store, k: Key, v: Option<Value>): (r: Store)
    ensures forall j :: Peek(r, j) == if j == k then v else Peek(s, j)
  {
    match v
    case Some(x) => s[k := x]
    case None => s - {k}
  }

  function Observe(c: Rest, k: Key, v: Option<Value>, locals: Locals): Rest {
    c.(seen := c.seen + [(k, v)], locals := locals)
  }

  // ----- Reference semantics: one plain store, saved and restored around each call -----

  datatype Result = Result(outcome: Outcome, store: Store, rest: Rest)

  /** What ApplyFuncIfNoError reports for a function that ended with `o`. */
  function Report(o: Outcome): (r: Outcome)
    ensures r == Returns(None) <==> o.Ok()
    ensures r.Panics? ==> o == r && IsGasPanic(r.value)
    ensures !r.Falls?
  {
    match o
    case Falls => Returns(None)
    case Returns(_) => o
    case Panics(v) => if IsGasPanic(v) then o else Returns(Some(PANIC_ERROR))
  }

  /** Runs `p` on the store `s`. */
  function Run(p: Stmt, s: Store, c: Rest): Result
    decreases p, 0
  {
    match p
    case Get(key, bind) =>
      var k := key(c.locals);
      Result(Falls, s, Observe(c, k, Peek(s, k), bind(c.locals, Peek(s, k))))
    case Set(key, val) => Result(Falls, Poke(s, key(c.locals), Some(val(c.locals))), c)
    case Delete(key) => Result(Falls, Poke(s, key(c.locals), None), c)
    case Assign(f) => Result(Falls, s, c.(locals := f(c.locals)))
    case ConsumeGas(amount, descriptor) =>
      var r := Charge(c.meter, amount(c.locals), descriptor);
      Result(r.0, s, c.(meter := r.1))
    case Seq(first, second) =>
      var r := Run(first, s, c);
      if r.outcome.Falls? then Run(second, r.store, r.rest) else r
    case If(cond, thn, els) => if cond(c.locals) then Run(thn, s, c) else Run(els, s, c)
    case Return(err) => Result(Returns(err(c.locals)), s, c)
    case Panic(v) => Result(Panics(v(c.locals)), s, c)
    case Apply(body, bindErr) =>
      var r := Transact(body, s, c);
      match r.outcome
      case Panics(_) => r
      case Returns(err) => Result(Falls, r.store, r.rest.(locals := bindErr(r.rest.locals, err)))
      case Falls => r
  }

  /** One call of ApplyFuncIfNoError: on failure the saved store is restored. */
  function Transact(body: Stmt, s: Store, c: Rest): Result
    decreases body, 1
  {
    var r := Run(body, s, c);
    Result(Report(r.outcome), if r.outcome.Ok() then r.store else s, r.rest)
  }

  // ----- The overlay machine -----

  /** A cached value. A dirty entry was written here, a clean one was read from the parent. */
  datatype Entry = Entry(value: Option<Value>, dirty: bool)

  type Layer = map<Key, Entry>

  function Init<T>(s: seq<T>): seq<T>
    requires s != []
  {
    s[..|s| - 1]
  }

  function Last<T>(s: seq<T>): T
    requires s != []
  {
    s[|s| - 1]
  }

  /** The value of `k` as the topmost layer sees it. */
  function Look(base: Store, layers: seq<Layer>, k: Key): Option<Value> {
    if layers == [] then Peek(base, k)
    else if k in Last(layers) then Last(layers)[k].value
    else Look(base, Init(layers), k)
  }

  ghost predicate Shows(base: Store, layers: seq<Layer>, s: Store) {
    forall k :: Look(base, layers, k) == Peek(s, k)
  }

  /** Every clean entry still is what its parent holds. */
  ghost predicate Coherent(base: Store, layers: seq<Layer>) {
    layers == [] ||
    (Coherent(base, Init(layers)) &&
     forall k :: k in Last(layers) && !Last(layers)[k].dirty ==> Last(layers)[k].value == Look(base, Init(layers), k))
  }

  /** Every layer sees what the same layer saw in the other stack. */
  ghost predicate Same(base: Store, layers: seq<Layer>, base': Store, layers': seq<Layer>) {
    && SameBelow(base, layers, base', layers')
    && forall k :: Look(base, layers, k) == Look(base', layers', k)
  }

  /** The same, for all layers but the topmost. */
  ghost predicate SameBelow(base: Store, layers: seq<Layer>, base': Store, layers': seq<Layer>)
    decreases |layers|, 0
  {
    |layers| == |layers'| &&
    (layers != [] ==>
       && SameBelow(base, Init(layers), base', Init(layers'))
       && forall k :: Look(base, Init(layers), k) == Look(base', Init(layers'), k))
  }

  lemma {:induction false} SameBelowTransitive(b1: Store, l1: seq<Layer>, b2: Store, l2: seq<Layer>, b3: Store, l3: seq<Layer>)
    requires SameBelow(b1, l1, b2, l2) && SameBelow(b2, l2, b3, l3)
    ensures SameBelow(b1, l1, b3, l3)
    decreases |l1|
  {
    if l1 != [] {
      SameBelowTransitive(b1, Init(l1), b2, Init(l2), b3, Init(l3));
    }
  }

  lemma {:induction false} SameReflexive(base: Store, layers: seq<Layer>)
    ensures Same(base, layers, base, layers)
    decreases |layers|
  {
    if layers != [] {
      SameReflexive(base, Init(layers));
    }
  }

  /** A read through the stack: each layer that misses keeps a clean copy. */
  function Fetch(base: Store, layers: seq<Layer>, k: Key): (Option<Value>, seq<Layer>) {
    if layers == [] then (Peek(base, k), layers)
    else if k in Last(layers) then (Last(layers)[k].value, layers)
    else
      var (v, below) := Fetch(base, Init(layers), k);
      (v, below + [Last(layers)[k := Entry(v, false)]])
  }

  /** A read returns what the top layer sees and changes what no layer sees. */
  lemma {:induction false} FetchIsTransparent(base: Store, layers: seq<Layer>, k: Key)
    requires Coherent(base, layers)
    ensures var (v, layers') := Fetch(base, layers, k);
            v == Look(base, layers, k) && Coherent(base, layers') && Same(base, layers, base, layers')
    decreases |layers|
  {
    if layers == [] || k in Last(layers) {
      SameReflexive(base, layers);
    } else {
      FetchIsTransparent(base, Init(layers), k);
      var (v, below) := Fetch(base, Init(layers), k);
      var layers' := Fetch(base, layers, k).1;
      assert Init(layers') == below;
      forall j ensures Look(base, layers, j) == Look(base, layers', j) {
        assert Look(base, Init(layers), j) == Look(base, below, j);
      }
    }
  }

  /** A write (or a deletion, `v == None`) at the top of the stack. */
  function Write(base: Store, layers: seq<Layer>, k: Key, v: Option<Value>): (Store, seq<Layer>) {
    if layers == [] then (Poke(base, k, v), layers)
    else (base, Init(layers) + [Last(layers)[k := Entry(v, true)]])
  }

  lemma WriteIsLocal(base: Store, layers: seq<Layer>, k: Key, v: Option<Value>)
    requires Coherent(base, layers)
    ensures var (base', layers') := Write(base, layers, k, v);
            && Coherent(base', layers')
            && SameBelow(base, layers, base', layers')
            && forall j :: Look(base', layers', j) == if j == k then v else Look(base, layers, j)
  {
    if layers != [] {
      var layers' := Write(base, layers, k, v).1;
      assert Init(layers') == Init(layers);
      SameReflexive(base, Init(layers));
    }
  }

  /** An empty layer on top is invisible. */
  lemma Pushed(base: Store, layers: seq<Layer>, s: Store)
    requires Coherent(base, layers) && Shows(base, layers, s)
    ensures Coherent(base, layers + [map[]]) && Shows(base, layers + [map[]], s)
  {
    assert Init(layers + [map[]]) == layers;
    forall k ensures Look(base, layers + [map[]], k) == Peek(s, k) {
      assert Look(base, layers, k) == Peek(s, k);
    }
  }

  /** Whatever happened in the pushed layer, dropping it restores what was seen before. */
  lemma Dropped(base: Store, layers: seq<Layer>, base': Store, layers': seq<Layer>, s: Store)
    requires Shows(base, layers, s)
    requires SameBelow(base, layers + [map[]], base', layers') && Coherent(base', layers')
    ensures layers' != [] && Coherent(base', Init(layers')) && Shows(base', Init(layers'), s)
    ensures SameBelow(base, layers, base', Init(layers'))
  {
    assert Init(layers + [map[]]) == layers;
    forall k ensures Look(base', Init(layers'), k) == Peek(s, k) {
      assert Look(base, layers, k) == Look(base', Init(layers'), k);
      assert Look(base, layers, k) == Peek(s, k);
    }
  }

  class Context {
    var base: Store
    var layers: seq<Layer>
    var rest: Rest

    constructor (base: Store, rest: Rest)
      ensures this.base == base && this.rest == rest && layers == []
    {
      this.base, this.rest, layers := base, rest, [];
    }

    method Read(k: Key, ghost s: Store) returns (v: Option<Value>)
      requires Coherent(base, layers) && Shows(base, layers, s)
      modifies this`layers
      ensures v == Peek(s, k)
      ensures Coherent(base, layers) && Shows(base, layers, s)
      ensures SameBelow(base, old(layers), base, layers)
    {
      FetchIsTransparent(base, layers, k);
      var r := Fetch(base, layers, k);
      assert Look(base, layers, k) == Peek(s, k);
      forall j ensures Look(base, r.1, j) == Peek(s, j) {
        assert Look(base, layers, j) == Look(base, r.1, j);
      }
      v, layers := r.0, r.1;
    }

    method Put(k: Key, v: Option<Value>, ghost s: Store)
      requires Coherent(base, layers) && Shows(base, layers, s)
      modifies this`base, this`layers
      ensures Coherent(base, layers) && Shows(base, layers, Poke(s, k, v))
      ensures SameBelow(old(base), old(layers), base, layers)
    {
      WriteIsLocal(base, layers, k, v);
      var r := Write(base, layers, k, v);
      forall j ensures Look(r.0, r.1, j) == Peek(Poke(s, k, v), j) {
        assert Look(base, layers, j) == Peek(s, j);
      }
      base, layers := r.0, r.1;
    }

    /** Writes the dirty entries of the top layer to the layer below, in any order, and
        removes the top layer. */
    method WriteBack()
      requires layers != [] && Coherent(base, layers)
      modifies this`base, this`layers
      ensures Coherent(base, layers)
      ensures SameBelow(old(base), old(Init(layers)), base, layers)
      ensures forall k :: Look(base, layers, k) == old(Look(base, layers, k))
    {
      var top := Last(layers);
      layers := Init(layers);
      ghost var b0, l0 := base, layers;
      SameReflexive(base, layers);
      var dirty := set k | k in top && top[k].dirty;
      var todo := dirty;
      while todo != {}
        invariant todo <= dirty
        invariant Coherent(base, layers)
        invariant SameBelow(b0, l0, base, layers)
        invariant forall k :: Look(base, layers, k) == if k in dirty - todo then top[k].value else Look(b0, l0, k)
        decreases todo
      {
        var k :| k in todo;
        WriteIsLocal(base, layers, k, top[k].value);
        var r := Write(base, layers, k, top[k].value);
        SameBelowTransitive(b0, l0, base, layers, r.0, r.1);
        base, layers := r.0, r.1;
        todo := todo - {k};
      }
    }

    /** Runs `p` in the topmost cached context. */
    method Exec(p: Stmt, ghost s: Store) returns (o: Outcome)
      requires Coherent(base, layers) && Shows(base, layers, s)
      modifies this
      decreases p, 0
      ensures Coherent(base, layers) && SameBelow(old(base), old(layers), base, layers)
      ensures var r := Run(p, s, old(rest));
              o == r.outcome && rest == r.rest && Shows(base, layers, r.store)
    {
      o := Falls;
      SameReflexive(base, layers);
      match p
      case Get(key, bind) =>
        var k := key(rest.locals);
        var v := Read(k, s);
        rest := Observe(rest, k, v, bind(rest.locals, v));
      case Set(key, val) =>
        Put(key(rest.locals), Some(val(rest.locals)), s);
      case Delete(key) =>
        Put(key(rest.locals), None, s);
      case Assign(f) =>
        rest := rest.(locals := f(rest.locals));
      case ConsumeGas(amount, descriptor) =>
        var r := Charge(rest.meter, amount(rest.locals), descriptor);
        o, rest := r.0, rest.(meter := r.1);
      case Seq(first, second) =>
        ghost var b0, l0 := base, layers;
        ghost var r := Run(first, s, rest);
        o := Exec(first, s);
        if o.Falls? {
          ghost var b1, l1 := base, layers;
          o := Exec(second, r.store);
          SameBelowTransitive(b0, l0, b1, l1, base, layers);
        }
      case If(cond, thn, els) =>
        if cond(rest.locals) {
          o := Exec(thn, s);
        } else {
          o := Exec(els, s);
        }
      case Return(err) =>
        o := Returns(err(rest.locals));
      case Panic(v) =>
        o := Panics(v(rest.locals));
      case Apply(body, bindErr) =>
        o := ApplyFuncIfNoError(body, s);
        if o.Returns? {
          rest := rest.(locals := bindErr(rest.locals, o.err));
          o := Falls;
        }
    }

    /** Runs `body` in a fresh cached context over the current one. */
    method ApplyFuncIfNoError(body: Stmt, ghost s: Store) returns (o: Outcome)
      requires Coherent(base, layers) && Shows(base, layers, s)
      modifies this
      decreases body, 1
      ensures Coherent(base, layers) && SameBelow(old(base), old(layers), base, layers)
      ensures var r := Transact(body, s, old(rest));
              o == r.outcome && rest == r.rest && Shows(base, layers, r.store)
    {
      ghost var b0, l0 := base, layers;
      Pushed(base, layers, s);
      layers := layers + [map[]];
      o := Exec(body, s);
      ghost var b1, l1 := base, layers;
      Dropped(b0, l0, b1, l1, s);
      match o
      case Panics(v) =>
        layers := Init(layers);
        if !IsOutOfGasError(v).0 {
          o := Returns(Some(PANIC_ERROR));
        }
      case Returns(Some(_)) =>
        layers := Init(layers);
      case _ =>
        WriteBack();
        SameBelowTransitive(b0, l0, b1, Init(l1), base, layers);
        o := Returns(None);
    }
  }

  /** The overlay machine on a store of its own computes what the reference semantics says:
      the same store, the same values read, the same gas and the same outcome. */
  method RunInOverlays(p: Stmt, s: Store, c: Rest) returns (o: Outcome, s': Store, c': Rest)
    ensures Result(o, s', c') == Run(p, s, c)
  {
    var ctx := new Context(s, c);
    o := ctx.Exec(p, s);
    s', c' := ctx.base, ctx.rest;
    SameStore(s', Run(p, s, c).store);
  }

  lemma SameStore(a: Store, b: Store)
    requires forall k :: Peek(a, k) == Peek(b, k)
    ensures a == b
  {
    assert forall k :: k in a <==> Peek(a, k).Some?;
    assert forall k :: k in b <==> Peek(b, k).Some?;
    forall k | k in a ensures a[k] == b[k] {
      assert Peek(a, k) == Peek(b, k);
    }
  }
}
