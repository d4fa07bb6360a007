/** What the reference semantics guarantees for every program. */
module CacheCtxTheorems {
  import opened CacheCtx
  import opened Wrappers

  // ----- Gas -----

  /** Gas spent in a discarded context stays spent, and once the limit is passed no call of
      ApplyFuncIfNoError at any depth hides it: a gas panic leaves the program. */
  lemma {:induction false} GasIsNeverRefunded(p: Stmt, s: Store, c: Rest)
    requires c.meter.consumed <= MAX_UINT64
    ensures var r := Run(p, s, c);
            && r.rest.meter.limit == c.meter.limit
            && c.meter.consumed <= r.rest.meter.consumed <= MAX_UINT64
            && (c.meter.consumed <= c.meter.limit < r.rest.meter.consumed ==>
                  r.outcome.Panics? && IsGasPanic(r.outcome.value))
  {
    match p
    case Seq(first, second) =>
      GasIsNeverRefunded(first, s, c);
      var r := Run(first, s, c);
      if r.outcome.Falls? {
        GasIsNeverRefunded(second, r.store, r.rest);
      }
    case If(cond, thn, els) =>
      GasIsNeverRefunded(if cond(c.locals) then thn else els, s, c);
    case Apply(body, _) =>
      GasIsNeverRefunded(body, s, c);
    case _ =>
  }

  /** The charges made while a program runs, at any depth and whether or not the context they
      are made in is dropped later. */
  function Charges(p: Stmt, s: Store, c: Rest): seq<(nat, string)> {
    match p
    case ConsumeGas(amount, descriptor) => [(amount(c.locals), descriptor)]
    case Seq(first, second) =>
      var r := Run(first, s, c);
      Charges(first, s, c) + if r.outcome.Falls? then Charges(second, r.store, r.rest) else []
    case If(cond, thn, els) => Charges(if cond(c.locals) then thn else els, s, c)
    case Apply(body, _) => Charges(body, s, c)
    case _ => []
  }

  function Spent(cs: seq<(nat, string)>): nat {
    if cs == [] then 0 else Spent(cs[..|cs| - 1]) + cs[|cs| - 1].0
  }

  lemma {:induction false} SpentAppend(a: seq<(nat, string)>, b: seq<(nat, string)>)
    ensures Spent(a + b) == Spent(a) + Spent(b)
    decreases |b|
  {
    if b == [] {
      assert a + b == a;
    } else {
      assert (a + b)[..|a + b| - 1] == a + b[..|b| - 1];
      SpentAppend(a, b[..|b| - 1]);
    }
  }

  /** Charging `cs` passes the limit or the range of 64 bits. */
  predicate TooMuch(m: GasMeter, cs: seq<(nat, string)>) {
    cs != [] && (m.consumed + Spent(cs) > m.limit || m.consumed + Spent(cs) >= 0x1_0000_0000_0000_0000)
  }

  /** The meter ends with all charges added up, and a program that charges too much ends in the
      gas panic of its last charge. */
  ghost predicate Metered(m: GasMeter, cs: seq<(nat, string)>, m': GasMeter, o: Outcome) {
    var total := m.consumed + Spent(cs);
    && m'.limit == m.limit
    && m'.consumed == (if total >= 0x1_0000_0000_0000_0000 then 0xFFFF_FFFF_FFFF_FFFF else total)
    && (TooMuch(m, cs) ==>
          o == Panics(if total >= 0x1_0000_0000_0000_0000 then ErrorGasOverflow(cs[|cs| - 1].1)
                      else ErrorOutOfGas(cs[|cs| - 1].1)))
  }

  lemma MeteredSecond(m: GasMeter, cs1: seq<(nat, string)>, m1: GasMeter, cs2: seq<(nat, string)>, m2: GasMeter, o: Outcome)
    requires m.consumed <= MAX_UINT64 && Metered(m, cs1, m1, Falls) && Metered(m1, cs2, m2, o)
    ensures Metered(m, cs1 + cs2, m2, o)
    ensures TooMuch(m, cs1 + cs2) <==> TooMuch(m1, cs2)
  {
    SpentAppend(cs1, cs2);
    if cs2 == [] {
      assert cs1 + cs2 == cs1;
    } else {
      assert (cs1 + cs2)[|cs1 + cs2| - 1] == cs2[|cs2| - 1];
    }
  }

  lemma {:induction false} GasIsExact(p: Stmt, s: Store, c: Rest)
    requires c.meter.consumed <= MAX_UINT64
    ensures var r := Run(p, s, c); Metered(c.meter, Charges(p, s, c), r.rest.meter, r.outcome)
  {
    match p
    case Seq(first, second) =>
      GasIsExact(first, s, c);
      var r := Run(first, s, c);
      if r.outcome.Falls? {
        GasIsExact(second, r.store, r.rest);
        var r2 := Run(second, r.store, r.rest);
        MeteredSecond(c.meter, Charges(first, s, c), r.rest.meter, Charges(second, r.store, r.rest), r2.rest.meter, r2.outcome);
      } else {
        assert Charges(p, s, c) == Charges(first, s, c);
      }
    case If(cond, thn, els) =>
      GasIsExact(if cond(c.locals) then thn else els, s, c);
    case Apply(body, bindErr) =>
      GasIsExact(body, s, c);
      CallUnfolds(body, bindErr, s, c);
    case ConsumeGas(amount, descriptor) =>
      assert [(amount(c.locals), descriptor)][..0] == [];
    case _ =>
  }

  /** No panic statement raises a gas panic of its own. */
  ghost predicate PlainPanics(p: Stmt) {
    match p
    case Panic(v) => forall l :: v(l).Other?
    case Seq(first, second) => PlainPanics(first) && PlainPanics(second)
    case If(_, thn, els) => PlainPanics(thn) && PlainPanics(els)
    case Apply(body, _) => PlainPanics(body)
    case _ => true
  }

  /** A program ends in a gas panic exactly when it charges too much. */
  lemma {:induction false} GasPanicIff(p: Stmt, s: Store, c: Rest)
    requires PlainPanics(p) && c.meter.consumed <= MAX_UINT64
    ensures var o := Run(p, s, c).outcome;
            o.Panics? && !o.value.Other? <==> TooMuch(c.meter, Charges(p, s, c))
  {
    GasIsExact(p, s, c);
    match p
    case Seq(first, second) =>
      GasPanicIff(first, s, c);
      GasIsExact(first, s, c);
      var r := Run(first, s, c);
      if r.outcome.Falls? {
        GasPanicIff(second, r.store, r.rest);
        GasIsExact(second, r.store, r.rest);
        var r2 := Run(second, r.store, r.rest);
        MeteredSecond(c.meter, Charges(first, s, c), r.rest.meter, Charges(second, r.store, r.rest), r2.rest.meter, r2.outcome);
      } else {
        assert Charges(p, s, c) == Charges(first, s, c);
      }
    case If(cond, thn, els) =>
      GasPanicIff(if cond(c.locals) then thn else els, s, c);
    case Apply(body, bindErr) =>
      GasPanicIff(body, s, c);
      CallUnfolds(body, bindErr, s, c);
    case _ =>
  }

  // ----- Panics -----

  /** Every panic statement stands inside some call of ApplyFuncIfNoError. */
  predicate Guarded(p: Stmt) {
    match p
    case Panic(_) => false
    case Seq(first, second) => Guarded(first) && Guarded(second)
    case If(_, thn, els) => Guarded(thn) && Guarded(els)
    case _ => true
  }

  /** Whatever panics inside, only gas panics get out. */
  lemma {:induction false} OnlyGasPanicsEscape(p: Stmt, s: Store, c: Rest)
    requires Guarded(p)
    ensures Run(p, s, c).outcome.Panics? ==> IsGasPanic(Run(p, s, c).outcome.value)
  {
    match p
    case Seq(first, second) =>
      OnlyGasPanicsEscape(first, s, c);
      var r := Run(first, s, c);
      OnlyGasPanicsEscape(second, r.store, r.rest);
    case If(cond, thn, els) =>
      OnlyGasPanicsEscape(if cond(c.locals) then thn else els, s, c);
    case _ =>
  }

  /** A panic raised while a program runs, and how many calls of ApplyFuncIfNoError it was in. */
  datatype Raise = Raise(value: PanicValue, depth: nat)

  function Deeper(rs: seq<Raise>): seq<Raise> {
    seq(|rs|, i requires 0 <= i < |rs| => rs[i].(depth := rs[i].depth + 1))
  }

  /** All panics raised at any depth, in order. */
  function Raised(p: Stmt, s: Store, c: Rest): seq<Raise> {
    match p
    case Panic(v) => [Raise(v(c.locals), 0)]
    case ConsumeGas(amount, descriptor) =>
      var o := Charge(c.meter, amount(c.locals), descriptor).0;
      if o.Panics? then [Raise(o.value, 0)] else []
    case Seq(first, second) =>
      var r := Run(first, s, c);
      Raised(first, s, c) + if r.outcome.Falls? then Raised(second, r.store, r.rest) else []
    case If(cond, thn, els) => Raised(if cond(c.locals) then thn else els, s, c)
    case Apply(body, _) => Deeper(Raised(body, s, c))
    case _ => []
  }

  /** The panic leaves the program: it is a gas panic, or was raised outside all calls. */
  predicate Escapes(r: Raise) { IsGasPanic(r.value) || r.depth == 0 }

  /** An escaping panic is the last of `rs` and is the outcome; and a panicking outcome is one. */
  ghost predicate EndsBy(rs: seq<Raise>, o: Outcome) {
    && (forall i :: 0 <= i < |rs| && Escapes(rs[i]) ==> i == |rs| - 1 && o == Panics(rs[i].value))
    && (o.Panics? ==> rs != [] && Escapes(rs[|rs| - 1]))
  }

  lemma EndsBySecond(rs1: seq<Raise>, rs2: seq<Raise>, o: Outcome)
    requires EndsBy(rs1, Falls) && EndsBy(rs2, o)
    ensures EndsBy(rs1 + rs2, o)
  {
  }

  lemma EndsByCall(rs: seq<Raise>, o: Outcome)
    requires EndsBy(rs, o)
    ensures EndsBy(Deeper(rs), if o.Panics? && IsGasPanic(o.value) then o else Falls)
  {
    var deeper := Deeper(rs);
    forall i | 0 <= i < |deeper| && Escapes(deeper[i]) ensures i == |deeper| - 1 && o == Panics(deeper[i].value) {
      assert Escapes(rs[i]);
    }
  }

  /** Over every program, a panic that escapes is the last one raised and is how the program
      ends; if the last one does not escape, or there is none, the program does not end in a
      panic. So no gas panic raised at any depth is swallowed, and no other panic inside a
      call gets out. */
  lemma {:induction false} EscapingPanicEndsProgram(p: Stmt, s: Store, c: Rest)
    ensures EndsBy(Raised(p, s, c), Run(p, s, c).outcome)
  {
    match p
    case Seq(first, second) =>
      EscapingPanicEndsProgram(first, s, c);
      var r := Run(first, s, c);
      if r.outcome.Falls? {
        EscapingPanicEndsProgram(second, r.store, r.rest);
        EndsBySecond(Raised(first, s, c), Raised(second, r.store, r.rest), Run(second, r.store, r.rest).outcome);
      } else {
        assert Raised(p, s, c) == Raised(first, s, c);
      }
    case If(cond, thn, els) =>
      EscapingPanicEndsProgram(if cond(c.locals) then thn else els, s, c);
    case Apply(body, bindErr) =>
      EscapingPanicEndsProgram(body, s, c);
      EndsByCall(Raised(body, s, c), Run(body, s, c).outcome);
      CallUnfolds(body, bindErr, s, c);
    case _ =>
  }

  // ----- A statement anywhere in a program -----

  /** A program with a hole: a path from the whole program to one of its statements. */
  datatype Place =
    | Hole
    | First(place: Place, second: Stmt)
    | Second(first: Stmt, place: Place)
    | Then(cond: Locals -> bool, place: Place, els: Stmt)
    | Else(cond: Locals -> bool, thn: Stmt, place: Place)
    | InCall(place: Place, bindErr: (Locals, Option<string>) -> Locals)

  function Plug(k: Place, p: Stmt): Stmt {
    match k
    case Hole => p
    case First(k1, second) => Seq(Plug(k1, p), second)
    case Second(first, k1) => Seq(first, Plug(k1, p))
    case Then(cond, k1, els) => If(cond, Plug(k1, p), els)
    case Else(cond, thn, k1) => If(cond, thn, Plug(k1, p))
    case InCall(k1, bindErr) => Apply(Plug(k1, p), bindErr)
  }

  /** The store and the rest with which the run gets to the hole, if it does. */
  function Reach(k: Place, s: Store, c: Rest): Option<(Store, Rest)> {
    match k
    case Hole => Some((s, c))
    case First(k1, _) => Reach(k1, s, c)
    case Second(first, k1) =>
      var r := Run(first, s, c);
      if r.outcome.Falls? then Reach(k1, r.store, r.rest) else None
    case Then(cond, k1, _) => if cond(c.locals) then Reach(k1, s, c) else None
    case Else(cond, _, k1) => if cond(c.locals) then None else Reach(k1, s, c)
    case InCall(k1, _) => Reach(k1, s, c)
  }

  /** The store that is left when the hole ends in a gas panic with store `inner`: what the
      program had written before its outermost call around the hole. */
  function Left(k: Place, s: Store, c: Rest, inner: Store): Store {
    match k
    case Hole => inner
    case First(k1, _) => Left(k1, s, c, inner)
    case Second(first, k1) =>
      var r := Run(first, s, c);
      Left(k1, r.store, r.rest, inner)
    case Then(_, k1, _) => Left(k1, s, c, inner)
    case Else(_, _, k1) => Left(k1, s, c, inner)
    case InCall(_, _) => s
  }

  /** A gas panic of any statement ends the whole program: no code after it runs at any level,
      and every call around it drops its writes. */
  lemma {:induction false} GasPanicCrossesLevels(k: Place, p: Stmt, s: Store, c: Rest)
    requires Reach(k, s, c).Some?
    requires var (s1, c1) := Reach(k, s, c).value;
             var o := Run(p, s1, c1).outcome; o.Panics? && IsGasPanic(o.value)
    ensures var (s1, c1) := Reach(k, s, c).value;
            var r := Run(p, s1, c1);
            Run(Plug(k, p), s, c) == Result(r.outcome, Left(k, s, c, r.store), r.rest)
  {
    match k
    case Hole =>
    case First(k1, _) => GasPanicCrossesLevels(k1, p, s, c);
    case Second(first, k1) =>
      var r := Run(first, s, c);
      GasPanicCrossesLevels(k1, p, r.store, r.rest);
    case Then(_, k1, _) => GasPanicCrossesLevels(k1, p, s, c);
    case Else(_, _, k1) => GasPanicCrossesLevels(k1, p, s, c);
    case InCall(k1, bindErr) =>
      GasPanicCrossesLevels(k1, p, s, c);
      CallUnfolds(Plug(k1, p), bindErr, s, c);
  }

  lemma {:induction false} CallUnfolds(body: Stmt, bindErr: (Locals, Option<string>) -> Locals, s: Store, c: Rest)
    ensures var r := Run(body, s, c);
            Run(Apply(body, bindErr), s, c) ==
            if r.outcome.Panics? && IsGasPanic(r.outcome.value) then Result(r.outcome, s, r.rest)
            else Result(Falls, if r.outcome.Ok() then r.store else s,
                        r.rest.(locals := bindErr(r.rest.locals, Report(r.outcome).err)))
  {
    assert Transact(body, s, c).rest == Run(body, s, c).rest;
  }

  /** No call stands between the program and the hole. */
  predicate SameLevel(k: Place) {
    match k
    case Hole => true
    case First(k1, _) => SameLevel(k1)
    case Second(_, k1) => SameLevel(k1)
    case Then(_, k1, _) => SameLevel(k1)
    case Else(_, _, k1) => SameLevel(k1)
    case InCall(_, _) => false
  }

  /** Within one level a statement that returns or panics ends it as it is. */
  lemma {:induction false} EndPropagates(k: Place, p: Stmt, s: Store, c: Rest)
    requires SameLevel(k) && Reach(k, s, c).Some?
    requires var (s1, c1) := Reach(k, s, c).value; !Run(p, s1, c1).outcome.Falls?
    ensures var (s1, c1) := Reach(k, s, c).value; Run(Plug(k, p), s, c) == Run(p, s1, c1)
  {
    match k
    case Hole =>
    case First(k1, second) =>
      EndPropagates(k1, p, s, c);
      SeqUnfolds(Plug(k1, p), second, s, c);
    case Second(first, k1) =>
      var r := Run(first, s, c);
      EndPropagates(k1, p, r.store, r.rest);
      SeqUnfolds(first, Plug(k1, p), s, c);
    case Then(cond, k1, els) =>
      EndPropagates(k1, p, s, c);
      IfUnfolds(cond, Plug(k1, p), els, s, c);
    case Else(cond, thn, k1) =>
      EndPropagates(k1, p, s, c);
      IfUnfolds(cond, thn, Plug(k1, p), s, c);
  }

  lemma {:induction false} SeqUnfolds(first: Stmt, second: Stmt, s: Store, c: Rest)
    ensures var r := Run(first, s, c);
            Run(Seq(first, second), s, c) == if r.outcome.Falls? then Run(second, r.store, r.rest) else r
  {
  }

  lemma {:induction false} IfUnfolds(cond: Locals -> bool, thn: Stmt, els: Stmt, s: Store, c: Rest)
    ensures Run(If(cond, thn, els), s, c) == if cond(c.locals) then Run(thn, s, c) else Run(els, s, c)
  {
  }

  /** Any other failure, anywhere in the body of a call, stops at that call: the caller gets a
      non-nil error, finds its store as before the call, and carries on. */
  lemma FailureStopsAtItsLevel(k: Place, p: Stmt, bindErr: (Locals, Option<string>) -> Locals, s: Store, c: Rest)
    requires SameLevel(k) && Reach(k, s, c).Some?
    requires var (s1, c1) := Reach(k, s, c).value;
             var o := Run(p, s1, c1).outcome;
             !o.Ok() && (o.Panics? ==> !IsGasPanic(o.value))
    ensures var (s1, c1) := Reach(k, s, c).value;
            var r := Run(p, s1, c1);
            var err := if r.outcome.Panics? then Some(PANIC_ERROR) else r.outcome.err;
            err.Some? &&
            Run(Apply(Plug(k, p), bindErr), s, c) ==
            Result(Falls, s, r.rest.(locals := bindErr(r.rest.locals, err)))
  {
    EndPropagates(k, p, s, c);
    CallUnfolds(Plug(k, p), bindErr, s, c);
  }

  /** A return anywhere in the body of a call ends it: without an error the caller keeps what
      was written up to there, with one it finds its store as before, and it gets the error. */
  lemma ReturnEndsCall(k: Place, e: Locals -> Option<string>, bindErr: (Locals, Option<string>) -> Locals, s: Store, c: Rest)
    requires SameLevel(k) && Reach(k, s, c).Some?
    ensures var (s1, c1) := Reach(k, s, c).value;
            var err := e(c1.locals);
            Run(Apply(Plug(k, Return(e)), bindErr), s, c) ==
            Result(Falls, if err.None? then s1 else s, c1.(locals := bindErr(c1.locals, err)))
  {
    EndPropagates(k, Return(e), s, c);
    CallUnfolds(Plug(k, Return(e)), bindErr, s, c);
  }

  /** A panic anywhere in the body of a call drops its writes; the caller gets the fixed error,
      except that an out-of-gas or gas-overflow panic goes on through it. */
  lemma PanicEndsCall(k: Place, v: Locals -> PanicValue, bindErr: (Locals, Option<string>) -> Locals, s: Store, c: Rest)
    requires SameLevel(k) && Reach(k, s, c).Some?
    ensures var (s1, c1) := Reach(k, s, c).value;
            Run(Apply(Plug(k, Panic(v)), bindErr), s, c) ==
            if v(c1.locals).Other?
            then Result(Falls, s, c1.(locals := bindErr(c1.locals, Some("panic occurred during execution"))))
            else Result(Panics(v(c1.locals)), s, c1)
  {
    EndPropagates(k, Panic(v), s, c);
    CallUnfolds(Plug(k, Panic(v)), bindErr, s, c);
  }

  /** What is assigned in the body of a call is what its later statements and its caller see. */
  lemma AssignReachesCaller(k: Place, f: Locals -> Locals, e: Locals -> Option<string>,
                            bindErr: (Locals, Option<string>) -> Locals, s: Store, c: Rest)
    requires SameLevel(k) && Reach(k, s, c).Some?
    ensures var (s1, c1) := Reach(k, s, c).value;
            var err := e(f(c1.locals));
            Run(Apply(Plug(k, Seq(Assign(f), Return(e))), bindErr), s, c) ==
            Result(Falls, if err.None? then s1 else s, c1.(locals := bindErr(f(c1.locals), err)))
  {
    var (s1, c1) := Reach(k, s, c).value;
    var p := Seq(Assign(f), Return(e));
    SeqUnfolds(Assign(f), Return(e), s1, c1);
    EndPropagates(k, p, s, c);
    CallUnfolds(Plug(k, p), bindErr, s, c);
  }

  // ----- The surviving writes -----

  type Writes = seq<(Key, Option<Value>)>

  function Replay(s: Store, ws: Writes): Store
    decreases |ws|
  {
    if ws == [] then s else Replay(Poke(s, ws[0].0, ws[0].1), ws[1..])
  }

  /** The writes that survive, in program order: a call that fails contributes none of its
      writes, a call that succeeds contributes all that survive in its body. */
  function Committed(p: Stmt, s: Store, c: Rest): Writes {
    match p
    case Set(key, val) => [(key(c.locals), Some(val(c.locals)))]
    case Delete(key) => [(key(c.locals), None)]
    case Seq(first, second) =>
      var r := Run(first, s, c);
      Committed(first, s, c) + if r.outcome.Falls? then Committed(second, r.store, r.rest) else []
    case If(cond, thn, els) => Committed(if cond(c.locals) then thn else els, s, c)
    case Apply(body, _) => if Run(body, s, c).outcome.Ok() then Committed(body, s, c) else []
    case _ => []
  }

  lemma {:induction false} ReplayAppend(s: Store, a: Writes, b: Writes)
    ensures Replay(s, a + b) == Replay(Replay(s, a), b)
    decreases |a|
  {
    if a == [] {
      assert a + b == b;
    } else {
      assert (a + b)[1..] == a[1..] + b;
      ReplayAppend(Poke(s, a[0].0, a[0].1), a[1..], b);
    }
  }

  /** The final store is the initial one with exactly the committed writes replayed. */
  lemma {:induction false} StoreIsReplayedLog(p: Stmt, s: Store, c: Rest)
    ensures Run(p, s, c).store == Replay(s, Committed(p, s, c))
  {
    match p
    case Seq(first, second) =>
      var r := Run(first, s, c);
      StoreIsReplayedLog(first, s, c);
      if r.outcome.Falls? {
        StoreIsReplayedLog(second, r.store, r.rest);
        ReplayAppend(s, Committed(first, s, c), Committed(second, r.store, r.rest));
      } else {
        assert Committed(p, s, c) == Committed(first, s, c);
      }
    case If(cond, thn, els) =>
      StoreIsReplayedLog(if cond(c.locals) then thn else els, s, c);
    case Apply(body, _) =>
      StoreIsReplayedLog(body, s, c);
    case _ =>
  }

  // ----- What a read sees -----

  /** The writes in force at the hole, in order: those of the calls that succeeded before it,
      and those of the calls it stands in. */
  function WritesBefore(k: Place, s: Store, c: Rest): Writes {
    match k
    case Hole => []
    case First(k1, _) => WritesBefore(k1, s, c)
    case Second(first, k1) =>
      var r := Run(first, s, c);
      Committed(first, s, c) + WritesBefore(k1, r.store, r.rest)
    case Then(_, k1, _) => WritesBefore(k1, s, c)
    case Else(_, _, k1) => WritesBefore(k1, s, c)
    case InCall(k1, _) => WritesBefore(k1, s, c)
  }

  lemma {:induction false} ReachedStoreIsReplayed(k: Place, s: Store, c: Rest)
    requires Reach(k, s, c).Some?
    ensures Reach(k, s, c).value.0 == Replay(s, WritesBefore(k, s, c))
  {
    match k
    case Hole =>
    case First(k1, _) => ReachedStoreIsReplayed(k1, s, c);
    case Second(first, k1) =>
      var r := Run(first, s, c);
      ReachedStoreIsReplayed(k1, r.store, r.rest);
      StoreIsReplayedLog(first, s, c);
      ReplayAppend(s, Committed(first, s, c), WritesBefore(k1, r.store, r.rest));
    case Then(_, k1, _) => ReachedStoreIsReplayed(k1, s, c);
    case Else(_, _, k1) => ReachedStoreIsReplayed(k1, s, c);
    case InCall(k1, _) => ReachedStoreIsReplayed(k1, s, c);
  }

  predicate LastAt(ws: Writes, i: nat, key: Key) {
    i < |ws| && ws[i].0 == key && forall j :: i < j < |ws| ==> ws[j].0 != key
  }

  /** `v` is what was last written to `key`, or what the store held if nothing was. */
  ghost predicate LastWritten(s: Store, ws: Writes, key: Key, v: Option<Value>) {
    || (exists i: nat :: LastAt(ws, i, key) && v == ws[i].1)
    || ((forall j :: 0 <= j < |ws| ==> ws[j].0 != key) && v == if key in s then Some(s[key]) else None)
  }

  lemma {:induction false} ReplayedValue(s: Store, ws: Writes, key: Key)
    ensures LastWritten(s, ws, key, Peek(Replay(s, ws), key))
    decreases |ws|
  {
    if ws != [] {
      var tail := ws[1..];
      var s1, v := Poke(s, ws[0].0, ws[0].1), Peek(Replay(s, ws), key);
      ReplayedValue(s1, tail, key);
      assert forall j :: 0 < j < |ws| ==> ws[j] == tail[j - 1];
      if i: nat :| LastAt(tail, i, key) && v == tail[i].1 {
        assert LastAt(ws, i + 1, key);
      } else {
        assert v == Peek(s1, key);
        assert ws[0].0 == key ==> LastAt(ws, 0, key);
      }
    }
  }

  /** A read anywhere in the body of a call gets what was last written to its key: before the
      call, in the call, or never, in which case it is the initial value. It is recorded, and
      what is made of it is what the call's later statements and its caller see. */
  lemma ReadReachesCaller(k: Place, key: Locals -> Key, bind: (Locals, Option<Value>) -> Locals, e: Locals -> Option<string>,
                          bindErr: (Locals, Option<string>) -> Locals, s: Store, c: Rest) returns (v: Option<Value>)
    requires SameLevel(k) && Reach(k, s, c).Some?
    ensures var (s1, c1) := Reach(k, s, c).value;
            && LastWritten(s, WritesBefore(k, s, c), key(c1.locals), v)
            && var locals := bind(c1.locals, v);
            Run(Apply(Plug(k, Seq(Get(key, bind), Return(e))), bindErr), s, c) ==
            Result(Falls, if e(locals).None? then s1 else s,
                   Rest(bindErr(locals, e(locals)), c1.meter, c1.seen + [(key(c1.locals), v)]))
  {
    var (s1, c1) := Reach(k, s, c).value;
    v := Peek(s1, key(c1.locals));
    ReachedStoreIsReplayed(k, s, c);
    ReplayedValue(s, WritesBefore(k, s, c), key(c1.locals));
    var p := Seq(Get(key, bind), Return(e));
    SeqUnfolds(Get(key, bind), Return(e), s1, c1);
    EndPropagates(k, p, s, c);
    CallUnfolds(Plug(k, p), bindErr, s, c);
  }
}
