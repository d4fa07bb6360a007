/** The middleware around the transfer application, on acknowledgements and timeouts: some
    layers run their own callback before the layers below them, some after. */
module IbcStack {
  import opened Wrappers

  /** A keeper callback: it changes the chain state and may fail. */
  datatype Handler<!S> = Handler(name: string, run: S -> (S, Option<string>))

  datatype Layer<!S> = Before(h: Handler<S>) | After(h: Handler<S>)

  /** What running handlers leads to: the state, the first error, and who ran. */
  datatype Delivery<S> = Delivery(state: S, err: Option<string>, trace: seq<string>)

  function Names<S>(hs: seq<Handler<S>>): seq<string> {
    seq(|hs|, i requires 0 <= i < |hs| => hs[i].name)
  }

  // ----- Reference: a plain list of handlers, run until one fails -----

  function RunAll<S>(hs: seq<Handler<S>>, s: S): Delivery<S> {
    if hs == [] then Delivery(s, None, [])
    else
      var (s1, err) := hs[0].run(s);
      if err.Some? then Delivery(s1, err, [hs[0].name])
      else
        var d := RunAll(hs[1..], s1);
        Delivery(d.state, d.err, [hs[0].name] + d.trace)
  }

  /** The order in which a stack, listed from the top, runs its handlers around `base`. */
  function Order<S>(layers: seq<Layer<S>>, base: Handler<S>): seq<Handler<S>> {
    if layers == [] then [base]
    else
      match layers[0]
      case Before(h) => [h] + Order(layers[1..], base)
      case After(h) => Order(layers[1..], base) + [h]
  }

  function Befores<S>(layers: seq<Layer<S>>): seq<Handler<S>> {
    if layers == [] then []
    else (if layers[0].Before? then [layers[0].h] else []) + Befores(layers[1..])
  }

  function AftersUpwards<S>(layers: seq<Layer<S>>): seq<Handler<S>> {
    if layers == [] then []
    else AftersUpwards(layers[1..]) + if layers[0].After? then [layers[0].h] else []
  }

  /** On the way down the `Before` layers, then the base, on the way up the `After` layers. */
  lemma {:induction false} OrderIsDownBaseUp<S>(layers: seq<Layer<S>>, base: Handler<S>)
    ensures Order(layers, base) == Befores(layers) + [base] + AftersUpwards(layers)
  {
    if layers != [] {
      OrderIsDownBaseUp(layers[1..], base);
    }
  }

  lemma {:induction false} RunAllAppend<S>(a: seq<Handler<S>>, b: seq<Handler<S>>, s: S)
    ensures var d := RunAll(a, s);
            RunAll(a + b, s) ==
            if d.err.Some? then d
            else var e := RunAll(b, d.state); Delivery(e.state, e.err, d.trace + e.trace)
    decreases |a|
  {
    if a == [] {
      assert a + b == b;
      assert forall t: seq<string> :: [] + t == t;
    } else {
      assert (a + b)[1..] == a[1..] + b;
      var (s1, err) := a[0].run(s);
      RunAllAppend(a[1..], b, s1);
      if err.None? {
        var d := RunAll(a[1..], s1);
        var e := RunAll(b, d.state);
        assert [a[0].name] + (d.trace + e.trace) == [a[0].name] + d.trace + e.trace;
      }
    }
  }

  /** The trace is a prefix of the order; it is all of it exactly when nothing failed, and
      otherwise ends with the handler that failed, everyone before having succeeded. */
  lemma {:induction false} TraceIsPrefix<S>(hs: seq<Handler<S>>, s: S)
    ensures var d := RunAll(hs, s);
            var n := |d.trace|;
            && n <= |hs| && d.trace == Names(hs[..n])
            && (d.err.None? ==> n == |hs|)
            && (d.err.Some? ==> n > 0 && RunAll(hs[..n - 1], s).err.None? &&
                                hs[n - 1].run(RunAll(hs[..n - 1], s).state) == (d.state, d.err))
    decreases |hs|
  {
    if hs != [] {
      var (s1, err) := hs[0].run(s);
      if err.None? {
        TraceIsPrefix(hs[1..], s1);
        var d := RunAll(hs[1..], s1);
        var n := |d.trace|;
        assert hs[..n + 1] == [hs[0]] + hs[1..][..n];
        if d.err.Some? {
          assert hs[..n] == [hs[0]] + hs[1..][..n - 1];
          assert hs[..n][1..] == hs[1..][..n - 1];
        }
      } else {
        assert hs[..0] == [];
      }
    }
  }

  /** Without an error each handler has run on what the ones before it left. */
  lemma {:induction false} LastRunsOnTheRest<S>(hs: seq<Handler<S>>, s: S)
    requires hs != []
    ensures var n := |hs| - 1;
            var before := RunAll(hs[..n], s);
            before.err.None? ==>
              RunAll(hs, s).state == hs[n].run(before.state).0 && RunAll(hs, s).err == hs[n].run(before.state).1
    decreases |hs|
  {
    var n := |hs| - 1;
    assert hs == hs[..n] + [hs[n]];
    RunAllAppend(hs[..n], [hs[n]], s);
    assert [hs[n]][1..] == [];
  }

  /** Handler `i` runs only if all the handlers before it succeeded. */
  lemma {:induction false} RanOnlyAfterSuccess<S>(hs: seq<Handler<S>>, s: S, i: nat)
    requires i < |RunAll(hs, s).trace|
    ensures i < |hs| && RunAll(hs[..i], s).err.None?
    decreases |hs|
  {
    TraceIsPrefix(hs, s);
    if i > 0 {
      var (s1, err) := hs[0].run(s);
      RanOnlyAfterSuccess(hs[1..], s1, i - 1);
      assert hs[..i][1..] == hs[1..][..i - 1];
    }
  }

  /** A measure that each handler moves by a known amount moves by their sum. */
  lemma {:induction false} RunAllMoves<S(!new)>(hs: seq<Handler<S>>, s: S, measure: S -> int, moves: seq<int>)
    requires |moves| == |hs|
    requires forall i, t :: 0 <= i < |hs| && hs[i].run(t).1.None? ==> measure(hs[i].run(t).0) == measure(t) + moves[i]
    ensures RunAll(hs, s).err.None? ==> measure(RunAll(hs, s).state) == measure(s) + SumOf(moves)
    decreases |hs|
  {
    if hs != [] {
      var (s1, err) := hs[0].run(s);
      if err.None? {
        var tail := hs[1..];
        forall i, t | 0 <= i < |tail| && tail[i].run(t).1.None?
          ensures measure(tail[i].run(t).0) == measure(t) + moves[1..][i]
        {
          assert hs[i + 1].run(t).1.None?;
        }
        RunAllMoves(tail, s1, measure, moves[1..]);
      }
    }
  }

  function SumOf(xs: seq<int>): int {
    if xs == [] then 0 else xs[0] + SumOf(xs[1..])
  }

  // ----- The code -----

  /** The chain as the handlers of one stack see it. */
  class Chain<S(!new)> {
    var state: S
    var trace: seq<string>

    constructor (state: S)
      ensures this.state == state && trace == []
    {
      this.state, trace := state, [];
    }

    method Call(h: Handler<S>) returns (err: Option<string>)
      modifies this
      ensures (state, err) == h.run(old(state))
      ensures trace == old(trace) + [h.name]
    {
      var r := h.run(state);
      state, err := r.0, r.1;
      trace := trace + [h.name];
    }

    /** OnAcknowledgementPacket or OnTimeoutPacket of the topmost layer, which calls the layer
        below it, and so on down to `base`. */
    method Deliver(layers: seq<Layer<S>>, base: Handler<S>) returns (err: Option<string>)
      modifies this
      decreases |layers|
      ensures var d := RunAll(Order(layers, base), old(state));
              state == d.state && err == d.err && trace == old(trace) + d.trace
    {
      if layers == [] {
        err := Call(base);
        return;
      }
      var below := layers[1..];
      match layers[0]
      case Before(h) =>
        err := Call(h);
        assert ([h] + Order(below, base))[1..] == Order(below, base);
        if err.Some? {
          return;
        }
        err := Deliver(below, base);
      case After(h) =>
        RunAllAppend(Order(below, base), [h], state);
        err := Deliver(below, base);
        if err.Some? {
          return;
        }
        ghost var s1 := state;
        err := Call(h);
        assert RunAll([h], s1).trace == [h.name];
    }
  }

  /** The layers over the lower stack, from the top. */
  function TransferStack<S>(autopilot: Handler<S>, records: Handler<S>, stakedym: Handler<S>, staketia: Handler<S>): seq<Layer<S>> {
    [After(autopilot), Before(records), Before(stakedym), Before(staketia)]
  }

  /** The transfer stack as app.go builds it, layer over layer. */
  method BuildTransferStack<S>(autopilot: Handler<S>, records: Handler<S>, stakedym: Handler<S>, staketia: Handler<S>)
    returns (transferStack: seq<Layer<S>>)
    ensures transferStack == TransferStack(autopilot, records, stakedym, staketia)
    ensures forall lower :: Order(transferStack, lower) == [records, stakedym, staketia, lower, autopilot]
  {
    transferStack := [];
    transferStack := [Before(staketia)] + transferStack;
    transferStack := [Before(stakedym)] + transferStack;
    transferStack := [Before(records)] + transferStack;
    transferStack := [After(autopilot)] + transferStack;
    assert transferStack == TransferStack(autopilot, records, stakedym, staketia);
    forall lower: Handler<S> ensures Order(transferStack, lower) == [records, stakedym, staketia, lower, autopilot] {
      TransferStackOrder(autopilot, records, stakedym, staketia, lower);
    }
  }

  /** `lower` stands for the rate limiter and everything beneath it. */
  lemma TransferStackOrder<S>(autopilot: Handler<S>, records: Handler<S>, stakedym: Handler<S>, staketia: Handler<S>, lower: Handler<S>)
    ensures Order(TransferStack(autopilot, records, stakedym, staketia), lower) == [records, stakedym, staketia, lower, autopilot]
  {
    var stack := TransferStack(autopilot, records, stakedym, staketia);
    assert Order(stack[4..], lower) == [lower];
    assert Order(stack[3..], lower) == [staketia] + Order(stack[4..], lower);
    assert Order(stack[2..], lower) == [stakedym] + Order(stack[3..], lower);
    assert Order(stack[1..], lower) == [records] + Order(stack[2..], lower);
  }

  /** In the transfer stack the refund runs only once all three record keepers succeeded, and
      the autopilot fallback only once the refund did too. */
  lemma RefundAndFallbackInOrder<S>(records: Handler<S>, stakedym: Handler<S>, staketia: Handler<S>, lower: Handler<S>, autopilot: Handler<S>, s: S)
    ensures var d := RunAll([records, stakedym, staketia, lower, autopilot], s);
            && (|d.trace| > 3 ==> RunAll([records, stakedym, staketia], s).err.None?)
            && (|d.trace| > 4 ==> RunAll([records, stakedym, staketia, lower], s).err.None?)
            && (d.err.None? ==> d.trace == [records.name, stakedym.name, staketia.name, lower.name, autopilot.name])
  {
    var hs := [records, stakedym, staketia, lower, autopilot];
    var d := RunAll(hs, s);
    TraceIsPrefix(hs, s);
    if |d.trace| > 3 {
      RanOnlyAfterSuccess(hs, s, 3);
      assert hs[..3] == [records, stakedym, staketia];
    }
    if |d.trace| > 4 {
      RanOnlyAfterSuccess(hs, s, 4);
      assert hs[..4] == [records, stakedym, staketia, lower];
    }
    if d.err.None? {
      assert hs[..5] == hs;
    }
  }
}
