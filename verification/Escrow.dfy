/** A token of another chain and its vouchers on Stride, over every interleaving of transfers
    both ways. Core IBC commits a received packet's state changes only when the packet is
    acknowledged as a success, and reverts an acknowledgement or timeout that fails. */
module Escrow {
  import opened Autopilot
  import opened Wrappers
  import IbcStack

  /** A packet under way: sent, acknowledged by the other side, or closed on the sending side. */
  datatype Status = Sent | Acked(ok: bool) | Settled

  datatype Flight = Flight(packet: Packet, amount: nat, status: Status)

  /** `inbound` packets carry the token to Stride, `outbound` packets carry vouchers home. */
  datatype World<S> = World(escrow: nat, stride: S, inbound: seq<Flight>, outbound: seq<Flight>)

  datatype Closing = AckOk | AckError | TimedOut

  datatype Keepers<!S> = Keepers(records: IbcStack.Handler<S>, stakedym: IbcStack.Handler<S>, staketia: IbcStack.Handler<S>,
                                 lower: IbcStack.Handler<S>, autopilot: IbcStack.Handler<S>)

  /** The surroundings: autopilot's, Stride's end of the channel, what packets call the token
      on its way in (`denom`) and on its way home (`voucher`), the vouchers' supply, and the
      handlers that close an outbound packet, which see the packet and how it ended. */
  datatype Setup<!S> = Setup(env: Env<S>, port: string, channel: string, denom: string, voucher: string,
                             parseAmount: string -> nat, supply: S -> nat,
                             keepers: (Packet, Closing) -> Keepers<S>)

  /** The handlers in the order the transfer stack runs them. */
  function Handlers<S>(k: Keepers<S>): seq<IbcStack.Handler<S>> {
    IbcStack.Order(IbcStack.TransferStack(k.autopilot, k.records, k.stakedym, k.staketia), k.lower)
  }

  predicate Holds<S>(su: Setup<S>, data: string, denom: string, amount: nat) {
    && su.env.decode(data).Some?
    && var d := su.env.decode(data).value;
    && d.denom == denom && su.parseAmount(d.amount) == amount
  }

  /** A packet that brings `amount` of the token to Stride over the channel. */
  predicate Carries<S>(su: Setup<S>, p: Packet, amount: nat) {
    p.destPort == su.port && p.destChannel == su.channel && Holds(su, p.data, su.denom, amount)
  }

  /** A packet that takes `amount` of the vouchers home over the channel. */
  predicate CarriesBack<S>(su: Setup<S>, p: Packet, amount: nat) {
    p.sourcePort == su.port && p.sourceChannel == su.channel && Holds(su, p.data, su.voucher, amount)
  }

  // ----- What the other modules are relied on for -----

  /** A successful transfer of the token over the channel mints the packet's amount. */
  ghost predicate LowerMints<S(!new)>(su: Setup<S>) {
    forall s, p, a :: Carries(su, p, a) && su.env.lower(s, p).1.Success? ==>
      su.supply(su.env.lower(s, p).0) == su.supply(s) + a
  }

  /** Autopilot's actions neither mint nor burn vouchers. */
  ghost predicate ActionsKeepSupply<S(!new)>(su: Setup<S>) {
    forall s, p, d, r :: Action(su.env, s, p, d, r).0.1.None? ==>
      su.supply(Action(su.env, s, p, d, r).0.0) == su.supply(s)
  }

  ghost predicate Moves<S(!new)>(su: Setup<S>, h: IbcStack.Handler<S>, amount: nat) {
    forall s :: h.run(s).1.None? ==> su.supply(h.run(s).0) == su.supply(s) + amount
  }

  function Refund(amount: nat, c: Closing): nat { if c.AckOk? then 0 else amount }

  ghost predicate KeepersRefund<S(!new)>(su: Setup<S>, k: Keepers<S>, amount: nat) {
    && Moves(su, k.records, 0) && Moves(su, k.stakedym, 0) && Moves(su, k.staketia, 0)
    && Moves(su, k.lower, amount) && Moves(su, k.autopilot, 0)
  }

  /** Closing a failed packet that took vouchers home mints them back; the record keepers and
      the autopilot fallback only move coins. */
  ghost predicate ClosingRefunds<S(!new)>(su: Setup<S>) {
    forall p, a, c :: CarriesBack(su, p, a) ==> KeepersRefund(su, su.keepers(p, c), Refund(a, c))
  }

  ghost predicate Sound<S(!new)>(su: Setup<S>) {
    RoundTrips(su.env) && LowerMints(su) && ActionsKeepSupply(su) && ClosingRefunds(su)
  }

  datatype Vouchers = Vouchers(count: nat)

  const OWN_PORT := "transfer"
  const OWN_CHANNEL := "channel-1"
  const IN := TokenData("uatom", "7", "sender", "receiver", "memo")
  const BACK := TokenData("transfer/channel-1/uatom", "5", "sender", "receiver", "")

  function ExampleDecode(bz: string): Option<TokenData> {
    if bz == "in" then Some(IN) else if bz == "back" then Some(BACK) else None
  }

  function ExampleEncode(d: TokenData): Option<string> {
    if d == IN then Some("in") else if d == BACK then Some("back") else None
  }

  function ExampleAmount(s: string): nat { if s == "7" then 7 else if s == "5" then 5 else 0 }

  /** What the packet's own data says it moves. */
  function ExampleMoved(p: Packet): nat {
    match ExampleDecode(p.data)
    case None => 0
    case Some(d) => ExampleAmount(d.amount)
  }

  function ExampleLower(s: Vouchers, p: Packet): (Vouchers, Ack) {
    if p.destPort == OWN_PORT && p.destChannel == OWN_CHANNEL && ExampleDecode(p.data) == Some(IN)
    then (Vouchers(s.count + ExampleMoved(p)), Success(""))
    else (s, Failure(""))
  }

  function ExampleEnv(memo: RawMemo): Env<Vouchers> {
    Env(ExampleDecode, ExampleEncode,
        (m: string) => memo,
        (a: string) => true,
        (c: string, a: string) => None,
        ExampleLower,
        (s: Vouchers) => true,
        (s: Vouchers) => true,
        (s: Vouchers, q: Packet, d: TokenData, r: StakeibcRoute) => (s, None),
        (s: Vouchers, q: Packet, d: TokenData, r: StakeibcRoute) => (s, None),
        (s: Vouchers, q: Packet, d: TokenData) => (s, None))
  }

  /** Refunds the amount in the packet's data when it came back as an error or timed out. */
  function ExampleKeepers(p: Packet, c: Closing): Keepers<Vouchers> {
    var idle: IbcStack.Handler<Vouchers> := IbcStack.Handler("", (s: Vouchers) => (s, None));
    Keepers(idle, idle, idle,
            IbcStack.Handler("", (s: Vouchers) => (Vouchers(s.count + Refund(ExampleMoved(p), c)), None)), idle)
  }

  const EXAMPLE_ROUTE := StakeibcRoute(REDEEM_STAKE, "", "", "")

  function ExampleSetup(): Setup<Vouchers> {
    Setup(ExampleEnv(RawMemo(Some(RawAutopilot("receiver", Some(EXAMPLE_ROUTE), None)), false, false)),
          OWN_PORT, OWN_CHANNEL, IN.denom, BACK.denom, ExampleAmount, (s: Vouchers) => s.count, ExampleKeepers)
  }

  lemma ExampleIsSound()
    ensures Sound(ExampleSetup())
  {
    var su := ExampleSetup();
    forall p, a, c | CarriesBack(su, p, a) ensures KeepersRefund(su, su.keepers(p, c), Refund(a, c)) {
      assert su.keepers(p, c) == ExampleKeepers(p, c) && ExampleMoved(p) == a;
    }
  }

  /** The assumptions can be met, with a packet in each direction, the one to Stride routed by
      autopilot: the state is the supply alone, and the refund is read from the packet. */
  lemma SoundIsSatisfiable() returns (su: Setup<Vouchers>, p: Packet, q: Packet)
    ensures Sound(su) && Carries(su, p, 7) && PlanFor(su.env, p).Act? && CarriesBack(su, q, 5)
    ensures Autopilot.Receive(su.env, Vouchers(0), p).ack.Success?
  {
    p := Packet(1, "transfer", "channel-0", OWN_PORT, OWN_CHANNEL, "in");
    q := Packet(1, OWN_PORT, OWN_CHANNEL, "transfer", "channel-0", "back");
    su := ExampleSetup();
    ExampleIsSound();
    assert PlanFor(su.env, p) == Act(IN, "in", Stakeibc(EXAMPLE_ROUTE.(strideAddress := "receiver")));
  }

  // ----- Steps -----

  datatype Event<S> =
    | Send(packet: Packet, amount: nat)
    | Receive(i: nat)
    | Acknowledge(i: nat)
    | Timeout(i: nat)
    | SendBack(packet: Packet, amount: nat, state: S)
    | ReceiveBack(i: nat, ok: bool)
    | CloseBack(i: nat, closing: Closing)
    | Local(state: S)

  function WithStatus(fs: seq<Flight>, i: nat, st: Status): seq<Flight>
    requires i < |fs|
  {
    fs[i := fs[i].(status := st)]
  }

  ghost predicate Next<S>(su: Setup<S>, w: World<S>, e: Event<S>, w': World<S>) {
    match e
    case Send(p, a) =>
      && Carries(su, p, a)
      && w' == w.(escrow := w.escrow + a, inbound := w.inbound + [Flight(p, a, Sent)])
    case Receive(i) =>
      && i < |w.inbound| && w.inbound[i].status == Sent
      && var r := Autopilot.Receive(su.env, w.stride, w.inbound[i].packet);
      && w' == w.(stride := if r.ack.Success? then r.state else w.stride,
                  inbound := WithStatus(w.inbound, i, Acked(r.ack.Success?)))
    case Acknowledge(i) =>
      && i < |w.inbound| && w.inbound[i].status.Acked?
      && var refund := if w.inbound[i].status.ok then 0 else w.inbound[i].amount;
      && Unescrow(w, refund, w.(inbound := WithStatus(w.inbound, i, Settled)), w')
    case Timeout(i) =>
      && i < |w.inbound| && w.inbound[i].status == Sent
      && Unescrow(w, w.inbound[i].amount, w.(inbound := WithStatus(w.inbound, i, Settled)), w')
    case SendBack(p, a, s) =>
      && CarriesBack(su, p, a) && su.supply(s) + a == su.supply(w.stride)
      && w' == w.(stride := s, outbound := w.outbound + [Flight(p, a, Sent)])
    case ReceiveBack(i, ok) =>
      && i < |w.outbound| && w.outbound[i].status == Sent
      && Unescrow(w, if ok then w.outbound[i].amount else 0, w.(outbound := WithStatus(w.outbound, i, Acked(ok))), w')
    case CloseBack(i, c) =>
      && i < |w.outbound| && w.outbound[i].status == (match c case TimedOut => Sent case _ => Acked(c.AckOk?))
      && var d := IbcStack.RunAll(Handlers(su.keepers(w.outbound[i].packet, c)), w.stride);
      && w' == if d.err.Some? then w else w.(stride := d.state, outbound := WithStatus(w.outbound, i, Settled))
    case Local(s) =>
      su.supply(s) == su.supply(w.stride) && w' == w.(stride := s)
  }

  /** Takes coins out of escrow and moves on to `after`; with too little in escrow it fails. */
  ghost predicate Unescrow<S>(w: World<S>, amount: nat, after: World<S>, w': World<S>) {
    if amount <= w.escrow then w' == after.(escrow := w.escrow - amount) else w' == w
  }

  // ----- The invariant -----

  /** What a packet still owes: it is neither credited at its destination nor refunded. */
  function Due(f: Flight): nat {
    if f.status == Sent || f.status == Acked(false) then f.amount else 0
  }

  function Pending(fs: seq<Flight>): nat {
    if fs == [] then 0 else Pending(fs[..|fs| - 1]) + Due(fs[|fs| - 1])
  }

  /** Every voucher and every unsettled transfer is covered by a token in escrow. */
  ghost predicate Backed<S>(su: Setup<S>, w: World<S>) {
    && w.escrow == su.supply(w.stride) + Pending(w.inbound) + Pending(w.outbound)
    && (forall i :: 0 <= i < |w.inbound| ==> Carries(su, w.inbound[i].packet, w.inbound[i].amount))
    && (forall i :: 0 <= i < |w.outbound| ==> CarriesBack(su, w.outbound[i].packet, w.outbound[i].amount))
  }

  lemma {:induction false} PendingUpdate(fs: seq<Flight>, i: nat, st: Status)
    requires i < |fs|
    ensures Pending(WithStatus(fs, i, st)) == Pending(fs) - Due(fs[i]) + Due(fs[i].(status := st))
    ensures Due(fs[i]) <= Pending(fs)
  {
    var n := |fs| - 1;
    var fs' := WithStatus(fs, i, st);
    if i == n {
      assert fs'[..n] == fs[..n];
    } else {
      assert fs'[..n] == WithStatus(fs[..n], i, st);
      PendingUpdate(fs[..n], i, st);
    }
  }

  lemma PendingAppend(fs: seq<Flight>, f: Flight)
    ensures Pending(fs + [f]) == Pending(fs) + Due(f)
  {
    assert (fs + [f])[..|fs|] == fs;
  }

  /** A packet acknowledged as a success has minted exactly its amount, whatever route it took. */
  lemma SuccessMintsAmount<S(!new)>(su: Setup<S>, s: S, p: Packet, a: nat)
    requires Sound(su) && Carries(su, p, a)
    ensures var r := Autopilot.Receive(su.env, s, p);
            r.ack.Success? ==> su.supply(r.state) == su.supply(s) + a
  {
    var plan := PlanFor(su.env, p);
    if plan.Act? {
      var p' := p.(data := plan.newData);
      assert su.env.encode(plan.data) == Some(plan.newData);
      assert Carries(su, p', a);
      var (s1, ack) := su.env.lower(s, p');
      var ((s2, err), call) := Action(su.env, s1, p, plan.data, plan.route);
    }
  }

  /** Why core must not commit on an error acknowledgement: autopilot may return one after the
      transfer below it has minted. */
  lemma ErrorAckAfterMint<S(!new)>(su: Setup<S>, s: S, p: Packet, a: nat)
    requires Sound(su) && Carries(su, p, a)
    requires PlanFor(su.env, p).Act?
    requires var plan := PlanFor(su.env, p);
             var r := su.env.lower(s, p.(data := plan.newData));
             r.1.Success? && !Active(su.env, r.0, plan.route)
    ensures var r := Autopilot.Receive(su.env, s, p);
            r.ack.Failure? && su.supply(r.state) == su.supply(s) + a
  {
    var plan := PlanFor(su.env, p);
    var p' := p.(data := plan.newData);
    assert su.env.encode(plan.data) == Some(plan.newData);
    assert Carries(su, p', a);
  }

  /** Closing an outbound packet moves the supply by its refund, once, if no handler fails. */
  lemma ClosingMovesRefund<S(!new)>(su: Setup<S>, s: S, p: Packet, a: nat, c: Closing)
    requires Sound(su) && CarriesBack(su, p, a)
    ensures var d := IbcStack.RunAll(Handlers(su.keepers(p, c)), s);
            d.err.None? ==> su.supply(d.state) == su.supply(s) + Refund(a, c)
  {
    var k := su.keepers(p, c);
    var hs := Handlers(k);
    assert KeepersRefund(su, k, Refund(a, c));
    IbcStack.TransferStackOrder(k.autopilot, k.records, k.stakedym, k.staketia, k.lower);
    var moves: seq<int> := [0, 0, 0, Refund(a, c), 0];
    var measure: S -> int := (t: S) => su.supply(t);
    forall i, t | 0 <= i < |hs| && hs[i].run(t).1.None?
      ensures measure(hs[i].run(t).0) == measure(t) + moves[i]
    {
      assert Moves(su, hs[i], moves[i]);
    }
    IbcStack.RunAllMoves(hs, s, measure, moves);
    SumOfMoves(0, 0, 0, Refund(a, c), 0);
  }

  lemma SumOfMoves(a: int, b: int, c: int, d: int, e: int)
    ensures IbcStack.SumOf([a, b, c, d, e]) == a + b + c + d + e
  {
    assert IbcStack.SumOf([e]) == e;
    assert IbcStack.SumOf([d, e]) == d + e by { assert [d, e][1..] == [e]; }
    assert IbcStack.SumOf([c, d, e]) == c + d + e by { assert [c, d, e][1..] == [d, e]; }
    assert IbcStack.SumOf([b, c, d, e]) == b + c + d + e by { assert [b, c, d, e][1..] == [c, d, e]; }
    assert [a, b, c, d, e][1..] == [b, c, d, e];
  }

  // ----- Every run stays backed -----

  lemma SendStaysBacked<S(!new)>(su: Setup<S>, w: World<S>, p: Packet, a: nat, w': World<S>)
    requires Backed(su, w) && Next(su, w, Send(p, a), w')
    ensures Backed(su, w')
  {
    PendingAppend(w.inbound, Flight(p, a, Sent));
  }

  lemma SendBackStaysBacked<S(!new)>(su: Setup<S>, w: World<S>, p: Packet, a: nat, s: S, w': World<S>)
    requires Backed(su, w) && Next(su, w, SendBack(p, a, s), w')
    ensures Backed(su, w')
  {
    PendingAppend(w.outbound, Flight(p, a, Sent));
  }

  lemma ReceiveStaysBacked<S(!new)>(su: Setup<S>, w: World<S>, i: nat, w': World<S>)
    requires Sound(su) && Backed(su, w) && Next(su, w, Receive(i), w')
    ensures Backed(su, w')
  {
    var f := w.inbound[i];
    SuccessMintsAmount(su, w.stride, f.packet, f.amount);
    PendingUpdate(w.inbound, i, w'.inbound[i].status);
  }

  lemma SettleStaysBacked<S(!new)>(su: Setup<S>, w: World<S>, e: Event<S>, w': World<S>)
    requires (e.Acknowledge? || e.Timeout?) && Backed(su, w) && Next(su, w, e, w')
    ensures Backed(su, w')
  {
    PendingUpdate(w.inbound, e.i, Settled);
  }

  lemma ReceiveBackStaysBacked<S(!new)>(su: Setup<S>, w: World<S>, e: Event<S>, w': World<S>)
    requires e.ReceiveBack? && Backed(su, w) && Next(su, w, e, w')
    ensures Backed(su, w')
  {
    PendingUpdate(w.outbound, e.i, Acked(e.ok));
  }

  lemma CloseStaysBacked<S(!new)>(su: Setup<S>, w: World<S>, i: nat, c: Closing, w': World<S>)
    requires Sound(su) && Backed(su, w) && Next(su, w, CloseBack(i, c), w')
    ensures Backed(su, w')
  {
    ClosingMovesRefund(su, w.stride, w.outbound[i].packet, w.outbound[i].amount, c);
    PendingUpdate(w.outbound, i, Settled);
  }

  lemma StepStaysBacked<S(!new)>(su: Setup<S>, w: World<S>, e: Event<S>, w': World<S>)
    requires Sound(su) && Backed(su, w) && Next(su, w, e, w')
    ensures Backed(su, w')
  {
    match e
    case Send(p, a) => SendStaysBacked(su, w, p, a, w');
    case Receive(i) => ReceiveStaysBacked(su, w, i, w');
    case Acknowledge(_) => SettleStaysBacked(su, w, e, w');
    case Timeout(_) => SettleStaysBacked(su, w, e, w');
    case SendBack(p, a, s) => SendBackStaysBacked(su, w, p, a, s, w');
    case ReceiveBack(_, _) => ReceiveBackStaysBacked(su, w, e, w');
    case CloseBack(i, c) => CloseStaysBacked(su, w, i, c, w');
    case Local(_) =>
  }

  ghost predicate Run<S>(su: Setup<S>, ws: seq<World<S>>, es: seq<Event<S>>) {
    |ws| == |es| + 1 && forall i :: 0 <= i < |es| ==> Next(su, ws[i], es[i], ws[i + 1])
  }

  lemma {:induction false} RunsStayBacked<S(!new)>(su: Setup<S>, ws: seq<World<S>>, es: seq<Event<S>>, n: nat)
    requires Sound(su) && Run(su, ws, es) && Backed(su, ws[0]) && n < |ws|
    ensures Backed(su, ws[n])
  {
    if n > 0 {
      RunsStayBacked(su, ws, es, n - 1);
      StepStaysBacked(su, ws[n - 1], es[n - 1], ws[n]);
    }
  }

  /** In every run, escrow covers any refund or return that is still due, so taking it out of
      escrow never fails. */
  lemma EscrowCoversDue<S(!new)>(su: Setup<S>, ws: seq<World<S>>, es: seq<Event<S>>, n: nat, i: nat)
    requires Sound(su) && Run(su, ws, es) && Backed(su, ws[0]) && n < |ws|
    ensures i < |ws[n].inbound| ==> Due(ws[n].inbound[i]) <= ws[n].escrow
    ensures i < |ws[n].outbound| ==> Due(ws[n].outbound[i]) <= ws[n].escrow
    ensures su.supply(ws[n].stride) <= ws[n].escrow
  {
    RunsStayBacked(su, ws, es, n);
    var w := ws[n];
    if i < |w.inbound| {
      PendingUpdate(w.inbound, i, Settled);
    }
    if i < |w.outbound| {
      PendingUpdate(w.outbound, i, Settled);
    }
  }
}
