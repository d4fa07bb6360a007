/** Autopilot's handling of a received transfer packet (x/autopilot/module_ibc.go) and of the
    routing instructions in its memo (x/autopilot/types/parser.go). */
module Autopilot {
  import opened Wrappers

  const MAX_MEMO_CHAR_LENGTH := 4000
  const MAX_RECEIVER_CHAR_LENGTH := 100

  const LIQUID_STAKE := "LiquidStake"
  const REDEEM_STAKE := "RedeemStake"

  datatype TokenData = TokenData(denom: string, amount: string, sender: string, receiver: string, memo: string)

  datatype Packet = Packet(sequence: nat, sourcePort: string, sourceChannel: string,
                           destPort: string, destChannel: string, data: string)

  datatype Ack = Success(result: string) | Failure(error: string)

  // ----- The memo -----

  /** A memo after JSON decoding; `forward` and `wasm` tell whether those keys are present. */
  datatype RawMemo =
    | NotJson
    | RawMemo(autopilot: Option<RawAutopilot>, forward: bool, wasm: bool)

  datatype RawAutopilot = RawAutopilot(receiver: string, stakeibc: Option<StakeibcRoute>, claim: Option<string>)

  datatype StakeibcRoute = StakeibcRoute(action: string, strideAddress: string, ibcReceiver: string, transferChannel: string)

  datatype Route = Stakeibc(stakeibc: StakeibcRoute) | Claim(strideAddress: string)

  datatype Metadata = NoMetadata | Metadata(receiver: string, route: Route)

  datatype Parsed = Ok(metadata: Metadata) | Invalid(error: string)

  function CountTrue(a: bool, b: bool, c: bool): nat {
    (if a then 1 else 0) + (if b then 1 else 0) + if c then 1 else 0
  }

  function ParseAutopilotMetadata(raw: RawMemo, validAddr: string -> bool): Parsed {
    match raw
    case NotJson => Ok(NoMetadata)
    case RawMemo(autopilot, forward, wasm) =>
      if CountTrue(autopilot.Some?, forward, wasm) > 1 then Invalid("invalid packet metadata")
      else if autopilot.None? then Ok(NoMetadata)
      else
        var a := autopilot.value;
        if !validAddr(a.receiver) then Invalid("invalid receiver address")
        else if CountTrue(a.stakeibc.Some?, a.claim.Some?, false) != 1 then Invalid("invalid module routes")
        else if a.stakeibc.Some? then
          var route := a.stakeibc.value.(strideAddress := a.receiver);
          if route.action == LIQUID_STAKE || route.action == REDEEM_STAKE
          then Ok(Metadata(a.receiver, Stakeibc(route)))
          else Invalid("unsupported stakeibc action")
        else Ok(Metadata(a.receiver, Claim(a.receiver)))
  }

  /** The memo asks for nothing autopilot does: no JSON, or no autopilot key and not both of
      the other two keys. */
  predicate IsPlainMemo(raw: RawMemo) {
    raw.NotJson? || (raw.autopilot.None? && !(raw.forward && raw.wasm))
  }

  /** The memo asks autopilot for exactly one supported action, and no one else for anything. */
  predicate IsAutopilotMemo(raw: RawMemo, validAddr: string -> bool) {
    && raw.RawMemo? && raw.autopilot.Some? && !raw.forward && !raw.wasm
    && var a := raw.autopilot.value;
    && validAddr(a.receiver)
    && (a.stakeibc.Some? <==> a.claim.None?)
    && (a.stakeibc.Some? ==> a.stakeibc.value.action in {"LiquidStake", "RedeemStake"})
  }

  /** The route of an autopilot memo; the fallback address is always the receiver. */
  function RouteOf(a: RawAutopilot): Route {
    if a.stakeibc.Some? then Stakeibc(a.stakeibc.value.(strideAddress := a.receiver)) else Claim(a.receiver)
  }

  /** The parser accepts exactly the plain memos and the autopilot memos. */
  lemma ParserAccepts(raw: RawMemo, validAddr: string -> bool)
    ensures ParseAutopilotMetadata(raw, validAddr) == Ok(NoMetadata) <==> IsPlainMemo(raw)
    ensures ParseAutopilotMetadata(raw, validAddr).Ok? <==> IsPlainMemo(raw) || IsAutopilotMemo(raw, validAddr)
    ensures IsAutopilotMemo(raw, validAddr) ==>
              ParseAutopilotMetadata(raw, validAddr) ==
              Ok(Metadata(raw.autopilot.value.receiver, RouteOf(raw.autopilot.value)))
  {
  }

  // ----- The surroundings of the module -----

  /** The codec, the address rules and hash, the application below, and the keepers; each
      keeper action returns the new state and an error, if any. */
  datatype Env<!S> = Env(
    decode: string -> Option<TokenData>,
    encode: TokenData -> Option<string>,
    parseMemo: string -> RawMemo,
    validAddr: string -> bool,
    hashedAddress: (string, string) -> Option<string>,
    lower: (S, Packet) -> (S, Ack),
    stakeibcActive: S -> bool,
    claimActive: S -> bool,
    liquidStake: (S, Packet, TokenData, StakeibcRoute) -> (S, Option<string>),
    redeemStake: (S, Packet, TokenData, StakeibcRoute) -> (S, Option<string>),
    updateClaim: (S, Packet, TokenData) -> (S, Option<string>))

  datatype Call =
    | LowerCall(packet: Packet)
    | LiquidStakeCall(packet: Packet, data: TokenData, route: StakeibcRoute)
    | RedeemStakeCall(packet: Packet, data: TokenData, route: StakeibcRoute)
    | ClaimCall(packet: Packet, data: TokenData)

  datatype Receipt<S> = Receipt(state: S, ack: Ack, calls: seq<Call>)

  // ----- Specification: what is decided before anything is called -----

  datatype Plan =
    | Refuse(error: string)
    | Forward
    | Act(data: TokenData, newData: string, route: Route)

  predicate Forwards(route: Route) {
    route.Stakeibc? && route.stakeibc.action == LIQUID_STAKE && route.stakeibc.ibcReceiver != ""
  }

  function PlanRoute<S>(env: Env<S>, packet: Packet, data: TokenData, m: Metadata): Plan
    requires m.Metadata?
  {
    if data.receiver != m.receiver then Refuse("invalid receiver address")
    else
      var hashed := env.hashedAddress(packet.destChannel, data.sender);
      if Forwards(m.route) && hashed.None? then Refuse("hash")
      else
        var data' := if Forwards(m.route) then data.(receiver := hashed.value) else data;
        match env.encode(data')
        case None => Refuse("marshal")
        case Some(bz) => Act(data', bz, m.route)
  }

  function PlanFor<S>(env: Env<S>, packet: Packet): Plan {
    match env.decode(packet.data)
    case None => Refuse("unmarshal")
    case Some(data) =>
      if |data.memo| > MAX_MEMO_CHAR_LENGTH then Refuse("invalid memo length")
      else if |data.receiver| > MAX_RECEIVER_CHAR_LENGTH then Refuse("invalid receiver length")
      else if !env.validAddr(data.receiver) then Refuse("invalid receiver address")
      else if data.memo == "" then Forward
      else
        match ParseAutopilotMetadata(env.parseMemo(data.memo), env.validAddr)
        case Invalid(e) => Refuse(e)
        case Ok(m) => if m.NoMetadata? then Forward else PlanRoute(env, packet, data, m)
  }

  /** The keeper action of a route, the call it makes and how it ends. */
  function Action<S>(env: Env<S>, s: S, packet: Packet, data: TokenData, route: Route): ((S, Option<string>), Call) {
    match route
    case Claim(_) => (env.updateClaim(s, packet, data), ClaimCall(packet, data))
    case Stakeibc(r) =>
      if r.action == LIQUID_STAKE then (env.liquidStake(s, packet, data, r), LiquidStakeCall(packet, data, r))
      else (env.redeemStake(s, packet, data, r), RedeemStakeCall(packet, data, r))
  }

  predicate Active<S>(env: Env<S>, s: S, route: Route) {
    if route.Stakeibc? then env.stakeibcActive(s) else env.claimActive(s)
  }

  /** The transfer first, then the routed action; any failure makes the acknowledgement an error. */
  function Receive<S>(env: Env<S>, s: S, packet: Packet): Receipt<S> {
    match PlanFor(env, packet)
    case Refuse(e) => Receipt(s, Failure(e), [])
    case Forward =>
      var (s1, ack) := env.lower(s, packet);
      Receipt(s1, ack, [LowerCall(packet)])
    case Act(data, newData, route) => TransferThenRoute(env, s, packet, data, newData, route)
  }

  function TransferThenRoute<S>(env: Env<S>, s: S, packet: Packet, data: TokenData, newData: string, route: Route): Receipt<S> {
    var packet' := packet.(data := newData);
    var (s1, ack) := env.lower(s, packet');
    if ack.Failure? then Receipt(s1, ack, [LowerCall(packet')])
    else if !Active(env, s1, route) then Receipt(s1, Failure("packet forwarding inactive"), [LowerCall(packet')])
    else
      var ((s2, err), call) := Action(env, s1, packet, data, route);
      Receipt(s2, if err.Some? then Failure(err.value) else ack, [LowerCall(packet'), call])
  }

  /** The switch of the route's module is on and its keeper action returns no error. */
  predicate ActionSucceeds<S>(env: Env<S>, s: S, packet: Packet, data: TokenData, route: Route) {
    || (&& route.Stakeibc? && env.stakeibcActive(s)
        && (route.stakeibc.action == "LiquidStake" ==> env.liquidStake(s, packet, data, route.stakeibc).1.None?)
        && (route.stakeibc.action != "LiquidStake" ==> env.redeemStake(s, packet, data, route.stakeibc).1.None?))
    || (route.Claim? && env.claimActive(s) && env.updateClaim(s, packet, data).1.None?)
  }

  predicate Supported(route: Route) {
    route.Stakeibc? ==> route.stakeibc.action in {LIQUID_STAKE, REDEEM_STAKE}
  }

  // ----- The code -----

  class Module<S(!new)> {
    var state: S
    var calls: seq<Call>

    constructor (state: S)
      ensures this.state == state && calls == []
    {
      this.state, calls := state, [];
    }

    method CallLower(env: Env<S>, packet: Packet) returns (ack: Ack)
      modifies this
      ensures (state, ack) == env.lower(old(state), packet)
      ensures calls == old(calls) + [LowerCall(packet)]
    {
      var r := env.lower(state, packet);
      state, ack := r.0, r.1;
      calls := calls + [LowerCall(packet)];
    }

    method CallKeeper(r: (S, Option<string>), call: Call) returns (err: Option<string>)
      modifies this
      ensures state == r.0 && err == r.1
      ensures calls == old(calls) + [call]
    {
      state, err := r.0, r.1;
      calls := calls + [call];
    }

    method OnRecvPacket(env: Env<S>, packet: Packet) returns (ack: Ack)
      modifies this
      ensures var r := Receive(env, old(state), packet);
              state == r.state && ack == r.ack && calls == old(calls) + r.calls
    {
      var decoded := env.decode(packet.data);
      if decoded.None? { return Failure("unmarshal"); }
      var tokenPacketData := decoded.value;
      if |tokenPacketData.memo| > MAX_MEMO_CHAR_LENGTH { return Failure("invalid memo length"); }
      if |tokenPacketData.receiver| > MAX_RECEIVER_CHAR_LENGTH { return Failure("invalid receiver length"); }
      if !env.validAddr(tokenPacketData.receiver) { return Failure("invalid receiver address"); }
      if tokenPacketData.memo == "" {
        ack := CallLower(env, packet);
        return;
      }
      var parsed := ParseAutopilotMetadata(env.parseMemo(tokenPacketData.memo), env.validAddr);
      if parsed.Invalid? { return Failure(parsed.error); }
      var autopilotMetadata := parsed.metadata;
      if autopilotMetadata.NoMetadata? {
        ack := CallLower(env, packet);
        return;
      }
      if tokenPacketData.receiver != autopilotMetadata.receiver { return Failure("invalid receiver address"); }
      var route := autopilotMetadata.route;
      if route.Stakeibc? && route.stakeibc.action == LIQUID_STAKE && route.stakeibc.ibcReceiver != "" {
        var hashedReceiver := env.hashedAddress(packet.destChannel, tokenPacketData.sender);
        if hashedReceiver.None? { return Failure("hash"); }
        tokenPacketData := tokenPacketData.(receiver := hashedReceiver.value);
      }
      var bz := env.encode(tokenPacketData);
      if bz.None? { return Failure("marshal"); }
      assert PlanFor(env, packet) == Act(tokenPacketData, bz.value, route);
      ack := TransferAndRoute(env, packet, tokenPacketData, bz.value, route);
    }

    /** The part of OnRecvPacket after its checks: the transfer, then the routed action. The
        action switch has no default, but the parser lets only supported actions through. */
    method TransferAndRoute(env: Env<S>, packet: Packet, tokenPacketData: TokenData, bz: string, route: Route) returns (ack: Ack)
      requires Supported(route)
      modifies this
      ensures var r := TransferThenRoute(env, old(state), packet, tokenPacketData, bz, route);
              state == r.state && ack == r.ack && calls == old(calls) + r.calls
      ensures var below := env.lower(old(state), packet.(data := bz));
              ack.Success? <==> below.1.Success? && ActionSucceeds(env, below.0, packet, tokenPacketData, route)
      ensures ack.Success? ==> ack == env.lower(old(state), packet.(data := bz)).1
    {
      var newPacket := packet.(data := bz);
      ack := CallLower(env, newPacket);
      if ack.Failure? { return; }
      var err: Option<string> := None;
      match route {
        case Stakeibc(routingInfo) =>
          if !env.stakeibcActive(state) { return Failure("packet forwarding inactive"); }
          if routingInfo.action == LIQUID_STAKE {
            err := CallKeeper(env.liquidStake(state, packet, tokenPacketData, routingInfo),
                              LiquidStakeCall(packet, tokenPacketData, routingInfo));
          } else if routingInfo.action == REDEEM_STAKE {
            err := CallKeeper(env.redeemStake(state, packet, tokenPacketData, routingInfo),
                              RedeemStakeCall(packet, tokenPacketData, routingInfo));
          }
        case Claim(_) =>
          if !env.claimActive(state) { return Failure("packet forwarding inactive"); }
          err := CallKeeper(env.updateClaim(state, packet, tokenPacketData), ClaimCall(packet, tokenPacketData));
      }
      if err.Some? { return Failure(err.value); }
    }
  }

  // ----- Properties -----

  /** What was encoded decodes to the same data. */
  ghost predicate RoundTrips<S>(env: Env<S>) {
    forall d :: env.encode(d).Some? ==> env.decode(env.encode(d).value) == Some(d)
  }

  /** The checks every packet has to pass. */
  predicate WellFormed<S>(env: Env<S>, packet: Packet) {
    && env.decode(packet.data).Some?
    && var d := env.decode(packet.data).value;
    && |d.memo| <= 4000 && |d.receiver| <= 100 && env.validAddr(d.receiver)
  }

  predicate IsPlain<S>(env: Env<S>, d: TokenData) { d.memo == "" || IsPlainMemo(env.parseMemo(d.memo)) }

  /** The memo asks for a liquid stake whose stTokens are then sent on. */
  predicate StakesAndForwards(a: RawAutopilot) {
    a.stakeibc.Some? && a.stakeibc.value.action == "LiquidStake" && a.stakeibc.value.ibcReceiver != ""
  }

  /** The packet's data as the layers below see it. */
  function DataBelow<S>(env: Env<S>, packet: Packet, d: TokenData, a: RawAutopilot): Option<TokenData> {
    if !StakesAndForwards(a) then Some(d)
    else
      match env.hashedAddress(packet.destChannel, d.sender)
      case None => None
      case Some(addr) => Some(d.(receiver := addr))
  }

  /** The packet carries a supported autopilot memo for its own receiver, and what goes to the
      layers below can be made and encoded. */
  predicate IsRouted<S>(env: Env<S>, packet: Packet, d: TokenData) {
    var raw := env.parseMemo(d.memo);
    && d.memo != "" && IsAutopilotMemo(raw, env.validAddr)
    && raw.autopilot.value.receiver == d.receiver
    && DataBelow(env, packet, d, raw.autopilot.value).Some?
    && env.encode(DataBelow(env, packet, d, raw.autopilot.value).value).Some?
  }

  /** The data, its encoding and the route of a routed packet. */
  function RoutedAs<S>(env: Env<S>, packet: Packet, d: TokenData): (TokenData, string, Route)
    requires IsRouted(env, packet, d)
  {
    var a := env.parseMemo(d.memo).autopilot.value;
    var below := DataBelow(env, packet, d, a).value;
    (below, env.encode(below).value, RouteOf(a))
  }

  predicate AutopilotSucceeds<S>(env: Env<S>, s: S, packet: Packet, d: TokenData) {
    IsRouted(env, packet, d) &&
    var (below, bz, route) := RoutedAs(env, packet, d);
    var (s1, ack) := env.lower(s, packet.(data := bz));
    ack.Success? && ActionSucceeds(env, s1, packet, below, route)
  }

  /** The three plans, by the packet and its memo. */
  lemma PlanIs<S>(env: Env<S>, packet: Packet)
    ensures PlanFor(env, packet).Forward? <==>
            WellFormed(env, packet) && IsPlain(env, env.decode(packet.data).value)
    ensures PlanFor(env, packet).Act? <==>
            WellFormed(env, packet) && IsRouted(env, packet, env.decode(packet.data).value)
    ensures PlanFor(env, packet).Act? ==>
            var (below, bz, route) := RoutedAs(env, packet, env.decode(packet.data).value);
            PlanFor(env, packet) == Act(below, bz, route)
  {
    if WellFormed(env, packet) {
      var d := env.decode(packet.data).value;
      ParserAccepts(env.parseMemo(d.memo), env.validAddr);
    }
  }

  /** Exactly when a packet is acknowledged as a success. */
  lemma SuccessAckIff<S>(env: Env<S>, s: S, packet: Packet)
    ensures Receive(env, s, packet).ack.Success? <==>
            && WellFormed(env, packet)
            && var d := env.decode(packet.data).value;
            || (IsPlain(env, d) && env.lower(s, packet).1.Success?)
            || AutopilotSucceeds(env, s, packet, d)
  {
    PlanIs(env, packet);
    var plan := PlanFor(env, packet);
    if plan.Act? {
      RoutesAreSupported(env, packet);
      var s1 := env.lower(s, packet.(data := plan.newData)).0;
      ActionSucceedsIff(env, s1, packet, plan.data, plan.route);
    }
  }

  lemma RoutesAreSupported<S>(env: Env<S>, packet: Packet)
    requires PlanFor(env, packet).Act?
    ensures Supported(PlanFor(env, packet).route)
  {
  }

  lemma ActionSucceedsIff<S>(env: Env<S>, s: S, packet: Packet, data: TokenData, route: Route)
    ensures ActionSucceeds(env, s, packet, data, route) <==>
            Active(env, s, route) && Action(env, s, packet, data, route).0.1.None?
  {
  }

  /** What a stakeibc route leads to: the transfer's own acknowledgement unless the stakeibc
      switch is off or the stake or redemption fails. */
  lemma StakeibcOutcome<S>(env: Env<S>, s: S, packet: Packet, d: TokenData, bz: string, r: StakeibcRoute)
    ensures var (s1, ack) := env.lower(s, packet.(data := bz));
            var out := TransferThenRoute(env, s, packet, d, bz, Stakeibc(r));
            var first := LowerCall(packet.(data := bz));
            && (ack.Failure? ==> out == Receipt(s1, ack, [first]))
            && (ack.Success? && !env.stakeibcActive(s1) ==>
                  out == Receipt(s1, Failure("packet forwarding inactive"), [first]))
            && (ack.Success? && env.stakeibcActive(s1) && r.action == "LiquidStake" ==>
                  out.calls == [first, LiquidStakeCall(packet, d, r)]
                  && out.state == env.liquidStake(s1, packet, d, r).0
                  && out.ack == AckAfter(ack, env.liquidStake(s1, packet, d, r).1))
            && (ack.Success? && env.stakeibcActive(s1) && r.action == "RedeemStake" ==>
                  out.calls == [first, RedeemStakeCall(packet, d, r)]
                  && out.state == env.redeemStake(s1, packet, d, r).0
                  && out.ack == AckAfter(ack, env.redeemStake(s1, packet, d, r).1))
  {
  }

  /** The same for a claim route and the claim switch. */
  lemma ClaimOutcome<S>(env: Env<S>, s: S, packet: Packet, d: TokenData, bz: string, a: string)
    ensures var (s1, ack) := env.lower(s, packet.(data := bz));
            var out := TransferThenRoute(env, s, packet, d, bz, Claim(a));
            var first := LowerCall(packet.(data := bz));
            && (ack.Failure? ==> out == Receipt(s1, ack, [first]))
            && (ack.Success? && !env.claimActive(s1) ==>
                  out == Receipt(s1, Failure("packet forwarding inactive"), [first]))
            && (ack.Success? && env.claimActive(s1) ==>
                  out.calls == [first, ClaimCall(packet, d)]
                  && out.state == env.updateClaim(s1, packet, d).0
                  && out.ack == AckAfter(ack, env.updateClaim(s1, packet, d).1))
  {
  }

  /** The acknowledgement of the transfer, unless the action that followed failed. */
  function AckAfter(ack: Ack, err: Option<string>): Ack {
    if err.Some? then Failure(err.value) else ack
  }

  /** Exactly which calls are made: none for a packet that is refused; the transfer for a plain
      packet, passed on as it came, and for a routed one; and then the action exactly when the
      transfer succeeded and the switch of the route's module is on. */
  lemma CallsIff<S>(env: Env<S>, s: S, packet: Packet)
    ensures var calls := Receive(env, s, packet).calls;
            && (calls != [] <==>
                  WellFormed(env, packet) &&
                  var d := env.decode(packet.data).value; IsPlain(env, d) || IsRouted(env, packet, d))
            && (calls != [] && IsPlain(env, env.decode(packet.data).value) ==>
                  calls == [LowerCall(packet)] && Receive(env, s, packet).ack == env.lower(s, packet).1)
            && (|calls| == 2 <==>
                  && WellFormed(env, packet)
                  && var d := env.decode(packet.data).value;
                  && IsRouted(env, packet, d)
                  && var (_, bz, route) := RoutedAs(env, packet, d);
                  && var (s1, ack) := env.lower(s, packet.(data := bz));
                  && ack.Success?
                  && (route.Stakeibc? ==> env.stakeibcActive(s1)) && (route.Claim? ==> env.claimActive(s1)))
  {
    PlanIs(env, packet);
    if WellFormed(env, packet) {
      PlainIsNotRouted(env, packet);
    }
    var plan := PlanFor(env, packet);
    if plan.Act? {
      var (below, bz, route) := RoutedAs(env, packet, env.decode(packet.data).value);
      assert Receive(env, s, packet) == TransferThenRoute(env, s, packet, below, bz, route);
      var (s1, ack) := env.lower(s, packet.(data := bz));
      assert |Receive(env, s, packet).calls| == 2 <==> ack.Success? && Active(env, s1, route);
    }
  }

  lemma PlainIsNotRouted<S>(env: Env<S>, packet: Packet)
    requires WellFormed(env, packet)
    ensures var d := env.decode(packet.data).value; !(IsPlain(env, d) && IsRouted(env, packet, d))
  {
  }

  predicate CallsActionOf(call: Call, route: Route) {
    match route
    case Claim(_) => call.ClaimCall?
    case Stakeibc(r) =>
      if r.action == "LiquidStake" then call.LiquidStakeCall? && call.route == r
      else r.action == "RedeemStake" && call.RedeemStakeCall? && call.route == r
  }

  /** The application below is called at most once, before anything else, with the packet as
      it came except that a liquid stake that forwards has its receiver replaced; one keeper
      action at most follows, on the original packet and with the fallback address set to the
      original receiver. */
  lemma LowerCalledOnce<S>(env: Env<S>, s: S, packet: Packet)
    requires RoundTrips(env)
    ensures var calls := Receive(env, s, packet).calls;
            && |calls| <= 2
            && (|calls| >= 1 ==>
                  && calls[0].LowerCall? && calls[0].packet == packet.(data := calls[0].packet.data)
                  && env.decode(packet.data).Some?
                  && var d := env.decode(packet.data).value;
                  && var replaced := && d.memo != "" && IsAutopilotMemo(env.parseMemo(d.memo), env.validAddr)
                                     && StakesAndForwards(env.parseMemo(d.memo).autopilot.value);
                  && (!replaced ==> env.decode(calls[0].packet.data) == Some(d))
                  && (replaced ==>
                        && env.hashedAddress(packet.destChannel, d.sender).Some?
                        && env.decode(calls[0].packet.data) ==
                           Some(d.(receiver := env.hashedAddress(packet.destChannel, d.sender).value))))
            && (|calls| == 2 ==>
                  && var d := env.decode(packet.data).value;
                  && IsAutopilotMemo(env.parseMemo(d.memo), env.validAddr)
                  && CallsActionOf(calls[1], RouteOf(env.parseMemo(d.memo).autopilot.value))
                  && calls[1].packet == packet
                  && env.decode(calls[0].packet.data) == Some(calls[1].data))
  {
    PlanIs(env, packet);
    var plan := PlanFor(env, packet);
    if plan.Act? {
      RoutesAreSupported(env, packet);
      assert env.encode(plan.data) == Some(plan.newData);
    } else if plan.Forward? {
      PlainIsNotRouted(env, packet);
    }
  }

  /** The effect of a single call on the state. */
  function Effect<S>(env: Env<S>, s: S, call: Call): S {
    match call
    case LowerCall(p) => env.lower(s, p).0
    case LiquidStakeCall(p, d, r) => env.liquidStake(s, p, d, r).0
    case RedeemStakeCall(p, d, r) => env.redeemStake(s, p, d, r).0
    case ClaimCall(p, d) => env.updateClaim(s, p, d).0
  }

  function Effects<S>(env: Env<S>, s: S, calls: seq<Call>): S {
    if calls == [] then s else Effects(env, Effect(env, s, calls[0]), calls[1..])
  }

  /** Receiving a packet changes the state by the recorded calls, in their order, and by
      nothing else. */
  lemma StateIsEffectOfCalls<S>(env: Env<S>, s: S, packet: Packet)
    ensures Receive(env, s, packet).state == Effects(env, s, Receive(env, s, packet).calls)
  {
    var r := Receive(env, s, packet);
    if |r.calls| > 0 {
      var s1 := Effect(env, s, r.calls[0]);
      if |r.calls| > 1 {
        assert r.calls[1..] == [r.calls[1]];
        assert Effects(env, s1, [r.calls[1]]) == Effect(env, s1, r.calls[1]) by {
          assert [r.calls[1]][1..] == [];
        }
      } else {
        assert r.calls[1..] == [];
      }
    }
  }
}
