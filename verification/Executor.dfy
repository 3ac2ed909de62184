/** Executing a message (`fvm/src/executor/default.rs`): the sender pays for the whole gas limit in
    advance, the message runs in a transaction, and what was paid is settled afterwards. */
module Executor {
  import opened Common
  import opened BitStrings
  import opened CborGrammar
  import opened Actors
  import opened Blocks
  import opened CallManager
  import opened SyscallTrees
  import opened Semantics
  import opened Execution
  import BufferedStore
  import StateTree
  import Gas

  datatype Message = Message(
    from: Address,
    to: Address,
    sequence: nat,
    value: TokenAmount,
    methodNum: nat,
    params: seq<Byte>,
    gasLimit: nat,
    gasFeeCap: TokenAmount,
    gasPremium: TokenAmount)

  datatype ApplyKind = Explicit | Implicit

  datatype Receipt = Receipt(exitCode: nat, returnData: seq<Byte>, gasUsed: nat)

  datatype ApplyRet = ApplyRet(
    receipt: Receipt,
    penalty: TokenAmount,
    minerTip: TokenAmount,
    baseFeeBurn: TokenAmount,
    overEstimationBurn: TokenAmount,
    refund: TokenAmount,
    gasRefund: nat,
    gasBurned: nat,
    events: seq<Event>)

  datatype ApplyError =
    | BadMessage | LookupFailed | InclusionNotCovered | MissingActor
    | NegativeDeposit | GasHandlingMathIsWrong

  const SYS_SENDER_INVALID: nat := 1
  const SYS_SENDER_STATE_INVALID: nat := 2
  const SYS_INVALID_RECEIVER: nat := 5
  const SYS_INSUFFICIENT_FUNDS: nat := 6
  const SYS_ASSERTION_FAILED: nat := 10

  function PrevalidationFail(code: nat, penalty: TokenAmount): ApplyRet {
    ApplyRet(Receipt(code, [], 0), penalty, 0, 0, 0, 0, 0, 0, [])
  }

  ghost predicate FeesOk(msg: Message, baseFee: TokenAmount) {
    baseFee >= 0 && msg.gasFeeCap >= 0 && msg.gasPremium >= 0 && |msg.params| < U64_MAX
  }

  /** The message's gas limit is one that `Message::check` lets through. */
  predicate Checked(msg: Message) {
    0 < msg.gasLimit <= Gas.I64_MAX
  }

  function ReceiptOf(r: Result<InvocationResult, ExecutionError>, gasUsed: nat, gasLimit: nat): Receipt {
    match r
    case Ok(InvocationResult(code, value)) => Receipt(code, if value.Some? then value.value.data else [], gasUsed)
    case Err(OutOfGas) => Receipt(SYS_OUT_OF_GAS, [], gasUsed)
    case Err(Syscall(InsufficientFunds)) => Receipt(SYS_INSUFFICIENT_FUNDS, [], gasUsed)
    case Err(Syscall(NotFound)) => Receipt(SYS_INVALID_RECEIVER, [], gasUsed)
    case Err(Syscall(_)) => Receipt(SYS_ASSERTION_FAILED, [], gasUsed)
    case Err(Fatal) => Receipt(SYS_ASSERTION_FAILED, [], gasLimit)
  }

  /** The exit codes, and which of them stand for which errors. A fatal error takes the whole limit. */
  lemma ReceiptTells(r: Result<InvocationResult, ExecutionError>, gasUsed: nat, gasLimit: nat)
    ensures var receipt := ReceiptOf(r, gasUsed, gasLimit);
            && receipt.gasUsed == (if r == Err(Fatal) then gasLimit else gasUsed)
            && (r.Ok? ==> receipt.exitCode == r.value.exitCode)
            && (r.Ok? && r.value.value.Some? ==> receipt.returnData == r.value.value.value.data)
            && (r.Err? || r.value.value.None? ==> receipt.returnData == [])
            && (r.Err? ==>
                  && receipt.exitCode in {5, 6, 7, 10}
                  && (receipt.exitCode == 7 <==> r.error == OutOfGas)
                  && (receipt.exitCode == 6 <==> r.error == Syscall(InsufficientFunds))
                  && (receipt.exitCode == 5 <==> r.error == Syscall(NotFound)))
  {
  }

  /** Only success gives a receipt that says so. */
  lemma OnlySuccessSucceeds(r: Result<InvocationResult, ExecutionError>, gasUsed: nat, gasLimit: nat)
    requires gasUsed <= gasLimit
    ensures ReceiptOf(r, gasUsed, gasLimit).exitCode == OK <==> Success(r)
    ensures ReceiptOf(r, gasUsed, gasLimit).gasUsed <= gasLimit
  {
  }

  /** The view after an amount is credited. */
  ghost function Deposited(view: ActorMap, id: ActorID, amount: TokenAmount): ActorMap {
    if id in view && amount != 0 then view[id := view[id].(balance := view[id].balance + amount)] else view
  }

  lemma DepositAdds(view: ActorMap, id: ActorID, amount: TokenAmount)
    requires amount != 0 ==> id in view
    ensures Total(Deposited(view, id, amount)) == Total(view) + amount
  {
    if amount != 0 {
      TotalUpdate(view, id, view[id].(balance := view[id].balance + amount));
    }
  }

  /** A sender that may send: an account, or a fresh placeholder of the EAM's namespace, which
      becomes an account. */
  function SenderFrom(ctx: Context, actor: ActorState): Option<ActorState> {
    if actor.code == ctx.placeholderCode && actor.sequence == 0 && actor.delegatedAddress.Some?
       && actor.delegatedAddress.value.DelegatedAddress? && actor.delegatedAddress.value.namespace == EAM_ACTOR_ID
    then Some(actor.(code := ctx.ethAccountCode))
    else if actor.code == ctx.accountCode || actor.code == ctx.ethAccountCode then Some(actor)
    else None
  }

  lemma SenderIs(ctx: Context, actor: ActorState)
    ensures SenderFrom(ctx, actor).Some? <==> actor.code in {ctx.accountCode, ctx.ethAccountCode} || Embryo(ctx, actor)
    ensures SenderFrom(ctx, actor).Some? && !Embryo(ctx, actor) ==> SenderFrom(ctx, actor).value == actor
    ensures Embryo(ctx, actor) ==>
              SenderFrom(ctx, actor).value.code == ctx.ethAccountCode && SenderFrom(ctx, actor).value.(code := actor.code) == actor
  {
  }

  /** A placeholder that has never sent, under an address of the EAM. */
  ghost predicate Embryo(ctx: Context, actor: ActorState) {
    actor.code == ctx.placeholderCode && actor.sequence == 0
    && exists sub :: actor.delegatedAddress == Some(DelegatedAddress(EAM_ACTOR_ID, sub))
  }

  /** Why a message is refused before anything is paid, with which exit code, and what the miner loses. */
  ghost predicate Rejected(ctx: Context, t: StateTree.Tree, baseFee: TokenAmount, msg: Message, kind: ApplyKind, inclusion: nat,
                           ret: ApplyRet)
  {
    var from := StateTree.IdOf(ctx.codec, t.view, t.resolved, msg.from);
    var known := from.Some? && from.value in t.view;
    && ret.receipt == Receipt(ret.receipt.exitCode, [], 0) && ret.events == []
    && OutputsOf(ret) == NoFees().(minerPenalty := ret.penalty)
    && match ret.receipt.exitCode
       case 7 => kind == Explicit && Gas.RoundUp(inclusion) > msg.gasLimit && ret.penalty == baseFee * Gas.RoundUp(inclusion)
       case 1 =>
         && (from.None? || (kind == Explicit && !(known && SenderFrom(ctx, t.view[from.value]).Some?)))
         && (kind == Explicit ==> Gas.RoundUp(inclusion) <= msg.gasLimit)
         && ret.penalty == Penalty(baseFee, msg, kind)
       case 2 =>
         && kind == Explicit && known && SenderFrom(ctx, t.view[from.value]).Some? && Gas.RoundUp(inclusion) <= msg.gasLimit
         && (t.view[from.value].sequence != msg.sequence || t.view[from.value].balance < CostOf(kind, msg))
         && ret.penalty == Penalty(baseFee, msg, kind)
       case _ => false
  }

  function Penalty(baseFee: TokenAmount, msg: Message, kind: ApplyKind): TokenAmount {
    if kind == Explicit then baseFee * msg.gasLimit else 0
  }

  /** An address can not be looked up without the init actor's state. */
  ghost predicate NoLookup(codec: InitCodec, view: ActorMap, addr: Address) {
    !addr.IdAddress? && StateTree.InitIn(codec, view).None?
  }

  /** What preflight leaves: the sequence is one up and the whole gas limit is paid for. */
  ghost predicate PaidUp(ctx: Context, before: ActorMap, after: ActorMap, sender: ActorID, msg: Message, cost: TokenAmount) {
    && sender in before && SenderFrom(ctx, before[sender]).Some?
    && before[sender].sequence == msg.sequence && 0 <= cost <= before[sender].balance
    && var actor := SenderFrom(ctx, before[sender]).value;
       after == before[sender := actor.(sequence := msg.sequence + 1, balance := actor.balance - cost)]
  }

  lemma PaidUpTotals(ctx: Context, before: ActorMap, after: ActorMap, sender: ActorID, msg: Message, cost: TokenAmount)
    requires PaidUp(ctx, before, after, sender, msg, cost)
    ensures Total(after) == Total(before) - cost
  {
    TotalUpdate(before, sender, after[sender]);
  }

  /** What settlement pays out. */
  ghost function Settlement(view: ActorMap, sender: ActorID, out: Gas.GasOutputs): ActorMap {
    Deposited(Deposited(Deposited(Deposited(view, BURNT_FUNDS_ACTOR_ID, out.baseFeeBurn),
                                  REWARD_ACTOR_ID, out.minerTip),
                        BURNT_FUNDS_ACTOR_ID, out.overEstimationBurn),
              sender, out.refund)
  }

  /** Who gets what: the burnt-funds actor both burns, the reward actor the tip, the sender the refund. */
  lemma SettlementIs(view: ActorMap, sender: ActorID, out: Gas.GasOutputs, id: ActorID)
    requires Settles(view, sender, out) && id in view
    ensures var after := Settlement(view, sender, out);
            && after.Keys == view.Keys && after[id] == view[id].(balance := after[id].balance)
            && after[id].balance == view[id].balance
                                    + (if id == BURNT_FUNDS_ACTOR_ID then out.baseFeeBurn + out.overEstimationBurn else 0)
                                    + (if id == REWARD_ACTOR_ID then out.minerTip else 0)
                                    + (if id == sender then out.refund else 0)
  {
    var a := Deposited(view, BURNT_FUNDS_ACTOR_ID, out.baseFeeBurn);
    var b := Deposited(a, REWARD_ACTOR_ID, out.minerTip);
    var c := Deposited(b, BURNT_FUNDS_ACTOR_ID, out.overEstimationBurn);
    DepositIs(view, BURNT_FUNDS_ACTOR_ID, out.baseFeeBurn, id);
    DepositIs(a, REWARD_ACTOR_ID, out.minerTip, id);
    DepositIs(b, BURNT_FUNDS_ACTOR_ID, out.overEstimationBurn, id);
    DepositIs(c, sender, out.refund, id);
  }

  lemma DepositIs(view: ActorMap, to: ActorID, amount: TokenAmount, id: ActorID)
    requires Creditable(view, to, amount) && id in view
    ensures var after := Deposited(view, to, amount);
            && after.Keys == view.Keys && after[id] == view[id].(balance := after[id].balance)
            && after[id].balance == view[id].balance + if id == to then amount else 0
  {
  }

  ghost predicate Creditable(view: ActorMap, id: ActorID, amount: TokenAmount) {
    amount != 0 ==> id in view
  }

  /** The deposits that settlement makes before the first that has no actor to go to. */
  ghost function PaidOut(view: ActorMap, sender: ActorID, out: Gas.GasOutputs): TokenAmount {
    if Creditable(view, BURNT_FUNDS_ACTOR_ID, out.baseFeeBurn) then out.baseFeeBurn + PaidAfterBurn(view, sender, out) else 0
  }

  ghost function PaidAfterBurn(view: ActorMap, sender: ActorID, out: Gas.GasOutputs): TokenAmount {
    if Creditable(view, REWARD_ACTOR_ID, out.minerTip) then out.minerTip + PaidLast(view, sender, out) else 0
  }

  ghost function PaidLast(view: ActorMap, sender: ActorID, out: Gas.GasOutputs): TokenAmount {
    if Creditable(view, BURNT_FUNDS_ACTOR_ID, out.overEstimationBurn)
    then out.overEstimationBurn + if Creditable(view, sender, out.refund) then out.refund else 0
    else 0
  }

  /** All that settlement credits exist. */
  ghost predicate Settles(view: ActorMap, sender: ActorID, out: Gas.GasOutputs) {
    && Creditable(view, BURNT_FUNDS_ACTOR_ID, out.baseFeeBurn) && Creditable(view, REWARD_ACTOR_ID, out.minerTip)
    && Creditable(view, BURNT_FUNDS_ACTOR_ID, out.overEstimationBurn) && Creditable(view, sender, out.refund)
  }

  ghost predicate NoPartNegative(out: Gas.GasOutputs) {
    out.baseFeeBurn >= 0 && out.overEstimationBurn >= 0 && out.minerTip >= 0 && out.refund >= 0
  }

  /** The top-level call of a message: the world before and after, what happened in between, and the
      milligas charged for the message until then. */
  datatype Ride = Ride(start: World, end: World, log: CallLog, milligas: nat)

  /** A call that succeeded did what its tree does, any other left the world as it was but for blocks,
      and the receipt says how it ended and what it cost, rounded up. */
  ghost predicate Rode(ctx: Context, msg: Message, sender: ActorID, target: Target, ride: Ride, receipt: Receipt) {
    && ride.milligas <= Min(Gas.FromGas(msg.gasLimit), Gas.I64_MAX)
    && receipt == ReceiptOf(ride.log.result, Gas.RoundUp(ride.milligas), msg.gasLimit)
    && if Success(ride.log.result)
       then Calls(ctx, sender, msg.to, Invoke(msg.methodNum), ParamsOf(msg), msg.value, false, [], target, ride.start, ride.log)
            && ride.end == WorldOf(ride.log.ran)
       else ride.end == ride.start.(store := ride.end.store)
  }

  /** The receipt covers the price of inclusion. */
  lemma InclusionIsPaid(ctx: Context, msg: Message, sender: ActorID, target: Target, ride: Ride, receipt: Receipt, inclusion: nat)
    requires Rode(ctx, msg, sender, target, ride, receipt) && inclusion <= ride.milligas
    ensures Gas.RoundUp(inclusion) <= receipt.gasUsed <= msg.gasLimit
    ensures receipt.gasUsed == Gas.RoundUp(ride.milligas) || (ride.log.result == Err(Fatal) && receipt.gasUsed == msg.gasLimit)
  {
    Gas.RoundUpMonotone(inclusion, ride.milligas);
    Gas.RoundedUseFits(msg.gasLimit, ride.milligas);
  }

  /** What happened to a message: it was refused, or it was paid for in `paid`, ran as `ride` says until
      `ran`, and of the fees `out`, `deposited` were credited. */
  datatype Flow =
    | Refused
    | Ran(sender: ActorID, paid: ActorMap, ran: ActorMap, ride: Ride, out: Gas.GasOutputs, deposited: TokenAmount)

  function OutputsOf(ret: ApplyRet): Gas.GasOutputs {
    Gas.GasOutputs(ret.baseFeeBurn, ret.overEstimationBurn, ret.penalty, ret.minerTip, ret.refund, ret.gasRefund, ret.gasBurned)
  }

  ghost predicate FeesOf(out: Gas.GasOutputs, gasUsed: nat, msg: Message, baseFee: TokenAmount) {
    Gas.FeesFor(out, gasUsed, msg.gasLimit, baseFee, msg.gasFeeCap, msg.gasPremium) && NoPartNegative(out)
  }

  function CostOf(kind: ApplyKind, msg: Message): TokenAmount {
    if kind == Explicit then msg.gasFeeCap * msg.gasLimit else 0
  }

  /** A message that ran: one that failed left the actors as they were when it was paid for. Afterwards
      exactly the fees for the gas charged, which the receipt reports, are settled with the sender. */
  ghost predicate Settled(ctx: Context, kind: ApplyKind, msg: Message, inclusion: nat, target: Target, baseFee: TokenAmount,
                          ret: ApplyRet, after: ActorMap, flow: Flow)
  {
    && flow.Ran? && Rode(ctx, msg, flow.sender, target, flow.ride, ret.receipt)
    && inclusion <= flow.ride.milligas && Gas.RoundUp(inclusion) <= ret.receipt.gasUsed <= msg.gasLimit
    && flow.ride.start.view == flow.paid && flow.ride.end.view == flow.ran
    && flow.ride.start.events == [] && ret.events == flow.ride.end.events
    && (ret.receipt.exitCode != OK ==> flow.ran == flow.paid && ret.events == [])
    && (ret.receipt.exitCode == OK && msg.methodNum == METHOD_SEND && msg.to.IdAddress? ==>
          Sent(flow.paid, flow.ran, flow.sender, msg.to.id, msg.value))
    && if kind == Implicit then after == flow.ran && OutputsOf(ret) == NoFees()
       else flow.out == OutputsOf(ret) && FeesOf(flow.out, ret.receipt.gasUsed, msg, baseFee)
            && Settles(flow.ran, flow.sender, flow.out) && after == Settlement(flow.ran, flow.sender, flow.out)
  }

  /** An executor error after payment: before the call with nothing deposited, or in settlement. */
  ghost predicate Failed(ctx: Context, kind: ApplyKind, msg: Message, inclusion: nat, target: Target, baseFee: TokenAmount,
                         e: ApplyError, after: ActorMap, flow: Flow)
  {
    flow.Ran? &&
    match e
    case MissingActor =>
      && kind == Explicit
      && (exists receipt ::
            Rode(ctx, msg, flow.sender, target, flow.ride, receipt) && FeesOf(flow.out, receipt.gasUsed, msg, baseFee))
      && !Settles(flow.ran, flow.sender, flow.out) && flow.deposited == PaidOut(flow.ran, flow.sender, flow.out)
    case LookupFailed =>
      NoLookup(ctx.codec, flow.paid, msg.to) && after == flow.ran == flow.paid && flow.deposited == 0
    case InclusionNotCovered =>
      inclusion > Min(Gas.FromGas(msg.gasLimit), Gas.I64_MAX) && after == flow.ran == flow.paid && flow.deposited == 0
    case _ => false
  }

  function NoFees(): Gas.GasOutputs {
    Gas.GasOutputs(0, 0, 0, 0, 0, 0, 0)
  }

  /** The parameters as a block: bytes without links, whatever they look like. */
  function ParamsOf(msg: Message): Option<Block> {
    if msg.params == [] then None
    else Some(Block(if msg.methodNum == METHOD_SEND then IPLD_RAW else CBOR, msg.params, []))
  }

  lemma ParamsOk(ctx: Context, msg: Message, present: set<Cid>)
    requires |msg.params| < U64_MAX
    ensures ParamsOf(msg).Some? ==> BlockOk(ctx.wire, ParamsOf(msg).value, present)
  {
    if ParamsOf(msg).Some? {
      PlainOk(ctx.wire, ParamsOf(msg).value, present);
    }
  }

  class Executor {
    const ctx: Context
    const baseFee: TokenAmount
    const onChainMessage: nat -> nat
    const preloaded: set<ActorID>
    var tree: StateTree.Tree
    /** The store under the write buffer, and what the buffer holds. */
    ghost const base: Blockstore
    ghost var written: set<Cid>

    constructor (ctx: Context, baseFee: TokenAmount, onChainMessage: nat -> nat, preloaded: set<ActorID>,
                 tree: StateTree.Tree)
      ensures this.ctx == ctx && this.baseFee == baseFee && this.tree == tree && base == tree.store && written == {}
      ensures ValidContext(ctx) && TreeOk(ctx, tree) && tree.saved == [] ==> Ready()
    {
      this.ctx, this.baseFee, this.onChainMessage, this.preloaded, this.tree := ctx, baseFee, onChainMessage, preloaded, tree;
      base, written := tree.store, {};
      OverlaidStart(ctx.wire, tree.store);
    }

    ghost predicate Ready()
      reads this
    {
      ValidContext(ctx) && TreeOk(ctx, tree) && tree.saved == [] && Overlaid(ctx.wire, base, written, tree.store)
    }

    /** What it costs that a message is on chain. */
    ghost function InclusionOf(kind: ApplyKind, rawLength: nat): nat {
      if kind == Explicit then onChainMessage(rawLength) else 0
    }

    ghost function Here(): Point
      reads this
    {
      Point(tree.view, tree.resolved, [])
    }

    method Resolve(addr: Address) returns (r: Result<Option<ActorID>, ExecutionError>)
      requires Ready()
      modifies this
      ensures Ready() && tree == old(tree).(resolved := tree.resolved)
      ensures StateTree.Recalls(ctx.codec, tree.view, old(tree.resolved), tree.resolved)
      ensures r.Ok? ==> r.value == StateTree.IdOf(ctx.codec, old(tree).view, old(tree).resolved, addr)
      ensures r.Err? ==> NoLookup(ctx.codec, tree.view, addr)
    {
      var found := StateTree.Lookup(ctx.codec, tree, addr);
      tree := found.0;
      r := found.1;
    }

    /** Checks the message and takes the price of its gas limit from the sender. */
    method Preflight(msg: Message, kind: ApplyKind, rawLength: nat)
      returns (r: Result<Result<(ActorID, TokenAmount, nat), ApplyRet>, ApplyError>)
      requires Ready() && FeesOk(msg, baseFee)
      modifies this
      ensures Ready() && tree.store == old(tree.store) && NoNews(old(tree.view), tree.view)
      ensures StateTree.Recalls(ctx.codec, old(tree.view), old(tree.resolved), tree.resolved)
      ensures r.Ok? ==> Checked(msg)
      ensures r.Err? ==> (r.error == BadMessage && !Checked(msg))
                         || (r.error == LookupFailed && NoLookup(ctx.codec, old(tree).view, msg.from))
      ensures r.Ok? && r.value.Ok? ==> StateTree.IdOf(ctx.codec, old(tree).view, old(tree).resolved, msg.from) == Some(r.value.value.0)
      ensures r.Ok? && r.value.Ok? ==>
                var (sender, cost, inclusion) := r.value.value;
                if kind == Implicit then cost == 0 && inclusion == 0 && tree.view == old(tree.view)
                else
                  && cost == msg.gasFeeCap * msg.gasLimit && inclusion == onChainMessage(rawLength)
                  && Gas.RoundUp(inclusion) <= msg.gasLimit
                  && PaidUp(ctx, old(tree.view), tree.view, sender, msg, cost)
      ensures r.Err? || r.value.Err? ==> tree.view == old(tree.view)
      ensures r.Ok? && r.value.Err? ==> Rejected(ctx, old(tree), baseFee, msg, kind, onChainMessage(rawLength), r.value.error)
    {
      if !Checked(msg) {
        return Err(BadMessage);
      }
      var inclusion, penalty := 0, 0;
      if kind == Explicit {
        inclusion := onChainMessage(rawLength);
        var total := Gas.RoundUp(inclusion);
        if total > msg.gasLimit {
          return Ok(Err(PrevalidationFail(SYS_OUT_OF_GAS, Times(baseFee, total))));
        }
        penalty := Times(baseFee, msg.gasLimit);
      }
      var found := Resolve(msg.from);
      if found.Err? {
        return Err(LookupFailed);
      }
      if found.value.None? {
        return Ok(Err(PrevalidationFail(SYS_SENDER_INVALID, penalty)));
      }
      var sender := found.value.value;
      if kind == Implicit {
        return Ok(Ok((sender, 0, inclusion)));
      }
      r := ChargeSender(msg, sender, inclusion, penalty);
    }

    method ChargeSender(msg: Message, sender: ActorID, inclusion: nat, penalty: nat)
      returns (r: Result<Result<(ActorID, TokenAmount, nat), ApplyRet>, ApplyError>)
      requires Ready() && msg.gasFeeCap >= 0
      modifies this
      ensures Ready() && tree.store == old(tree.store) && tree.resolved == old(tree.resolved) && r.Ok?
      ensures r.value.Ok? ==>
                var (s, cost, i) := r.value.value;
                && s == sender && i == inclusion && cost == msg.gasFeeCap * msg.gasLimit
                && PaidUp(ctx, old(tree.view), tree.view, sender, msg, cost)
      ensures r.value.Err? ==> tree.view == old(tree.view)
      ensures r.value.Err? ==>
                var valid := sender in old(tree).view && SenderFrom(ctx, old(tree).view[sender]).Some?;
                && r.value.error == PrevalidationFail(if valid then 2 else 1, penalty)
                && (valid ==> old(tree).view[sender].sequence != msg.sequence
                              || old(tree).view[sender].balance < msg.gasFeeCap * msg.gasLimit)
    {
      var state := StateTree.Stored(tree.view, sender);
      if state.None? {
        return Ok(Err(PrevalidationFail(SYS_SENDER_INVALID, penalty)));
      }
      var valid := SenderFrom(ctx, state.value);
      if valid.None? {
        return Ok(Err(PrevalidationFail(SYS_SENDER_INVALID, penalty)));
      }
      var actor := valid.value;
      if msg.sequence != actor.sequence {
        return Ok(Err(PrevalidationFail(SYS_SENDER_STATE_INVALID, penalty)));
      }
      var cost := Times(msg.gasFeeCap, msg.gasLimit);
      if actor.balance < cost {
        return Ok(Err(PrevalidationFail(SYS_SENDER_STATE_INVALID, penalty)));
      }
      actor := actor.(sequence := actor.sequence + 1, balance := actor.balance - cost);
      tree := tree.(view := tree.view[sender := actor]);
      return Ok(Ok((sender, cost, inclusion)));
    }

    /** Runs the message. A message that fails leaves the actors as they were. */
    method Apply(msg: Message, sender: ActorID, receiver: Option<ActorID>, inclusion: nat, target: Target, ghost law: Law)
      returns (r: Result<(Receipt, seq<Event>), ApplyError>, ghost ride: Ride)
      requires Ready() && |msg.params| < U64_MAX && Checked(msg)
      modifies this
      ensures Ready() && NoDebt(ride.end.mishaps)
      ensures ride.start == old(World(tree.view, tree.resolved, tree.store, [], []))
      ensures ride.end == World(tree.view, tree.resolved, tree.store, ride.end.events, ride.end.mishaps)
      ensures Total(tree.view) + Lost(ride.end.mishaps) == Total(old(tree.view))
      ensures TameTarget(law, target, Receiver(msg.to)) ==> Abides(law, ctx.codec, PointOf(ride.start), PointOf(ride.end))
      ensures r.Ok? ==> Rode(ctx, msg, sender, target, ride, r.value.0) && r.value.1 == ride.end.events && inclusion <= ride.milligas
      ensures r.Ok? && Success(ride.log.result) && msg.methodNum == METHOD_SEND && msg.to.IdAddress? ==>
                Sent(old(tree.view), tree.view, sender, msg.to.id, msg.value)
      ensures r.Err? ==> r.error == InclusionNotCovered && tree == old(tree) && ride.end == ride.start
      ensures r.Ok? <==> inclusion <= Min(Gas.FromGas(msg.gasLimit), Gas.I64_MAX)
    {
      var cm := new CallManager(ctx, tree, msg.gasLimit, sender, msg.from, receiver, msg.to, preloaded, base, written);
      ghost var w := Now(cm);
      var charged := cm.ChargeGas(inclusion);
      if charged.Err? {
        NoNewsAbides(law, ctx.codec, PointOf(w), PointOf(w));
        return Err(InclusionNotCovered), Ride(w, w, NoLog(w), cm.gas.gasUsed);
      }
      var receipt;
      receipt, ride := CallTop(cm, msg, sender, target, law);
      tree, written := cm.tree, cm.written;
      r := Ok((receipt, cm.events));
    }

    /** The top-level call, in a transaction of its own, and its receipt. */
    method CallTop(cm: CallManager, msg: Message, sender: ActorID, target: Target, ghost law: Law)
      returns (receipt: Receipt, ghost ride: Ride)
      requires cm.Sound() && cm.actorCallStack == [] && |msg.params| < U64_MAX
      requires cm.gas.gasLimit == Min(Gas.FromGas(msg.gasLimit), Gas.I64_MAX)
      modifies cm, cm.gas
      ensures cm.Sound() && cm.tree.saved == old(cm.tree.saved) && cm.Wealth() == old(cm.Wealth())
      ensures TameTarget(law, target, Receiver(msg.to)) ==> Obeys(cm, law)
      ensures ride == Ride(old(Now(cm)), Now(cm), ride.log, cm.gas.gasUsed) && old(cm.gas.gasUsed) <= cm.gas.gasUsed
      ensures Rode(cm.ctx, msg, sender, target, ride, receipt)
      ensures Success(ride.log.result) && msg.methodNum == METHOD_SEND && msg.to.IdAddress? ==>
                Sent(old(cm.tree).view, cm.tree.view, sender, msg.to.id, msg.value)
    {
      ghost var w := Now(cm);
      ParamsOk(cm.ctx, msg, cm.tree.store.Keys);
      var result;
      ghost var log;
      result, log := TransactCall(cm, sender, msg.to, Invoke(msg.methodNum), ParamsOf(msg), msg.value, None, false, target);
      receipt := ReceiptOf(result, Gas.RoundUp(cm.gas.gasUsed), msg.gasLimit);
      ride := Ride(w, Now(cm), log, cm.gas.gasUsed);
    }

    method Deposit(id: ActorID, amount: TokenAmount) returns (r: Result<(), ApplyError>)
      requires Ready()
      modifies this
      ensures Ready()
      ensures amount < 0 <==> r == Err(NegativeDeposit)
      ensures amount >= 0 ==> (r.Ok? <==> Creditable(old(tree.view), id, amount)) && (r.Err? ==> r.error == MissingActor)
      ensures r.Ok? ==> tree == old(tree).(view := Deposited(old(tree.view), id, amount))
      ensures NoNews(old(tree.view), tree.view) && tree.view.Keys == old(tree.view).Keys && tree.resolved == old(tree.resolved)
      ensures r.Ok? ==> Total(tree.view) == Total(old(tree.view)) + amount
      ensures r.Err? ==> tree == old(tree)
    {
      if amount < 0 {
        return Err(NegativeDeposit);
      }
      if amount == 0 {
        return Ok(());
      }
      var got := StateTree.Stored(tree.view, id);
      if got.None? {
        return Err(MissingActor);
      }
      DepositAdds(tree.view, id, amount);
      tree := tree.(view := tree.view[id := got.value.(balance := got.value.balance + amount)]);
      return Ok(());
    }

    /** Settles the gas. The sum check can not fail, and no amount is negative; only an actor that is not
        there stops it, and then what was not deposited is missing. */
    method FinishMessage(sender: ActorID, msg: Message, receipt: Receipt, gasCost: TokenAmount, events: seq<Event>)
      returns (r: Result<ApplyRet, ApplyError>, ghost out: Gas.GasOutputs)
      requires Ready() && FeesOk(msg, baseFee)
      requires receipt.gasUsed <= msg.gasLimit && gasCost == msg.gasFeeCap * msg.gasLimit
      modifies this
      ensures Ready() && NoNews(old(tree.view), tree.view) && tree == old(tree).(view := tree.view)
      ensures FeesOf(out, receipt.gasUsed, msg, baseFee)
      ensures r.Ok? <==> Settles(old(tree.view), sender, out)
      ensures r.Err? ==> r.error == MissingActor
      ensures Total(tree.view) == Total(old(tree.view)) + PaidOut(old(tree.view), sender, out)
      ensures r.Ok? ==>
                && tree.view == Settlement(old(tree.view), sender, out)
                && PaidOut(old(tree.view), sender, out) == gasCost
                && r.value == ApplyRet(receipt, out.minerPenalty, out.minerTip, out.baseFeeBurn, out.overEstimationBurn,
                                       out.refund, out.gasRefund, out.gasBurned, events)
    {
      var o := Gas.ComputeOutputs(receipt.gasUsed, msg.gasLimit, baseFee, msg.gasFeeCap, msg.gasPremium);
      out := o;
      var paid := PayOut(sender, o);
      if paid.Err? {
        return Err(paid.error), out;
      }
      if o.baseFeeBurn + o.overEstimationBurn + o.refund + o.minerTip != gasCost {
        return Err(GasHandlingMathIsWrong), out;
      }
      return Ok(ApplyRet(receipt, o.minerPenalty, o.minerTip, o.baseFeeBurn, o.overEstimationBurn, o.refund, o.gasRefund,
                         o.gasBurned, events)), out;
    }

    method PayOut(sender: ActorID, o: Gas.GasOutputs) returns (r: Result<(), ApplyError>)
      requires Ready() && NoPartNegative(o)
      modifies this
      ensures Ready() && NoNews(old(tree.view), tree.view) && tree == old(tree).(view := tree.view)
      ensures r.Ok? <==> Settles(old(tree.view), sender, o)
      ensures r.Err? ==> r.error == MissingActor
      ensures r.Ok? ==> tree.view == Settlement(old(tree.view), sender, o)
      ensures Total(tree.view) == Total(old(tree.view)) + PaidOut(old(tree.view), sender, o)
    {
      r := Deposit(BURNT_FUNDS_ACTOR_ID, o.baseFeeBurn);
      if r.Err? {
        return;
      }
      r := PayAfterBurn(sender, o);
    }

    method PayAfterBurn(sender: ActorID, o: Gas.GasOutputs) returns (r: Result<(), ApplyError>)
      requires Ready() && NoPartNegative(o)
      modifies this
      ensures Ready() && NoNews(old(tree.view), tree.view) && tree == old(tree).(view := tree.view)
      ensures r.Ok? <==> Creditable(old(tree.view), REWARD_ACTOR_ID, o.minerTip)
                         && Creditable(old(tree.view), BURNT_FUNDS_ACTOR_ID, o.overEstimationBurn)
                         && Creditable(old(tree.view), sender, o.refund)
      ensures r.Err? ==> r.error == MissingActor
      ensures r.Ok? ==> tree.view == Deposited(Deposited(Deposited(old(tree.view), REWARD_ACTOR_ID, o.minerTip),
                                                         BURNT_FUNDS_ACTOR_ID, o.overEstimationBurn),
                                               sender, o.refund)
      ensures Total(tree.view) == Total(old(tree.view)) + PaidAfterBurn(old(tree.view), sender, o)
    {
      r := Deposit(REWARD_ACTOR_ID, o.minerTip);
      if r.Err? {
        return;
      }
      r := PayLast(sender, o);
    }

    method PayLast(sender: ActorID, o: Gas.GasOutputs) returns (r: Result<(), ApplyError>)
      requires Ready() && NoPartNegative(o)
      modifies this
      ensures Ready() && NoNews(old(tree.view), tree.view) && tree == old(tree).(view := tree.view)
      ensures r.Ok? <==> Creditable(old(tree.view), BURNT_FUNDS_ACTOR_ID, o.overEstimationBurn)
                         && Creditable(old(tree.view), sender, o.refund)
      ensures r.Err? ==> r.error == MissingActor
      ensures r.Ok? ==> tree.view == Deposited(Deposited(old(tree.view), BURNT_FUNDS_ACTOR_ID, o.overEstimationBurn), sender, o.refund)
      ensures Total(tree.view) == Total(old(tree.view)) + PaidLast(old(tree.view), sender, o)
    {
      r := Deposit(BURNT_FUNDS_ACTOR_ID, o.overEstimationBurn);
      if r.Err? {
        return;
      }
      r := Deposit(sender, o.refund);
    }

    /** Executes a message. Whatever its actors do, the balances afterwards, the mishaps, and what an
        executor error left undeposited of the sender's payment add up to the balances before. Under both
        laws there are no mishaps. */
    method ExecuteMessage(msg: Message, kind: ApplyKind, rawLength: nat, target: Target, ghost law: Law)
      returns (r: Result<ApplyRet, ApplyError>, ghost mishaps: seq<Mishap>, ghost flow: Flow)
      requires Ready() && FeesOk(msg, baseFee)
      modifies this
      ensures Ready() && NoDebt(mishaps)
      ensures flow.Refused? ==> tree.view == old(tree.view) && mishaps == []
      ensures flow.Refused? && r.Ok? ==> Rejected(ctx, old(tree), baseFee, msg, kind, onChainMessage(rawLength), r.value)
      ensures flow.Ran? ==>
                && StateTree.IdOf(ctx.codec, old(tree).view, old(tree).resolved, msg.from) == Some(flow.sender)
                && (if kind == Explicit then PaidUp(ctx, old(tree.view), flow.paid, flow.sender, msg, CostOf(kind, msg))
                    else flow.paid == old(tree.view))
                && Total(tree.view) + Lost(mishaps) + (CostOf(kind, msg) - flow.deposited) == Total(old(tree.view))
                && (if r.Ok? then Settled(ctx, kind, msg, InclusionOf(kind, rawLength), target, baseFee, r.value, tree.view, flow)
                                  && flow.deposited == CostOf(kind, msg) && mishaps == flow.ride.end.mishaps
                    else Failed(ctx, kind, msg, InclusionOf(kind, rawLength), target, baseFee, r.error, tree.view, flow))
      ensures r.Ok? ==> Total(tree.view) + Lost(mishaps) == Total(old(tree.view)) && Total(tree.view) <= Total(old(tree.view))
      ensures r.Ok? && r.value.receipt.exitCode != OK ==> mishaps == []
      ensures r.Err? && flow.Refused? ==> (r.error == BadMessage && !Checked(msg))
                                          || (r.error == LookupFailed && NoLookup(ctx.codec, old(tree).view, msg.from))
      ensures flow.Ran? ==> 0 <= flow.deposited <= CostOf(kind, msg)
      ensures TameTarget(law, target, Receiver(msg.to)) && Begins(law, ctx.codec, old(Here())) ==>
                && Begins(law, ctx.codec, Here()) && NoneForbidden(law, [], mishaps)
                && (law.burnt && law.init ==> mishaps == [])
                && (law.burnt && law.init && r.Ok? ==> Total(tree.view) == Total(old(tree.view)))
    {
      ghost var start := Here();
      r, mishaps, flow := RunMessage(msg, kind, rawLength, target, law);
      LostGrows([], mishaps);
      LawKept(law, ctx.codec, start, Here().(mishaps := mishaps));
    }

    method RunMessage(msg: Message, kind: ApplyKind, rawLength: nat, target: Target, ghost law: Law)
      returns (r: Result<ApplyRet, ApplyError>, ghost mishaps: seq<Mishap>, ghost flow: Flow)
      requires Ready() && FeesOk(msg, baseFee)
      modifies this
      ensures Ready() && NoDebt(mishaps)
      ensures flow.Refused? ==> tree.view == old(tree.view) && mishaps == []
      ensures flow.Refused? && r.Ok? ==> Rejected(ctx, old(tree), baseFee, msg, kind, onChainMessage(rawLength), r.value)
      ensures flow.Ran? ==>
                && StateTree.IdOf(ctx.codec, old(tree).view, old(tree).resolved, msg.from) == Some(flow.sender)
                && (if kind == Explicit then PaidUp(ctx, old(tree.view), flow.paid, flow.sender, msg, CostOf(kind, msg))
                    else flow.paid == old(tree.view))
                && Total(tree.view) + Lost(mishaps) + (CostOf(kind, msg) - flow.deposited) == Total(old(tree.view))
                && (if r.Ok? then Settled(ctx, kind, msg, InclusionOf(kind, rawLength), target, baseFee, r.value, tree.view, flow)
                                  && flow.deposited == CostOf(kind, msg) && mishaps == flow.ride.end.mishaps
                    else Failed(ctx, kind, msg, InclusionOf(kind, rawLength), target, baseFee, r.error, tree.view, flow))
      ensures r.Ok? && r.value.receipt.exitCode != OK ==> mishaps == []
      ensures r.Err? && flow.Refused? ==> (r.error == BadMessage && !Checked(msg))
                                          || (r.error == LookupFailed && NoLookup(ctx.codec, old(tree).view, msg.from))
      ensures flow.Ran? ==> 0 <= flow.deposited <= CostOf(kind, msg)
      ensures r.Ok? && flow.Refused? ==> Total(tree.view) + Lost(mishaps) == Total(old(tree.view))
      ensures TameTarget(law, target, Receiver(msg.to)) ==> Abides(law, ctx.codec, old(Here()), Here().(mishaps := mishaps))
    {
      mishaps, flow := [], Refused;
      ghost var start := Here();
      var flown := Admit(msg, kind, rawLength, law);
      ghost var paid := Here();
      if flown.Err? {
        return Err(flown.error), mishaps, flow;
      }
      if flown.value.Err? {
        return Ok(flown.value.error), mishaps, flow;
      }
      var (sender, gasCost, inclusion) := flown.value.value;
      r, mishaps, flow := ApplyAndSettle(msg, kind, sender, gasCost, inclusion, target, law);
      if TameTarget(law, target, Receiver(msg.to)) {
        AbidesOn(law, ctx.codec, start, paid, Here().(mishaps := mishaps));
      }
    }

    /** Preflight, and what it takes from the balances. */
    method Admit(msg: Message, kind: ApplyKind, rawLength: nat, ghost law: Law)
      returns (r: Result<Result<(ActorID, TokenAmount, nat), ApplyRet>, ApplyError>)
      requires Ready() && FeesOk(msg, baseFee)
      modifies this
      ensures Ready() && Abides(law, ctx.codec, old(Here()), Here())
      ensures r.Ok? ==> Checked(msg)
      ensures r.Err? ==> (r.error == BadMessage && !Checked(msg))
                         || (r.error == LookupFailed && NoLookup(ctx.codec, old(tree).view, msg.from))
      ensures r.Ok? && r.value.Ok? ==>
                var (sender, cost, inclusion) := r.value.value;
                && StateTree.IdOf(ctx.codec, old(tree).view, old(tree).resolved, msg.from) == Some(sender)
                && cost == CostOf(kind, msg) && inclusion == InclusionOf(kind, rawLength)
                && Total(tree.view) == Total(old(tree.view)) - cost
                && (if kind == Explicit then PaidUp(ctx, old(tree.view), tree.view, sender, msg, cost) else tree.view == old(tree.view))
      ensures r.Err? || r.value.Err? ==> tree.view == old(tree.view)
      ensures r.Ok? && r.value.Err? ==> Rejected(ctx, old(tree), baseFee, msg, kind, onChainMessage(rawLength), r.value.error)
    {
      ghost var start := Here();
      r := Preflight(msg, kind, rawLength);
      NoNewsAbides(law, ctx.codec, start, Here());
      if r.Ok? && r.value.Ok? && kind == Explicit {
        PaidUpTotals(ctx, start.view, tree.view, r.value.value.0, msg, r.value.value.1);
      }
    }

    method ApplyAndSettle(msg: Message, kind: ApplyKind, sender: ActorID, gasCost: TokenAmount, inclusion: nat, target: Target,
                          ghost law: Law)
      returns (r: Result<ApplyRet, ApplyError>, ghost mishaps: seq<Mishap>, ghost flow: Flow)
      requires Ready() && FeesOk(msg, baseFee) && Checked(msg) && gasCost == CostOf(kind, msg)
      modifies this
      ensures Ready() && NoDebt(mishaps)
      ensures flow.Ran? && flow.sender == sender && flow.paid == old(tree.view)
      ensures Total(tree.view) + Lost(mishaps) == Total(old(tree.view)) + flow.deposited
      ensures r.Ok? ==> Settled(ctx, kind, msg, inclusion, target, baseFee, r.value, tree.view, flow)
                        && flow.deposited == gasCost && mishaps == flow.ride.end.mishaps
      ensures r.Ok? && r.value.receipt.exitCode != OK ==> mishaps == []
      ensures r.Err? ==> Failed(ctx, kind, msg, inclusion, target, baseFee, r.error, tree.view, flow)
      ensures 0 <= flow.deposited <= gasCost
      ensures TameTarget(law, target, Receiver(msg.to)) ==> Abides(law, ctx.codec, old(Here()), Here().(mishaps := mishaps))
    {
      CostNonNegative(kind, msg);
      ghost var start := Here();
      var applied;
      ghost var ride;
      applied, ride := ResolveAndApply(msg, sender, inclusion, target, law);
      mishaps, flow := ride.end.mishaps, Ran(sender, start.view, tree.view, ride, NoFees(), 0);
      if applied.Err? {
        return Err(applied.error), mishaps, flow;
      }
      var (receipt, events) := applied.value;
      InclusionIsPaid(ctx, msg, sender, target, ride, receipt, inclusion);
      OnlySuccessSucceeds(ride.log.result, receipt.gasUsed, msg.gasLimit);
      if kind == Implicit {
        return Ok(ApplyRet(receipt, 0, 0, 0, 0, 0, 0, 0, events)), mishaps, flow;
      }
      ghost var ran := Here().(mishaps := mishaps);
      ghost var out;
      r, out := FinishMessage(sender, msg, receipt, gasCost, events);
      flow := flow.(out := out, deposited := PaidOut(flow.ran, sender, out));
      PaidOutBound(flow.ran, sender, out, gasCost);
      NoNewsAbides(law, ctx.codec, ran, Here().(mishaps := mishaps));
      if TameTarget(law, target, Receiver(msg.to)) {
        AbidesOn(law, ctx.codec, start, ran, Here().(mishaps := mishaps));
      }
    }

    /** Looks the receiver up, for what access to it costs, and runs the message. */
    method ResolveAndApply(msg: Message, sender: ActorID, inclusion: nat, target: Target, ghost law: Law)
      returns (r: Result<(Receipt, seq<Event>), ApplyError>, ghost ride: Ride)
      requires Ready() && |msg.params| < U64_MAX && Checked(msg)
      modifies this
      ensures Ready() && NoDebt(ride.end.mishaps)
      ensures ride.start == World(old(tree.view), ride.start.resolved, old(tree.store), [], [])
      ensures ride.end == World(tree.view, tree.resolved, tree.store, ride.end.events, ride.end.mishaps)
      ensures Total(tree.view) + Lost(ride.end.mishaps) == Total(old(tree.view))
      ensures TameTarget(law, target, Receiver(msg.to)) ==> Abides(law, ctx.codec, old(Here()), PointOf(ride.end))
      ensures r.Ok? ==> Rode(ctx, msg, sender, target, ride, r.value.0) && r.value.1 == ride.end.events && inclusion <= ride.milligas
      ensures r.Ok? && Success(ride.log.result) && msg.methodNum == METHOD_SEND && msg.to.IdAddress? ==>
                Sent(old(tree.view), tree.view, sender, msg.to.id, msg.value)
      ensures r.Err? ==> tree.view == old(tree.view) && ride.end.mishaps == []
      ensures r.Err? ==> (r.error == LookupFailed && NoLookup(ctx.codec, old(tree.view), msg.to))
                         || (r.error == InclusionNotCovered && inclusion > Min(Gas.FromGas(msg.gasLimit), Gas.I64_MAX))
    {
      ghost var start := Here();
      var receiver := Resolve(msg.to);
      ghost var located := Here();
      NoNewsAbides(law, ctx.codec, start, located);
      if receiver.Err? {
        ghost var w := World(tree.view, tree.resolved, tree.store, [], []);
        return Err(LookupFailed), Ride(w, w, NoLog(w), 0);
      }
      r, ride := Apply(msg, sender, receiver.value, inclusion, target, law);
      if TameTarget(law, target, Receiver(msg.to)) {
        AbidesOn(law, ctx.codec, start, located, PointOf(ride.end));
      }
    }

    /** Executes messages one after the other. Over any number of them the balances, the mishaps and what
        executor errors left undeposited add up to the balances before; under both laws there are no
        mishaps, whatever the messages do, and the IDs stay fresh for the next ones. */
    method ExecuteAll(inputs: seq<Input>, ghost law: Law)
      returns (results: seq<Result<ApplyRet, ApplyError>>, ghost mishaps: seq<Mishap>, ghost owed: TokenAmount)
      requires Ready() && forall i :: 0 <= i < |inputs| ==> FeesOk(inputs[i].msg, baseFee)
      modifies this
      ensures Ready() && NoDebt(mishaps) && |results| == |inputs|
      ensures Total(tree.view) + Lost(mishaps) + owed == Total(old(tree.view))
      ensures owed >= 0 && (NoErrors(results) ==> owed == 0)
      ensures AllTame(law, inputs) && Begins(law, ctx.codec, old(Here())) ==>
                && Begins(law, ctx.codec, Here()) && NoneForbidden(law, [], mishaps)
                && (law.burnt && law.init ==> Total(tree.view) + owed == Total(old(tree.view)))
    {
      results, mishaps, owed := [], [], 0;
      var n := 0;
      while n < |inputs|
        invariant n == |results| <= |inputs| && Ready() && NoDebt(mishaps) && owed >= 0
        invariant Total(tree.view) + Lost(mishaps) + owed == Total(old(tree.view))
        invariant NoErrors(results) ==> owed == 0
        invariant AllTame(law, inputs) && Begins(law, ctx.codec, old(Here())) ==>
                    Begins(law, ctx.codec, Here()) && NoneForbidden(law, [], mishaps)
      {
        var r;
        ghost var more, left;
        r, more, left := ExecuteNext(inputs[n], law);
        LostConcat(mishaps, more);
        NoneConcat(law, mishaps, more);
        NoErrorsSoFar(results, r);
        results, mishaps, owed := results + [r], mishaps + more, owed + left;
        n := n + 1;
      }
      if law.burnt && law.init && NoneForbidden(law, [], mishaps) {
        NothingForbidden(law, [], mishaps);
      }
    }

    /** One message of many: what it leaves owed. */
    method ExecuteNext(input: Input, ghost law: Law)
      returns (r: Result<ApplyRet, ApplyError>, ghost mishaps: seq<Mishap>, ghost owed: TokenAmount)
      requires Ready() && FeesOk(input.msg, baseFee)
      modifies this
      ensures Ready() && NoDebt(mishaps) && owed >= 0 && (r.Ok? ==> owed == 0)
      ensures Total(tree.view) + Lost(mishaps) + owed == Total(old(tree.view))
      ensures TameTarget(law, input.target, Receiver(input.msg.to)) && Begins(law, ctx.codec, old(Here())) ==>
                Begins(law, ctx.codec, Here()) && NoneForbidden(law, [], mishaps)
    {
      ghost var flow;
      r, mishaps, flow := ExecuteMessage(input.msg, input.kind, input.rawLength, input.target, law);
      owed := if flow.Ran? then CostOf(input.kind, input.msg) - flow.deposited else 0;
    }
  }

  // ---------------------------------------------------------------- many messages

  datatype Input = Input(msg: Message, kind: ApplyKind, rawLength: nat, target: Target)

  ghost predicate AllTame(law: Law, inputs: seq<Input>) {
    forall i :: 0 <= i < |inputs| ==> TameTarget(law, inputs[i].target, Receiver(inputs[i].msg.to))
  }

  ghost predicate NoErrors(results: seq<Result<ApplyRet, ApplyError>>) {
    forall i :: 0 <= i < |results| ==> results[i].Ok?
  }

  lemma NoErrorsSoFar(results: seq<Result<ApplyRet, ApplyError>>, r: Result<ApplyRet, ApplyError>)
    ensures NoErrors(results + [r]) ==> NoErrors(results) && r.Ok?
  {
    var all := results + [r];
    assert all[|results|] == r && forall i :: 0 <= i < |results| ==> all[i] == results[i];
  }

  lemma {:induction false} LostConcat(a: seq<Mishap>, b: seq<Mishap>)
    ensures Lost(a + b) == Lost(a) + Lost(b)
    decreases |b|
  {
    if b == [] {
      assert a + b == a;
    } else {
      var n := |b| - 1;
      LostConcat(a, b[..n]);
      assert a + b == (a + b[..n]) + [b[n]];
      LostAppend(a + b[..n], b[n]);
    }
  }

  lemma NoneConcat(law: Law, a: seq<Mishap>, b: seq<Mishap>)
    ensures NoneForbidden(law, [], a) && NoneForbidden(law, [], b) ==> NoneForbidden(law, [], a + b)
    ensures NoDebt(a) && NoDebt(b) ==> NoDebt(a + b)
  {
  }

  /** Under both laws nothing is lost. */
  lemma LawKept(law: Law, codec: InitCodec, before: Point, after: Point)
    requires before.mishaps == []
    ensures Begins(law, codec, before) && Abides(law, codec, before, after) ==>
              && Begins(law, codec, after) && NoneForbidden(law, [], after.mishaps)
              && (law.burnt && law.init ==> after.mishaps == [])
  {
    if Begins(law, codec, before) && Abides(law, codec, before, after) && law.burnt && law.init {
      NothingForbidden(law, [], after.mishaps);
    }
  }

  lemma CostNonNegative(kind: ApplyKind, msg: Message)
    requires msg.gasFeeCap >= 0
    ensures CostOf(kind, msg) >= 0
  {
  }

  /** No more is deposited than was paid. */
  lemma PaidOutBound(view: ActorMap, sender: ActorID, out: Gas.GasOutputs, cost: TokenAmount)
    requires NoPartNegative(out) && out.baseFeeBurn + out.overEstimationBurn + out.refund + out.minerTip == cost
    ensures 0 <= PaidOut(view, sender, out) <= cost
  {
  }

  // ---------------------------------------------------------------- flushing what was executed

  /** The write buffer: the blocks that were written. */
  ghost function Buffer(written: set<Cid>, store: Blockstore): Blockstore {
    map c | c in written && c in store :: store[c]
  }

  /** What runs have written can be flushed: the buffer holds only what the kernel's scanner reads. */
  lemma BufferFlushes(w: Wire, base: Blockstore, written: set<Cid>, store: Blockstore, nodes: Blockstore)
    requires Overlaid(w, base, written, store) && AllScan(w, nodes)
    ensures base + Buffer(written, store) == store
    ensures BufferedStore.Accepted(w, Buffer(written, store) + nodes) && BufferedStore.Small(Buffer(written, store) + nodes)
  {
    var buffer := Buffer(written, store);
    forall c: Cid
      ensures c in base + buffer <==> c in store
      ensures c in store ==> (base + buffer)[c] == store[c]
      ensures c in buffer ==> Scans(w, c.codec, buffer[c])
    {
      assert OverlaidAt(w, base, written, store, c);
    }
    var all := buffer + nodes;
    forall c | c in all ensures Scans(w, c.codec, all[c]) {
    }
  }

  /** Flushing after any messages, with any actors, never fails: `nodes` are the nodes of the state tree,
      and `root` is its root. All that can be reached from there goes to the store below. */
  method Flush(executor: Executor, buffer: BufferedStore.BufferedBlockstore, ghost nodes: Blockstore, root: Cid)
    returns (r: Result<(), BufferedStore.FlushError>)
    requires executor.Ready() && AllScan(executor.ctx.wire, nodes) && Outgoing(root)
    requires buffer.w == executor.ctx.wire && buffer.base == executor.base
    requires buffer.write == Buffer(executor.written, executor.tree.store) + nodes
    modifies buffer
    ensures r.Ok? && buffer.View() == executor.tree.store + nodes
    ensures forall k ::
              k in old(buffer.write) && BufferedStore.Named(k) && BufferedStore.Reachable(buffer.w, old(buffer.write), root, k) ==>
                k in buffer.base && buffer.base[k] == old(buffer.write)[k]
  {
    BufferFlushes(executor.ctx.wire, executor.base, executor.written, executor.tree.store, nodes);
    assert buffer.View() == executor.tree.store + nodes;
    r := buffer.Flush(root);
  }

  function Times(a: TokenAmount, n: nat): (r: TokenAmount)
    ensures a >= 0 ==> r >= 0
  {
    a * n
  }
}
