/** The state that a message's call stack works on, and the operations on it that run no actor code
    (`fvm/src/call_manager/default.rs`): charged access to actors, transfers, creation, nested
    transactions and events. The state tree and the access tracker are in their simple forms, which
    the classes in `StateTree` and `AccessTracker` implement. */
module CallManager {
  import opened Common
  import opened BitStrings
  import opened CborGrammar
  import opened Actors
  import opened Blocks
  import CborScan
  import StateTree
  import AccessTracker
  import Events
  import Gas

  datatype Event = Event(emitter: ActorID, entries: seq<Events.EventEntry>)
  datatype EntryName = InvokeName | UpgradeName
  datatype Frame = Frame(actor: ActorID, name: EntryName)

  datatype PriceList = PriceList(
    onActorLookup: nat,
    onActorUpdate: nat,
    onResolveAddress: nat,
    onCreateActor: bool -> nat,
    onValueTransfer: nat,
    onMethodInvocation: (nat, nat) -> nat,
    onMethodReturn: (nat, nat, nat) -> nat,
    onRoot: nat,
    onSetRoot: nat,
    onSelfBalance: nat,
    onDeleteActor: nat,
    onBlockOpenBase: nat,
    onBlockOpen: (nat, nat) -> nat,
    onBlockCreate: (nat, nat) -> nat,
    onBlockLink: nat -> nat,
    onBalanceOf: nat,
    onActorEvent: (nat, nat, nat) -> nat,
    scan: CborScan.Prices)

  /** Nothing costs gas. */
  ghost predicate Free(p: PriceList) {
    && p.onActorLookup == p.onActorUpdate == p.onResolveAddress == p.onValueTransfer == 0
    && p.onRoot == p.onSetRoot == p.onSelfBalance == p.onDeleteActor == p.onBlockOpenBase == p.onBalanceOf == 0
    && (forall b :: p.onCreateActor(b) == 0)
    && (forall m, n :: p.onMethodInvocation(m, n) == p.onBlockOpen(m, n) == p.onBlockCreate(m, n) == 0)
    && (forall d, m, n :: p.onMethodReturn(d, m, n) == p.onActorEvent(d, m, n) == 0)
    && (forall n :: p.onBlockLink(n) == 0)
    && p.scan.perField == p.scan.perCid == 0
  }

  /** What the machine is configured with, and the code it calls out to: the digest of a block, and
      the serialised forms of an address and of a code CID. */
  datatype Context = Context(
    codec: InitCodec,
    wire: Wire,
    digest: (nat, seq<Byte>) -> Cid,
    addressBytes: Address -> seq<Byte>,
    cidBytes: Cid -> seq<Byte>,
    emptyArr: Cid,
    accountCode: Cid,
    placeholderCode: Cid,
    ethAccountCode: Cid,
    zeroKey: Address,
    prices: PriceList,
    maxCallDepth: nat,
    maxBlockSize: nat)

  ghost predicate ValidContext(ctx: Context) {
    && ValidCodec(ctx.codec)
    && ValidWire(ctx.wire)
    && (forall codec, data :: ctx.digest(codec, data).codec == codec)
    && (forall s :: Closed(ctx.wire, ctx.codec.initBlocks(s)) && AllScan(ctx.wire, ctx.codec.initBlocks(s)))
    && (forall a :: |ctx.addressBytes(a)| < U64_MAX)
    && (forall c :: |ctx.cidBytes(c)| < U64_MAX)
    && ctx.maxBlockSize < U64_MAX
  }

  /** No balance is negative and every state root is in the store. */
  ghost predicate Sane(view: ActorMap, present: set<Cid>) {
    NonNegative(view) && forall id :: id in view ==> view[id].state in present
  }

  // ---------------------------------------------------------------- lost funds

  /** The only two ways in which funds can vanish: an actor that is created by a send is given an ID
      that is already taken, or the burnt-funds actor itself self-destructs. */
  datatype Mishap =
    | Overwritten(id: ActorID, amount: TokenAmount)
    | BurntFundsDestroyed(amount: TokenAmount)

  ghost function Lost(mishaps: seq<Mishap>): int {
    if mishaps == [] then 0 else Lost(mishaps[..|mishaps| - 1]) + mishaps[|mishaps| - 1].amount
  }

  ghost predicate NoDebt(mishaps: seq<Mishap>) {
    forall i :: 0 <= i < |mishaps| ==> mishaps[i].amount >= 0
  }

  /** More mishaps never bring funds back. */
  lemma {:induction false} LostGrows(before: seq<Mishap>, after: seq<Mishap>)
    requires before <= after && NoDebt(after)
    ensures Lost(before) <= Lost(after)
  {
    if |before| < |after| {
      LostGrows(before, after[..|after| - 1]);
    } else {
      assert before == after;
    }
  }

  ghost function Mishaps(view: ActorMap, id: ActorID): seq<Mishap> {
    if id in view then [Overwritten(id, view[id].balance)] else []
  }

  lemma LostAppend(mishaps: seq<Mishap>, m: Mishap)
    ensures Lost(mishaps + [m]) == Lost(mishaps) + m.amount
  {
    assert (mishaps + [m])[..|mishaps|] == mishaps;
  }

  function EmptyActor(ctx: Context, code: Cid, delegated: Option<Address>): ActorState {
    ActorState(code, ctx.emptyArr, 0, 0, delegated)
  }

  ghost predicate Transferable(view: ActorMap, from: ActorID, to: ActorID, value: TokenAmount) {
    0 <= value && from in view && value <= view[from].balance && to in view
  }

  ghost function Transferred(view: ActorMap, from: ActorID, to: ActorID, value: TokenAmount): ActorMap
    requires Transferable(view, from, to, value)
  {
    if from == to then view
    else view[from := view[from].(balance := view[from].balance - value)]
             [to := view[to].(balance := view[to].balance + value)]
  }

  /** `value` went from one actor to another: balances change by just that, and nothing else does. */
  ghost predicate Moved(before: ActorMap, after: ActorMap, from: ActorID, to: ActorID, value: TokenAmount) {
    && after.Keys == before.Keys
    && (from != to ==> BalanceOf(after, from) == BalanceOf(before, from) - value
                       && BalanceOf(after, to) == BalanceOf(before, to) + value)
    && (forall id :: id in before && (from == to || (id != from && id != to)) ==> after[id] == before[id])
    && (forall id :: id in before ==> after[id].(balance := 0) == before[id].(balance := 0))
  }

  lemma TransferMoves(view: ActorMap, from: ActorID, to: ActorID, value: TokenAmount)
    requires Transferable(view, from, to, value)
    ensures Moved(view, Transferred(view, from, to, value), from, to, value)
  {
  }

  lemma TransferConserves(view: ActorMap, from: ActorID, to: ActorID, value: TokenAmount)
    requires Transferable(view, from, to, value)
    ensures Total(Transferred(view, from, to, value)) == Total(view)
  {
    if from != to {
      var debited := view[from := view[from].(balance := view[from].balance - value)];
      TotalUpdate(view, from, debited[from]);
      TotalUpdate(debited, to, view[to].(balance := view[to].balance + value));
    }
  }

  /** No dangling state and no debt, now or after any rollback. */
  ghost predicate TreeOk(ctx: Context, t: StateTree.Tree) {
    && Closed(ctx.wire, t.store)
    && ctx.emptyArr in t.store
    && Sane(t.view, t.store.Keys)
    && forall i :: 0 <= i < |t.saved| ==> Sane(t.saved[i].view, t.store.Keys)
  }

  lemma SetKeepsOk(ctx: Context, t: StateTree.Tree, id: ActorID, actor: ActorState)
    requires TreeOk(ctx, t) && actor.balance >= 0 && actor.state in t.store
    ensures TreeOk(ctx, t.(view := t.view[id := actor]))
  {
  }

  /** Writing the init actor's new state leaves nothing dangling. */
  lemma RegisterOk(ctx: Context, t: StateTree.Tree, addr: Address)
    requires ValidContext(ctx) && TreeOk(ctx, t)
    ensures TreeOk(ctx, StateTree.Register(ctx.codec, t, addr).0)
  {
    var init := StateTree.LoadInit(ctx.codec, t);
    if init.Ok? {
      var InitState(addresses, id) := init.value;
      var next := InitState(addresses[addr := id], id + 1);
      ClosedUnion(ctx.wire, t.store, ctx.codec.initBlocks(next));
      assert ctx.codec.initRoot(next) in ctx.codec.initBlocks(next);
    }
  }

  /** What is written once an address was registered. */
  ghost function Rewritten(codec: InitCodec, written: set<Cid>, t: StateTree.Tree, addr: Address): set<Cid> {
    var init := StateTree.LoadInit(codec, t);
    if init.Err? then written
    else
      var InitState(addresses, id) := init.value;
      written + codec.initBlocks(InitState(addresses[addr := id], id + 1)).Keys
  }

  lemma RegisterOverlays(ctx: Context, base: Blockstore, written: set<Cid>, t: StateTree.Tree, addr: Address)
    requires ValidContext(ctx) && Overlaid(ctx.wire, base, written, t.store)
    ensures Overlaid(ctx.wire, base, Rewritten(ctx.codec, written, t, addr), StateTree.Register(ctx.codec, t, addr).0.store)
  {
    var init := StateTree.LoadInit(ctx.codec, t);
    if init.Ok? {
      var InitState(addresses, id) := init.value;
      OverlaidUnion(ctx.wire, base, written, t.store, ctx.codec.initBlocks(InitState(addresses[addr := id], id + 1)));
    }
  }

  /** Registering an address changes only the init actor's state. */
  lemma RegisterAssigns(codec: InitCodec, t: StateTree.Tree, addr: Address)
    ensures var (t', r) := StateTree.Register(codec, t, addr);
            r.Ok? ==>
              && StateTree.Assigned(codec, t.view, t'.view, addr, r.value) && t'.resolved == t.resolved[addr := r.value]
              && Total(t'.view) == Total(t.view) && Mishaps(t'.view, r.value) == Mishaps(t.view, r.value)
  {
    var (t', r) := StateTree.Register(codec, t, addr);
    if r.Ok? {
      TotalUpdate(t.view, INIT_ACTOR_ID, t'.view[INIT_ACTOR_ID]);
    }
  }

  /** An actor that is put on a taken ID replaces what was there. */
  lemma OverwriteAccounts(view: ActorMap, id: ActorID, actor: ActorState, mishaps: seq<Mishap>)
    requires actor.balance == 0
    ensures NonNegative(view) && NoDebt(mishaps) ==> NoDebt(mishaps + Mishaps(view, id))
    ensures Total(view[id := actor]) + Lost(mishaps + Mishaps(view, id)) == Total(view) + Lost(mishaps)
  {
    TotalUpdate(view, id, actor);
    if id in view {
      LostAppend(mishaps, Overwritten(id, view[id].balance));
    } else {
      assert mishaps + Mishaps(view, id) == mishaps;
    }
  }

  /** An actor was put under the next ID, which its address has got. */
  ghost predicate Enrolled(codec: InitCodec, before: ActorMap, after: ActorMap, addr: Address, id: ActorID, actor: ActorState) {
    StateTree.InitIn(codec, before).Some? && id == StateTree.InitIn(codec, before).value.nextId
    && after == StateTree.Registered(codec, before, addr)[id := actor]
  }

  /** What is charged for twice, is charged for once: looking an actor up is free once it was looked up, and
      changing it once it was changed, until a rollback forgets that. */
  lemma ChargedOnce(p: PriceList, t: AccessTracker.Tracked, id: ActorID, other: ActorID)
    ensures AccessTracker.AccessOf(t, id).None? ==>
              LookupPrice(p, t, id) == p.onActorLookup && UpdatePrice(p, t, id) == p.onActorLookup + p.onActorUpdate
    ensures LookupPrice(p, AccessTracker.RecordRead(t, id), id) == 0
    ensures AccessTracker.AccessOf(t, id).None? ==> UpdatePrice(p, AccessTracker.RecordRead(t, id), id) == p.onActorUpdate
    ensures UpdatePrice(p, AccessTracker.RecordUpdate(t, id), id) == 0
    ensures UpdatePrice(p, AccessTracker.RecordRead(AccessTracker.RecordUpdate(t, id), id), id) == 0
    ensures other != id ==>
              && UpdatePrice(p, AccessTracker.RecordRead(t, id), other) == UpdatePrice(p, t, other)
              && UpdatePrice(p, AccessTracker.RecordUpdate(t, id), other) == UpdatePrice(p, t, other)
              && LookupPrice(p, AccessTracker.RecordUpdate(t, id), other) == LookupPrice(p, t, other)
    ensures AccessTracker.End(AccessTracker.RecordUpdate(AccessTracker.Begin(t), id), true).0 == t
  {
  }

  ghost predicate Creatable(ctx: Context, view: ActorMap, code: Cid, id: ActorID, delegated: Option<Address>) {
    && code != ctx.placeholderCode
    && (id in view ==> view[id].code == ctx.placeholderCode && delegated.Some? && view[id].delegatedAddress == delegated)
  }

  ghost function Created(ctx: Context, view: ActorMap, code: Cid, id: ActorID, delegated: Option<Address>): ActorState {
    if id in view then view[id].(code := code) else EmptyActor(ctx, code, delegated)
  }

  lemma CreateConserves(ctx: Context, view: ActorMap, code: Cid, id: ActorID, delegated: Option<Address>)
    ensures Total(view[id := Created(ctx, view, code, id, delegated)]) == Total(view)
  {
    TotalUpdate(view, id, Created(ctx, view, code, id, delegated));
  }

  ghost function TransferError(view: ActorMap, from: ActorID, to: ActorID, value: TokenAmount): ExecutionError {
    if value < 0 then Syscall(IllegalArgument)
    else if from !in view || view[from].balance < value then Syscall(InsufficientFunds)
    else Syscall(NotFound)
  }

  /** What looking an actor up costs, given what was paid for already. */
  function LookupPrice(p: PriceList, access: AccessTracker.Tracked, id: ActorID): nat {
    if AccessTracker.AccessOf(access, id).None? then p.onActorLookup else 0
  }

  function UpdatePrice(p: PriceList, access: AccessTracker.Tracked, id: ActorID): nat {
    LookupPrice(p, access, id)
    + (if AccessTracker.AccessOf(access, id) == Some(AccessTracker.Updated) then 0 else p.onActorUpdate)
  }

  // ---------------------------------------------------------------- the call manager

  class CallManager {
    const ctx: Context
    const gas: Gas.GasTracker
    var tree: StateTree.Tree
    var access: AccessTracker.Tracked
    var events: seq<Event>
    var idxs: seq<nat>
    var callStackDepth: nat
    var actorCallStack: seq<Frame>
    var numActorsCreated: nat
    var invocationCount: nat
    /** Engine instances that this call stack has reserved and not given back. */
    var instances: nat
    ghost var mishaps: seq<Mishap>
    /** The store under the write buffer, and what the buffer holds. */
    ghost const base: Blockstore
    ghost var written: set<Cid>

    /** The transaction layers of the state tree, the events and the access tracker go together. */
    ghost predicate LayersOk()
      reads this
    {
      && |idxs| == |tree.saved| == |access.saved|
      && (forall i :: 0 <= i < |idxs| ==> idxs[i] <= |events|)
      && (forall i, j :: 0 <= i < j < |idxs| ==> idxs[i] <= idxs[j])
    }

    ghost predicate Sound()
      reads this, gas
    {
      && ValidContext(ctx) && gas.Valid() && LayersOk()
      && TreeOk(ctx, tree) && Overlaid(ctx.wire, base, written, tree.store) && NoDebt(mishaps)
      && instances <= callStackDepth <= ctx.maxCallDepth
    }

    /** What every operation between two balanced ends leaves as it was: open transactions, gas
        limits and the call stack. Events, blocks, gas used and mishaps only grow. */
    twostate predicate Steady()
      reads this, gas
    {
      tree.saved == old(tree.saved) && access.saved == old(access.saved) && idxs == old(idxs) && Level()
    }

    /** Whatever transactions were opened or ended. */
    twostate predicate Level()
      reads this, gas
    {
      && gas.snapshots == old(gas.snapshots) && gas.gasLimit == old(gas.gasLimit)
      && old(gas.gasUsed) <= gas.gasUsed
      && callStackDepth == old(callStackDepth) && instances == old(instances) && actorCallStack == old(actorCallStack)
      && old(events) <= events && old(mishaps) <= mishaps
      && old(tree.store).Keys <= tree.store.Keys
    }

    /** A read-only caller leaves actors and events as they were. */
    twostate predicate Frames(readOnly: bool)
      reads this, gas
    {
      Steady() && (readOnly ==> tree.view == old(tree.view) && events == old(events))
    }

    /** All balances, and what was lost. */
    ghost function Wealth(): int
      reads this
    {
      Total(tree.view) + Lost(mishaps)
    }

    constructor (ctx: Context, tree: StateTree.Tree, gasLimit: nat, origin: ActorID, originAddress: Address,
                 receiver: Option<ActorID>, receiverAddress: Address, preloaded: set<ActorID>, ghost base: Blockstore,
                 ghost written: set<Cid>)
      requires ValidContext(ctx) && TreeOk(ctx, tree) && tree.saved == [] && Overlaid(ctx.wire, base, written, tree.store)
      ensures Sound() && this.ctx == ctx && this.tree == tree && fresh(gas) && this.base == base
      ensures events == [] && idxs == [] && mishaps == [] && callStackDepth == 0 && actorCallStack == [] && instances == 0
      ensures gas.snapshots == [] && gas.gasLimit == Min(Gas.FromGas(gasLimit), Gas.I64_MAX) && gas.gasUsed == 0
    {
      this.ctx, this.tree, this.base, this.written := ctx, tree, base, written;
      gas := new Gas.GasTracker(Gas.FromGas(gasLimit), 0);
      var tracker := AccessTracker.Preloaded(preloaded);
      tracker := AccessTracker.RecordUpdate(tracker, origin);
      tracker := AccessTracker.RecordLookup(tracker, originAddress);
      if receiver.Some? {
        tracker := AccessTracker.RecordRead(tracker, receiver.value);
      }
      access := AccessTracker.RecordLookup(tracker, receiverAddress);
      events, idxs, callStackDepth, actorCallStack := [], [], 0, [];
      numActorsCreated, invocationCount, instances, mishaps := 0, 0, 0, [];
    }

    method ChargeGas(toUse: nat) returns (r: Result<(), ExecutionError>)
      requires Sound()
      modifies gas`gasUsed
      ensures Sound() && old(gas.gasUsed) <= gas.gasUsed
      ensures r.Ok? <==> toUse <= old(gas.Available())
      ensures gas.gasUsed == if r.Ok? then old(gas.gasUsed) + toUse else gas.gasLimit
      ensures r.Err? ==> r.error == OutOfGas
    {
      var charged := gas.ChargeGas(toUse);
      r := if charged.Ok? then Ok(()) else Err(OutOfGas);
    }

    method PushGasLimit(limit: nat)
      requires Sound()
      modifies gas
      ensures Sound() && gas.snapshots == old(gas.snapshots) + [Gas.GasSnapshot(old(gas.gasLimit), old(gas.gasUsed))]
      ensures gas.gasUsed == 0 && gas.gasLimit <= limit
    {
      gas.PushLimit(limit);
    }

    /** Back to the limit that `outer` and `snap` were saved under. */
    method PopGasLimit(ghost outer: seq<Gas.GasSnapshot>, ghost snap: Gas.GasSnapshot) returns (r: Result<(), ExecutionError>)
      requires Sound() && gas.snapshots == outer + [snap]
      modifies gas
      ensures Sound() && r.Ok? && gas.snapshots == outer
      ensures gas.gasLimit == snap.limit && gas.gasUsed == snap.used + old(gas.gasUsed)
    {
      var popped := gas.PopLimit();
      assert (outer + [snap])[..|outer|] == outer;
      return if popped.Ok? then Ok(()) else Err(Fatal);
    }

    /** Looks an actor up, charging for it the first time. */
    method GetActor(id: ActorID) returns (r: Result<Option<ActorState>, ExecutionError>)
      requires Sound()
      modifies this`access, gas`gasUsed
      ensures Sound() && access.saved == old(access.saved) && old(gas.gasUsed) <= gas.gasUsed
      ensures r.Ok? ==> r.value == StateTree.Stored(tree.view, id) && access == AccessTracker.RecordRead(old(access), id)
      ensures r.Ok? <==> LookupPrice(ctx.prices, old(access), id) <= old(gas.Available())
      ensures r.Ok? ==> gas.gasUsed == old(gas.gasUsed) + LookupPrice(ctx.prices, old(access), id)
      ensures r.Err? ==> r.error == OutOfGas && access == old(access)
    {
      if AccessTracker.AccessOf(access, id).None? {
        var charged := ChargeGas(ctx.prices.onActorLookup);
        if charged.Err? {
          return Err(charged.error);
        }
      }
      access := AccessTracker.RecordRead(access, id);
      return Ok(StateTree.Stored(tree.view, id));
    }

    /** Charges for changing an actor, as far as that was not done before. */
    method ChargeForUpdate(id: ActorID) returns (r: Result<(), ExecutionError>)
      requires Sound()
      modifies gas`gasUsed
      ensures Sound() && old(gas.gasUsed) <= gas.gasUsed
      ensures r.Ok? <==> UpdatePrice(ctx.prices, access, id) <= old(gas.Available())
      ensures r.Ok? ==> gas.gasUsed == old(gas.gasUsed) + UpdatePrice(ctx.prices, access, id)
      ensures r.Err? ==> r.error == OutOfGas
    {
      var known := AccessTracker.AccessOf(access, id);
      if known.None? {
        r := ChargeGas(ctx.prices.onActorLookup);
        if r.Err? {
          return;
        }
      }
      if known != Some(AccessTracker.Updated) {
        r := ChargeGas(ctx.prices.onActorUpdate);
        return;
      }
      return Ok(());
    }

    method SetActor(id: ActorID, actor: ActorState) returns (r: Result<(), ExecutionError>)
      requires Sound() && actor.balance >= 0 && actor.state in tree.store
      modifies this`tree, this`access, gas`gasUsed
      ensures Sound() && access.saved == old(access.saved) && old(gas.gasUsed) <= gas.gasUsed
      ensures r.Ok? <==> UpdatePrice(ctx.prices, old(access), id) <= old(gas.Available())
      ensures r.Ok? ==> tree == old(tree).(view := old(tree).view[id := actor])
      ensures r.Ok? ==> access == AccessTracker.RecordUpdate(old(access), id)
                        && gas.gasUsed == old(gas.gasUsed) + UpdatePrice(ctx.prices, old(access), id)
      ensures r.Err? ==> r.error == OutOfGas && tree == old(tree)
    {
      r := ChargeForUpdate(id);
      if r.Ok? {
        SetKeepsOk(ctx, tree, id, actor);
        tree := tree.(view := tree.view[id := actor]);
        access := AccessTracker.RecordUpdate(access, id);
      }
    }

    /** Changes an actor, but not its balance. */
    method UpdateActor(id: ActorID, actor: ActorState) returns (r: Result<(), ExecutionError>)
      requires Sound() && id in tree.view && actor.balance == tree.view[id].balance && actor.state in tree.store
      modifies this`tree, this`access, gas`gasUsed
      ensures Sound() && access.saved == old(access.saved) && old(gas.gasUsed) <= gas.gasUsed
      ensures r.Ok? ==> tree == old(tree).(view := old(tree).view[id := actor]) && Total(tree.view) == Total(old(tree.view))
      ensures r.Ok? <==> UpdatePrice(ctx.prices, old(access), id) <= old(gas.Available())
      ensures r.Err? ==> r.error == OutOfGas && tree == old(tree)
    {
      TotalUpdate(tree.view, id, actor);
      r := SetActor(id, actor);
    }

    method DeleteActor(id: ActorID) returns (r: Result<(), ExecutionError>)
      requires Sound()
      modifies this`tree, this`access, gas`gasUsed
      ensures Sound() && access.saved == old(access.saved) && old(gas.gasUsed) <= gas.gasUsed
      ensures r.Ok? <==> UpdatePrice(ctx.prices, old(access), id) <= old(gas.Available())
      ensures r.Ok? ==> tree == old(tree).(view := old(tree).view - {id})
      ensures r.Ok? ==> access == AccessTracker.RecordUpdate(old(access), id)
                        && gas.gasUsed == old(gas.gasUsed) + UpdatePrice(ctx.prices, old(access), id)
      ensures r.Err? ==> r.error == OutOfGas && tree == old(tree)
    {
      r := ChargeForUpdate(id);
      if r.Ok? {
        tree := tree.(view := tree.view - {id});
        access := AccessTracker.RecordUpdate(access, id);
      }
    }

    /** Moves `value`. Running out of gas between the debit and the credit is the only failure that
        leaves a change behind. */
    method Transfer(from: ActorID, to: ActorID, value: TokenAmount) returns (r: Result<(), ExecutionError>)
      requires Sound()
      modifies this`tree, this`access, gas`gasUsed
      ensures Sound() && access.saved == old(access.saved) && old(gas.gasUsed) <= gas.gasUsed
      ensures tree == old(tree).(view := tree.view)
      ensures r.Ok? ==> Transferable(old(tree).view, from, to, value)
                        && tree.view == Transferred(old(tree).view, from, to, value)
                        && Moved(old(tree).view, tree.view, from, to, value)
      ensures r.Err? ==> r.error == OutOfGas || (r.error == TransferError(old(tree).view, from, to, value) && tree == old(tree))
      ensures r.Err? && r.error != OutOfGas ==> !Transferable(old(tree).view, from, to, value)
      ensures Free(ctx.prices) ==> r != Err(OutOfGas)
    {
      if value < 0 {
        return Err(Syscall(IllegalArgument));
      }
      var gotFrom := GetActor(from);
      if gotFrom.Err? {
        return Err(gotFrom.error);
      }
      if gotFrom.value.None? || gotFrom.value.value.balance < value {
        return Err(Syscall(InsufficientFunds));
      }
      if from == to {
        TransferMoves(tree.view, from, to, value);
        return Ok(());
      }
      var gotTo := GetActor(to);
      if gotTo.Err? {
        return Err(gotTo.error);
      }
      if gotTo.value.None? {
        return Err(Syscall(NotFound));
      }
      TransferMoves(tree.view, from, to, value);
      r := Move(from, gotFrom.value.value, to, gotTo.value.value, value);
    }

    /** The debit and the credit. Either can run out of gas. */
    method Move(from: ActorID, payer: ActorState, to: ActorID, payee: ActorState, value: TokenAmount)
      returns (r: Result<(), ExecutionError>)
      requires Sound() && from != to && Transferable(tree.view, from, to, value)
      requires payer == tree.view[from] && payee == tree.view[to]
      modifies this`tree, this`access, gas`gasUsed
      ensures Sound() && access.saved == old(access.saved) && old(gas.gasUsed) <= gas.gasUsed
      ensures tree == old(tree).(view := tree.view)
      ensures r.Ok? ==> tree.view == Transferred(old(tree).view, from, to, value)
      ensures r.Err? ==> r.error == OutOfGas
      ensures Free(ctx.prices) ==> r.Ok?
    {
      var debited := payer.(balance := payer.balance - value);
      var credited := payee.(balance := payee.balance + value);
      assert credited.balance >= 0 && credited.state in tree.store;
      r := SetActor(from, debited);
      if r.Err? {
        return;
      }
      r := SetActor(to, credited);
    }

    /** Creates an actor, or turns a placeholder with the same delegated address into one. */
    method CreateActor(code: Cid, id: ActorID, delegated: Option<Address>) returns (r: Result<(), ExecutionError>)
      requires Sound()
      modifies this`numActorsCreated, this`tree, this`access, gas`gasUsed
      ensures Sound() && access.saved == old(access.saved) && old(gas.gasUsed) <= gas.gasUsed
      ensures r.Err? ==> tree == old(tree)
      ensures r.Ok? ==> Creatable(ctx, old(tree).view, code, id, delegated)
      ensures r.Ok? ==> tree == old(tree).(view := old(tree).view[id := Created(ctx, old(tree).view, code, id, delegated)])
      ensures r.Ok? ==>
                && tree.view[id].code == code && BalanceOf(tree.view, id) == BalanceOf(old(tree).view, id)
                && (if id in old(tree).view
                    then tree.view[id].(code := code) == old(tree).view[id].(code := code)
                    else tree.view[id] == ActorState(code, ctx.emptyArr, 0, 0, delegated))
      ensures r.Err? && r.error.Syscall? ==> r.error.number == Forbidden && !Creatable(ctx, old(tree).view, code, id, delegated)
      ensures Free(ctx.prices) ==> (r.Ok? <==> Creatable(ctx, old(tree).view, code, id, delegated))
    {
      var actor := NewActor(code, id, delegated);
      if actor.Err? {
        return Err(actor.error);
      }
      r := SetActor(id, actor.value);
      if r.Ok? {
        numActorsCreated := numActorsCreated + 1;
      }
    }

    /** The actor to put at `id`, if one may be put there. */
    method NewActor(code: Cid, id: ActorID, delegated: Option<Address>) returns (r: Result<ActorState, ExecutionError>)
      requires Sound()
      modifies this`access, gas`gasUsed
      ensures Sound() && access.saved == old(access.saved) && old(gas.gasUsed) <= gas.gasUsed
      ensures r.Ok? ==> Creatable(ctx, tree.view, code, id, delegated) && r.value == Created(ctx, tree.view, code, id, delegated)
      ensures r.Err? && r.error.Syscall? ==> r.error.number == Forbidden && !Creatable(ctx, tree.view, code, id, delegated)
      ensures Free(ctx.prices) ==> (r.Ok? <==> Creatable(ctx, tree.view, code, id, delegated))
    {
      if code == ctx.placeholderCode {
        return Err(Syscall(Forbidden));
      }
      var got := GetActor(id);
      if got.Err? {
        return Err(got.error);
      }
      match got.value {
        case Some(act) =>
          if act.code != ctx.placeholderCode {
            return Err(Syscall(Forbidden));
          }
          if act.delegatedAddress.None? {
            return Err(Fatal);
          }
          if act.delegatedAddress != delegated {
            return Err(Syscall(Forbidden));
          }
          return Ok(act.(code := code));
        case None =>
          var charged := ChargeGas(ctx.prices.onCreateActor(false));
          if charged.Err? {
            return Err(charged.error);
          }
          return Ok(EmptyActor(ctx, code, delegated));
      }
    }

    /** Resolves an address, charging for it the first time. */
    method ResolveAddress(addr: Address) returns (r: Result<Option<ActorID>, ExecutionError>)
      requires Sound()
      modifies this`tree, this`access, gas`gasUsed
      ensures Sound() && access.saved == old(access.saved) && old(gas.gasUsed) <= gas.gasUsed
      ensures addr.IdAddress? ==> r == Ok(Some(addr.id))
      ensures r.Ok? ==> (tree, r) == StateTree.Lookup(ctx.codec, old(tree), addr)
      ensures r.Ok? ==> gas.gasUsed == old(gas.gasUsed)
                                       + (if AccessTracker.AddressCharged(old(access), addr) then 0 else ctx.prices.onResolveAddress)
      ensures tree == old(tree).(resolved := tree.resolved)
      ensures r.Err? ==> !r.error.Syscall? && tree == old(tree)
      ensures Free(ctx.prices) && r.Err? ==> StateTree.InitIn(ctx.codec, tree.view).None? && addr !in tree.resolved
    {
      if addr.IdAddress? {
        return Ok(Some(addr.id));
      }
      if !AccessTracker.AddressCharged(access, addr) {
        var c := ChargeGas(ctx.prices.onResolveAddress);
        if c.Err? {
          return Err(c.error);
        }
      }
      r := LookupId(addr);
      if r.Ok? && r.value.Some? {
        access := AccessTracker.RecordLookup(access, addr);
      }
    }

    /** Resolves an address; the actors stay as they are. */
    method Locate(addr: Address) returns (r: Result<Option<ActorID>, ExecutionError>)
      requires Sound()
      modifies this`tree, this`access, gas`gasUsed
      ensures Sound() && access.saved == old(access.saved) && old(gas.gasUsed) <= gas.gasUsed
      ensures tree == old(tree).(resolved := tree.resolved)
      ensures StateTree.Recalls(ctx.codec, tree.view, old(tree).resolved, tree.resolved)
      ensures r.Ok? && r.value.None? ==> tree == old(tree)
      ensures r.Ok? ==> r.value == StateTree.IdOf(ctx.codec, old(tree).view, old(tree).resolved, addr)
      ensures addr.IdAddress? ==> r.Ok?
      ensures r.Err? ==> !r.error.Syscall?
      ensures Free(ctx.prices) && r.Err? ==>
                StateTree.InitIn(ctx.codec, old(tree).view).None?
                && StateTree.IdOf(ctx.codec, old(tree).view, old(tree).resolved, addr).None?
    {
      r := ResolveAddress(addr);
    }

    method LookupId(addr: Address) returns (r: Result<Option<ActorID>, ExecutionError>)
      requires Sound()
      modifies this`tree
      ensures Sound() && (tree, r) == StateTree.Lookup(ctx.codec, old(tree), addr)
      ensures tree == old(tree).(resolved := tree.resolved)
      ensures r.Err? ==> r.error == Fatal && tree == old(tree)
                         && StateTree.InitIn(ctx.codec, tree.view).None? && addr !in tree.resolved
    {
      var found := StateTree.Lookup(ctx.codec, tree, addr);
      tree := found.0;
      r := found.1;
    }

    /** Registers an address in the init actor. */
    method RegisterAddress(addr: Address) returns (r: Result<ActorID, ExecutionError>)
      requires Sound()
      modifies this`written, this`tree, this`access, gas`gasUsed
      ensures Sound() && access.saved == old(access.saved) && old(gas.gasUsed) <= gas.gasUsed
      ensures tree.saved == old(tree.saved) && old(tree.store).Keys <= tree.store.Keys
      ensures r.Ok? ==> (tree, r) == StateTree.Register(ctx.codec, old(tree), addr)
      ensures r.Err? ==> !r.error.Syscall? && tree == old(tree)
      ensures Free(ctx.prices) && StateTree.InitIn(ctx.codec, old(tree).view).Some? ==> r.Ok?
    {
      var charged := ChargeGas(ctx.prices.onCreateActor(true));
      if charged.Err? {
        return Err(charged.error);
      }
      r := RegisterNewAddress(addr);
      if r.Ok? {
        access := AccessTracker.RecordLookup(access, addr);
      }
    }

    method RegisterNewAddress(addr: Address) returns (r: Result<ActorID, ExecutionError>)
      requires Sound()
      modifies this`written, this`tree
      ensures Sound() && (tree, r) == StateTree.Register(ctx.codec, old(tree), addr)
      ensures tree.saved == old(tree.saved) && old(tree.store).Keys <= tree.store.Keys
      ensures r.Err? ==> r.error == Fatal && tree == old(tree) && StateTree.InitIn(ctx.codec, tree.view).None?
    {
      RegisterOk(ctx, tree, addr);
      var registered := StateTree.Register(ctx.codec, tree, addr);
      RegisterOverlays(ctx, base, written, tree, addr);
      written := Rewritten(ctx.codec, written, tree, addr);
      tree := registered.0;
      r := registered.1;
    }

    /** A new ID for an address. Balances are as before: only the init actor's state changes. */
    method AssignId(addr: Address) returns (r: Result<ActorID, ExecutionError>)
      requires Sound()
      modifies this`written, this`tree, this`access, gas`gasUsed
      ensures Sound() && access.saved == old(access.saved) && old(gas.gasUsed) <= gas.gasUsed
      ensures tree.saved == old(tree.saved) && old(tree.store).Keys <= tree.store.Keys
      ensures r.Ok? ==> StateTree.Assigned(ctx.codec, old(tree).view, tree.view, addr, r.value)
                        && tree.resolved == old(tree).resolved[addr := r.value]
      ensures r.Ok? ==> Total(tree.view) == Total(old(tree.view))
                        && Mishaps(tree.view, r.value) == Mishaps(old(tree.view), r.value)
      ensures r.Err? ==> !r.error.Syscall? && tree == old(tree)
      ensures Free(ctx.prices) && StateTree.InitIn(ctx.codec, old(tree).view).Some? ==> r.Ok?
    {
      RegisterAssigns(ctx.codec, tree, addr);
      r := RegisterAddress(addr);
    }

    /** Puts an actor under an ID, whatever is there. */
    method Overwrite(id: ActorID, actor: ActorState) returns (r: Result<(), ExecutionError>)
      requires Sound() && actor.balance == 0 && actor.state == ctx.emptyArr
      modifies this`mishaps, this`tree, this`access, gas`gasUsed
      ensures Sound() && access.saved == old(access.saved) && old(gas.gasUsed) <= gas.gasUsed
      ensures r.Ok? ==> tree == old(tree).(view := old(tree).view[id := actor])
      ensures r.Ok? ==> mishaps == old(mishaps) + Mishaps(old(tree).view, id)
      ensures r.Ok? ==> Wealth() == old(Wealth())
      ensures r.Err? ==> r.error == OutOfGas && mishaps == old(mishaps) && tree == old(tree)
      ensures Free(ctx.prices) ==> r.Ok?
    {
      OverwriteAccounts(tree.view, id, actor, mishaps);
      r := SetActor(id, actor);
      if r.Ok? {
        mishaps := mishaps + Mishaps(old(tree).view, id);
      }
    }

    /** Creates an actor for an address that a send named, under the ID that the init actor gives it. */
    method CreateActorFromSend(addr: Address, actor: ActorState) returns (r: Result<ActorID, ExecutionError>)
      requires Sound() && actor.balance == 0 && actor.state == ctx.emptyArr
      modifies this`written, this`mishaps, this`tree, this`access, gas`gasUsed
      ensures Sound() && access.saved == old(access.saved) && old(gas.gasUsed) <= gas.gasUsed
      ensures tree.saved == old(tree.saved) && old(tree.store).Keys <= tree.store.Keys
      ensures r.Ok? ==> Enrolled(ctx.codec, old(tree).view, tree.view, addr, r.value, actor)
                        && tree.resolved == old(tree).resolved[addr := r.value]
      ensures r.Ok? ==> mishaps == old(mishaps) + Mishaps(old(tree).view, r.value)
      ensures r.Ok? ==> Wealth() == old(Wealth())
      ensures r.Err? ==> !r.error.Syscall? && mishaps == old(mishaps)
      ensures Free(ctx.prices) && StateTree.InitIn(ctx.codec, old(tree).view).Some? ==> r.Ok?
    {
      r := AssignId(addr);
      if r.Err? {
        return;
      }
      var put := Overwrite(r.value, actor);
      if put.Err? {
        return Err(put.error);
      }
    }

    method AppendEvent(e: Event)
      requires Sound()
      modifies this`events
      ensures Sound() && events == old(events) + [e]
    {
      events := events + [e];
    }

    // -------------------------------------------------------------- transactions

    method BeginTransaction()
      requires Sound()
      modifies this`idxs, this`tree, this`access
      ensures Sound() && tree == StateTree.Begin(old(tree)) && access == AccessTracker.Begin(old(access))
      ensures idxs == old(idxs) + [|events|]
    {
      tree := StateTree.Begin(tree);
      idxs := idxs + [|events|];
      access := AccessTracker.Begin(access);
    }

    /** Ends a transaction in all three places at once. */
    method EndTransaction(revert: bool) returns (r: Result<(), ExecutionError>)
      requires Sound()
      modifies this`idxs, this`events, this`tree, this`access
      ensures Sound()
      ensures r.Ok? <==> old(idxs) != []
      ensures r.Err? ==> r.error == Fatal
      ensures r.Ok? ==> tree == StateTree.End(old(tree), revert).0 && access == AccessTracker.End(old(access), revert).0
      ensures r.Ok? ==> idxs == old(idxs)[..|old(idxs)| - 1]
      ensures r.Ok? ==> events == if revert then old(events)[..old(idxs)[|old(idxs)| - 1]] else old(events)
    {
      var (tree', ended) := StateTree.End(tree, revert);
      tree, r := tree', ended;
      if r.Err? {
        return;
      }
      var n := |idxs| - 1;
      var idx := idxs[n];
      idxs := idxs[..n];
      if revert {
        events := events[..idx];
      }
      var (access', forgotten) := AccessTracker.End(access, revert);
      access, r := access', forgotten;
    }
  }
}
