/** The syscalls that run no other actor (`fvm/src/kernel/default.rs`). */
module Kernel {
  import opened Common
  import opened BitStrings
  import opened CborGrammar
  import opened Actors
  import opened Blocks
  import opened CallManager
  import CborScan
  import Events
  import StateTree

  /** The actor goes on after this: a syscall error is handed to it as a number, while running out of
      gas and fatal errors end it. */
  predicate Settled<T>(r: Result<T, ExecutionError>) {
    r.Ok? || r.error.Syscall?
  }

  function FromScan(e: CborScan.ScanError): ExecutionError {
    match e
    case OutOfGas => ExecutionError.OutOfGas
    case Serialization => Syscall(ErrorNumber.Serialization)
    case NotFound => Syscall(ErrorNumber.NotFound)
    case IllegalCodec => Syscall(ErrorNumber.IllegalCodec)
  }

  /** The actors after one of them burns its balance. */
  ghost function Burnt(view: ActorMap, id: ActorID): ActorMap {
    var balance := BalanceOf(view, id);
    if balance != 0 && Transferable(view, id, BURNT_FUNDS_ACTOR_ID, balance)
    then Transferred(view, id, BURNT_FUNDS_ACTOR_ID, balance)
    else view
  }

  ghost function Destroyed(view: ActorMap, id: ActorID): ActorMap {
    Burnt(view, id) - {id}
  }

  /** The actor is gone, and the burnt-funds actor has what it held. */
  ghost predicate Gone(before: ActorMap, after: ActorMap, id: ActorID) {
    && after.Keys == before.Keys - {id}
    && (id != BURNT_FUNDS_ACTOR_ID ==>
          BalanceOf(after, BURNT_FUNDS_ACTOR_ID) == BalanceOf(before, BURNT_FUNDS_ACTOR_ID) + BalanceOf(before, id))
    && (forall x :: x in after && x != BURNT_FUNDS_ACTOR_ID ==> after[x] == before[x])
    && (forall x :: x in after ==> after[x].(balance := 0) == before[x].(balance := 0))
  }

  lemma DestroyedIsGone(view: ActorMap, id: ActorID)
    requires CanBurn(view, id)
    ensures Gone(view, Destroyed(view, id), id)
  {
    if BalanceOf(view, id) != 0 {
      TransferMoves(view, id, BURNT_FUNDS_ACTOR_ID, BalanceOf(view, id));
    }
  }

  ghost function Burning(view: ActorMap, id: ActorID): seq<Mishap> {
    if id == BURNT_FUNDS_ACTOR_ID && BalanceOf(view, id) != 0 then [BurntFundsDestroyed(BalanceOf(view, id))] else []
  }

  ghost predicate CanBurn(view: ActorMap, id: ActorID) {
    BalanceOf(view, id) != 0 ==> Transferable(view, id, BURNT_FUNDS_ACTOR_ID, BalanceOf(view, id))
  }

  lemma DestroyAccounts(view: ActorMap, id: ActorID, mishaps: seq<Mishap>)
    requires CanBurn(view, id)
    ensures BalanceOf(view, id) >= 0 && NoDebt(mishaps) ==> NoDebt(mishaps + Burning(view, id))
    ensures Total(Destroyed(view, id)) + Lost(mishaps + Burning(view, id)) == Total(view) + Lost(mishaps)
  {
    var balance := BalanceOf(view, id);
    var actor := ActorState(Cid(0, 0, []), Cid(0, 0, []), 0, 0, None);
    if balance == 0 {
      TotalUpdate(view, id, actor);
      assert mishaps + Burning(view, id) == mishaps;
    } else {
      TransferConserves(view, id, BURNT_FUNDS_ACTOR_ID, balance);
      TotalUpdate(Transferred(view, id, BURNT_FUNDS_ACTOR_ID, balance), id, actor);
      if id == BURNT_FUNDS_ACTOR_ID {
        LostAppend(mishaps, BurntFundsDestroyed(balance));
      } else {
        assert mishaps + Burning(view, id) == mishaps;
      }
    }
  }

  /** A block that the kernel lets an actor make. */
  ghost predicate Makeable(ctx: Context, codec: nat, data: seq<Byte>, reachable: set<Cid>) {
    && |data| <= ctx.maxBlockSize && Allowed(codec)
    && exists t :: CborScan.BlockHolds(ctx.wire, codec, data, t) && LinkSet(t.links) <= reachable
  }

  /** A block that an actor can open. */
  ghost predicate Openable(w: Wire, cid: Cid, store: Blockstore, reachable: set<Cid>) {
    cid in reachable && cid in store && exists t :: CborScan.BlockHolds(w, cid.codec, store[cid], t)
  }

  /** The data is well formed, and these are its links, in order. */
  ghost predicate HasLinks(w: Wire, codec: nat, data: seq<Byte>, links: seq<Cid>) {
    && (exists t :: CborScan.BlockHolds(w, codec, data, t))
    && forall t :: CborScan.BlockHolds(w, codec, data, t) ==> t.links == links
  }

  lemma MakeableIff(ctx: Context, codec: nat, data: seq<Byte>, reachable: set<Cid>, links: seq<Cid>)
    requires |data| <= ctx.maxBlockSize && Allowed(codec) && HasLinks(ctx.wire, codec, data, links)
    ensures Makeable(ctx, codec, data, reachable) <==> LinkSet(links) <= reachable
  {
  }

  /** The actor's state root, and nothing else, was set. */
  ghost predicate Rooted(before: StateTree.Tree, after: StateTree.Tree, id: ActorID, root: Cid) {
    id in before.view && after == before.(view := before.view[id := before.view[id].(state := root)])
  }

  class Kernel {
    const cm: CallManager
    const blocks: BlockRegistry
    const caller: ActorID
    const actorId: ActorID
    const methodNum: nat
    const valueReceived: TokenAmount
    const readOnly: bool

    constructor (cm: CallManager, blocks: BlockRegistry, caller: ActorID, actorId: ActorID, methodNum: nat,
                 valueReceived: TokenAmount, readOnly: bool)
      ensures this.cm == cm && this.blocks == blocks && this.caller == caller && this.actorId == actorId
      ensures this.methodNum == methodNum && this.valueReceived == valueReceived && this.readOnly == readOnly
    {
      this.cm, this.blocks, this.caller, this.actorId := cm, blocks, caller, actorId;
      this.methodNum, this.valueReceived, this.readOnly := methodNum, valueReceived, readOnly;
    }

    /** Every reachable CID and every link of every open block is in the store. */
    ghost predicate Ready()
      reads cm, cm.gas, blocks
    {
      cm.Sound() && blocks.NothingDangling(cm.ctx.wire, cm.tree.store.Keys)
    }

    /** The block store only grew, so what was reachable still is there. */
    twostate lemma StillReady()
      requires old(Ready()) && cm.Sound() && cm.Steady()
      requires blocks.blocks == old(blocks.blocks) && blocks.reachable == old(blocks.reachable)
      ensures Ready()
    {
      StillOk(cm.ctx.wire, blocks.blocks, blocks.reachable, old(cm.tree.store.Keys), cm.tree.store.Keys);
    }

    // -------------------------------------------------------------- the actor itself

    method Root() returns (r: Result<Cid, ExecutionError>)
      requires Ready()
      modifies cm`access, cm.gas`gasUsed, blocks`reachable
      ensures Ready() && cm.Frames(readOnly)
      ensures r.Ok? ==> actorId in cm.tree.view && r.value == cm.tree.view[actorId].state
                        && blocks.reachable == old(blocks.reachable) + {r.value}
      ensures r.Err? ==> r.error == OutOfGas || (r.error == Syscall(IllegalOperation) && actorId !in cm.tree.view)
      ensures r.Err? ==> blocks.reachable == old(blocks.reachable)
      ensures Free(cm.ctx.prices) ==> (r.Ok? <==> actorId in cm.tree.view)
      ensures r.Ok? ==> old(cm.gas.gasUsed) + cm.ctx.prices.onRoot <= cm.gas.gasUsed
    {
      var charged := cm.ChargeGas(cm.ctx.prices.onRoot);
      if charged.Err? {
        return Err(charged.error);
      }
      var got := cm.GetActor(actorId);
      if got.Err? {
        return Err(got.error);
      }
      if got.value.None? {
        return Err(Syscall(IllegalOperation));
      }
      var cid := got.value.value.state;
      blocks.MarkReachable(cid);
      return Ok(cid);
    }

    /** Sets the state root to something reachable. */
    method SetRoot(root: Cid) returns (r: Result<(), ExecutionError>)
      requires Ready()
      modifies cm`tree, cm`access, cm.gas`gasUsed
      ensures Ready() && cm.Frames(readOnly)
      ensures readOnly ==> r == Err(Syscall(ReadOnly))
      ensures r.Err? ==> cm.tree == old(cm.tree)
      ensures r.Ok? ==> root in blocks.reachable && root in cm.tree.store && Rooted(old(cm.tree), cm.tree, actorId, root)
      ensures r.Ok? ==> cm.Wealth() == old(cm.Wealth())
      ensures r.Ok? ==> old(cm.gas.gasUsed) + cm.ctx.prices.onSetRoot <= cm.gas.gasUsed
      ensures r.Err? ==>
                || r.error == OutOfGas || (readOnly && r.error == Syscall(ReadOnly))
                || (root !in blocks.reachable && r.error == Syscall(ErrorNumber.NotFound))
                || (actorId !in old(cm.tree).view && r.error == Syscall(IllegalOperation))
      ensures Free(cm.ctx.prices) ==> (r.Ok? <==> !readOnly && root in blocks.reachable && actorId in old(cm.tree).view)
    {
      if readOnly {
        return Err(Syscall(ReadOnly));
      }
      r := cm.ChargeGas(cm.ctx.prices.onSetRoot);
      if r.Err? {
        return;
      }
      if root !in blocks.reachable {
        return Err(Syscall(ErrorNumber.NotFound));
      }
      r := WriteRoot(root);
    }

    method WriteRoot(root: Cid) returns (r: Result<(), ExecutionError>)
      requires Ready() && root in cm.tree.store
      modifies cm`tree, cm`access, cm.gas`gasUsed
      ensures Ready() && cm.Steady()
      ensures r.Err? ==> cm.tree == old(cm.tree)
      ensures r.Err? ==> r.error == OutOfGas || (r.error == Syscall(IllegalOperation) && actorId !in cm.tree.view)
      ensures r.Ok? ==> Rooted(old(cm.tree), cm.tree, actorId, root) && Total(cm.tree.view) == Total(old(cm.tree.view))
      ensures Free(cm.ctx.prices) ==> (r.Ok? <==> actorId in old(cm.tree).view)
    {
      var got := cm.GetActor(actorId);
      if got.Err? {
        return Err(got.error);
      }
      if got.value.None? {
        return Err(Syscall(IllegalOperation));
      }
      r := cm.UpdateActor(actorId, got.value.value.(state := root));
    }

    method CurrentBalance() returns (r: Result<TokenAmount, ExecutionError>)
      requires Ready()
      modifies cm`access, cm.gas`gasUsed
      ensures Ready() && cm.Frames(readOnly)
      ensures r.Ok? ==> r.value == BalanceOf(cm.tree.view, actorId)
      ensures r.Err? ==> r.error == OutOfGas
      ensures Free(cm.ctx.prices) ==> r.Ok?
      ensures r.Ok? ==> old(cm.gas.gasUsed) + cm.ctx.prices.onSelfBalance <= cm.gas.gasUsed
    {
      var charged := cm.ChargeGas(cm.ctx.prices.onSelfBalance);
      if charged.Err? {
        return Err(charged.error);
      }
      var got := cm.GetActor(actorId);
      if got.Err? {
        return Err(got.error);
      }
      return Ok(if got.value.Some? then got.value.value.balance else 0);
    }

    /** Sends what the executing actor holds to the burnt-funds actor; any failure of that is fatal. */
    method BurnUnspent(burnUnspent: bool) returns (r: Result<(), ExecutionError>)
      requires Ready()
      modifies cm`tree, cm`access, cm.gas`gasUsed
      ensures Ready() && cm.Steady()
      ensures r.Err? && r.error.Syscall? ==>
                cm.tree == old(cm.tree) && BalanceOf(old(cm.tree).view, actorId) != 0 && !burnUnspent
      ensures r.Ok? ==>
                && BalanceOf(old(cm.tree).view, actorId) >= 0
                && CanBurn(old(cm.tree).view, actorId)
                && cm.tree == old(cm.tree).(view := Burnt(old(cm.tree).view, actorId))
                && (BalanceOf(old(cm.tree).view, actorId) == 0 || burnUnspent)
      ensures Free(cm.ctx.prices) && burnUnspent && CanBurn(old(cm.tree).view, actorId) ==> r.Ok?
    {
      var balance := CurrentBalance();
      if balance.Err? {
        return Err(balance.error);
      }
      if balance.value != 0 {
        if !burnUnspent {
          return Err(Syscall(IllegalOperation));
        }
        var burnt := cm.Transfer(actorId, BURNT_FUNDS_ACTOR_ID, balance.value);
        if burnt.Err? {
          return Err(Fatal);
        }
      }
      return Ok(());
    }

    /** Deletes the executing actor, burning its balance. */
    method SelfDestruct(burnUnspent: bool) returns (r: Result<(), ExecutionError>)
      requires Ready()
      modifies cm`tree, cm`access, cm`mishaps, cm.gas`gasUsed
      ensures Ready() && cm.Frames(readOnly)
      ensures readOnly ==> r == Err(Syscall(ReadOnly))
      ensures r.Err? && r.error.Syscall? ==> cm.tree == old(cm.tree) && cm.mishaps == old(cm.mishaps)
                                             && (readOnly || (BalanceOf(old(cm.tree).view, actorId) != 0 && !burnUnspent))
      ensures r.Ok? ==>
                && cm.tree == old(cm.tree).(view := Destroyed(old(cm.tree).view, actorId))
                && cm.mishaps == old(cm.mishaps) + Burning(old(cm.tree).view, actorId)
                && (BalanceOf(old(cm.tree).view, actorId) == 0 || burnUnspent)
      ensures r.Ok? ==> CanBurn(old(cm.tree).view, actorId) && Gone(old(cm.tree).view, cm.tree.view, actorId)
      ensures r.Ok? ==> cm.Wealth() == old(cm.Wealth())
      ensures r.Ok? ==> old(cm.gas.gasUsed) + cm.ctx.prices.onDeleteActor <= cm.gas.gasUsed
      ensures Free(cm.ctx.prices) && !readOnly && burnUnspent && CanBurn(old(cm.tree).view, actorId) ==> r.Ok?
    {
      if readOnly {
        return Err(Syscall(ReadOnly));
      }
      r := cm.ChargeGas(cm.ctx.prices.onDeleteActor);
      if r.Err? {
        return;
      }
      r := BurnUnspent(burnUnspent);
      if r.Err? {
        return;
      }
      DestroyedIsGone(old(cm.tree).view, actorId);
      r := DeleteBurnt(old(cm.tree.view));
    }

    /** Deletes the executing actor, which was seen in `view` and has burnt its balance since. */
    method DeleteBurnt(ghost view: ActorMap) returns (r: Result<(), ExecutionError>)
      requires Ready() && CanBurn(view, actorId) && BalanceOf(view, actorId) >= 0 && cm.tree.view == Burnt(view, actorId)
      modifies cm`tree, cm`access, cm`mishaps, cm.gas`gasUsed
      ensures Ready() && cm.Steady()
      ensures r.Err? ==> r.error == OutOfGas && cm.tree == old(cm.tree) && cm.mishaps == old(cm.mishaps)
      ensures r.Ok? ==>
                && cm.tree == old(cm.tree).(view := Destroyed(view, actorId))
                && cm.mishaps == old(cm.mishaps) + Burning(view, actorId)
                && cm.Wealth() == Total(view) + Lost(old(cm.mishaps))
      ensures Free(cm.ctx.prices) ==> r.Ok?
    {
      r := cm.DeleteActor(actorId);
      if r.Ok? {
        DestroyAccounts(view, actorId, cm.mishaps);
        cm.mishaps := cm.mishaps + Burning(view, actorId);
      }
    }

    // -------------------------------------------------------------- blocks

    /** `ipld::scan_for_reachable_links`: the gas that the scan used is charged, also if it failed; if it ran
        out, that is all there was. */
    method ScanLinks(codec: nat, data: seq<Byte>) returns (r: Result<seq<Cid>, ExecutionError>)
      requires Ready() && |data| <= U64_MAX
      modifies cm.gas`gasUsed
      ensures Ready() && old(cm.gas.gasUsed) <= cm.gas.gasUsed
      ensures r.Ok? ==> forall t :: CborScan.BlockHolds(cm.ctx.wire, codec, data, t) ==>
                          r.value == t.links && cm.gas.gasUsed == old(cm.gas.gasUsed) + CborScan.Cost(cm.ctx.prices.scan, t)
      ensures r.Ok? <==> exists t :: CborScan.BlockHolds(cm.ctx.wire, codec, data, t)
                                     && CborScan.Cost(cm.ctx.prices.scan, t) <= old(cm.gas.Available())
      ensures r.Err? ==> r.error != Fatal
      ensures r.Err? && r.error.Syscall? ==> forall t :: !CborScan.BlockHolds(cm.ctx.wire, codec, data, t)
      ensures r == Err(OutOfGas) ==> cm.gas.Available() == 0
      ensures Free(cm.ctx.prices) ==> (r.Ok? <==> exists t :: CborScan.BlockHolds(cm.ctx.wire, codec, data, t))
    {
      if Free(cm.ctx.prices) {
        forall t ensures CborScan.Cost(cm.ctx.prices.scan, t) == 0 {
          CborScan.CostsNothing(cm.ctx.prices.scan, t);
        }
      }
      var scanned, used := CborScan.ScanBlock(cm.ctx.wire, codec, data, cm.ctx.prices.scan, cm.gas.Available());
      var charged := cm.ChargeGas(used);
      r := if scanned.Ok? then Ok(scanned.value) else Err(FromScan(scanned.error));
    }

    /** Opens a block that is reachable. It is never missing. */
    method BlockOpen(cid: Cid) returns (r: Result<nat, ExecutionError>)
      requires Ready()
      modifies cm.gas`gasUsed, blocks
      ensures Ready() && cm.Frames(readOnly)
      ensures r.Ok? ==>
                && cid in old(blocks.reachable) && cid in cm.tree.store
                && 1 <= r.value == |blocks.blocks|
                && blocks.blocks[r.value - 1].codec == cid.codec
                && blocks.blocks[r.value - 1].data == cm.tree.store[cid]
                && blocks.blocks == old(blocks.blocks) + [blocks.blocks[r.value - 1]]
                && blocks.reachable == old(blocks.reachable) + LinkSet(blocks.blocks[r.value - 1].links)
                && HasLinks(cm.ctx.wire, cid.codec, cm.tree.store[cid], blocks.blocks[r.value - 1].links)
      ensures r.Err? ==> r.error != Fatal && blocks.blocks == old(blocks.blocks) && blocks.reachable == old(blocks.reachable)
      ensures cid !in old(blocks.reachable) ==> r.Err? && (r.error == OutOfGas || r.error == Syscall(ErrorNumber.NotFound))
      ensures r.Err? && r.error.Syscall? ==>
                !Openable(cm.ctx.wire, cid, cm.tree.store, old(blocks.reachable)) || old(blocks.IsFull())
      ensures Free(cm.ctx.prices) ==>
                (r.Ok? <==> Openable(cm.ctx.wire, cid, cm.tree.store, old(blocks.reachable)) && !old(blocks.IsFull()))
      ensures r.Ok? ==> var b := blocks.blocks[r.value - 1];
                        old(cm.gas.gasUsed) + cm.ctx.prices.onBlockOpenBase + cm.ctx.prices.onBlockOpen(|b.data|, |b.links|)
                        <= cm.gas.gasUsed
    {
      var charged := cm.ChargeGas(cm.ctx.prices.onBlockOpenBase);
      if charged.Err? {
        return Err(charged.error);
      }
      if cid !in blocks.reachable {
        return Err(Syscall(ErrorNumber.NotFound));
      }
      if cid !in cm.tree.store {
        return Err(Fatal);
      }
      r := OpenStored(cid);
    }

    method OpenStored(cid: Cid) returns (r: Result<nat, ExecutionError>)
      requires Ready() && cid in blocks.reachable && cid in cm.tree.store
      modifies cm.gas`gasUsed, blocks
      ensures Ready() && old(cm.gas.gasUsed) <= cm.gas.gasUsed
      ensures r.Ok? ==>
                && 1 <= r.value == |blocks.blocks|
                && var b := blocks.blocks[r.value - 1];
                   && b.codec == cid.codec && b.data == cm.tree.store[cid] && blocks.blocks == old(blocks.blocks) + [b]
                   && blocks.reachable == old(blocks.reachable) + LinkSet(b.links)
                   && HasLinks(cm.ctx.wire, cid.codec, cm.tree.store[cid], b.links)
                   && old(cm.gas.gasUsed) + cm.ctx.prices.onBlockOpen(|b.data|, |b.links|) <= cm.gas.gasUsed
      ensures r.Err? ==> r.error != Fatal && blocks.blocks == old(blocks.blocks) && blocks.reachable == old(blocks.reachable)
      ensures r.Err? && (r.error.Syscall? || Free(cm.ctx.prices)) ==>
                !Openable(cm.ctx.wire, cid, cm.tree.store, old(blocks.reachable)) || old(blocks.IsFull())
      ensures r.Ok? ==> Openable(cm.ctx.wire, cid, cm.tree.store, old(blocks.reachable)) && !old(blocks.IsFull())
    {
      var data := cm.tree.store[cid];
      var children := StoredLinks(cid);
      if children.Err? {
        return Err(children.error);
      }
      var charged := cm.ChargeGas(cm.ctx.prices.onBlockOpen(|data|, |children.value|));
      if charged.Err? {
        return Err(charged.error);
      }
      r := PutReachable(Block(cid.codec, data, children.value));
    }

    /** The links of a block in the store. */
    method StoredLinks(cid: Cid) returns (r: Result<seq<Cid>, ExecutionError>)
      requires Ready() && cid in blocks.reachable && cid in cm.tree.store
      modifies cm.gas`gasUsed
      ensures Ready() && old(cm.gas.gasUsed) <= cm.gas.gasUsed
      ensures r.Ok? ==> HasLinks(cm.ctx.wire, cid.codec, cm.tree.store[cid], r.value)
      ensures r.Ok? ==> BlockOk(cm.ctx.wire, Block(cid.codec, cm.tree.store[cid], r.value), cm.tree.store.Keys)
      ensures r.Ok? ==> Openable(cm.ctx.wire, cid, cm.tree.store, blocks.reachable)
      ensures r.Err? ==> r.error != Fatal
      ensures r.Err? && (r.error.Syscall? || Free(cm.ctx.prices)) ==> !Openable(cm.ctx.wire, cid, cm.tree.store, blocks.reachable)
    {
      r := ScanLinks(cid.codec, cm.tree.store[cid]);
      if r.Ok? {
        StoredOk(cm.ctx.wire, cm.tree.store, cid, r.value);
      }
    }

    /** Registers a block whose links are all there. */
    method PutReachable(b: Block) returns (r: Result<nat, ExecutionError>)
      requires Ready() && BlockOk(cm.ctx.wire, b, cm.tree.store.Keys)
      modifies blocks
      ensures Ready()
      ensures r.Ok? <==> !old(blocks.IsFull())
      ensures r.Ok? ==> blocks.blocks == old(blocks.blocks) + [b] && r.value == |blocks.blocks|
                        && blocks.reachable == old(blocks.reachable) + LinkSet(b.links)
      ensures r.Err? ==> r.error == Syscall(LimitExceeded) && blocks.blocks == old(blocks.blocks)
                         && blocks.reachable == old(blocks.reachable)
    {
      PutKeepsOk(cm.ctx.wire, blocks.blocks, blocks.reachable, b, cm.tree.store.Keys);
      r := blocks.PutInner(b, false);
    }

    /** Creates a block that links only to what is reachable. */
    method BlockCreate(codec: nat, data: seq<Byte>) returns (r: Result<nat, ExecutionError>)
      requires Ready()
      modifies cm.gas`gasUsed, blocks
      ensures Ready() && cm.Frames(readOnly)
      ensures |data| > cm.ctx.maxBlockSize ==> r == Err(Syscall(LimitExceeded))
      ensures r.Err? ==> r.error != Fatal && blocks.blocks == old(blocks.blocks)
      ensures blocks.reachable == old(blocks.reachable)
      ensures r.Ok? ==>
                && Allowed(codec) && 1 <= r.value == |blocks.blocks|
                && var b := blocks.blocks[r.value - 1];
                   && b.codec == codec && b.data == data && LinkSet(b.links) <= blocks.reachable
                   && HasLinks(cm.ctx.wire, codec, data, b.links)
      ensures r.Ok? ==> blocks.blocks == old(blocks.blocks) + [blocks.blocks[r.value - 1]]
      ensures Free(cm.ctx.prices) ==> (r.Ok? <==> Makeable(cm.ctx, codec, data, old(blocks.reachable)) && !old(blocks.IsFull()))
      ensures r.Err? && r.error.Syscall? ==> !Makeable(cm.ctx, codec, data, old(blocks.reachable)) || old(blocks.IsFull())
      ensures r.Ok? ==> old(cm.gas.gasUsed) + cm.ctx.prices.onBlockCreate(|data|, |blocks.blocks[r.value - 1].links|)
                        <= cm.gas.gasUsed
    {
      if |data| > cm.ctx.maxBlockSize {
        return Err(Syscall(LimitExceeded));
      }
      if !Allowed(codec) {
        return Err(Syscall(ErrorNumber.IllegalCodec));
      }
      r := ScanAndPut(codec, data);
    }

    /** The links of data that is to be a block. */
    method ReadLinks(codec: nat, data: seq<Byte>) returns (r: Result<seq<Cid>, ExecutionError>)
      requires Ready() && |data| <= cm.ctx.maxBlockSize && Allowed(codec)
      modifies cm.gas`gasUsed
      ensures Ready() && old(cm.gas.gasUsed) <= cm.gas.gasUsed
      ensures r.Ok? ==> HasLinks(cm.ctx.wire, codec, data, r.value)
      ensures r.Ok? ==> (Makeable(cm.ctx, codec, data, blocks.reachable) <==> LinkSet(r.value) <= blocks.reachable)
      ensures r.Err? ==> r.error != Fatal && (Free(cm.ctx.prices) ==> !Makeable(cm.ctx, codec, data, blocks.reachable))
      ensures r.Err? && r.error.Syscall? ==> !Makeable(cm.ctx, codec, data, blocks.reachable)
    {
      r := ScanLinks(codec, data);
      if r.Ok? {
        MakeableIff(cm.ctx, codec, data, blocks.reachable, r.value);
      }
    }

    method ScanAndPut(codec: nat, data: seq<Byte>) returns (r: Result<nat, ExecutionError>)
      requires Ready() && |data| <= cm.ctx.maxBlockSize && Allowed(codec)
      modifies cm.gas`gasUsed, blocks
      ensures Ready() && old(cm.gas.gasUsed) <= cm.gas.gasUsed && blocks.reachable == old(blocks.reachable)
      ensures r.Err? ==> r.error != Fatal && blocks.blocks == old(blocks.blocks)
      ensures r.Ok? ==>
                && 1 <= r.value == |blocks.blocks| && blocks.blocks == old(blocks.blocks) + [blocks.blocks[r.value - 1]]
                && var b := blocks.blocks[r.value - 1];
                   && b.codec == codec && b.data == data && LinkSet(b.links) <= blocks.reachable
                   && HasLinks(cm.ctx.wire, codec, data, b.links)
      ensures Free(cm.ctx.prices) ==> (r.Ok? <==> Makeable(cm.ctx, codec, data, old(blocks.reachable)) && !old(blocks.IsFull()))
      ensures r.Err? && r.error.Syscall? ==> !Makeable(cm.ctx, codec, data, old(blocks.reachable)) || old(blocks.IsFull())
      ensures r.Ok? ==> old(cm.gas.gasUsed) + cm.ctx.prices.onBlockCreate(|data|, |blocks.blocks[r.value - 1].links|)
                        <= cm.gas.gasUsed
    {
      var children := ReadLinks(codec, data);
      if children.Err? {
        return Err(children.error);
      }
      var charged := cm.ChargeGas(cm.ctx.prices.onBlockCreate(|data|, |children.value|));
      if charged.Err? {
        return Err(charged.error);
      }
      r := PutChecked(Block(codec, data, children.value));
    }

    /** Registers a block that was scanned, if all its links are reachable. */
    method PutChecked(b: Block) returns (r: Result<nat, ExecutionError>)
      requires Ready() && |b.data| < U64_MAX && HasLinks(cm.ctx.wire, b.codec, b.data, b.links)
      modifies blocks
      ensures Ready() && blocks.reachable == old(blocks.reachable)
      ensures r.Ok? ==> blocks.blocks == old(blocks.blocks) + [b] && r.value == |blocks.blocks| && LinkSet(b.links) <= blocks.reachable
      ensures r.Err? ==> r.error != Fatal && blocks.blocks == old(blocks.blocks)
      ensures r.Ok? <==> !old(blocks.IsFull()) && LinkSet(b.links) <= old(blocks.reachable)
    {
      if LinkSet(b.links) <= blocks.reachable {
        ScannedOk(cm.ctx.wire, b.codec, b.data, b.links, cm.tree.store.Keys);
        PutKeepsOk(cm.ctx.wire, blocks.blocks, blocks.reachable, b, cm.tree.store.Keys);
      }
      r := blocks.PutInner(b, true);
    }

    /** Writes an open block to the store under its CID. */
    method BlockLink(id: nat, hashFun: nat, hashLen: nat) returns (r: Result<Cid, ExecutionError>)
      requires Ready()
      modifies cm`tree, cm`written, cm.gas`gasUsed, blocks`reachable
      ensures Ready() && cm.Frames(readOnly)
      ensures r.Ok? ==>
                && 1 <= id <= |blocks.blocks| && hashFun == BLAKE2B_256 && hashLen == 32
                && var b := blocks.blocks[id - 1];
                   && r.value == cm.ctx.digest(b.codec, b.data)
                   && cm.tree == old(cm.tree).(store := old(cm.tree).store[r.value := b.data])
                   && blocks.reachable == old(blocks.reachable) + {r.value}
      ensures r.Err? ==> r.error != Fatal && cm.tree == old(cm.tree) && blocks.reachable == old(blocks.reachable)
      ensures Free(cm.ctx.prices) ==> (r.Ok? <==> 1 <= id <= |blocks.blocks| && hashFun == BLAKE2B_256 && hashLen == 32)
      ensures r.Err? && r.error.Syscall? ==> !(1 <= id <= |blocks.blocks| && hashFun == BLAKE2B_256 && hashLen == 32)
      ensures r.Ok? ==> old(cm.gas.gasUsed) + cm.ctx.prices.onBlockLink(|blocks.blocks[id - 1].data|) <= cm.gas.gasUsed
    {
      if hashFun != BLAKE2B_256 || hashLen != 32 {
        return Err(Syscall(IllegalCid));
      }
      var got := blocks.Get(id);
      if got.Err? {
        return Err(got.error);
      }
      var b := got.value;
      var charged := cm.ChargeGas(cm.ctx.prices.onBlockLink(|b.data|));
      if charged.Err? {
        return Err(charged.error);
      }
      var k := cm.ctx.digest(b.codec, b.data);
      StoreBlock(k, b);
      return Ok(k);
    }

    method StoreBlock(k: Cid, b: Block)
      requires Ready() && BlockOk(cm.ctx.wire, b, cm.tree.store.Keys) && k.codec == b.codec
      modifies cm`tree, cm`written, blocks`reachable
      ensures Ready() && cm.tree == old(cm.tree).(store := old(cm.tree).store[k := b.data])
      ensures blocks.reachable == old(blocks.reachable) + {k}
    {
      LinkOk(cm.ctx, cm.tree, k, b);
      OverlaidPut(cm.ctx.wire, cm.base, cm.written, cm.tree.store, k, b.data);
      cm.written := cm.written + {k};
      cm.tree := cm.tree.(store := cm.tree.store[k := b.data]);
      StillOk(cm.ctx.wire, blocks.blocks, blocks.reachable, old(cm.tree.store.Keys), cm.tree.store.Keys);
      blocks.MarkReachable(k);
    }

    // -------------------------------------------------------------- other actors, events

    /** Only the init actor may create actors. */
    method CreateActor(code: Cid, id: ActorID, delegated: Option<Address>) returns (r: Result<(), ExecutionError>)
      requires Ready()
      modifies cm`numActorsCreated, cm`tree, cm`access, cm.gas`gasUsed
      ensures Ready() && cm.Frames(readOnly)
      ensures actorId != INIT_ACTOR_ID ==> r == Err(Syscall(Forbidden))
      ensures actorId == INIT_ACTOR_ID && readOnly ==> r == Err(Syscall(ReadOnly))
      ensures r.Err? ==> cm.tree == old(cm.tree)
      ensures r.Ok? ==> Creatable(cm.ctx, old(cm.tree).view, code, id, delegated)
                        && cm.tree == old(cm.tree).(view := old(cm.tree).view[id := Created(cm.ctx, old(cm.tree).view, code, id, delegated)])
      ensures r.Ok? ==> cm.Wealth() == old(cm.Wealth())
      ensures Free(cm.ctx.prices) ==>
                (r.Ok? <==> actorId == INIT_ACTOR_ID && !readOnly && Creatable(cm.ctx, old(cm.tree).view, code, id, delegated))
      ensures r.Err? && r.error.Syscall? ==>
                !(actorId == INIT_ACTOR_ID && !readOnly && Creatable(cm.ctx, old(cm.tree).view, code, id, delegated))
    {
      if actorId != INIT_ACTOR_ID {
        return Err(Syscall(Forbidden));
      }
      if readOnly {
        return Err(Syscall(ReadOnly));
      }
      CreateConserves(cm.ctx, cm.tree.view, code, id, delegated);
      r := cm.CreateActor(code, id, delegated);
    }

    method ResolveAddress(addr: Address) returns (r: Result<ActorID, ExecutionError>)
      requires Ready()
      modifies cm`tree, cm`access, cm.gas`gasUsed
      ensures Ready() && cm.Frames(readOnly) && cm.tree == old(cm.tree).(resolved := cm.tree.resolved)
      ensures StateTree.Recalls(cm.ctx.codec, cm.tree.view, old(cm.tree).resolved, cm.tree.resolved)
      ensures r.Ok? ==> StateTree.IdOf(cm.ctx.codec, old(cm.tree).view, old(cm.tree).resolved, addr) == Some(r.value)
      ensures r.Err? && r.error.Syscall? ==>
                r.error.number == ErrorNumber.NotFound && StateTree.IdOf(cm.ctx.codec, old(cm.tree).view, old(cm.tree).resolved, addr).None?
      ensures r.Ok? ==> old(cm.gas.gasUsed) + cm.ctx.prices.onResolveAddress <= cm.gas.gasUsed
    {
      var charged := cm.ChargeGas(cm.ctx.prices.onResolveAddress);
      if charged.Err? {
        return Err(charged.error);
      }
      var got := cm.Locate(addr);
      if got.Err? {
        return Err(got.error);
      }
      if got.value.None? {
        return Err(Syscall(ErrorNumber.NotFound));
      }
      return Ok(got.value.value);
    }

    method BalanceOfActor(id: ActorID) returns (r: Result<TokenAmount, ExecutionError>)
      requires Ready()
      modifies cm`access, cm.gas`gasUsed
      ensures Ready() && cm.Frames(readOnly)
      ensures r.Ok? ==> id in cm.tree.view && r.value == cm.tree.view[id].balance
      ensures r.Err? ==> r.error == OutOfGas || (r.error == Syscall(ErrorNumber.NotFound) && id !in cm.tree.view)
      ensures r.Ok? ==> old(cm.gas.gasUsed) + cm.ctx.prices.onBalanceOf <= cm.gas.gasUsed
    {
      var charged := cm.ChargeGas(cm.ctx.prices.onBalanceOf);
      if charged.Err? {
        return Err(charged.error);
      }
      var got := cm.GetActor(id);
      if got.Err? {
        return Err(got.error);
      }
      if got.value.None? {
        return Err(Syscall(ErrorNumber.NotFound));
      }
      return Ok(got.value.value.balance);
    }

    /** Emits an event, if the buffers stand for entries. */
    method EmitEvent(headers: seq<Events.Header>, keys: seq<Byte>, values: seq<Byte>) returns (r: Result<(), ExecutionError>)
      requires Ready()
      modifies cm`events, cm.gas`gasUsed
      ensures Ready() && cm.Frames(readOnly)
      ensures readOnly ==> r == Err(Syscall(ReadOnly))
      ensures r.Ok? ==> exists es :: Events.Stands(headers, keys, values, es) && cm.events == old(cm.events) + [Event(actorId, es)]
      ensures r.Err? ==> cm.events == old(cm.events)
      ensures r.Err? && r.error.Syscall? && !readOnly ==> forall es :: !Events.Stands(headers, keys, values, es)
      ensures r.Ok? ==> cm.gas.gasUsed == old(cm.gas.gasUsed) + cm.ctx.prices.onActorEvent(|headers|, |keys|, |values|)
    {
      if readOnly {
        return Err(Syscall(ReadOnly));
      }
      r := cm.ChargeGas(cm.ctx.prices.onActorEvent(|headers|, |keys|, |values|));
      if r.Err? {
        return;
      }
      var entries := Events.ReadEntries(headers, keys, values);
      if entries.Err? {
        return Err(Syscall(entries.error));
      }
      cm.AppendEvent(Event(actorId, entries.value));
    }
  }

  /** A stored block's links are in the store. */
  lemma StoredOk(w: Wire, store: Blockstore, cid: Cid, links: seq<Cid>)
    requires Closed(w, store) && cid in store
    requires exists t :: CborScan.BlockHolds(w, cid.codec, store[cid], t)
    requires forall t :: CborScan.BlockHolds(w, cid.codec, store[cid], t) ==> links == t.links
    ensures BlockOk(w, Block(cid.codec, store[cid], links), store.Keys)
  {
    var t :| CborScan.BlockHolds(w, cid.codec, store[cid], t);
    assert LinksIn(w, cid.codec, store[cid], store.Keys);
  }

  lemma LinkOk(ctx: Context, t: StateTree.Tree, k: Cid, b: Block)
    requires ValidContext(ctx) && TreeOk(ctx, t) && BlockOk(ctx.wire, b, t.store.Keys) && k.codec == b.codec
    ensures TreeOk(ctx, t.(store := t.store[k := b.data]))
  {
    ClosedAdd(ctx.wire, t.store, k, b.data);
  }
}
