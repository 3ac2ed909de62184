/** Running actors: a tree of syscalls is interpreted over the call manager
    (`fvm/src/call_manager/default.rs`) and the kernel (`fvm/src/kernel/default.rs`).

    Every operation hands out a ghost log of what it did, which is one that `Semantics` gives the tree.
    What is kept by all runs follows from that, in `TreeLaws`. */
module Execution {
  import opened Common
  import opened BitStrings
  import opened CborGrammar
  import opened Actors
  import opened Blocks
  import opened CallManager
  import opened Kernel
  import opened SyscallTrees
  import opened Semantics
  import opened TreeLaws
  import AccessTracker
  import Events
  import StateTree
  import Gas

  /** What a send that runs no code does. */
  ghost predicate Sent(before: ActorMap, after: ActorMap, from: ActorID, to: ActorID, value: TokenAmount) {
    Paid(before, from, to, value) == Some(after)
  }

  /** The value, and nothing else, has moved. */
  lemma SentMoves(before: ActorMap, after: ActorMap, from: ActorID, to: ActorID, value: TokenAmount)
    requires Sent(before, after, from, to, value)
    ensures value == 0 ==> after == before
    ensures value != 0 ==> 0 < value <= BalanceOf(before, from) && Moved(before, after, from, to, value)
  {
    if value != 0 {
      TransferMoves(before, from, to, value);
    }
  }

  /** No syscall is run: a plain send, or code without any. */
  predicate Silent(entry: Entrypoint, callee: Invocation) {
    entry == Invoke(METHOD_SEND) || callee.calls == []
  }

  ghost predicate BlockOptOk(cm: CallManager, b: Option<Block>)
    reads cm
  {
    b.Some? ==> BlockOk(cm.ctx.wire, b.value, cm.tree.store.Keys)
  }

  ghost predicate ResultOk(cm: CallManager, r: Result<InvocationResult, ExecutionError>)
    reads cm
  {
    r.Ok? ==> BlockOptOk(cm, r.value.value)
  }

  ghost function Now(cm: CallManager): World
    reads cm
  {
    World(cm.tree.view, cm.tree.resolved, cm.tree.store, cm.events, cm.mishaps)
  }

  ghost function OnDesk(k: Kernel): Desk
    reads k.blocks
  {
    Desk(k.blocks.blocks, k.blocks.reachable)
  }

  ghost function SelfOf(k: Kernel): Self
    reads k.cm
  {
    Self(k.actorId, k.caller, k.readOnly, k.cm.actorCallStack)
  }

  twostate predicate Obeys(cm: CallManager, law: Law)
    reads cm
  {
    Lawful(law, cm.ctx.codec, old(Now(cm)), Now(cm))
  }

  /** Under both laws, from actors with fresh IDs, the balances add up to what they did before. */
  twostate predicate Conserves(cm: CallManager, law: Law)
    reads cm
  {
    law.burnt && law.init && Begins(law, cm.ctx.codec, old(PointOf(Now(cm)))) ==>
      && Total(cm.tree.view) == Total(old(cm.tree.view))
      && cm.mishaps == old(cm.mishaps) && Begins(law, cm.ctx.codec, PointOf(Now(cm)))
  }

  // ---------------------------------------------------------------- one actor

  /** Runs an actor's syscalls in order. A syscall error is handed to the actor, which goes on. A run that
      ends is one that the semantics gives its tree, so its balances add up and it abides by every law that
      the tree is tame under. */
  method Run(k: Kernel, inv: Invocation) returns (r: Result<(), ExecutionError>, ghost log: RunLog)
    requires k.Ready()
    modifies k.cm, k.cm.gas, k.blocks
    ensures k.Ready() && k.cm.Frames(k.readOnly)
    ensures r.Ok? ==> Runs(k.cm.ctx, old(SelfOf(k)), inv, old(Now(k.cm)), old(OnDesk(k)), log)
                      && WorldOf(log) == Now(k.cm) && DeskOf(log) == OnDesk(k)
    ensures r.Ok? ==> k.cm.Wealth() == old(k.cm.Wealth())
    ensures r.Ok? ==> forall law :: TameRun(law, inv, Known(k.actorId)) ==> Obeys(k.cm, law)
    ensures !k.readOnly && Free(k.cm.ctx.prices) && Played(old(k.cm.tree.view), k.actorId, inv).Some? ==>
              r.Ok? && k.cm.tree.view == Played(old(k.cm.tree.view), k.actorId, inv).value
    decreases inv, 2
  {
    ghost var me, w, d := SelfOf(k), Now(k.cm), OnDesk(k);
    var last;
    last, log := RunCalls(k, inv);
    if !Settled(last) {
      return Err(last.error), log;
    }
    r := Ok(());
    RunsLaws(k.cm.ctx, me, inv, w, d, log);
  }

  /** The loop, and how its last syscall ended. */
  method RunCalls(k: Kernel, inv: Invocation) returns (last: Result<(), ExecutionError>, ghost log: RunLog)
    requires k.Ready()
    modifies k.cm, k.cm.gas, k.blocks
    ensures k.Ready() && k.cm.Frames(k.readOnly)
    ensures Reached(k, inv, |inv.calls|, old(SelfOf(k)), old(Now(k.cm)), old(OnDesk(k)), log, last)
    decreases inv, 1
  {
    ghost var me, w, d := SelfOf(k), Now(k.cm), OnDesk(k);
    log := Begun(w, d);
    last := Ok(());
    var i := 0;
    while i < |inv.calls| && Settled(last)
      invariant i <= |inv.calls|
      invariant k.Ready() && k.cm.Frames(k.readOnly)
      invariant Reached(k, inv, i, me, w, d, log, last)
    {
      last, log := StepOn(k, inv, i, me, w, d, log, last);
      i := i + 1;
    }
  }

  /** A run that began as `me`, in `w`, with `d`, is at its syscall `i`. */
  ghost predicate Reached(k: Kernel, inv: Invocation, i: nat, me: Self, w: World, d: Desk, log: RunLog,
                          r: Result<(), ExecutionError>)
    requires i <= |inv.calls|
    reads k.cm, k.blocks
  {
    && (Settled(r) ==> RanTo(k.cm.ctx, me, inv, i, w, d, log) && WorldOf(log) == Now(k.cm) && DeskOf(log) == OnDesk(k))
    && OnScript(k.cm.ctx.prices, me, inv, i, w.view, k.cm.tree.view, r)
  }

  /** A run that can be told in advance, and costs nothing, is where it was told to be. */
  ghost predicate OnScript(p: PriceList, me: Self, inv: Invocation, i: nat, was: ActorMap, view: ActorMap,
                           r: Result<(), ExecutionError>)
  {
    !me.readOnly && Free(p) && Played(was, me.id, inv).Some? ==>
      Settled(r) && view == if i == 0 then was else Played(was, me.id, inv).value
  }

  /** The next syscall of a run that began as `me`, in `w`, with `d`. */
  method StepOn(k: Kernel, inv: Invocation, i: nat, ghost me: Self, ghost w: World, ghost d: Desk, ghost log: RunLog,
                ghost last: Result<(), ExecutionError>)
    returns (r: Result<(), ExecutionError>, ghost log': RunLog)
    requires k.Ready() && i < |inv.calls| && me == SelfOf(k)
    requires Settled(last) && Reached(k, inv, i, me, w, d, log, last)
    modifies k.cm, k.cm.gas, k.blocks
    ensures k.Ready() && k.cm.Frames(k.readOnly)
    ensures Reached(k, inv, i + 1, me, w, d, log', r)
    decreases inv, 0
  {
    ghost var told := !k.readOnly && Free(k.cm.ctx.prices) && Played(w.view, k.actorId, inv).Some?;
    if told {
      PlayedOnce(w.view, k.actorId, inv);
    }
    ghost var done;
    r, done := Step(k, inv.calls[i]);
    log' := Then(log, done);
  }

  /** One syscall. */
  method Step(k: Kernel, call: Call) returns (r: Result<(), ExecutionError>, ghost done: Done)
    requires k.Ready()
    modifies k.cm, k.cm.gas, k.blocks
    ensures k.Ready() && k.cm.Frames(k.readOnly)
    ensures done.outcome == r && done.world == Now(k.cm) && done.desk == OnDesk(k)
    ensures Settled(r) ==> Steps(k.cm.ctx, old(SelfOf(k)), call, old(Now(k.cm)), old(OnDesk(k)), done)
    ensures Settled(r) ==> k.cm.Wealth() == old(k.cm.Wealth())
    ensures Settled(r) ==> forall law :: TameCall(law, call, Known(k.actorId)) ==> Obeys(k.cm, law)
    ensures call.Execute? && r.Ok? ==> k.cm.gas.gasUsed == old(k.cm.gas.gasUsed) + call.cost
    ensures call == Destruct(true) && !k.readOnly && Free(k.cm.ctx.prices) && CanBurn(old(k.cm.tree.view), k.actorId) ==>
              r.Ok? && k.cm.tree.view == Destroyed(old(k.cm.tree.view), k.actorId)
    decreases call, 3
  {
    ghost var me, w, d := SelfOf(k), Now(k.cm), OnDesk(k);
    r, done := StepInto(k, call);
    if Settled(r) {
      StepsLaws(k.cm.ctx, me, call, w, d, done);
    }
  }

  method StepInto(k: Kernel, call: Call) returns (r: Result<(), ExecutionError>, ghost done: Done)
    requires k.Ready()
    modifies k.cm, k.cm.gas, k.blocks
    ensures k.Ready() && k.cm.Frames(k.readOnly)
    ensures done.outcome == r && done.world == Now(k.cm) && done.desk == OnDesk(k)
    ensures Settled(r) ==> Steps(k.cm.ctx, old(SelfOf(k)), call, old(Now(k.cm)), old(OnDesk(k)), done)
    ensures call.Execute? && r.Ok? ==> k.cm.gas.gasUsed == old(k.cm.gas.gasUsed) + call.cost
    ensures call == Destruct(true) && !k.readOnly && Free(k.cm.ctx.prices) && CanBurn(old(k.cm.tree.view), k.actorId) ==>
              r.Ok? && k.cm.tree.view == Destroyed(old(k.cm.tree.view), k.actorId)
    decreases call, 2
  {
    if call.Send? {
      r, done := SendMessage(k, call);
    } else if call.Upgrade? {
      r, done := UpgradeActor(k, call);
    } else {
      r := LeafStep(k, call);
      done := Done(r, Now(k.cm), OnDesk(k), None);
    }
  }

  /** A syscall that runs no other actor. */
  method LeafStep(k: Kernel, call: Call) returns (r: Result<(), ExecutionError>)
    requires k.Ready() && !call.Send? && !call.Upgrade?
    modifies k.cm, k.cm.gas, k.blocks
    ensures k.Ready() && k.cm.Frames(k.readOnly)
    ensures Settled(r) ==> Leaf(k.cm.ctx, old(SelfOf(k)), call, old(Now(k.cm)), old(OnDesk(k)), r, Now(k.cm), OnDesk(k))
    ensures call.Execute? && r.Ok? ==> k.cm.gas.gasUsed == old(k.cm.gas.gasUsed) + call.cost
    ensures call == Destruct(true) && !k.readOnly && Free(k.cm.ctx.prices) && CanBurn(old(k.cm.tree.view), k.actorId) ==>
              r.Ok? && k.cm.tree.view == Destroyed(old(k.cm.tree.view), k.actorId)
  {
    match call {
      case GetRoot => r := GetRootStep(k);
      case PutRoot(root) => r := RootStep(k, root);
      case Destruct(burn) => r := DestructStep(k, burn);
      case Open(cid) => r := OpenStep(k, cid);
      case Create(codec, data) => r := MakeStep(k, codec, data);
      case LinkBlock(id, fun, len) => r := LinkStep(k, id, fun, len);
      case NewActor(code, id, delegated) => r := CreateStep(k, code, id, delegated);
      case Resolve(addr) => r := ResolveStep(k, addr);
      case Emit(headers, keys, values) => r := EmitStep(k, headers, keys, values);
      case OwnBalance => r := OwnBalanceStep(k);
      case Balance(actor) => r := BalanceStep(k, actor);
      case Execute(cost) => r := ExecuteStep(k, cost);
    }
  }

  method GetRootStep(k: Kernel) returns (r: Result<(), ExecutionError>)
    requires k.Ready()
    modifies k.cm, k.cm.gas, k.blocks
    ensures k.Ready() && k.cm.Frames(k.readOnly)
    ensures Settled(r) ==> Leaf(k.cm.ctx, old(SelfOf(k)), GetRoot, old(Now(k.cm)), old(OnDesk(k)), r, Now(k.cm), OnDesk(k))
  {
    var x := k.Root();
    r := Outcome(x);
  }

  method RootStep(k: Kernel, root: Cid) returns (r: Result<(), ExecutionError>)
    requires k.Ready()
    modifies k.cm, k.cm.gas, k.blocks
    ensures k.Ready() && k.cm.Frames(k.readOnly)
    ensures Settled(r) ==> Leaf(k.cm.ctx, old(SelfOf(k)), PutRoot(root), old(Now(k.cm)), old(OnDesk(k)), r, Now(k.cm), OnDesk(k))
  {
    r := k.SetRoot(root);
  }

  method DestructStep(k: Kernel, burnUnspent: bool) returns (r: Result<(), ExecutionError>)
    requires k.Ready()
    modifies k.cm, k.cm.gas, k.blocks
    ensures k.Ready() && k.cm.Frames(k.readOnly)
    ensures Settled(r) ==> Leaf(k.cm.ctx, old(SelfOf(k)), Destruct(burnUnspent), old(Now(k.cm)), old(OnDesk(k)), r, Now(k.cm), OnDesk(k))
    ensures burnUnspent && !k.readOnly && Free(k.cm.ctx.prices) && CanBurn(old(k.cm.tree.view), k.actorId) ==>
              r.Ok? && k.cm.tree.view == Destroyed(old(k.cm.tree.view), k.actorId)
  {
    r := k.SelfDestruct(burnUnspent);
  }

  method OpenStep(k: Kernel, cid: Cid) returns (r: Result<(), ExecutionError>)
    requires k.Ready()
    modifies k.cm, k.cm.gas, k.blocks
    ensures k.Ready() && k.cm.Frames(k.readOnly)
    ensures Settled(r) ==> Leaf(k.cm.ctx, old(SelfOf(k)), Open(cid), old(Now(k.cm)), old(OnDesk(k)), r, Now(k.cm), OnDesk(k))
  {
    var x := k.BlockOpen(cid);
    r := Outcome(x);
  }

  method MakeStep(k: Kernel, codec: nat, data: seq<Byte>) returns (r: Result<(), ExecutionError>)
    requires k.Ready()
    modifies k.cm, k.cm.gas, k.blocks
    ensures k.Ready() && k.cm.Frames(k.readOnly)
    ensures Settled(r) ==> Leaf(k.cm.ctx, old(SelfOf(k)), Create(codec, data), old(Now(k.cm)), old(OnDesk(k)), r, Now(k.cm), OnDesk(k))
  {
    var x := k.BlockCreate(codec, data);
    r := Outcome(x);
  }

  method LinkStep(k: Kernel, id: nat, hashFun: nat, hashLen: nat) returns (r: Result<(), ExecutionError>)
    requires k.Ready()
    modifies k.cm, k.cm.gas, k.blocks
    ensures k.Ready() && k.cm.Frames(k.readOnly)
    ensures Settled(r) ==> Leaf(k.cm.ctx, old(SelfOf(k)), LinkBlock(id, hashFun, hashLen), old(Now(k.cm)), old(OnDesk(k)), r, Now(k.cm), OnDesk(k))
  {
    var x := k.BlockLink(id, hashFun, hashLen);
    r := Outcome(x);
  }

  method CreateStep(k: Kernel, code: Cid, id: ActorID, delegated: Option<Address>) returns (r: Result<(), ExecutionError>)
    requires k.Ready()
    modifies k.cm, k.cm.gas, k.blocks
    ensures k.Ready() && k.cm.Frames(k.readOnly)
    ensures Settled(r) ==> Leaf(k.cm.ctx, old(SelfOf(k)), NewActor(code, id, delegated), old(Now(k.cm)), old(OnDesk(k)), r, Now(k.cm), OnDesk(k))
  {
    r := k.CreateActor(code, id, delegated);
  }

  method ResolveStep(k: Kernel, addr: Address) returns (r: Result<(), ExecutionError>)
    requires k.Ready()
    modifies k.cm, k.cm.gas, k.blocks
    ensures k.Ready() && k.cm.Frames(k.readOnly)
    ensures Settled(r) ==> Leaf(k.cm.ctx, old(SelfOf(k)), Resolve(addr), old(Now(k.cm)), old(OnDesk(k)), r, Now(k.cm), OnDesk(k))
  {
    var x := k.ResolveAddress(addr);
    r := Outcome(x);
  }

  method EmitStep(k: Kernel, headers: seq<Events.Header>, keys: seq<Byte>, values: seq<Byte>) returns (r: Result<(), ExecutionError>)
    requires k.Ready()
    modifies k.cm, k.cm.gas, k.blocks
    ensures k.Ready() && k.cm.Frames(k.readOnly)
    ensures Settled(r) ==> Leaf(k.cm.ctx, old(SelfOf(k)), Emit(headers, keys, values), old(Now(k.cm)), old(OnDesk(k)), r, Now(k.cm), OnDesk(k))
  {
    r := k.EmitEvent(headers, keys, values);
  }

  method OwnBalanceStep(k: Kernel) returns (r: Result<(), ExecutionError>)
    requires k.Ready()
    modifies k.cm, k.cm.gas, k.blocks
    ensures k.Ready() && k.cm.Frames(k.readOnly)
    ensures Settled(r) ==> Leaf(k.cm.ctx, old(SelfOf(k)), OwnBalance, old(Now(k.cm)), old(OnDesk(k)), r, Now(k.cm), OnDesk(k))
  {
    var x := k.CurrentBalance();
    r := Outcome(x);
  }

  method BalanceStep(k: Kernel, actor: ActorID) returns (r: Result<(), ExecutionError>)
    requires k.Ready()
    modifies k.cm, k.cm.gas, k.blocks
    ensures k.Ready() && k.cm.Frames(k.readOnly)
    ensures Settled(r) ==> Leaf(k.cm.ctx, old(SelfOf(k)), Balance(actor), old(Now(k.cm)), old(OnDesk(k)), r, Now(k.cm), OnDesk(k))
  {
    var x := k.BalanceOfActor(actor);
    r := Outcome(x);
  }

  method ExecuteStep(k: Kernel, cost: nat) returns (r: Result<(), ExecutionError>)
    requires k.Ready()
    modifies k.cm, k.cm.gas, k.blocks
    ensures k.Ready() && k.cm.Frames(k.readOnly)
    ensures Settled(r) ==> Leaf(k.cm.ctx, old(SelfOf(k)), Execute(cost), old(Now(k.cm)), old(OnDesk(k)), r, Now(k.cm), OnDesk(k))
    ensures r.Ok? ==> k.cm.gas.gasUsed == old(k.cm.gas.gasUsed) + cost
  {
    r := k.cm.ChargeGas(cost);
  }

  method GetParams(k: Kernel, id: nat) returns (r: Result<Option<Block>, ExecutionError>)
    requires k.Ready()
    ensures r.Ok? <==> id <= |k.blocks.blocks|
    ensures r.Ok? ==> BlockOptOk(k.cm, r.value)
    ensures r.Ok? ==> r.value == Opened(OnDesk(k), id)
    ensures r.Err? ==> r.error == Syscall(InvalidHandle)
  {
    if id == NO_DATA_BLOCK_ID {
      return Ok(None);
    }
    var got := k.blocks.Get(id);
    return if got.Ok? then Ok(Some(got.value)) else Err(got.error);
  }

  /** `send`: calls another actor in a transaction of its own. */
  method SendMessage(k: Kernel, call: Call) returns (r: Result<(), ExecutionError>, ghost done: Done)
    requires k.Ready() && call.Send?
    modifies k.cm, k.cm.gas, k.blocks
    ensures k.Ready() && k.cm.Frames(k.readOnly || call.readOnlyFlag)
    ensures done.outcome == r && done.world == Now(k.cm) && done.desk == OnDesk(k)
    ensures Settled(r) ==> Steps(k.cm.ctx, old(SelfOf(k)), call, old(Now(k.cm)), old(OnDesk(k)), done)
    ensures (k.readOnly || call.readOnlyFlag) && call.value != 0 ==> r == Err(Syscall(ReadOnly))
    decreases call, 1
  {
    var readOnly := k.readOnly || call.readOnlyFlag;
    if readOnly && call.value != 0 {
      r := Err(Syscall(ReadOnly));
      done := Done(r, Now(k.cm), OnDesk(k), None);
      return;
    }
    var params := GetParams(k, call.params);
    if params.Err? {
      r := Err(params.error);
      done := Done(r, Now(k.cm), OnDesk(k), None);
      return;
    }
    if k.blocks.IsFull() {
      r := Err(Syscall(LimitExceeded));
      done := Done(r, Now(k.cm), OnDesk(k), None);
      return;
    }
    r, done := TrySend(k, call, params.value);
  }

  /** The call itself, and the block that it returns. */
  method TrySend(k: Kernel, call: Call, params: Option<Block>) returns (r: Result<(), ExecutionError>, ghost done: Done)
    requires k.Ready() && call.Send? && !((k.readOnly || call.readOnlyFlag) && call.value != 0)
    requires call.params <= |k.blocks.blocks| && params == Opened(OnDesk(k), call.params) && BlockOptOk(k.cm, params)
    requires !k.blocks.IsFull()
    modifies k.cm, k.cm.gas, k.blocks
    ensures k.Ready() && k.cm.Frames(k.readOnly || call.readOnlyFlag)
    ensures done.outcome == r && done.world == Now(k.cm) && done.desk == OnDesk(k) && done.call.Some?
    ensures Sends(k.cm.ctx, old(SelfOf(k)), call, old(Now(k.cm)), old(OnDesk(k)), done, done.call.value)
    decreases call, 0
  {
    var result;
    ghost var log;
    result, log := TransactCall(k.cm, k.actorId, call.to, Invoke(call.methodNum), params, call.value,
                                call.gasLimit, k.readOnly || call.readOnlyFlag, call.target);
    k.StillReady();
    r := StoreReturn(k, result);
    done := Done(r, Now(k.cm), OnDesk(k), Some(log));
  }

  /** Registers the block that a callee returned. There is room for it. */
  method StoreReturn(k: Kernel, result: Result<InvocationResult, ExecutionError>) returns (r: Result<(), ExecutionError>)
    requires k.Ready() && ResultOk(k.cm, result) && !k.blocks.IsFull()
    modifies k.blocks
    ensures k.Ready()
    ensures r == Outcome(result)
    ensures OnDesk(k) == Received(old(OnDesk(k)), result)
    ensures k.blocks.blocks == old(k.blocks.blocks)
                               + (if result.Ok? && result.value.value.Some? then [result.value.value.value] else [])
  {
    if result.Err? {
      return Err(result.error);
    }
    if result.value.value.Some? {
      var id := k.PutReachable(result.value.value.value);
      if id.Err? {
        return Err(Fatal);
      }
    }
    return Ok(());
  }

  // ---------------------------------------------------------------- transactions around calls

  /** `with_transaction` around `call_actor`. A call that succeeds does what the semantics says, and
      anything else leaves actors, resolutions, events and access charges as they were. So whatever happens
      inside, balances and losses add up to what they were, and a tame tree loses nothing. */
  method TransactCall(cm: CallManager, from: ActorID, to: Address, entry: Entrypoint, params: Option<Block>,
                      value: TokenAmount, gasLimit: Option<nat>, readOnly: bool, target: Target)
    returns (r: Result<InvocationResult, ExecutionError>, ghost log: CallLog)
    requires cm.Sound() && BlockOptOk(cm, params) && (readOnly ==> value == 0)
    modifies cm, cm.gas
    ensures cm.Sound() && cm.Frames(readOnly) && ResultOk(cm, r) && log.result == r
    ensures Success(r) ==>
              && Calls(cm.ctx, from, to, entry, params, value, readOnly, old(cm.actorCallStack), target, old(Now(cm)), log)
              && WorldOf(log.ran) == Now(cm)
    ensures !Success(r) ==> Reverted(cm)
    ensures cm.Wealth() == old(cm.Wealth())
    ensures forall law :: TameTarget(law, target, Receiver(to)) ==> Obeys(cm, law) && Conserves(cm, law)
    ensures Success(r) && Silent(entry, target.callee) && to.IdAddress? ==> Sent(old(cm.tree).view, cm.tree.view, from, to.id, value)
    ensures !readOnly && old(cm.callStackDepth) < cm.ctx.maxCallDepth && EntryCode(entry, target.callee) == OK ==>
              AsTold(cm.ctx.prices, Sequel(cm.ctx, old(cm.tree).view, old(cm.tree).resolved, from, to, entry, value, target), OK, r, cm.tree.view)
    decreases target, 8
  {
    ghost var stack, w := cm.actorCallStack, Now(cm);
    r, log := CallAndConclude(cm, from, to, entry, params, value, gasLimit, readOnly, target);
    if Success(r) {
      CallsLaws(cm.ctx, from, to, entry, params, value, readOnly, stack, target, w, log);
      CallsSilent(cm.ctx, from, to, entry, params, value, readOnly, stack, target, w, log);
    } else {
      RevertedLaws(cm.ctx, target, to, w, Now(cm));
    }
  }

  /** The transaction, without what follows from it. */
  method CallAndConclude(cm: CallManager, from: ActorID, to: Address, entry: Entrypoint, params: Option<Block>,
                         value: TokenAmount, gasLimit: Option<nat>, readOnly: bool, target: Target)
    returns (r: Result<InvocationResult, ExecutionError>, ghost log: CallLog)
    requires cm.Sound() && BlockOptOk(cm, params) && (readOnly ==> value == 0)
    modifies cm, cm.gas
    ensures cm.Sound() && cm.Frames(readOnly) && ResultOk(cm, r) && log.result == r
    ensures Success(r) ==>
              && Calls(cm.ctx, from, to, entry, params, value, readOnly, old(cm.actorCallStack), target, old(Now(cm)), log)
              && WorldOf(log.ran) == Now(cm)
    ensures !Success(r) ==> Reverted(cm)
    ensures !readOnly && old(cm.callStackDepth) < cm.ctx.maxCallDepth && EntryCode(entry, target.callee) == OK ==>
              AsTold(cm.ctx.prices, Sequel(cm.ctx, old(cm.tree).view, old(cm.tree).resolved, from, to, entry, value, target), OK, r, cm.tree.view)
    decreases target, 7
  {
    ghost var start := Start(cm.tree, cm.access, cm.events, cm.mishaps, cm.idxs);
    r, log := BeginCall(cm, from, to, entry, params, value, gasLimit, readOnly, target);
    var ended := Conclude(cm, Success(r), start);
    if ended.Err? {
      r := Err(Fatal);
    }
    log := log.(result := r);
  }

  /** The call, in a transaction that is still open. */
  method BeginCall(cm: CallManager, from: ActorID, to: Address, entry: Entrypoint, params: Option<Block>,
                   value: TokenAmount, gasLimit: Option<nat>, readOnly: bool, target: Target)
    returns (r: Result<InvocationResult, ExecutionError>, ghost log: CallLog)
    requires cm.Sound() && BlockOptOk(cm, params) && (readOnly ==> value == 0)
    modifies cm, cm.gas
    ensures cm.Sound() && cm.Level() && ResultOk(cm, r) && (Success(r) ==> log.result == r)
    ensures Began(cm, Start(old(cm.tree), old(cm.access), old(cm.events), old(cm.mishaps), old(cm.idxs)))
    ensures readOnly ==> cm.tree.view == old(cm.tree.view) && cm.events == old(cm.events)
    ensures Success(r) ==>
              && Calls(cm.ctx, from, to, entry, params, value, readOnly, old(cm.actorCallStack), target, old(Now(cm)), log)
              && WorldOf(log.ran) == Now(cm)
    ensures !readOnly && old(cm.callStackDepth) < cm.ctx.maxCallDepth ==>
              AsTold(cm.ctx.prices, Sequel(cm.ctx, old(cm.tree).view, old(cm.tree).resolved, from, to, entry, value, target),
                     EntryCode(entry, target.callee), r, cm.tree.view)
    decreases target, 6
  {
    cm.BeginTransaction();
    r, log := CallActor(cm, from, to, entry, params, value, gasLimit, readOnly, target);
  }

  // ---------------------------------------------------------------- what follows from a log

  lemma RunsLaws(ctx: Context, me: Self, inv: Invocation, w: World, d: Desk, log: RunLog)
    requires ValidCodec(ctx.codec) && Runs(ctx, me, inv, w, d, log)
    ensures Balanced(w, WorldOf(log))
    ensures forall law :: TameRun(law, inv, Known(me.id)) ==> Lawful(law, ctx.codec, w, WorldOf(log))
  {
    RunsLaw(Law(false, false, false, 0), ctx, me, inv, w, d, log);
    forall law | TameRun(law, inv, Known(me.id)) ensures Lawful(law, ctx.codec, w, WorldOf(log)) {
      RunsLaw(law, ctx, me, inv, w, d, log);
    }
  }

  lemma StepsLaws(ctx: Context, me: Self, call: Call, w: World, d: Desk, done: Done)
    requires ValidCodec(ctx.codec) && Steps(ctx, me, call, w, d, done)
    ensures Balanced(w, done.world)
    ensures forall law :: TameCall(law, call, Known(me.id)) ==> Lawful(law, ctx.codec, w, done.world)
  {
    StepsLaw(Law(false, false, false, 0), ctx, me, call, w, d, done);
    forall law | TameCall(law, call, Known(me.id)) ensures Lawful(law, ctx.codec, w, done.world) {
      StepsLaw(law, ctx, me, call, w, d, done);
    }
  }

  lemma CallsLaws(ctx: Context, from: ActorID, to: Address, entry: Entrypoint, params: Option<Block>, value: TokenAmount,
                  readOnly: bool, stack: seq<Frame>, target: Target, w: World, log: CallLog)
    requires ValidCodec(ctx.codec) && Calls(ctx, from, to, entry, params, value, readOnly, stack, target, w, log)
    ensures Balanced(w, WorldOf(log.ran))
    ensures forall law :: TameTarget(law, target, Receiver(to)) ==>
              Lawful(law, ctx.codec, w, WorldOf(log.ran)) && Keeps(law, ctx.codec, w, WorldOf(log.ran))
  {
    CallsLaw(Law(false, false, false, 0), ctx, from, to, entry, params, value, readOnly, stack, target, w, log);
    forall law | TameTarget(law, target, Receiver(to))
      ensures Lawful(law, ctx.codec, w, WorldOf(log.ran)) && Keeps(law, ctx.codec, w, WorldOf(log.ran))
    {
      CallsLaw(law, ctx, from, to, entry, params, value, readOnly, stack, target, w, log);
      LawfulKeeps(law, ctx.codec, w, WorldOf(log.ran));
    }
  }

  lemma RevertedLaws(ctx: Context, target: Target, to: Address, w: World, w': World)
    requires w' == w.(store := w'.store)
    ensures Balanced(w, w')
    ensures forall law :: TameTarget(law, target, Receiver(to)) ==> Lawful(law, ctx.codec, w, w') && Keeps(law, ctx.codec, w, w')
  {
    forall law | TameTarget(law, target, Receiver(to)) ensures Lawful(law, ctx.codec, w, w') && Keeps(law, ctx.codec, w, w') {
      SameIsLawful(law, ctx.codec, w, w');
      LawfulKeeps(law, ctx.codec, w, w');
    }
  }

  /** Without any syscall, a call is just the payment. */
  lemma CallsSilent(ctx: Context, from: ActorID, to: Address, entry: Entrypoint, params: Option<Block>, value: TokenAmount,
                    readOnly: bool, stack: seq<Frame>, target: Target, w: World, log: CallLog)
    requires Calls(ctx, from, to, entry, params, value, readOnly, stack, target, w, log)
    ensures Silent(entry, target.callee) && to.IdAddress? ==> Sent(w.view, WorldOf(log.ran).view, from, to.id, value)
  {
    if to.IdAddress? {
      assert log.receiver == to.id && log.arrived.view == w.view;
      EntersSilent(ctx, from, to.id, entry, params, value, readOnly, stack + [Frame(log.receiver, EntryNameOf(entry))],
                   target.callee, log.arrived, log.paid, log.ran, log.result);
    }
  }

  lemma EntersSilent(ctx: Context, from: ActorID, to: ActorID, entry: Entrypoint, params: Option<Block>, value: TokenAmount,
                     readOnly: bool, stack: seq<Frame>, callee: Invocation, w: World, paid: World, ran: RunLog,
                     result: Result<InvocationResult, ExecutionError>)
    requires Enters(ctx, from, to, entry, params, value, readOnly, stack, callee, w, paid, ran, result)
    ensures Silent(entry, callee) ==> Sent(w.view, WorldOf(ran).view, from, to, value)
  {
    if entry != Invoke(METHOD_SEND) && callee.calls == [] {
      assert RanTo(ctx, Self(to, from, readOnly, stack), callee, 0, paid, DeskFor(ctx, entry, params), ran);
    }
  }

  /** Whatever is called, the executing actor pays the receiver the value, and no more, before it runs. */
  lemma SenderPays(ctx: Context, me: Self, call: Call, w: World, d: Desk, done: Done)
    requires call.Send? && Steps(ctx, me, call, w, d, done) && done.call.Some? && Success(done.call.value.result)
    ensures var log := done.call.value;
            && log.receiver in log.arrived.view
            && (call.value == 0 ==> log.paid == log.arrived)
            && (call.value != 0 ==> Moved(log.arrived.view, log.paid.view, me.id, log.receiver, call.value))
  {
    var log := done.call.value;
    assert Calls(ctx, me.id, call.to, Invoke(call.methodNum), Opened(d, call.params), call.value, me.readOnly || call.readOnlyFlag,
                 me.stack, call.target, w, log);
    assert Enters(ctx, me.id, log.receiver, Invoke(call.methodNum), Opened(d, call.params), call.value, me.readOnly || call.readOnlyFlag,
                  me.stack + [Frame(log.receiver, EntryNameOf(Invoke(call.methodNum)))], call.target.callee, log.arrived, log.paid,
                  log.ran, log.result);
    SentMoves(log.arrived.view, log.paid.view, me.id, log.receiver, call.value);
  }

  /** A plain send to an ID moves exactly the value, or changes no actor. */
  lemma PlainSend(ctx: Context, me: Self, call: Call, w: World, d: Desk, done: Done)
    requires call.Send? && call.methodNum == METHOD_SEND && call.to.IdAddress? && Steps(ctx, me, call, w, d, done)
    ensures if done.call.Some? && Success(done.call.value.result)
            then Sent(w.view, done.world.view, me.id, call.to.id, call.value)
            else done.world.view == w.view
  {
    if done.call.Some? && Success(done.call.value.result) {
      CallsSilent(ctx, me.id, call.to, Invoke(call.methodNum), Opened(d, call.params), call.value, me.readOnly || call.readOnlyFlag,
                  me.stack, call.target, w, done.call.value);
    }
  }

  /** What there was when a transaction began. */
  datatype Start = Start(tree: StateTree.Tree, access: AccessTracker.Tracked, events: seq<Event>, mishaps: seq<Mishap>,
                         idxs: seq<nat>)

  ghost predicate Began(cm: CallManager, s: Start)
    reads cm
  {
    && cm.tree.saved == StateTree.Begin(s.tree).saved && cm.access.saved == AccessTracker.Begin(s.access).saved
    && cm.idxs == s.idxs + [|s.events|] && s.events <= cm.events && s.mishaps <= cm.mishaps
  }

  /** Ends the transaction; a failed one has no mishaps either. */
  method Conclude(cm: CallManager, success: bool, ghost s: Start) returns (r: Result<(), ExecutionError>)
    requires cm.Sound() && Began(cm, s)
    modifies cm`tree, cm`access, cm`events, cm`idxs, cm`mishaps
    ensures cm.Sound() && r.Ok? && cm.idxs == s.idxs
    ensures cm.tree == if success then old(cm.tree).(saved := s.tree.saved) else s.tree.(store := old(cm.tree).store)
    ensures cm.access == if success then old(cm.access).(saved := s.access.saved) else s.access
    ensures cm.events == if success then old(cm.events) else s.events
    ensures cm.mishaps == if success then old(cm.mishaps) else s.mishaps
  {
    if !success {
      cm.mishaps := s.mishaps;
    }
    r := cm.EndTransaction(!success);
  }

  twostate predicate Reverted(cm: CallManager)
    reads cm
  {
    && cm.tree == old(cm.tree).(store := cm.tree.store)
    && cm.access == old(cm.access)
    && cm.events == old(cm.events)
    && cm.mishaps == old(cm.mishaps)
  }

  /** `call_actor`: one stack frame deeper, and within a gas limit if there is one. */
  method CallActor(cm: CallManager, from: ActorID, to: Address, entry: Entrypoint, params: Option<Block>,
                   value: TokenAmount, gasLimit: Option<nat>, readOnly: bool, target: Target)
    returns (r: Result<InvocationResult, ExecutionError>, ghost log: CallLog)
    requires cm.Sound() && BlockOptOk(cm, params) && (readOnly ==> value == 0)
    modifies cm, cm.gas
    ensures cm.Sound() && cm.Frames(readOnly) && ResultOk(cm, r)
    ensures Success(r) ==>
              && Calls(cm.ctx, from, to, entry, params, value, readOnly, old(cm.actorCallStack), target, old(Now(cm)), log)
              && WorldOf(log.ran) == Now(cm) && log.result == r
    ensures r == Err(OutOfGas) ==> cm.gas.Available() == 0
    ensures gasLimit.Some? ==> cm.gas.gasUsed <= old(cm.gas.gasUsed) + gasLimit.value
    ensures old(cm.callStackDepth) >= cm.ctx.maxCallDepth ==> r == Err(Syscall(LimitExceeded))
    ensures !readOnly && old(cm.callStackDepth) < cm.ctx.maxCallDepth ==>
              AsTold(cm.ctx.prices, Sequel(cm.ctx, old(cm.tree).view, old(cm.tree).resolved, from, to, entry, value, target),
                     EntryCode(entry, target.callee), r, cm.tree.view)
    decreases target, 5
  {
    if gasLimit.Some? {
      r, log := WithGasLimit(cm, from, to, entry, params, value, gasLimit.value, readOnly, target);
    } else {
      r, log := WithStackFrame(cm, from, to, entry, params, value, readOnly, target);
    }
    if cm.gas.Available() != 0 && r == Err(OutOfGas) {
      r := Ok(InvocationResult(SYS_OUT_OF_GAS, None));
    }
  }

  /** Inside, `gasLimit` is the most that can be used; afterwards it counts as used outside. */
  method WithGasLimit(cm: CallManager, from: ActorID, to: Address, entry: Entrypoint, params: Option<Block>,
                      value: TokenAmount, gasLimit: nat, readOnly: bool, target: Target)
    returns (r: Result<InvocationResult, ExecutionError>, ghost log: CallLog)
    requires cm.Sound() && BlockOptOk(cm, params) && (readOnly ==> value == 0)
    modifies cm, cm.gas
    ensures cm.Sound() && cm.Frames(readOnly) && ResultOk(cm, r)
    ensures r.Ok? ==>
              && Calls(cm.ctx, from, to, entry, params, value, readOnly, old(cm.actorCallStack), target, old(Now(cm)), log)
              && WorldOf(log.ran) == Now(cm) && log.result == r
    ensures old(cm.callStackDepth) >= cm.ctx.maxCallDepth ==> r == Err(Syscall(LimitExceeded))
    ensures cm.gas.gasUsed <= old(cm.gas.gasUsed) + gasLimit
    ensures !readOnly && old(cm.callStackDepth) < cm.ctx.maxCallDepth ==>
              AsTold(cm.ctx.prices, Sequel(cm.ctx, old(cm.tree).view, old(cm.tree).resolved, from, to, entry, value, target),
                     EntryCode(entry, target.callee), r, cm.tree.view)
    decreases target, 4
  {
    ghost var outer, snap := cm.gas.snapshots, Gas.GasSnapshot(cm.gas.gasLimit, cm.gas.gasUsed);
    cm.PushGasLimit(gasLimit);
    r, log := WithStackFrame(cm, from, to, entry, params, value, readOnly, target);
    var popped := cm.PopGasLimit(outer, snap);
    if popped.Err? {
      r := Err(Fatal);
    }
  }

  method WithStackFrame(cm: CallManager, from: ActorID, to: Address, entry: Entrypoint, params: Option<Block>,
                        value: TokenAmount, readOnly: bool, target: Target)
    returns (r: Result<InvocationResult, ExecutionError>, ghost log: CallLog)
    requires cm.Sound() && BlockOptOk(cm, params) && (readOnly ==> value == 0)
    modifies cm, cm.gas
    ensures cm.Sound() && cm.Frames(readOnly) && ResultOk(cm, r)
    ensures r.Ok? ==>
              && Calls(cm.ctx, from, to, entry, params, value, readOnly, old(cm.actorCallStack), target, old(Now(cm)), log)
              && WorldOf(log.ran) == Now(cm) && log.result == r
    ensures old(cm.callStackDepth) >= cm.ctx.maxCallDepth ==> r == Err(Syscall(LimitExceeded))
    ensures !readOnly && old(cm.callStackDepth) < cm.ctx.maxCallDepth ==>
              AsTold(cm.ctx.prices, Sequel(cm.ctx, old(cm.tree).view, old(cm.tree).resolved, from, to, entry, value, target),
                     EntryCode(entry, target.callee), r, cm.tree.view)
    decreases target, 3
  {
    if cm.callStackDepth >= cm.ctx.maxCallDepth {
      r := Err(Syscall(LimitExceeded));
      log := NoLog(Now(cm));
      return;
    }
    cm.callStackDepth := cm.callStackDepth + 1;
    r, log := CallActorUnchecked(cm, from, to, entry, params, value, readOnly, target);
    cm.callStackDepth := cm.callStackDepth - 1;
  }

  /** The log of a call that did not come about. */
  ghost function NoLog(w: World): CallLog {
    CallLog(Err(Fatal), 0, w, Begun(w, Desk([], {})), w, w, Begun(w, Desk([], {})))
  }

  /** `call_actor_unchecked`: finds the receiver, creating it if its address allows that. */
  method CallActorUnchecked(cm: CallManager, from: ActorID, to: Address, entry: Entrypoint, params: Option<Block>,
                            value: TokenAmount, readOnly: bool, target: Target)
    returns (r: Result<InvocationResult, ExecutionError>, ghost log: CallLog)
    requires cm.Sound() && BlockOptOk(cm, params) && (readOnly ==> value == 0)
    requires cm.instances < cm.callStackDepth
    modifies cm, cm.gas
    ensures cm.Sound() && cm.Frames(readOnly) && ResultOk(cm, r)
    ensures r.Ok? ==>
              && Calls(cm.ctx, from, to, entry, params, value, readOnly, old(cm.actorCallStack), target, old(Now(cm)), log)
              && WorldOf(log.ran) == Now(cm) && log.result == r
    ensures !readOnly ==>
              AsTold(cm.ctx.prices, Sequel(cm.ctx, old(cm.tree).view, old(cm.tree).resolved, from, to, entry, value, target),
                     EntryCode(entry, target.callee), r, cm.tree.view)
    decreases target, 2
  {
    ghost var t, w, stack := cm.tree, Now(cm), cm.actorCallStack;
    var receiver;
    receiver, log := FindReceiver(cm, to, readOnly, target);
    if receiver.Err? {
      r := Err(receiver.error);
      if !readOnly {
        SequelTold(cm.ctx, t.view, t.resolved, from, to, entry, value, target, receiver, cm.tree.view, r, cm.tree.view);
      }
      return;
    }
    StillOkOpt(cm.ctx.wire, params, old(cm.tree.store.Keys), cm.tree.store.Keys);
    ghost var between := cm.tree.view;
    ghost var paid, ran;
    r, paid, ran := CallFramed(cm, from, receiver.value, entry, params, value, readOnly, target.callee);
    if !readOnly {
      SequelTold(cm.ctx, t.view, t.resolved, from, to, entry, value, target, receiver, between, r, cm.tree.view);
    }
    ghost var found := log;
    log := found.(result := r, paid := paid, ran := ran);
    if r.Ok? {
      CallsFrom(cm.ctx, from, to, entry, params, value, readOnly, stack, target, w, found, log);
    }
  }

  /** A receiver that was found, and then entered. */
  lemma CallsFrom(ctx: Context, from: ActorID, to: Address, entry: Entrypoint, params: Option<Block>, value: TokenAmount,
                  readOnly: bool, stack: seq<Frame>, target: Target, w: World, found: CallLog, log: CallLog)
    requires Arrives(ctx, to, readOnly, stack, target.constructor_, w, found)
    requires log == found.(result := log.result, paid := log.paid, ran := log.ran)
    requires Enters(ctx, from, log.receiver, entry, params, value, readOnly, stack + [Frame(log.receiver, EntryNameOf(entry))],
                    target.callee, log.arrived, log.paid, log.ran, log.result)
    ensures Calls(ctx, from, to, entry, params, value, readOnly, stack, target, w, log)
  {
  }

  /** The resolved call, with its frame on the actor call stack. */
  method CallFramed(cm: CallManager, from: ActorID, to: ActorID, entry: Entrypoint, params: Option<Block>,
                    value: TokenAmount, readOnly: bool, callee: Invocation)
    returns (r: Result<InvocationResult, ExecutionError>, ghost paid: World, ghost ran: RunLog)
    requires cm.Sound() && BlockOptOk(cm, params) && (readOnly ==> value == 0)
    requires cm.instances < cm.callStackDepth
    modifies cm, cm.gas
    ensures cm.Sound() && cm.Frames(readOnly) && ResultOk(cm, r)
    ensures r.Ok? ==>
              && Enters(cm.ctx, from, to, entry, params, value, readOnly, old(cm.actorCallStack) + [Frame(to, EntryNameOf(entry))],
                        callee, old(Now(cm)), paid, ran, r)
              && WorldOf(ran) == Now(cm)
    ensures !readOnly ==> AsTold(cm.ctx.prices, Called(old(cm.tree.view), from, to, entry, value, callee),
                                 EntryCode(entry, callee), r, cm.tree.view)
    decreases callee, 7
  {
    ghost var stack := cm.actorCallStack;
    cm.actorCallStack := cm.actorCallStack + [Frame(to, EntryNameOf(entry))];
    r, paid, ran := CallActorResolved(cm, from, to, entry, params, value, readOnly, callee);
    cm.actorCallStack := cm.actorCallStack[..|cm.actorCallStack| - 1];
    assert cm.actorCallStack == stack;
  }

  lemma StillOkOpt(w: Wire, b: Option<Block>, present: set<Cid>, later: set<Cid>)
    requires b.Some? ==> BlockOk(w, b.value, present)
    requires present <= later
    ensures b.Some? ==> BlockOk(w, b.value, later)
  {
  }

  /** The ID of the receiver. A key address or an address of the EAM's namespace that has none yet
      gets an actor, unless the call is read-only. */
  method FindReceiver(cm: CallManager, to: Address, readOnly: bool, target: Target)
    returns (r: Result<ActorID, ExecutionError>, ghost log: CallLog)
    requires cm.Sound()
    requires cm.instances < cm.callStackDepth
    modifies cm, cm.gas
    ensures cm.Sound() && cm.Frames(readOnly)
    ensures r.Ok? ==>
              && Arrives(cm.ctx, to, readOnly, old(cm.actorCallStack), target.constructor_, old(Now(cm)), log)
              && log.receiver == r.value && log.arrived == Now(cm)
    ensures to.IdAddress? ==> r == Ok(to.id) && cm.tree.view == old(cm.tree.view)
    ensures StateTree.IdOf(cm.ctx.codec, old(cm.tree).view, old(cm.tree).resolved, to).Some? ==>
              && cm.tree.view == old(cm.tree.view)
              && (r.Ok? ==> r.value == StateTree.IdOf(cm.ctx.codec, old(cm.tree).view, old(cm.tree).resolved, to).value)
              && (r.Err? ==> !r.error.Syscall?)
    ensures StateTree.IdOf(cm.ctx.codec, old(cm.tree).view, old(cm.tree).resolved, to).None? ==>
              && (r.Ok? ==> !readOnly && Welcome(to) && NextId(cm.ctx, old(cm.tree.view)) == Some(r.value))
              && (readOnly || !Welcome(to) ==>
                    && cm.tree.view == old(cm.tree.view)
                    && (r.error.Syscall? ==> r.error.number == if Welcome(to) then ReadOnly else ErrorNumber.NotFound))
    ensures !readOnly ==> Arrived(cm.ctx, old(cm.tree).view, old(cm.tree).resolved, to, target.constructor_, r, cm.tree.view)
    decreases target, 1
  {
    ghost var view, remembered, w := cm.tree.view, cm.tree.resolved, Now(cm);
    log := NoLog(w);
    var known := FindKnown(cm, to);
    if known.Err? {
      r := Err(known.error);
      NeverArrives(cm.ctx, view, remembered, to, target.constructor_, r, cm.tree.view);
      return;
    }
    if known.value.Some? {
      r := Ok(known.value.value);
      ArrivedKnown(cm.ctx, view, remembered, to, target.constructor_, r.value);
      log := log.(receiver := r.value, arrived := Now(cm));
      return;
    }
    if !to.KeyAddress? && !(to.DelegatedAddress? && to.namespace == EAM_ACTOR_ID) {
      r := Err(Syscall(ErrorNumber.NotFound));
      NeverArrives(cm.ctx, view, remembered, to, target.constructor_, r, cm.tree.view);
      return;
    }
    if readOnly {
      r := Err(Syscall(ReadOnly));
      return;
    }
    r, log := MakeReceiver(cm, to, target.constructor_);
  }

  /** The ID that an address has. */
  method FindKnown(cm: CallManager, to: Address) returns (r: Result<Option<ActorID>, ExecutionError>)
    requires cm.Sound()
    modifies cm, cm.gas
    ensures cm.Sound() && cm.Frames(true) && Now(cm) == old(Now(cm)).(resolved := cm.tree.resolved)
    ensures StateTree.Recalls(cm.ctx.codec, cm.tree.view, old(cm.tree.resolved), cm.tree.resolved)
    ensures r.Ok? ==> r.value == StateTree.IdOf(cm.ctx.codec, old(cm.tree).view, old(cm.tree).resolved, to)
    ensures r.Ok? && r.value.None? ==> Now(cm) == old(Now(cm))
    ensures to.IdAddress? ==> r.Ok?
    ensures r.Err? ==> !r.error.Syscall?
    ensures r.Err? && Free(cm.ctx.prices) ==>
              StateTree.InitIn(cm.ctx.codec, old(cm.tree).view).None?
              && StateTree.IdOf(cm.ctx.codec, old(cm.tree).view, old(cm.tree).resolved, to).None?
  {
    r := cm.Locate(to);
  }

  /** An actor for an address that has none. */
  method MakeReceiver(cm: CallManager, to: Address, constructor_: Invocation)
    returns (r: Result<ActorID, ExecutionError>, ghost log: CallLog)
    requires cm.Sound() && Welcome(to) && StateTree.IdOf(cm.ctx.codec, cm.tree.view, cm.tree.resolved, to).None?
    requires cm.instances < cm.callStackDepth
    modifies cm, cm.gas
    ensures cm.Sound() && cm.Steady()
    ensures r.Ok? ==>
              && Arrives(cm.ctx, to, false, old(cm.actorCallStack), constructor_, old(Now(cm)), log)
              && log.receiver == r.value && log.arrived == Now(cm) && NextId(cm.ctx, old(cm.tree.view)) == Some(r.value)
    ensures Arrived(cm.ctx, old(cm.tree).view, old(cm.tree).resolved, to, constructor_, r, cm.tree.view)
    decreases constructor_, 9
  {
    if to.KeyAddress? {
      r, log := CreateAccountFromSend(cm, to, constructor_);
    } else {
      log := NoLog(Now(cm));
      r := CreatePlaceholder(cm, to);
      if r.Ok? {
        log := log.(receiver := r.value, arrived := Now(cm));
      }
    }
  }

  ghost function NextId(ctx: Context, view: ActorMap): Option<ActorID> {
    var init := StateTree.InitIn(ctx.codec, view);
    if init.Some? then Some(init.value.nextId) else None
  }

  method CreatePlaceholder(cm: CallManager, to: Address) returns (r: Result<ActorID, ExecutionError>)
    requires cm.Sound()
    modifies cm, cm.gas
    ensures cm.Sound() && cm.Steady()
    ensures r.Ok? ==> Enrols(cm.ctx, old(Now(cm)), Now(cm), to, r.value, EmptyActor(cm.ctx, cm.ctx.placeholderCode, Some(to)))
    ensures r.Ok? ==> r.value in cm.tree.view
                      && cm.tree.view[r.value] == ActorState(cm.ctx.placeholderCode, cm.ctx.emptyArr, 0, 0, Some(to))
    ensures Free(cm.ctx.prices) && StateTree.InitIn(cm.ctx.codec, old(cm.tree.view)).Some? ==> r.Ok?
  {
    r := cm.CreateActorFromSend(to, EmptyActor(cm.ctx, cm.ctx.placeholderCode, Some(to)));
  }

  method CreateAccount(cm: CallManager, addr: Address, ghost constructor_: Invocation) returns (r: Result<ActorID, ExecutionError>)
    requires cm.Sound()
    modifies cm, cm.gas
    ensures cm.Sound() && cm.Steady()
    ensures r.Ok? ==> Enrols(cm.ctx, old(Now(cm)), Now(cm), addr, r.value, EmptyActor(cm.ctx, cm.ctx.accountCode, None))
    ensures r.Ok? ==> r.value in cm.tree.view && cm.tree.view[r.value] == ActorState(cm.ctx.accountCode, cm.ctx.emptyArr, 0, 0, None)
    ensures r.Ok? ==> NextId(cm.ctx, old(cm.tree.view)) == Some(r.value)
    ensures r.Ok? ==> Founded(cm.ctx, old(cm.tree.view), addr, constructor_)
                      == Called(cm.tree.view, SYSTEM_ACTOR_ID, r.value, ImplicitConstructor, 0, constructor_)
    ensures Free(cm.ctx.prices) && NextId(cm.ctx, old(cm.tree.view)).Some? ==> r.Ok?
  {
    ghost var was := cm.tree.view;
    r := EnrolAccount(cm, addr);
    if r.Ok? {
      FoundedIs(cm.ctx, was, cm.tree.view, addr, r.value, constructor_);
    }
  }

  method EnrolAccount(cm: CallManager, addr: Address) returns (r: Result<ActorID, ExecutionError>)
    requires cm.Sound()
    modifies cm, cm.gas
    ensures cm.Sound() && cm.Steady()
    ensures r.Ok? ==> Enrols(cm.ctx, old(Now(cm)), Now(cm), addr, r.value, EmptyActor(cm.ctx, cm.ctx.accountCode, None))
    ensures r.Ok? ==> r.value in cm.tree.view && cm.tree.view[r.value] == ActorState(cm.ctx.accountCode, cm.ctx.emptyArr, 0, 0, None)
    ensures r.Ok? ==> NextId(cm.ctx, old(cm.tree.view)) == Some(r.value)
    ensures Free(cm.ctx.prices) && NextId(cm.ctx, old(cm.tree.view)).Some? ==> r.Ok?
  {
    r := cm.CreateActorFromSend(addr, EmptyActor(cm.ctx, cm.ctx.accountCode, None));
  }

  /** Creates an account actor and runs its constructor. An exit code of the constructor is ignored: what
      was created, and what the constructor did, stays. */
  method CreateAccountFromSend(cm: CallManager, addr: Address, constructor_: Invocation)
    returns (r: Result<ActorID, ExecutionError>, ghost log: CallLog)
    requires cm.Sound()
    requires cm.instances < cm.callStackDepth
    modifies cm, cm.gas
    ensures cm.Sound() && cm.Steady()
    ensures addr == cm.ctx.zeroKey ==> r == Err(Syscall(IllegalArgument)) && cm.tree == old(cm.tree)
    ensures r.Ok? ==> NextId(cm.ctx, old(cm.tree.view)) == Some(r.value)
    ensures r.Ok? ==>
              && Founds(cm.ctx, addr, old(cm.actorCallStack), constructor_, old(Now(cm)), log)
              && log.receiver == r.value && log.arrived == Now(cm)
    ensures Free(cm.ctx.prices) && addr != cm.ctx.zeroKey && Founded(cm.ctx, old(cm.tree.view), addr, constructor_).Some? ==>
              r.Ok? && cm.tree.view == Founded(cm.ctx, old(cm.tree.view), addr, constructor_).value
    decreases constructor_, 8
  {
    log := NoLog(Now(cm));
    if addr == cm.ctx.zeroKey {
      r := Err(Syscall(IllegalArgument));
      return;
    }
    r := CreateAccount(cm, addr, constructor_);
    if r.Err? {
      return;
    }
    ghost var born := Now(cm);
    ghost var built;
    var ended;
    ended, built := Construct(cm, r.value, addr, constructor_);
    if ended.Err? {
      r := Err(ended.error);
      return;
    }
    log := log.(receiver := r.value, born := born, built := built, arrived := Now(cm));
  }

  /** Runs the constructor of an account that was just created. */
  method Construct(cm: CallManager, id: ActorID, addr: Address, constructor_: Invocation)
    returns (r: Result<InvocationResult, ExecutionError>, ghost ran: RunLog)
    requires cm.Sound()
    requires cm.instances < cm.callStackDepth
    modifies cm, cm.gas
    ensures cm.Sound() && cm.Steady()
    ensures r.Ok? ==>
              && Runs(cm.ctx, Self(id, SYSTEM_ACTOR_ID, false, old(cm.actorCallStack)), constructor_, old(Now(cm)),
                      DeskFor(cm.ctx, ImplicitConstructor, Some(Block(CBOR, cm.ctx.addressBytes(addr), []))), ran)
              && WorldOf(ran) == Now(cm) && Ended(constructor_.exit, DeskOf(ran)).Ok?
    ensures AsTold(cm.ctx.prices, Called(old(cm.tree.view), SYSTEM_ACTOR_ID, id, ImplicitConstructor, 0, constructor_),
                   CodeOf(constructor_.exit), r, cm.tree.view)
    decreases constructor_, 7
  {
    var params := Block(CBOR, cm.ctx.addressBytes(addr), []);
    PlainOk(cm.ctx.wire, params, cm.tree.store.Keys);
    ghost var paid;
    r, paid, ran := CallActorResolved(cm, SYSTEM_ACTOR_ID, id, ImplicitConstructor, Some(params), 0, false, constructor_);
  }

  /** `call_actor_resolved`: moves the value, then runs the receiver's code. */
  method CallActorResolved(cm: CallManager, from: ActorID, to: ActorID, entry: Entrypoint, params: Option<Block>,
                           value: TokenAmount, readOnly: bool, callee: Invocation)
    returns (r: Result<InvocationResult, ExecutionError>, ghost paid: World, ghost ran: RunLog)
    requires cm.Sound() && BlockOptOk(cm, params) && (readOnly ==> value == 0)
    requires cm.instances < cm.callStackDepth
    modifies cm, cm.gas
    ensures cm.Sound() && cm.Frames(readOnly) && ResultOk(cm, r)
    ensures r.Ok? ==>
              && Enters(cm.ctx, from, to, entry, params, value, readOnly, old(cm.actorCallStack), callee, old(Now(cm)), paid, ran, r)
              && WorldOf(ran) == Now(cm)
    ensures !readOnly ==> AsTold(cm.ctx.prices, Called(old(cm.tree.view), from, to, entry, value, callee),
                                 EntryCode(entry, callee), r, cm.tree.view)
    decreases callee, 6
  {
    ghost var view := cm.tree.view;
    var moved := Pay(cm, from, to, value);
    paid := Now(cm);
    ran := Begun(paid, Desk([], {}));
    if moved.Err? {
      r := Err(moved.error);
      CalledTold(cm.ctx.prices, view, from, to, entry, value, callee, moved, paid.view, r, paid.view);
      return;
    }
    if entry == Invoke(METHOD_SEND) {
      r := Ok(InvocationResult(OK, None));
      CalledTold(cm.ctx.prices, view, from, to, entry, value, callee, moved, paid.view, r, paid.view);
      return;
    }
    r, ran := Enter(cm, from, to, entry, params, value, readOnly, callee);
    if !readOnly {
      CalledTold(cm.ctx.prices, view, from, to, entry, value, callee, moved, paid.view, r, cm.tree.view);
    }
  }

  /** Looks up the receiver and transfers the value. */
  method Pay(cm: CallManager, from: ActorID, to: ActorID, value: TokenAmount) returns (r: Result<(), ExecutionError>)
    requires cm.Sound()
    modifies cm`tree, cm`access, cm.gas`gasUsed
    ensures cm.Sound() && cm.Frames(value == 0)
    ensures cm.tree == old(cm.tree).(view := cm.tree.view)
    ensures r.Ok? ==> cm.Wealth() == old(cm.Wealth())
    ensures Payable(cm.ctx.prices, old(cm.tree).view, from, to, value, r, cm.tree.view)
    ensures r.Ok? && value != 0 ==> old(cm.gas.gasUsed) + cm.ctx.prices.onValueTransfer <= cm.gas.gasUsed
  {
    var got := cm.GetActor(to);
    if got.Err? {
      return Err(got.error);
    }
    if got.value.None? {
      return Err(Syscall(ErrorNumber.NotFound));
    }
    if value != 0 {
      r := PayValue(cm, from, to, value);
      if r.Ok? {
        TransferConserves(old(cm.tree).view, from, to, value);
      }
      return;
    }
    return Ok(());
  }

  method PayValue(cm: CallManager, from: ActorID, to: ActorID, value: TokenAmount) returns (r: Result<(), ExecutionError>)
    requires cm.Sound()
    modifies cm`tree, cm`access, cm.gas`gasUsed
    ensures cm.Sound() && cm.Steady() && cm.tree == old(cm.tree).(view := cm.tree.view)
    ensures r.Ok? ==>
              && Transferable(old(cm.tree).view, from, to, value)
              && cm.tree.view == Transferred(old(cm.tree).view, from, to, value)
    ensures r.Ok? ==> old(cm.gas.gasUsed) + cm.ctx.prices.onValueTransfer <= cm.gas.gasUsed
    ensures Free(cm.ctx.prices) && Transferable(old(cm.tree).view, from, to, value) ==> r.Ok?
  {
    r := cm.ChargeGas(cm.ctx.prices.onValueTransfer);
    if r.Err? {
      return;
    }
    r := cm.Transfer(from, to, value);
  }

  /** Registers the parameters and runs the code. */
  method Enter(cm: CallManager, from: ActorID, to: ActorID, entry: Entrypoint, params: Option<Block>,
               value: TokenAmount, readOnly: bool, callee: Invocation)
    returns (r: Result<InvocationResult, ExecutionError>, ghost ran: RunLog)
    requires cm.Sound() && BlockOptOk(cm, params)
    requires cm.instances < cm.callStackDepth
    modifies cm, cm.gas
    ensures cm.Sound() && cm.Frames(readOnly) && ResultOk(cm, r)
    ensures r.Ok? ==>
              && Runs(cm.ctx, Self(to, from, readOnly, old(cm.actorCallStack)), callee, old(Now(cm)), DeskFor(cm.ctx, entry, params), ran)
              && WorldOf(ran) == Now(cm) && r == Ended(callee.exit, DeskOf(ran))
    ensures !readOnly ==> AsTold(cm.ctx.prices, Played(old(cm.tree.view), to, callee), CodeOf(callee.exit), r, cm.tree.view)
    ensures r.Ok? ==> old(cm.gas.gasUsed)
                      + (if params.None? then cm.ctx.prices.onMethodInvocation(0, 0)
                         else cm.ctx.prices.onMethodInvocation(|params.value.data|, |params.value.links|)) <= cm.gas.gasUsed
    decreases callee, 5
  {
    var size, links := 0, 0;
    if params.Some? {
      size, links := |params.value.data|, |params.value.links|;
    }
    var charged := cm.ChargeGas(cm.ctx.prices.onMethodInvocation(size, links));
    if charged.Err? {
      r := Err(charged.error);
      ran := Begun(Now(cm), Desk([], {}));
      return;
    }
    var k := NewKernel(cm, from, to, entry, params, value, readOnly);
    var result;
    result, ran := RunActor(k, callee);
    r := ChargeReturn(cm, result);
  }

  /** Charges for the block that is returned. */
  method ChargeReturn(cm: CallManager, result: Result<InvocationResult, ExecutionError>)
    returns (r: Result<InvocationResult, ExecutionError>)
    requires cm.Sound()
    modifies cm.gas`gasUsed
    ensures cm.Sound() && old(cm.gas.gasUsed) <= cm.gas.gasUsed
    ensures r == result || r == Err(OutOfGas)
    ensures Free(cm.ctx.prices) ==> r == result
    ensures r.Ok? && r.value.value.Some? ==>
              cm.gas.gasUsed == old(cm.gas.gasUsed)
                                + cm.ctx.prices.onMethodReturn(cm.callStackDepth, |r.value.value.value.data|, |r.value.value.value.links|)
  {
    r := result;
    if r.Ok? && r.value.value.Some? {
      var b := r.value.value.value;
      var charged := cm.ChargeGas(cm.ctx.prices.onMethodReturn(cm.callStackDepth, |b.data|, |b.links|));
      if charged.Err? {
        r := Err(charged.error);
      }
    }
  }

  /** Runs the code in an instance that is given back at the end. */
  method RunActor(k: Kernel, callee: Invocation) returns (r: Result<InvocationResult, ExecutionError>, ghost log: RunLog)
    requires k.Ready() && k.cm.instances < k.cm.callStackDepth
    modifies k.cm, k.cm.gas, k.blocks
    ensures k.cm.Sound() && k.cm.Frames(k.readOnly) && ResultOk(k.cm, r)
    ensures r.Ok? ==> Runs(k.cm.ctx, old(SelfOf(k)), callee, old(Now(k.cm)), old(OnDesk(k)), log)
                      && WorldOf(log) == Now(k.cm) && r == Ended(callee.exit, DeskOf(log))
    ensures !k.readOnly ==> AsTold(k.cm.ctx.prices, Played(old(k.cm.tree.view), k.actorId, callee), CodeOf(callee.exit), r,
                                   k.cm.tree.view)
    decreases callee, 4
  {
    k.cm.invocationCount := k.cm.invocationCount + 1;
    k.cm.instances := k.cm.instances + 1;
    r, log := RunToEnd(k, callee);
    k.cm.instances := k.cm.instances - 1;
  }

  method RunToEnd(k: Kernel, callee: Invocation) returns (r: Result<InvocationResult, ExecutionError>, ghost log: RunLog)
    requires k.Ready()
    modifies k.cm, k.cm.gas, k.blocks
    ensures k.Ready() && k.cm.Frames(k.readOnly) && ResultOk(k.cm, r)
    ensures r.Ok? ==> Runs(k.cm.ctx, old(SelfOf(k)), callee, old(Now(k.cm)), old(OnDesk(k)), log)
                      && WorldOf(log) == Now(k.cm) && r == Ended(callee.exit, DeskOf(log))
    ensures !k.readOnly ==> AsTold(k.cm.ctx.prices, Played(old(k.cm.tree.view), k.actorId, callee), CodeOf(callee.exit), r,
                                   k.cm.tree.view)
    decreases callee, 3
  {
    var ran;
    ran, log := Run(k, callee);
    r := Finish(k, ran, callee.exit);
  }

  /** A kernel for the receiver, with its parameters registered. */
  method NewKernel(cm: CallManager, from: ActorID, to: ActorID, entry: Entrypoint, params: Option<Block>,
                   value: TokenAmount, readOnly: bool)
    returns (k: Kernel)
    requires cm.Sound() && BlockOptOk(cm, params)
    ensures fresh(k) && fresh(k.blocks) && k.cm == cm && k.Ready()
    ensures k.caller == from && k.actorId == to && k.methodNum == MethodOf(entry)
    ensures k.valueReceived == value && k.readOnly == readOnly
    ensures OnDesk(k) == DeskFor(cm.ctx, entry, params)
    ensures params.Some? ==> |k.blocks.blocks| > 0 && k.blocks.blocks[0] == params.value
    ensures entry.UpgradeFrom? ==> |k.blocks.blocks| > 0
                                   && k.blocks.blocks[|k.blocks.blocks| - 1] == Block(CBOR, cm.ctx.cidBytes(entry.oldCode), [])
    ensures k.blocks.reachable == if params.Some? then LinkSet(params.value.links) else {}
  {
    var registry := new BlockRegistry();
    k := new Kernel(cm, registry, from, to, MethodOf(entry), value, readOnly);
    if params.Some? {
      var id := k.PutReachable(params.value);
    }
    if entry.UpgradeFrom? {
      var info := Block(CBOR, cm.ctx.cidBytes(entry.oldCode), []);
      PlainOk(cm.ctx.wire, info, cm.tree.store.Keys);
      var id := k.PutReachable(info);
    }
  }

  /** Turns the end of the code into a result. */
  method Finish(k: Kernel, ran: Result<(), ExecutionError>, exit: Exit)
    returns (r: Result<InvocationResult, ExecutionError>)
    requires k.Ready()
    ensures ResultOk(k.cm, r)
    ensures r == if ran.Err? then Err(ran.error) else Ended(exit, OnDesk(k))
    ensures ran.Ok? && r.Ok? && r.value.value.Some? ==>
              exists id :: 1 <= id <= |k.blocks.blocks| && r.value.value.value == k.blocks.blocks[id - 1]
                           && (exit == Return(id) || exit == Abort(r.value.exitCode, id))
    ensures ran.Ok? && r.Ok? && r.value.value.None? ==>
              exit == Return(NO_DATA_BLOCK_ID) || exit == Abort(r.value.exitCode, NO_DATA_BLOCK_ID)
              || (r.value.exitCode == SYS_MISSING_RETURN && exit.Return? && exit.block > |k.blocks.blocks|)
    ensures ran.Ok? && exit.Return? ==> r.Ok? && (r.value.exitCode == OK <==> exit.block <= |k.blocks.blocks|)
    ensures ran.Ok? && r.Err? ==> r.error == Fatal && (exit == Crash || (exit.Abort? && exit.block > |k.blocks.blocks|))
  {
    if ran.Err? {
      return Err(ran.error);
    }
    match exit {
      case Return(id) =>
        if id == NO_DATA_BLOCK_ID {
          return Ok(InvocationResult(OK, None));
        }
        var got := k.blocks.Get(id);
        return if got.Ok? then Ok(InvocationResult(OK, Some(got.value))) else Ok(InvocationResult(SYS_MISSING_RETURN, None));
      case Abort(code, id) =>
        if id == NO_DATA_BLOCK_ID {
          return Ok(InvocationResult(code, None));
        }
        var got := k.blocks.Get(id);
        return if got.Ok? then Ok(InvocationResult(code, Some(got.value))) else Err(Fatal);
      case Crash =>
        return Err(Fatal);
    }
  }

  // ---------------------------------------------------------------- upgrades

  method CheckUpgrade(stack: seq<Frame>, actor: ActorID) returns (ok: bool)
    ensures ok <==> MayUpgrade(stack, actor)
  {
    var i := 0;
    while i < |stack| && stack[i] != Frame(actor, InvokeName)
      invariant i <= |stack|
      invariant forall j :: 0 <= j < i ==> stack[j] != Frame(actor, InvokeName)
    {
      i := i + 1;
    }
    var first := i;
    i := i + 1;
    while i < |stack|
      invariant first < i
      invariant forall j :: first < j < i && j < |stack| ==> stack[j] == Frame(actor, UpgradeName)
    {
      if stack[i] != Frame(actor, UpgradeName) {
        return false;
      }
      i := i + 1;
    }
    return true;
  }

  /** `upgrade_actor`: replaces the code of the executing actor and runs the new code's upgrade entry
      point, in a transaction. */
  method UpgradeActor(k: Kernel, call: Call) returns (r: Result<(), ExecutionError>, ghost done: Done)
    requires k.Ready() && call.Upgrade?
    modifies k.cm, k.cm.gas, k.blocks
    ensures k.Ready() && k.cm.Frames(k.readOnly)
    ensures done.outcome == r && done.world == Now(k.cm) && done.desk == OnDesk(k)
    ensures Settled(r) ==> Steps(k.cm.ctx, old(SelfOf(k)), call, old(Now(k.cm)), old(OnDesk(k)), done)
    ensures k.readOnly ==> r == Err(Syscall(ReadOnly))
    ensures !k.readOnly && !MayUpgrade(old(k.cm.actorCallStack), k.actorId) ==> r == Err(Syscall(Forbidden))
    decreases call, 1
  {
    if k.readOnly {
      r := Err(Syscall(ReadOnly));
      done := Done(r, Now(k.cm), OnDesk(k), None);
      return;
    }
    var allowed := CheckUpgrade(k.cm.actorCallStack, k.actorId);
    if !allowed {
      r := Err(Syscall(Forbidden));
      done := Done(r, Now(k.cm), OnDesk(k), None);
      return;
    }
    var params := GetParams(k, call.params);
    if params.Err? {
      r := Err(params.error);
      done := Done(r, Now(k.cm), OnDesk(k), None);
      return;
    }
    if k.blocks.IsFull() {
      r := Err(Syscall(LimitExceeded));
      done := Done(r, Now(k.cm), OnDesk(k), None);
      return;
    }
    r, done := TryUpgrade(k, call, params.value);
  }

  method TryUpgrade(k: Kernel, call: Call, params: Option<Block>) returns (r: Result<(), ExecutionError>, ghost done: Done)
    requires k.Ready() && call.Upgrade? && !k.readOnly && MayUpgrade(k.cm.actorCallStack, k.actorId)
    requires call.params <= |k.blocks.blocks| && params == Opened(OnDesk(k), call.params) && BlockOptOk(k.cm, params)
    requires !k.blocks.IsFull()
    modifies k.cm, k.cm.gas, k.blocks
    ensures k.Ready() && k.cm.Frames(k.readOnly)
    ensures done.outcome == r && done.world == Now(k.cm) && done.desk == OnDesk(k) && done.call.Some?
    ensures Upgrades(k.cm.ctx, old(SelfOf(k)), call, old(Now(k.cm)), old(OnDesk(k)), done, done.call.value)
    decreases call, 0
  {
    var result;
    ghost var log;
    result, log := TransactUpgrade(k.cm, k.caller, k.actorId, call.newCode, params, call.target);
    k.StillReady();
    r := StoreReturn(k, result);
    done := Done(r, Now(k.cm), OnDesk(k), Some(log));
  }

  /** The world in which an upgrade's entry point runs. */
  ghost predicate UpgradeCalls(ctx: Context, caller: ActorID, actor: ActorID, newCode: Cid, params: Option<Block>,
                               stack: seq<Frame>, target: Target, w: World, log: CallLog)
  {
    && actor in w.view
    && Calls(ctx, caller, IdAddress(actor), UpgradeFrom(w.view[actor].code), params, 0, false, stack, target,
             Recoded(w, actor, newCode), log)
  }

  /** Replaces the code and runs the new code's upgrade entry point, in a transaction. Where that makes no
      syscall, success leaves the actor with the new code and without its delegated address, and nothing
      else changed. */
  method TransactUpgrade(cm: CallManager, caller: ActorID, actor: ActorID, newCode: Cid, params: Option<Block>, target: Target)
    returns (r: Result<InvocationResult, ExecutionError>, ghost log: CallLog)
    requires cm.Sound() && BlockOptOk(cm, params)
    modifies cm, cm.gas
    ensures cm.Sound() && cm.Steady() && ResultOk(cm, r) && log.result == r
    ensures Success(r) ==>
              && UpgradeCalls(cm.ctx, caller, actor, newCode, params, old(cm.actorCallStack), target, old(Now(cm)), log)
              && WorldOf(log.ran) == Now(cm)
    ensures !Success(r) ==> Reverted(cm)
    ensures Success(r) && target.callee.calls == [] ==>
              && actor in old(cm.tree).view
              && cm.tree.view == old(cm.tree).view[actor := old(cm.tree).view[actor].(code := newCode, delegatedAddress := None)]
    ensures cm.Wealth() == old(cm.Wealth())
    ensures forall law :: TameRun(law, target.callee, Known(actor)) ==> Obeys(cm, law) && Conserves(cm, law)
    decreases target, 8
  {
    ghost var stack, w := cm.actorCallStack, Now(cm);
    r, log := SwapAndConclude(cm, caller, actor, newCode, params, target);
    if Success(r) {
      UpgradeLaws(cm.ctx, caller, actor, newCode, params, stack, target, w, log);
    } else {
      RevertedLaws(cm.ctx, target, IdAddress(actor), w, Now(cm));
      TameAsTarget(target, actor);
    }
  }

  lemma TameAsTarget(target: Target, actor: ActorID)
    ensures forall law :: TameRun(law, target.callee, Known(actor)) ==> TameTarget(law, target, Receiver(IdAddress(actor)))
  {
  }

  lemma UpgradeLaws(ctx: Context, caller: ActorID, actor: ActorID, newCode: Cid, params: Option<Block>, stack: seq<Frame>,
                    target: Target, w: World, log: CallLog)
    requires ValidCodec(ctx.codec) && UpgradeCalls(ctx, caller, actor, newCode, params, stack, target, w, log)
    ensures Balanced(w, WorldOf(log.ran))
    ensures target.callee.calls == [] ==> WorldOf(log.ran).view == Recoded(w, actor, newCode).view
    ensures forall law :: TameRun(law, target.callee, Known(actor)) ==>
              Lawful(law, ctx.codec, w, WorldOf(log.ran)) && Keeps(law, ctx.codec, w, WorldOf(log.ran))
  {
    var u, v := Recoded(w, actor, newCode), WorldOf(log.ran);
    RecodedLaw(Law(false, false, false, 0), ctx.codec, w, actor, newCode);
    CallsLaws(ctx, caller, IdAddress(actor), UpgradeFrom(w.view[actor].code), params, 0, false, stack, target, u, log);
    CallsSilent(ctx, caller, IdAddress(actor), UpgradeFrom(w.view[actor].code), params, 0, false, stack, target, u, log);
    TameAsTarget(target, actor);
    forall law | TameRun(law, target.callee, Known(actor)) ensures Lawful(law, ctx.codec, w, v) && Keeps(law, ctx.codec, w, v) {
      RecodedLaw(law, ctx.codec, w, actor, newCode);
      assert TameTarget(law, target, Receiver(IdAddress(actor)));
      LawfulOn(law, ctx.codec, w, u, v);
      LawfulKeeps(law, ctx.codec, w, v);
    }
  }

  method SwapAndConclude(cm: CallManager, caller: ActorID, actor: ActorID, newCode: Cid, params: Option<Block>, target: Target)
    returns (r: Result<InvocationResult, ExecutionError>, ghost log: CallLog)
    requires cm.Sound() && BlockOptOk(cm, params)
    modifies cm, cm.gas
    ensures cm.Sound() && cm.Steady() && ResultOk(cm, r) && log.result == r
    ensures Success(r) ==>
              && UpgradeCalls(cm.ctx, caller, actor, newCode, params, old(cm.actorCallStack), target, old(Now(cm)), log)
              && WorldOf(log.ran) == Now(cm)
    ensures !Success(r) ==> Reverted(cm)
    decreases target, 7
  {
    cm.BeginTransaction();
    ghost var start := Start(old(cm.tree), old(cm.access), old(cm.events), old(cm.mishaps), old(cm.idxs));
    r, log := SwapCode(cm, caller, actor, newCode, params, target);
    var ended := Conclude(cm, Success(r), start);
    if ended.Err? {
      r := Err(Fatal);
    }
    log := log.(result := r);
  }

  method SwapCode(cm: CallManager, caller: ActorID, actor: ActorID, newCode: Cid, params: Option<Block>, target: Target)
    returns (r: Result<InvocationResult, ExecutionError>, ghost log: CallLog)
    requires cm.Sound() && BlockOptOk(cm, params)
    modifies cm, cm.gas
    ensures cm.Sound() && cm.Steady() && ResultOk(cm, r)
    ensures Success(r) ==>
              && UpgradeCalls(cm.ctx, caller, actor, newCode, params, old(cm.actorCallStack), target, old(Now(cm)), log)
              && WorldOf(log.ran) == Now(cm) && log.result == r
    decreases target, 6
  {
    log := NoLog(Now(cm));
    var oldCode := ReplaceCode(cm, actor, newCode);
    if oldCode.Err? {
      r := Err(oldCode.error);
      return;
    }
    StillOkOpt(cm.ctx.wire, params, old(cm.tree.store.Keys), cm.tree.store.Keys);
    r, log := CallActor(cm, caller, IdAddress(actor), UpgradeFrom(oldCode.value), params, 0, None, false, target);
  }

  /** Gives an actor new code; its delegated address is dropped. */
  method ReplaceCode(cm: CallManager, actor: ActorID, newCode: Cid) returns (r: Result<Cid, ExecutionError>)
    requires cm.Sound()
    modifies cm`tree, cm`access, cm.gas`gasUsed
    ensures cm.Sound() && cm.Steady() && cm.tree == old(cm.tree).(view := cm.tree.view)
    ensures r.Ok? ==>
              && actor in old(cm.tree).view
              && var was := old(cm.tree).view[actor];
                 && r.value == was.code
                 && cm.tree.view == old(cm.tree).view[actor := was.(code := newCode, delegatedAddress := None)]
    ensures r.Ok? ==> cm.Wealth() == old(cm.Wealth())
    ensures r.Err? ==> cm.tree == old(cm.tree)
  {
    var got := cm.GetActor(actor);
    if got.Err? {
      return Err(got.error);
    }
    if got.value.None? {
      return Err(Syscall(IllegalOperation));
    }
    var was := got.value.value;
    var now := ActorState(newCode, was.state, was.sequence, was.balance, None);
    var put := cm.UpdateActor(actor, now);
    if put.Err? {
      return Err(put.error);
    }
    return Ok(was.code);
  }
}
