/** What a tree of syscalls does, as a big-step relation between the world before and after: no gas, no
    undo logs, no call stack to keep, no transactions but "as if it had not run". The call manager and the
    kernel, which have all of these, are proved in `Execution` to do what this says, step by step.

    A log is what happened at each syscall; the relation says that a log is one that the tree has. */
module Semantics {
  import opened Common
  import opened BitStrings
  import opened CborGrammar
  import opened Actors
  import opened Blocks
  import opened CallManager
  import opened Kernel
  import opened SyscallTrees
  import Events
  import StateTree

  // ---------------------------------------------------------------- states and logs

  /** What all actors share. */
  datatype World = World(
    view: ActorMap,
    resolved: map<Address, ActorID>,
    store: Blockstore,
    events: seq<Event>,
    mishaps: seq<Mishap>)

  /** What an actor has open. */
  datatype Desk = Desk(blocks: seq<Block>, reachable: set<Cid>)

  /** The actor that runs, who called it, and the frames up to its own. */
  datatype Self = Self(id: ActorID, caller: ActorID, readOnly: bool, stack: seq<Frame>)

  /** A run: where it began, and each syscall after the ones before it. */
  datatype RunLog = Begun(world: World, desk: Desk) | Then(before: RunLog, done: Done)

  datatype Done = Done(outcome: Result<(), ExecutionError>, world: World, desk: Desk, call: Option<CallLog>)

  /** A call: how it ended, the receiver, the world once it existed (`born` before its constructor ran, if
      it was created), once it was paid, and its run. */
  datatype CallLog = CallLog(
    result: Result<InvocationResult, ExecutionError>,
    receiver: ActorID,
    born: World,
    built: RunLog,
    arrived: World,
    paid: World,
    ran: RunLog)

  function PointOf(w: World): Point {
    Point(w.view, w.resolved, w.mishaps)
  }

  function WorldOf(log: RunLog): World {
    if log.Begun? then log.world else log.done.world
  }

  function DeskOf(log: RunLog): Desk {
    if log.Begun? then log.desk else log.done.desk
  }

  // ---------------------------------------------------------------- syscalls that run nobody else

  /** What an error leaves: nothing, but that an address was looked up. */
  ghost predicate Unchanged(ctx: Context, w: World, d: Desk, w': World, d': Desk) {
    w' == w.(resolved := w'.resolved) && StateTree.Recalls(ctx.codec, w.view, w.resolved, w'.resolved) && d' == d
  }

  /** When a syscall that runs nobody else succeeds, if there is gas for it. */
  ghost predicate May(ctx: Context, me: Self, call: Call, w: World, d: Desk) {
    match call
    case GetRoot => me.id in w.view
    case PutRoot(root) => !me.readOnly && root in d.reachable && me.id in w.view
    case Destruct(burnUnspent) => !me.readOnly && (BalanceOf(w.view, me.id) == 0 || burnUnspent)
    case Open(cid) => Openable(ctx.wire, cid, w.store, d.reachable) && |d.blocks| < MAX_BLOCKS
    case Create(codec, data) => Makeable(ctx, codec, data, d.reachable) && |d.blocks| < MAX_BLOCKS
    case LinkBlock(id, hashFun, hashLen) => 1 <= id <= |d.blocks| && hashFun == BLAKE2B_256 && hashLen == 32
    case NewActor(code, id, delegated) =>
      me.id == INIT_ACTOR_ID && !me.readOnly && Creatable(ctx, w.view, code, id, delegated)
    case Resolve(addr) => StateTree.IdOf(ctx.codec, w.view, w.resolved, addr).Some?
    case Balance(actor) => actor in w.view
    case Emit(headers, keys, values) => !me.readOnly && exists es :: Events.Stands(headers, keys, values, es)
    case _ => true
  }

  /** It does so exactly then, and this is what it does; an error changes nothing. */
  ghost predicate Leaf(ctx: Context, me: Self, call: Call, w: World, d: Desk, r: Result<(), ExecutionError>, w': World, d': Desk) {
    if r.Err? then !May(ctx, me, call, w, d) && Unchanged(ctx, w, d, w', d') && (!call.Resolve? ==> w' == w)
    else
      match call
      case GetRoot => w' == w && me.id in w.view && d' == d.(reachable := d.reachable + {w.view[me.id].state})
      case PutRoot(root) =>
        && !me.readOnly && root in d.reachable && root in w.store && me.id in w.view && d' == d
        && w' == w.(view := w.view[me.id := w.view[me.id].(state := root)])
      case Destruct(burnUnspent) =>
        && !me.readOnly && CanBurn(w.view, me.id) && (BalanceOf(w.view, me.id) == 0 || burnUnspent) && d' == d
        && w' == w.(view := Destroyed(w.view, me.id), mishaps := w.mishaps + Burning(w.view, me.id))
      case Open(cid) =>
        && w' == w && cid in d.reachable && cid in w.store && |d'.blocks| == |d.blocks| + 1
        && var b := d'.blocks[|d.blocks|];
           && b.codec == cid.codec && b.data == w.store[cid] && HasLinks(ctx.wire, b.codec, b.data, b.links)
           && d' == Desk(d.blocks + [b], d.reachable + LinkSet(b.links))
      case Create(codec, data) =>
        && w' == w && |data| <= ctx.maxBlockSize && Allowed(codec) && |d'.blocks| == |d.blocks| + 1
        && var b := d'.blocks[|d.blocks|];
           && b.codec == codec && b.data == data && HasLinks(ctx.wire, codec, data, b.links)
           && LinkSet(b.links) <= d.reachable && d' == d.(blocks := d.blocks + [b])
      case LinkBlock(id, hashFun, hashLen) =>
        && 1 <= id <= |d.blocks| && hashFun == BLAKE2B_256 && hashLen == 32
        && var b := d.blocks[id - 1];
           var k := ctx.digest(b.codec, b.data);
           w' == w.(store := w.store[k := b.data]) && d' == d.(reachable := d.reachable + {k})
      case NewActor(code, id, delegated) =>
        && me.id == INIT_ACTOR_ID && !me.readOnly && Creatable(ctx, w.view, code, id, delegated) && d' == d
        && w' == w.(view := w.view[id := Created(ctx, w.view, code, id, delegated)])
      case Resolve(addr) => StateTree.IdOf(ctx.codec, w.view, w.resolved, addr).Some? && Unchanged(ctx, w, d, w', d')
      case Balance(actor) => actor in w.view && w' == w && d' == d
      case Emit(headers, keys, values) =>
        && !me.readOnly && d' == d
        && exists es :: Events.Stands(headers, keys, values, es) && w' == w.(events := w.events + [Event(me.id, es)])
      case _ => w' == w && d' == d
  }

  // ---------------------------------------------------------------- runs and calls

  /** The blocks that code finds when it begins. */
  function DeskFor(ctx: Context, entry: Entrypoint, params: Option<Block>): Desk {
    var blocks := if params.Some? then [params.value] else [];
    Desk(if entry.UpgradeFrom? then blocks + [Block(CBOR, ctx.cidBytes(entry.oldCode), [])] else blocks,
         if params.Some? then LinkSet(params.value.links) else {})
  }

  function Opened(d: Desk, id: nat): Option<Block>
    requires id <= |d.blocks|
  {
    if id == NO_DATA_BLOCK_ID then None else Some(d.blocks[id - 1])
  }

  /** How the end of the code is a result. */
  function Ended(exit: Exit, d: Desk): Result<InvocationResult, ExecutionError> {
    match exit
    case Return(id) =>
      Ok(if id <= |d.blocks| then InvocationResult(OK, Opened(d, id)) else InvocationResult(SYS_MISSING_RETURN, None))
    case Abort(code, id) => if id <= |d.blocks| then Ok(InvocationResult(code, Opened(d, id))) else Err(Fatal)
    case Crash => Err(Fatal)
  }

  /** The desk with the block that a callee returned. */
  function Received(d: Desk, r: Result<InvocationResult, ExecutionError>): Desk {
    if r.Ok? && r.value.value.Some?
    then Desk(d.blocks + [r.value.value.value], d.reachable + LinkSet(r.value.value.value.links))
    else d
  }

  function Outcome<T>(r: Result<T, ExecutionError>): Result<(), ExecutionError> {
    if r.Ok? then Ok(()) else Err(r.error)
  }

  /** An actor was put under the next ID. */
  ghost predicate Enrols(ctx: Context, w: World, w': World, addr: Address, id: ActorID, actor: ActorState) {
    && Enrolled(ctx.codec, w.view, w'.view, addr, id, actor)
    && w'.resolved == w.resolved[addr := id] && w'.mishaps == w.mishaps + Mishaps(w.view, id)
    && w'.events == w.events && w.store.Keys <= w'.store.Keys
  }

  /** The first `n` syscalls of an actor, in order, each from where the last one ended. */
  ghost predicate RanTo(ctx: Context, me: Self, inv: Invocation, n: nat, w: World, d: Desk, log: RunLog)
    requires n <= |inv.calls|
    decreases inv, 0, n
  {
    if n == 0 then log == Begun(w, d)
    else
      && log.Then? && RanTo(ctx, me, inv, n - 1, w, d, log.before)
      && Steps(ctx, me, inv.calls[n - 1], WorldOf(log.before), DeskOf(log.before), log.done)
  }

  /** All of them. */
  ghost predicate Runs(ctx: Context, me: Self, inv: Invocation, w: World, d: Desk, log: RunLog)
    decreases inv, 1
  {
    RanTo(ctx, me, inv, |inv.calls|, w, d, log)
  }

  /** One syscall. A call that does not succeed leaves the world as it was, but for blocks. */
  ghost predicate Steps(ctx: Context, me: Self, call: Call, w: World, d: Desk, done: Done)
    decreases call, 1
  {
    && Settled(done.outcome)
    && match call
       case Send(_, _, _, _, _, _, _) =>
         if done.call.None? then Refuses(me, call, d, done.outcome) && done.world == w && done.desk == d
         else Sends(ctx, me, call, w, d, done, done.call.value)
       case Upgrade(_, _, _) =>
         if done.call.None? then Refuses(me, call, d, done.outcome) && done.world == w && done.desk == d
         else Upgrades(ctx, me, call, w, d, done, done.call.value)
       case _ => Leaf(ctx, me, call, w, d, done.outcome, done.world, done.desk)
  }

  /** Why a call is not even tried. */
  ghost predicate Refuses(me: Self, call: Call, d: Desk, r: Result<(), ExecutionError>)
    requires call.Send? || call.Upgrade?
  {
    || (call.Send? && (me.readOnly || call.readOnlyFlag) && call.value != 0 && r == Err(Syscall(ReadOnly)))
    || (call.Upgrade? && me.readOnly && r == Err(Syscall(ReadOnly)))
    || (call.Upgrade? && !MayUpgrade(me.stack, me.id) && r == Err(Syscall(Forbidden)))
    || (call.params > |d.blocks| && r == Err(Syscall(InvalidHandle)))
    || (|d.blocks| == MAX_BLOCKS && r == Err(Syscall(LimitExceeded)))
  }

  /** No frame but upgrades of the actor itself stands above a frame that invokes it. */
  ghost predicate MayUpgrade(stack: seq<Frame>, actor: ActorID) {
    forall i, j :: 0 <= i < j < |stack| && stack[i] == Frame(actor, InvokeName) ==> stack[j] == Frame(actor, UpgradeName)
  }

  /** What the caller sees of a call that was tried. */
  ghost predicate Returns(w: World, d: Desk, done: Done, log: CallLog) {
    && done.outcome == Outcome(log.result) && done.desk == Received(d, log.result)
    && (if Success(log.result) then done.world == WorldOf(log.ran)
        else done.world == w.(store := done.world.store) && w.store.Keys <= done.world.store.Keys)
  }

  ghost predicate Sends(ctx: Context, me: Self, call: Call, w: World, d: Desk, done: Done, log: CallLog)
    requires call.Send?
    decreases call, 0
  {
    var readOnly := me.readOnly || call.readOnlyFlag;
    && !(readOnly && call.value != 0) && call.params <= |d.blocks|
    && Returns(w, d, done, log)
    && (Success(log.result) ==>
          Calls(ctx, me.id, call.to, Invoke(call.methodNum), Opened(d, call.params), call.value, readOnly, me.stack, call.target,
                w, log))
  }

  /** The new code's upgrade entry point is run, by the caller of this actor, with the new code in place. */
  ghost predicate Upgrades(ctx: Context, me: Self, call: Call, w: World, d: Desk, done: Done, log: CallLog)
    requires call.Upgrade?
    decreases call, 0
  {
    && !me.readOnly && MayUpgrade(me.stack, me.id) && call.params <= |d.blocks|
    && Returns(w, d, done, log)
    && (Success(log.result) ==>
          && me.id in w.view
          && Calls(ctx, me.caller, IdAddress(me.id), UpgradeFrom(w.view[me.id].code), Opened(d, call.params), 0, false, me.stack,
                   call.target, Recoded(w, me.id, call.newCode), log))
  }

  /** The actor has new code and no delegated address. */
  function Recoded(w: World, id: ActorID, newCode: Cid): World
    requires id in w.view
  {
    w.(view := w.view[id := w.view[id].(code := newCode, delegatedAddress := None)])
  }

  /** A call that returned: the receiver is found or made, is paid, and runs. */
  ghost predicate Calls(ctx: Context, from: ActorID, to: Address, entry: Entrypoint, params: Option<Block>, value: TokenAmount,
                        readOnly: bool, stack: seq<Frame>, target: Target, w: World, log: CallLog)
    decreases target, 4
  {
    && Arrives(ctx, to, readOnly, stack, target.constructor_, w, log)
    && Enters(ctx, from, log.receiver, entry, params, value, readOnly, stack + [Frame(log.receiver, EntryNameOf(entry))],
              target.callee, log.arrived, log.paid, log.ran, log.result)
  }

  ghost predicate Arrives(ctx: Context, to: Address, readOnly: bool, stack: seq<Frame>, constructor_: Invocation, w: World,
                          log: CallLog)
    decreases constructor_, 3
  {
    var known := StateTree.IdOf(ctx.codec, w.view, w.resolved, to);
    if known.Some? then
      && log.receiver == known.value && log.arrived == w.(resolved := log.arrived.resolved)
      && StateTree.Recalls(ctx.codec, w.view, w.resolved, log.arrived.resolved)
    else
      && !readOnly && Welcome(to)
      && if to.DelegatedAddress?
         then Enrols(ctx, w, log.arrived, to, log.receiver, EmptyActor(ctx, ctx.placeholderCode, Some(to)))
         else Founds(ctx, to, stack, constructor_, w, log)
  }

  /** An account is created, and whatever its constructor does, and however that ends, stays. */
  ghost predicate Founds(ctx: Context, to: Address, stack: seq<Frame>, constructor_: Invocation, w: World, log: CallLog)
    decreases constructor_, 2
  {
    && to != ctx.zeroKey
    && Enrols(ctx, w, log.born, to, log.receiver, EmptyActor(ctx, ctx.accountCode, None))
    && Runs(ctx, Self(log.receiver, SYSTEM_ACTOR_ID, false, stack), constructor_, log.born,
            DeskFor(ctx, ImplicitConstructor, Some(Block(CBOR, ctx.addressBytes(to), []))), log.built)
    && Ended(constructor_.exit, DeskOf(log.built)).Ok? && log.arrived == WorldOf(log.built)
  }

  /** The value goes from the caller to the receiver, whose code then runs, unless it was a plain send. */
  ghost predicate Enters(ctx: Context, from: ActorID, to: ActorID, entry: Entrypoint, params: Option<Block>, value: TokenAmount,
                         readOnly: bool, stack: seq<Frame>, callee: Invocation, w: World, paid: World, ran: RunLog,
                         result: Result<InvocationResult, ExecutionError>)
    decreases callee, 2
  {
    && Paid(w.view, from, to, value) == Some(paid.view) && paid == w.(view := paid.view)
    && if entry == Invoke(METHOD_SEND) then WorldOf(ran) == paid && result == Ok(InvocationResult(OK, None))
       else Runs(ctx, Self(to, from, readOnly, stack), callee, paid, DeskFor(ctx, entry, params), ran)
            && result == Ended(callee.exit, DeskOf(ran))
  }
}
