/** What actors run: an invocation is an arbitrary finite tree of syscalls. What an actor's code
    decides to do next is not modelled, so what is proved of running a tree holds for every code.

    The second half says, of a tree and before it runs, that it keeps clear of the two ways in which
    funds can vanish. */
module SyscallTrees {
  import opened Common
  import opened BitStrings
  import opened CborGrammar
  import opened Actors
  import opened Blocks
  import opened CallManager
  import opened Kernel
  import Events
  import StateTree

  // ---------------------------------------------------------------- trees

  /** How the Wasm code ends: it returns a block, it exits with a code and a block, or it crashes in a
      way that is fatal. */
  datatype Exit = Return(block: nat) | Abort(code: nat, block: nat) | Crash

  datatype Invocation = Invocation(calls: seq<Call>, exit: Exit)

  /** What a call runs: the constructor of an account that it creates on the way, and the callee. */
  datatype Target = Target(constructor_: Invocation, callee: Invocation)

  datatype Call =
    | Send(to: Address, methodNum: nat, params: nat, value: TokenAmount, gasLimit: Option<nat>, readOnlyFlag: bool,
           target: Target)
    | Upgrade(newCode: Cid, params: nat, target: Target)
    | GetRoot
    | PutRoot(root: Cid)
    | OwnBalance
    | Destruct(burnUnspent: bool)
    | Open(cid: Cid)
    | Create(codec: nat, data: seq<Byte>)
    | LinkBlock(block: nat, hashFun: nat, hashLen: nat)
    | NewActor(code: Cid, id: ActorID, delegated: Option<Address>)
    | Resolve(addr: Address)
    | Balance(actor: ActorID)
    | Emit(headers: seq<Events.Header>, keys: seq<Byte>, values: seq<Byte>)
    | Execute(cost: nat)

  datatype Entrypoint = ImplicitConstructor | Invoke(methodNum: nat) | UpgradeFrom(oldCode: Cid)

  const METHOD_SEND: nat := 0
  const METHOD_CONSTRUCTOR: nat := 1
  const METHOD_UPGRADE: nat := 932083
  const NO_DATA_BLOCK_ID: nat := 0
  const OK: nat := 0
  const SYS_OUT_OF_GAS: nat := 7
  const SYS_MISSING_RETURN: nat := 11

  datatype InvocationResult = InvocationResult(exitCode: nat, value: Option<Block>)

  predicate Success(r: Result<InvocationResult, ExecutionError>) {
    r.Ok? && r.value.exitCode == OK
  }

  function EntryNameOf(e: Entrypoint): EntryName {
    if e.UpgradeFrom? then UpgradeName else InvokeName
  }

  function MethodOf(e: Entrypoint): nat {
    match e
    case ImplicitConstructor => METHOD_CONSTRUCTOR
    case Invoke(m) => m
    case UpgradeFrom(_) => METHOD_UPGRADE
  }

  /** The addresses that are given an actor when something is sent to them. */
  predicate Welcome(to: Address) {
    to.KeyAddress? || (to.DelegatedAddress? && to.namespace == EAM_ACTOR_ID)
  }

  // ---------------------------------------------------------------- short trees, exactly

  predicate Ends(exit: Exit) {
    !exit.Crash? && exit.block == NO_DATA_BLOCK_ID
  }

  function CodeOf(exit: Exit): nat {
    if exit.Abort? then exit.code else OK
  }

  /** What a tree makes of the actors that has no syscall, or just a self-destruct. */
  ghost function Played(view: ActorMap, id: ActorID, inv: Invocation): Option<ActorMap> {
    if !Ends(inv.exit) then None
    else if inv.calls == [] then Some(view)
    else if inv.calls == [Destruct(true)] && CanBurn(view, id) then Some(Destroyed(view, id))
    else None
  }

  lemma PlayedOnce(view: ActorMap, id: ActorID, inv: Invocation)
    requires Played(view, id, inv).Some? && inv.calls != []
    ensures inv.calls == [Destruct(true)] && CanBurn(view, id) && Played(view, id, inv).value == Destroyed(view, id)
  {
  }

  /** What the value that a call carries makes of the actors. */
  ghost function Paid(view: ActorMap, from: ActorID, to: ActorID, value: TokenAmount): Option<ActorMap> {
    if to !in view then None
    else if value == 0 then Some(view)
    else if Transferable(view, from, to, value) then Some(Transferred(view, from, to, value))
    else None
  }

  ghost function Called(view: ActorMap, from: ActorID, to: ActorID, entry: Entrypoint, value: TokenAmount, callee: Invocation)
    : Option<ActorMap>
  {
    var paid := Paid(view, from, to, value);
    if paid.None? || entry == Invoke(METHOD_SEND) then paid else Played(paid.value, to, callee)
  }

  /** The actors once an account is created for an address and its constructor has run. */
  ghost function Founded(ctx: Context, view: ActorMap, addr: Address, constructor_: Invocation): Option<ActorMap> {
    var init := StateTree.InitIn(ctx.codec, view);
    if init.None? then None
    else
      var id := init.value.nextId;
      Played(StateTree.Registered(ctx.codec, view, addr)[id := EmptyActor(ctx, ctx.accountCode, None)], id, constructor_)
  }

  /** The receiver's ID, and the actors once it exists. */
  ghost function Arrival(ctx: Context, view: ActorMap, resolved: map<Address, ActorID>, to: Address, constructor_: Invocation)
    : Option<(ActorID, ActorMap)>
  {
    var known := StateTree.IdOf(ctx.codec, view, resolved, to);
    var init := StateTree.InitIn(ctx.codec, view);
    if known.Some? then Some((known.value, view))
    else if init.None? || !Welcome(to) || (to.KeyAddress? && to == ctx.zeroKey) then None
    else
      var id := init.value.nextId;
      if to.DelegatedAddress?
      then Some((id, StateTree.Registered(ctx.codec, view, to)[id := EmptyActor(ctx, ctx.placeholderCode, Some(to))]))
      else
        var founded := Founded(ctx, view, to, constructor_);
        if founded.None? then None else Some((id, founded.value))
  }

  ghost function Sequel(ctx: Context, view: ActorMap, resolved: map<Address, ActorID>, from: ActorID, to: Address,
                        entry: Entrypoint, value: TokenAmount, target: Target): Option<ActorMap>
  {
    var arrived := Arrival(ctx, view, resolved, to, target.constructor_);
    if arrived.None? then None else Called(arrived.value.1, from, arrived.value.0, entry, value, target.callee)
  }

  lemma FoundedIs(ctx: Context, before: ActorMap, after: ActorMap, addr: Address, id: ActorID, constructor_: Invocation)
    requires Enrolled(ctx.codec, before, after, addr, id, EmptyActor(ctx, ctx.accountCode, None))
    ensures Founded(ctx, before, addr, constructor_)
            == Called(after, SYSTEM_ACTOR_ID, id, ImplicitConstructor, 0, constructor_)
  {
  }

  /** Where nothing costs gas and the outcome is foretold, the call ends with the code's exit code and
      leaves those actors. */
  ghost predicate AsTold(p: PriceList, told: Option<ActorMap>, code: nat, r: Result<InvocationResult, ExecutionError>,
                         after: ActorMap)
  {
    Free(p) && told.Some? ==> r.Ok? && r.value.exitCode == code && after == told.value
  }

  /** A payment that is not made fails, where nothing costs gas, only because it can not be made. */
  ghost predicate Payable(p: PriceList, view: ActorMap, from: ActorID, to: ActorID, value: TokenAmount,
                          r: Result<(), ExecutionError>, after: ActorMap)
  {
    && (r.Ok? ==> Paid(view, from, to, value) == Some(after))
    && (Free(p) && r.Err? ==> Paid(view, from, to, value).None?)
  }

  lemma CalledTold(p: PriceList, view: ActorMap, from: ActorID, to: ActorID, entry: Entrypoint, value: TokenAmount,
                   callee: Invocation, paid: Result<(), ExecutionError>, between: ActorMap,
                   r: Result<InvocationResult, ExecutionError>, after: ActorMap)
    requires Payable(p, view, from, to, value, paid, between)
    requires paid.Ok? ==> if entry == Invoke(METHOD_SEND) then Success(r) && after == between
                          else AsTold(p, Played(between, to, callee), CodeOf(callee.exit), r, after)
    ensures AsTold(p, Called(view, from, to, entry, value, callee), EntryCode(entry, callee), r, after)
  {
  }

  ghost predicate Arrived(ctx: Context, view: ActorMap, resolved: map<Address, ActorID>, to: Address, constructor_: Invocation,
                          r: Result<ActorID, ExecutionError>, after: ActorMap)
  {
    var told := Arrival(ctx, view, resolved, to, constructor_);
    Free(ctx.prices) && told.Some? ==> r.Ok? && told.value == (r.value, after)
  }

  lemma ArrivedKnown(ctx: Context, view: ActorMap, resolved: map<Address, ActorID>, to: Address, constructor_: Invocation,
                     id: ActorID)
    requires StateTree.IdOf(ctx.codec, view, resolved, to) == Some(id)
    ensures Arrived(ctx, view, resolved, to, constructor_, Ok(id), view)
  {
  }

  lemma NeverArrives(ctx: Context, view: ActorMap, resolved: map<Address, ActorID>, to: Address, constructor_: Invocation,
                     r: Result<ActorID, ExecutionError>, after: ActorMap)
    requires Free(ctx.prices) ==> StateTree.IdOf(ctx.codec, view, resolved, to).None?
                                  && (StateTree.InitIn(ctx.codec, view).None? || !Welcome(to))
    ensures Arrived(ctx, view, resolved, to, constructor_, r, after)
  {
  }

  lemma SequelTold(ctx: Context, view: ActorMap, resolved: map<Address, ActorID>, from: ActorID, to: Address,
                   entry: Entrypoint, value: TokenAmount, target: Target, receiver: Result<ActorID, ExecutionError>,
                   between: ActorMap, r: Result<InvocationResult, ExecutionError>, after: ActorMap)
    requires Arrived(ctx, view, resolved, to, target.constructor_, receiver, between)
    requires receiver.Ok? ==> AsTold(ctx.prices, Called(between, from, receiver.value, entry, value, target.callee),
                                     EntryCode(entry, target.callee), r, after)
    ensures AsTold(ctx.prices, Sequel(ctx, view, resolved, from, to, entry, value, target),
                   EntryCode(entry, target.callee), r, after)
  {
  }

  function EntryCode(entry: Entrypoint, callee: Invocation): nat {
    if entry == Invoke(METHOD_SEND) then OK else CodeOf(callee.exit)
  }

  // ---------------------------------------------------------------- tame trees

  /** Which losses a tree is to keep clear of: `burnt`, that the burnt-funds actor destroys itself;
      `init`, that an ID is given out twice. IDs below `floor` were given out before. If `clear`, only
      ID addresses lead to the init actor and the burnt-funds actor. */
  datatype Law = Law(burnt: bool, init: bool, clear: bool, floor: ActorID)

  ghost predicate Forbids(law: Law, m: Mishap) {
    if m.Overwritten? then law.init else law.burnt
  }

  predicate Ordinary(id: ActorID) {
    id != INIT_ACTOR_ID && id != BURNT_FUNDS_ACTOR_ID
  }

  /** Who runs a tree: an actor named by its ID, one found by some other address, or one that a send has
      just created. */
  datatype Who = Known(id: ActorID) | Found | Born

  /** The actor that runs can be `id`. */
  predicate Could(law: Law, who: Who, id: ActorID) {
    match who
    case Known(i) => i == id
    case Found => law.clear ==> Ordinary(id)
    case Born => (law.clear ==> Ordinary(id)) && (law.init ==> law.floor <= id)
  }

  function Receiver(to: Address): Who {
    if to.IdAddress? then Known(to.id) else Found
  }

  /** Only the burnt-funds actor must not burn its balance, and only the init actor must neither change
      its state nor create an actor under an ID that was not given out before. */
  ghost predicate TameRun(law: Law, inv: Invocation, who: Who) {
    forall i :: 0 <= i < |inv.calls| ==> TameCall(law, inv.calls[i], who)
  }

  ghost predicate TameCall(law: Law, call: Call, who: Who) {
    match call
    case Send(to, _, _, _, _, _, target) => TameTarget(law, target, Receiver(to))
    case Upgrade(_, _, target) => TameRun(law, target.callee, who)
    case PutRoot(_) => law.init || law.clear ==> !Could(law, who, INIT_ACTOR_ID)
    case NewActor(_, id, _) => Could(law, who, INIT_ACTOR_ID) ==> Creates(law, id)
    case Destruct(burnUnspent) => law.burnt && burnUnspent ==> !Could(law, who, BURNT_FUNDS_ACTOR_ID)
    case _ => true
  }

  predicate Creates(law: Law, id: ActorID) {
    (law.init ==> id < law.floor) && (law.init || law.clear ==> id != INIT_ACTOR_ID)
  }

  ghost predicate TameTarget(law: Law, target: Target, who: Who) {
    TameRun(law, target.callee, who) && (who.Found? ==> TameRun(law, target.constructor_, Born))
  }

  /** What is tame for all that could run it is tame for each of them. */
  lemma {:induction false} TameForEach(law: Law, inv: Invocation, who: Who, id: ActorID)
    requires TameRun(law, inv, who) && Could(law, who, id)
    ensures TameRun(law, inv, Known(id))
    decreases inv
  {
    forall i | 0 <= i < |inv.calls| ensures TameCall(law, inv.calls[i], Known(id)) {
      assert TameCall(law, inv.calls[i], who);
      match inv.calls[i] {
        case Upgrade(_, _, target) => TameForEach(law, target.callee, who, id);
        case _ =>
      }
    }
  }

  /** Nothing is sent to the init actor or to the burnt-funds actor under its ID. */
  ghost predicate Shuns(inv: Invocation) {
    forall i :: 0 <= i < |inv.calls| ==> ShunsCall(inv.calls[i])
  }

  ghost predicate ShunsCall(call: Call) {
    match call
    case Send(to, _, _, _, _, _, target) => (to.IdAddress? ==> Ordinary(to.id)) && Shuns(target.callee) && Shuns(target.constructor_)
    case Upgrade(_, _, target) => Shuns(target.callee)
    case _ => true
  }

  /** Whatever else a tree does, if it sends nothing to the two of them it is tame for everyone else. */
  lemma {:induction false} ShunsIsTame(law: Law, inv: Invocation, who: Who)
    requires law.clear && Shuns(inv) && !Could(law, who, INIT_ACTOR_ID) && !Could(law, who, BURNT_FUNDS_ACTOR_ID)
    ensures TameRun(law, inv, who)
    decreases inv
  {
    forall i | 0 <= i < |inv.calls| ensures TameCall(law, inv.calls[i], who) {
      assert ShunsCall(inv.calls[i]);
      match inv.calls[i] {
        case Send(to, _, _, _, _, _, target) =>
          ShunsIsTame(law, target.callee, Receiver(to));
          ShunsIsTame(law, target.constructor_, Born);
        case Upgrade(_, _, target) => ShunsIsTame(law, target.callee, who);
        case _ =>
      }
    }
  }

  // ---------------------------------------------------------------- what tame trees keep

  /** The IDs below `floor` and those of all actors were given out by the init actor. */
  ghost predicate Fresh(codec: InitCodec, floor: ActorID, view: ActorMap) {
    var init := StateTree.InitIn(codec, view);
    init.Some? ==> floor <= init.value.nextId && forall id :: id in view ==> id < init.value.nextId
  }

  /** What is remembered of addresses and what the init actor knows of them, now and from now on, leads
      neither to the init actor nor to the burnt-funds actor. */
  ghost predicate Clear(codec: InitCodec, view: ActorMap, resolved: map<Address, ActorID>) {
    var init := StateTree.InitIn(codec, view);
    && (forall a :: a in resolved ==> Ordinary(resolved[a]))
    && (init.Some? ==>
          init.value.nextId > BURNT_FUNDS_ACTOR_ID && forall a :: a in init.value.addressMap ==> Ordinary(init.value.addressMap[a]))
  }

  /** A point of a run: the actors, the resolutions that are remembered, and the mishaps so far. */
  datatype Point = Point(view: ActorMap, resolved: map<Address, ActorID>, mishaps: seq<Mishap>)

  ghost predicate Begins(law: Law, codec: InitCodec, p: Point) {
    && (law.init ==> Fresh(codec, law.floor, p.view))
    && (law.clear ==> Clear(codec, p.view, p.resolved))
  }

  ghost predicate NoneForbidden(law: Law, before: seq<Mishap>, after: seq<Mishap>) {
    forall i :: |before| <= i < |after| ==> !Forbids(law, after[i])
  }

  /** From one point of a run to another, none of the losses that `law` names. */
  ghost predicate Abides(law: Law, codec: InitCodec, p: Point, q: Point) {
    && p.mishaps <= q.mishaps
    && (Begins(law, codec, p) ==> Begins(law, codec, q) && NoneForbidden(law, p.mishaps, q.mishaps))
  }

  lemma AbidesOn(law: Law, codec: InitCodec, p: Point, q: Point, s: Point)
    requires Abides(law, codec, p, q) && q.mishaps <= s.mishaps
    requires Begins(law, codec, p) ==> Abides(law, codec, q, s)
    ensures Abides(law, codec, p, s)
  {
    if Begins(law, codec, p) {
      forall i | |p.mishaps| <= i < |s.mishaps| ensures !Forbids(law, s.mishaps[i]) {
        if i < |q.mishaps| {
          assert s.mishaps[i] == q.mishaps[i];
        }
      }
    }
  }

  /** The receiver that is found by an address, or made for it, is one that the tree was tame for. */
  lemma FoundCould(law: Law, codec: InitCodec, p: Point, to: Address, id: ActorID)
    requires StateTree.IdOf(codec, p.view, p.resolved, to) == Some(id)
    ensures Begins(law, codec, p) ==> Could(law, Receiver(to), id)
  {
  }

  lemma BornCould(law: Law, codec: InitCodec, p: Point, id: ActorID)
    requires StateTree.InitIn(codec, p.view).Some? && id == StateTree.InitIn(codec, p.view).value.nextId
    ensures Begins(law, codec, p) ==> Could(law, Born, id)
  {
  }

  /** No actor is new and the init actor's state is as it was. */
  ghost predicate NoNews(before: ActorMap, after: ActorMap) {
    && after.Keys <= before.Keys
    && (INIT_ACTOR_ID in after ==> after[INIT_ACTOR_ID].state == before[INIT_ACTOR_ID].state)
  }

  lemma NoNewsAbides(law: Law, codec: InitCodec, p: Point, q: Point)
    requires NoNews(p.view, q.view) && q.mishaps == p.mishaps && StateTree.Recalls(codec, p.view, p.resolved, q.resolved)
    ensures Abides(law, codec, p, q)
  {
  }

  /** Giving out the next ID keeps all IDs fresh, and nothing is overwritten. */
  lemma EnrolledAbides(law: Law, codec: InitCodec, p: Point, q: Point, addr: Address, id: ActorID, actor: ActorState)
    requires ValidCodec(codec) && Enrolled(codec, p.view, q.view, addr, id, actor)
    requires q.resolved == p.resolved[addr := id] && q.mishaps == p.mishaps + Mishaps(p.view, id)
    ensures Abides(law, codec, p, q) && (Begins(law, codec, p) ==> Could(law, Born, id))
  {
    BornCould(law, codec, p, id);
    if (law.init || law.clear) && Begins(law, codec, p) {
      var InitState(addresses, next) := StateTree.InitIn(codec, p.view).value;
      assert INIT_ACTOR_ID in p.view && id != INIT_ACTOR_ID;
      assert StateTree.InitIn(codec, q.view) == Some(InitState(addresses[addr := next], next + 1));
    }
  }

  lemma RootAbides(law: Law, codec: InitCodec, before: StateTree.Tree, after: StateTree.Tree, id: ActorID, root: Cid, m: seq<Mishap>)
    requires Rooted(before, after, id, root) && (law.init || law.clear ==> id != INIT_ACTOR_ID)
    ensures Abides(law, codec, Point(before.view, before.resolved, m), Point(after.view, after.resolved, m))
  {
  }

  lemma CreateAbides(law: Law, codec: InitCodec, p: Point, id: ActorID, actor: ActorState)
    requires Creates(law, id)
    ensures Abides(law, codec, p, p.(view := p.view[id := actor]))
  {
  }

  lemma DestroyAbides(law: Law, codec: InitCodec, p: Point, id: ActorID, burnUnspent: bool)
    requires law.burnt && burnUnspent ==> id != BURNT_FUNDS_ACTOR_ID
    requires BalanceOf(p.view, id) == 0 || burnUnspent
    ensures Abides(law, codec, p, Point(Destroyed(p.view, id), p.resolved, p.mishaps + Burning(p.view, id)))
  {
    assert NoNews(p.view, Destroyed(p.view, id));
  }

  /** A run that has none of the two losses loses nothing. */
  lemma NothingForbidden(law: Law, before: seq<Mishap>, after: seq<Mishap>)
    requires law.burnt && law.init && before <= after && NoneForbidden(law, before, after)
    ensures before == after
  {
    if |before| < |after| {
      assert Forbids(law, after[|before|]);
    }
  }
}
