/** What holds of every run of every tree, by induction on the tree: balances and recorded losses add up,
    and a tree that is tame under a law abides by it. */
module TreeLaws {
  import opened Common
  import opened CborGrammar
  import opened Actors
  import opened Blocks
  import opened CallManager
  import opened Kernel
  import opened SyscallTrees
  import opened Semantics
  import StateTree

  /** Balances and losses add up to what they did, and no mishap is forgotten. */
  ghost predicate Balanced(w: World, w': World) {
    w.mishaps <= w'.mishaps && Total(w'.view) + Lost(w'.mishaps) == Total(w.view) + Lost(w.mishaps)
  }

  ghost predicate Lawful(law: Law, codec: InitCodec, w: World, w': World) {
    Abides(law, codec, PointOf(w), PointOf(w'))
  }

  lemma LawfulOn(law: Law, codec: InitCodec, u: World, v: World, w: World)
    requires Balanced(u, v) && Balanced(v, w) && Lawful(law, codec, u, v)
    requires Begins(law, codec, PointOf(u)) ==> Lawful(law, codec, v, w)
    ensures Balanced(u, w) && Lawful(law, codec, u, w)
  {
    AbidesOn(law, codec, PointOf(u), PointOf(v), PointOf(w));
  }

  /** Under both laws, from actors with fresh IDs, nothing is lost and the IDs stay fresh. */
  ghost predicate Keeps(law: Law, codec: InitCodec, w: World, w': World) {
    law.burnt && law.init && Begins(law, codec, PointOf(w)) ==>
      Total(w'.view) == Total(w.view) && w'.mishaps == w.mishaps && Begins(law, codec, PointOf(w'))
  }

  lemma LawfulKeeps(law: Law, codec: InitCodec, w: World, w': World)
    requires Balanced(w, w') && Lawful(law, codec, w, w')
    ensures Keeps(law, codec, w, w')
  {
    if law.burnt && law.init && Begins(law, codec, PointOf(w)) {
      NothingForbidden(law, w.mishaps, w'.mishaps);
    }
  }

  lemma SameIsLawful(law: Law, codec: InitCodec, w: World, w': World)
    requires w'.view == w.view && w'.mishaps == w.mishaps && StateTree.Recalls(codec, w.view, w.resolved, w'.resolved)
    ensures Balanced(w, w') && Lawful(law, codec, w, w')
  {
    NoNewsAbides(law, codec, PointOf(w), PointOf(w'));
  }

  // ---------------------------------------------------------------- syscalls that run nobody else

  lemma LeafLaw(law: Law, ctx: Context, me: Self, call: Call, w: World, d: Desk, r: Result<(), ExecutionError>, w': World, d': Desk)
    requires Leaf(ctx, me, call, w, d, r, w', d') && !call.Send? && !call.Upgrade?
    ensures Balanced(w, w') && (TameCall(law, call, Known(me.id)) ==> Lawful(law, ctx.codec, w, w'))
  {
    if r.Ok? {
      match call {
        case PutRoot(root) =>
          TotalUpdate(w.view, me.id, w'.view[me.id]);
          if TameCall(law, call, Known(me.id)) {
            PutRootLawful(law, ctx.codec, me.id, root, w, w');
          }
        case Destruct(burnUnspent) =>
          DestroyAccounts(w.view, me.id, w.mishaps);
          if TameCall(law, call, Known(me.id)) {
            DestroyAbides(law, ctx.codec, PointOf(w), me.id, burnUnspent);
          }
        case NewActor(code, id, delegated) =>
          CreateConserves(ctx, w.view, code, id, delegated);
          if TameCall(law, call, Known(me.id)) {
            CreateAbides(law, ctx.codec, PointOf(w), id, w'.view[id]);
          }
        case _ => SameIsLawful(law, ctx.codec, w, w');
      }
    } else {
      SameIsLawful(law, ctx.codec, w, w');
    }
  }

  lemma PutRootLawful(law: Law, codec: InitCodec, id: ActorID, root: Cid, w: World, w': World)
    requires (law.init || law.clear ==> id != INIT_ACTOR_ID) && id in w.view
    requires w' == w.(view := w.view[id := w.view[id].(state := root)])
    ensures Lawful(law, codec, w, w')
  {
    var t := StateTree.Tree(w.view, w.resolved, w.store, []);
    RootAbides(law, codec, t, t.(view := w'.view), id, root, w.mishaps);
  }

  // ---------------------------------------------------------------- runs and calls

  lemma EnrolsLaw(law: Law, ctx: Context, w: World, w': World, addr: Address, id: ActorID, actor: ActorState)
    requires ValidCodec(ctx.codec) && Enrols(ctx, w, w', addr, id, actor) && actor.balance == 0
    ensures Balanced(w, w') && Lawful(law, ctx.codec, w, w') && (Begins(law, ctx.codec, PointOf(w)) ==> Could(law, Born, id))
  {
    var registered := StateTree.Registered(ctx.codec, w.view, addr);
    TotalUpdate(w.view, INIT_ACTOR_ID, registered[INIT_ACTOR_ID]);
    assert Mishaps(registered, id) == Mishaps(w.view, id);
    OverwriteAccounts(registered, id, actor, w.mishaps);
    EnrolledAbides(law, ctx.codec, PointOf(w), PointOf(w'), addr, id, actor);
  }

  lemma PaidLaw(law: Law, codec: InitCodec, w: World, paid: World, from: ActorID, to: ActorID, value: TokenAmount)
    requires Paid(w.view, from, to, value) == Some(paid.view) && paid == w.(view := paid.view)
    ensures Balanced(w, paid) && Lawful(law, codec, w, paid)
  {
    if value != 0 {
      TransferConserves(w.view, from, to, value);
    }
    NoNewsAbides(law, codec, PointOf(w), PointOf(paid));
  }

  /** Every run of an actor, as far as its syscall `n`, and as a whole. */
  lemma {:induction false} RanToLaw(law: Law, ctx: Context, me: Self, inv: Invocation, n: nat, w: World, d: Desk, log: RunLog)
    requires ValidCodec(ctx.codec) && n <= |inv.calls| && RanTo(ctx, me, inv, n, w, d, log)
    ensures Balanced(w, WorldOf(log))
    ensures TameRun(law, inv, Known(me.id)) ==> Lawful(law, ctx.codec, w, WorldOf(log))
    decreases inv, 1, n
  {
    if n == 0 {
      SameIsLawful(law, ctx.codec, w, w);
    } else {
      var u, call := WorldOf(log.before), inv.calls[n - 1];
      RanToLaw(law, ctx, me, inv, n - 1, w, d, log.before);
      StepsLaw(law, ctx, me, call, u, DeskOf(log.before), log.done);
      if TameRun(law, inv, Known(me.id)) {
        assert TameCall(law, call, Known(me.id));
        LawfulOn(law, ctx.codec, w, u, log.done.world);
      }
    }
  }

  lemma {:induction false} RunsLaw(law: Law, ctx: Context, me: Self, inv: Invocation, w: World, d: Desk, log: RunLog)
    requires ValidCodec(ctx.codec) && Runs(ctx, me, inv, w, d, log)
    ensures Balanced(w, WorldOf(log))
    ensures TameRun(law, inv, Known(me.id)) ==> Lawful(law, ctx.codec, w, WorldOf(log))
    decreases inv, 2
  {
    RanToLaw(law, ctx, me, inv, |inv.calls|, w, d, log);
  }

  lemma {:induction false} StepsLaw(law: Law, ctx: Context, me: Self, call: Call, w: World, d: Desk, done: Done)
    requires ValidCodec(ctx.codec) && Steps(ctx, me, call, w, d, done)
    ensures Balanced(w, done.world)
    ensures TameCall(law, call, Known(me.id)) ==> Lawful(law, ctx.codec, w, done.world)
    decreases call, 1
  {
    match call {
      case Send(to, m, _, value, _, flag, target) =>
        if done.call.Some? && Success(done.call.value.result) {
          CallsLaw(law, ctx, me.id, to, Invoke(m), Opened(d, call.params), value, me.readOnly || flag, me.stack, target, w,
                   done.call.value);
        } else {
          SameIsLawful(law, ctx.codec, w, done.world);
        }
      case Upgrade(newCode, _, target) =>
        if done.call.Some? && Success(done.call.value.result) {
          UpgradesLaw(law, ctx, me, call, w, d, done);
        } else {
          SameIsLawful(law, ctx.codec, w, done.world);
        }
      case _ => LeafLaw(law, ctx, me, call, w, d, done.outcome, done.world, done.desk);
    }
  }

  lemma {:induction false} UpgradesLaw(law: Law, ctx: Context, me: Self, call: Call, w: World, d: Desk, done: Done)
    requires ValidCodec(ctx.codec) && call.Upgrade? && done.call.Some? && Success(done.call.value.result)
    requires Upgrades(ctx, me, call, w, d, done, done.call.value)
    ensures Balanced(w, done.world)
    ensures TameCall(law, call, Known(me.id)) ==> Lawful(law, ctx.codec, w, done.world)
    decreases call, 0
  {
    var u := Recoded(w, me.id, call.newCode);
    RecodedLaw(law, ctx.codec, w, me.id, call.newCode);
    CallsLaw(law, ctx, me.caller, IdAddress(me.id), UpgradeFrom(w.view[me.id].code), Opened(d, call.params), 0, false, me.stack,
             call.target, u, done.call.value);
    if TameCall(law, call, Known(me.id)) {
      LawfulOn(law, ctx.codec, w, u, done.world);
    }
  }

  lemma RecodedLaw(law: Law, codec: InitCodec, w: World, id: ActorID, newCode: Cid)
    requires id in w.view
    ensures Balanced(w, Recoded(w, id, newCode)) && Lawful(law, codec, w, Recoded(w, id, newCode))
  {
    var w' := Recoded(w, id, newCode);
    TotalUpdate(w.view, id, w'.view[id]);
    NoNewsAbides(law, codec, PointOf(w), PointOf(w'));
  }

  /** Every call that succeeds. */
  lemma {:induction false} CallsLaw(law: Law, ctx: Context, from: ActorID, to: Address, entry: Entrypoint, params: Option<Block>,
                                    value: TokenAmount, readOnly: bool, stack: seq<Frame>, target: Target, w: World, log: CallLog)
    requires ValidCodec(ctx.codec) && Calls(ctx, from, to, entry, params, value, readOnly, stack, target, w, log)
    ensures Balanced(w, WorldOf(log.ran))
    ensures TameTarget(law, target, Receiver(to)) ==> Lawful(law, ctx.codec, w, WorldOf(log.ran))
    decreases target, 4
  {
    ArrivesLaw(law, ctx, to, readOnly, stack, target, w, log);
    EntersLaw(law, ctx, from, log.receiver, entry, params, value, readOnly, stack + [Frame(log.receiver, EntryNameOf(entry))],
              target.callee, log.arrived, log.paid, log.ran, log.result);
    if TameTarget(law, target, Receiver(to)) {
      if Begins(law, ctx.codec, PointOf(w)) {
        TameForEach(law, target.callee, Receiver(to), log.receiver);
      }
      LawfulOn(law, ctx.codec, w, log.arrived, WorldOf(log.ran));
    }
  }

  lemma {:induction false} EntersLaw(law: Law, ctx: Context, from: ActorID, to: ActorID, entry: Entrypoint, params: Option<Block>,
                                     value: TokenAmount, readOnly: bool, stack: seq<Frame>, callee: Invocation, w: World,
                                     paid: World, ran: RunLog, result: Result<InvocationResult, ExecutionError>)
    requires ValidCodec(ctx.codec)
    requires Enters(ctx, from, to, entry, params, value, readOnly, stack, callee, w, paid, ran, result)
    ensures Balanced(w, WorldOf(ran))
    ensures TameRun(law, callee, Known(to)) ==> Lawful(law, ctx.codec, w, WorldOf(ran))
    decreases callee, 3
  {
    PaidLaw(law, ctx.codec, w, paid, from, to, value);
    if entry != Invoke(METHOD_SEND) {
      RunsLaw(law, ctx, Self(to, from, readOnly, stack), callee, paid, DeskFor(ctx, entry, params), ran);
      if TameRun(law, callee, Known(to)) {
        LawfulOn(law, ctx.codec, w, paid, WorldOf(ran));
      }
    }
  }

  lemma {:induction false} ArrivesLaw(law: Law, ctx: Context, to: Address, readOnly: bool, stack: seq<Frame>, target: Target, w: World,
                                      log: CallLog)
    requires ValidCodec(ctx.codec) && Arrives(ctx, to, readOnly, stack, target.constructor_, w, log)
    ensures Balanced(w, log.arrived)
    ensures TameTarget(law, target, Receiver(to)) ==> Lawful(law, ctx.codec, w, log.arrived)
    ensures Begins(law, ctx.codec, PointOf(w)) ==> Could(law, Receiver(to), log.receiver)
    decreases target, 3
  {
    var known := StateTree.IdOf(ctx.codec, w.view, w.resolved, to);
    if known.Some? {
      SameIsLawful(law, ctx.codec, w, log.arrived);
      FoundCould(law, ctx.codec, PointOf(w), to, log.receiver);
    } else if to.DelegatedAddress? {
      EnrolsLaw(law, ctx, w, log.arrived, to, log.receiver, EmptyActor(ctx, ctx.placeholderCode, Some(to)));
    } else {
      FoundsLaw(law, ctx, to, stack, target.constructor_, w, log);
    }
  }

  lemma {:induction false} FoundsLaw(law: Law, ctx: Context, to: Address, stack: seq<Frame>, constructor_: Invocation, w: World,
                                     log: CallLog)
    requires ValidCodec(ctx.codec) && Founds(ctx, to, stack, constructor_, w, log)
    ensures Balanced(w, log.arrived)
    ensures TameRun(law, constructor_, Born) ==> Lawful(law, ctx.codec, w, log.arrived)
    ensures Begins(law, ctx.codec, PointOf(w)) ==> Could(law, Born, log.receiver)
    decreases constructor_, 3
  {
    EnrolsLaw(law, ctx, w, log.born, to, log.receiver, EmptyActor(ctx, ctx.accountCode, None));
    RunsLaw(law, ctx, Self(log.receiver, SYSTEM_ACTOR_ID, false, stack), constructor_, log.born,
            DeskFor(ctx, ImplicitConstructor, Some(Block(CBOR, ctx.addressBytes(to), []))), log.built);
    if TameRun(law, constructor_, Born) {
      if Begins(law, ctx.codec, PointOf(w)) {
        TameForEach(law, constructor_, Born, log.receiver);
      }
      LawfulOn(law, ctx.codec, w, log.born, log.arrived);
    }
  }
}
