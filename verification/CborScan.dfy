/** The kernel's link scanner over DAG-CBOR, which charges gas (`fvm/src/ipld`). It keeps a counter of
    items to go instead of recursing. */
module CborScan {
  import opened Common
  import opened BitStrings
  import opened CborGrammar

  datatype ScanError = OutOfGas | Serialization | NotFound | IllegalCodec

  // ---------------------------------------------------------------- gas

  datatype Prices = Prices(perField: nat, perCid: nat)

  ghost function Cost(p: Prices, t: Tally): nat {
    Charges(t.fields, p.perField) + Charges(t.cids, p.perCid)
  }

  /** `n` charges of `gas` each. */
  ghost function Charges(n: nat, gas: nat): nat {
    if n == 0 then 0 else Charges(n - 1, gas) + gas
  }

  lemma {:induction false} ChargesNothing(n: nat)
    ensures Charges(n, 0) == 0
  {
    if n > 0 {
      ChargesNothing(n - 1);
    }
  }

  lemma CostsNothing(p: Prices, t: Tally)
    requires p.perField == p.perCid == 0
    ensures Cost(p, t) == 0
  {
    ChargesNothing(t.fields);
    ChargesNothing(t.cids);
  }

  lemma {:induction false} ChargesAdd(a: nat, b: nat, gas: nat)
    ensures Charges(a + b, gas) == Charges(a, gas) + Charges(b, gas)
  {
    if b > 0 {
      ChargesAdd(a, b - 1, gas);
    }
  }

  lemma {:induction false} ChargesTimes(n: nat, gas: nat)
    ensures Charges(n, gas) == n * gas
  {
    if n > 0 {
      ChargesTimes(n - 1, gas);
      assert n * gas == (n - 1) * gas + gas;
    }
  }

  /** The price of a block: fields times the price of a field, plus CIDs times the price of a CID. */
  lemma CostIs(p: Prices, t: Tally)
    ensures Cost(p, t) == t.fields * p.perField + t.cids * p.perCid
  {
    ChargesTimes(t.fields, p.perField);
    ChargesTimes(t.cids, p.perCid);
  }

  lemma CostAdd(p: Prices, a: Tally, b: Tally)
    ensures Cost(p, Add(a, b)) == Cost(p, a) + Cost(p, b)
  {
    ChargesAdd(a.fields, b.fields, p.perField);
    ChargesAdd(a.cids, b.cids, p.perCid);
  }

  lemma CostUnits(p: Prices)
    ensures Cost(p, NOTHING) == 0 && Cost(p, FIELD) == p.perField && Cost(p, LINK) == p.perField + p.perCid
  {
  }

  /** The whole buffer is one block that costs at most `gas`. */
  ghost predicate Affordable(p: Prices, f: Option<Summary>, gas: nat) {
    f.Some? && f.value.rest == [] && Cost(p, f.value.tally) <= gas
  }

  ghost predicate Whole(f: Option<Summary>) {
    f.Some? && f.value.rest == []
  }

  /** Paying for the next step first does not change what is affordable. */
  lemma AffordStep(p: Prices, step: Tally, f: Option<Summary>, gas: nat)
    ensures Cost(p, step) > gas ==> !Affordable(p, Ahead(step, f), gas)
    ensures Cost(p, step) <= gas ==>
              (Affordable(p, Ahead(step, f), gas) <==> Affordable(p, f, gas - Cost(p, step)))
  {
    if f.Some? {
      CostAdd(p, step, f.value.tally);
    }
  }

  /** The first of one or more items costs at least a field. */
  lemma FieldFirst(w: Wire, p: Prices, n: nat, buf: seq<Byte>, gas: nat)
    requires ValidWire(w) && n > 0 && p.perField > gas
    ensures !Affordable(p, Flat(w, n, buf), gas)
  {
    CostUnits(p);
    if w.header(buf).Some? {
      var Head(major, extra, rest) := w.header(buf).value;
      if major == 6 && extra == 42 && ReadLink(w, rest).Some? {
        var link := ReadLink(w, rest).value;
        if Visit(w, link.cid).Some? {
          CostAdd(p, LINK, Visit(w, link.cid).value);
          AffordStep(p, Add(LINK, Visit(w, link.cid).value), Flat(w, n - 1, link.rest), gas);
        }
      } else if major == 2 || major == 3 {
        if extra <= |rest| {
          assert ReadsHeader(w, buf);
          AffordStep(p, FIELD, Flat(w, n - 1, rest[extra..]), gas);
        }
      } else {
        assert ReadsHeader(w, buf);
        var k := if major == 4 then n - 1 + extra else if major == 5 then n - 1 + 2 * extra else if major == 6 then n else n - 1;
        AffordStep(p, FIELD, Flat(w, k, rest), gas);
      }
    }
  }

  // ---------------------------------------------------------------- the kernel scanner

  class LinkVisitor {
    const w: Wire
    const prices: Prices
    var gasRemaining: nat
    var links: seq<Cid>

    constructor (w: Wire, prices: Prices, gasAvailable: nat)
      ensures this.w == w && this.prices == prices && gasRemaining == gasAvailable && links == []
    {
      this.w, this.prices, gasRemaining, links := w, prices, gasAvailable, [];
    }

    method ChargeGas(gas: nat) returns (r: Result<(), ScanError>)
      modifies this`gasRemaining
      ensures r.Ok? <==> gas <= old(gasRemaining)
      ensures gasRemaining == if r.Ok? then old(gasRemaining) - gas else 0
      ensures r.Err? ==> r.error == OutOfGas
    {
      if gasRemaining < gas {
        gasRemaining := 0;
        return Err(OutOfGas);
      }
      gasRemaining := gasRemaining - gas;
      return Ok(());
    }

    /** Visits a CID, scanning it on the spot when it is inline. */
    method VisitCid(cid: Cid) returns (r: Result<(), ScanError>)
      requires ValidWire(w) && |cid.digest| <= U64_MAX
      modifies this
      ensures r.Ok? <==> Visit(w, cid).Some? && Cost(prices, Visit(w, cid).value) <= old(gasRemaining)
      ensures r.Ok? ==> links == old(links) + Visit(w, cid).value.links
      ensures r.Ok? ==> gasRemaining == old(gasRemaining) - Cost(prices, Visit(w, cid).value)
      ensures r.Err? && r.error != OutOfGas ==> Visit(w, cid).None?
      ensures gasRemaining <= old(gasRemaining) && (r == Err(OutOfGas) ==> gasRemaining == 0)
      decreases |cid.digest|, 3
    {
      var codec := cid.codec;
      if Ignored(codec) {
        return Ok(());
      }
      if !Allowed(codec) {
        return Err(NotFound);
      }
      if cid.hashCode == IDENTITY {
        if codec == DAG_CBOR {
          r := Scan(cid.digest);
          return;
        }
        return Ok(());
      }
      if cid.hashCode != BLAKE2B_256 || |cid.digest| != 32 {
        return Err(NotFound);
      }
      links := links + [cid];
      return Ok(());
    }

    /** Walks a DAG-CBOR block, visiting each CID discovered. */
    method Scan(buf0: seq<Byte>) returns (r: Result<(), ScanError>)
      requires ValidWire(w) && |buf0| <= U64_MAX
      modifies this
      ensures r.Ok? <==> Affordable(prices, Flat(w, 1, buf0), old(gasRemaining))
      ensures r.Ok? ==> links == old(links) + Flat(w, 1, buf0).value.tally.links
      ensures r.Ok? ==> gasRemaining == old(gasRemaining) - Cost(prices, Flat(w, 1, buf0).value.tally)
      ensures r.Err? && r.error != OutOfGas ==> !Whole(Flat(w, 1, buf0))
      ensures gasRemaining <= old(gasRemaining) && (r == Err(OutOfGas) ==> gasRemaining == 0)
      decreases |buf0|, 2
    {
      var buf := buf0;
      var remaining: nat := 1;
      ghost var all := Flat(w, 1, buf0);
      ghost var done := NOTHING;
      CostUnits(prices);
      AheadTwice(NOTHING, NOTHING, all);
      LinksAssociate(links, NOTHING, NOTHING);
      while remaining > 0
        invariant |buf| <= |buf0| && remaining <= U64_MAX
        invariant all == Ahead(done, Flat(w, remaining, buf))
        invariant links == old(links) + done.links
        invariant gasRemaining + Cost(prices, done) == old(gasRemaining)
        decreases |buf|
      {
        remaining := remaining - 1;
        AffordStep(prices, done, Flat(w, remaining + 1, buf), old(gasRemaining));
        var field;
        ghost var step;
        field, buf, remaining, step := ScanField(buf, remaining);
        if field.Err? {
          return field;
        }
        AheadTwice(done, step, Flat(w, remaining, buf));
        CostAdd(prices, done, step);
        LinksAssociate(old(links), done, step);
        done := Add(done, step);
      }
      AddAssociates(done, NOTHING, NOTHING);
      if buf != [] {
        return Err(Serialization);
      }
      return Ok(());
    }

    /** One turn of the loop: one field, and the CID in it if it is a link. `n` items come after it. */
    method ScanField(buf0: seq<Byte>, n: nat)
      returns (r: Result<(), ScanError>, buf: seq<Byte>, remaining: nat, ghost step: Tally)
      requires ValidWire(w) && |buf0| <= U64_MAX && n < U64_MAX
      modifies this
      ensures r.Err? ==> !Affordable(prices, Flat(w, n + 1, buf0), old(gasRemaining))
      ensures r.Err? && r.error != OutOfGas ==> Flat(w, n + 1, buf0).None?
      ensures r.Ok? ==> |buf| < |buf0| && remaining <= U64_MAX
      ensures r.Ok? ==> Flat(w, n + 1, buf0) == Ahead(step, Flat(w, remaining, buf))
      ensures r.Ok? ==> links == old(links) + step.links
      ensures r.Ok? ==> gasRemaining + Cost(prices, step) == old(gasRemaining)
      ensures gasRemaining <= old(gasRemaining) && (r == Err(OutOfGas) ==> gasRemaining == 0)
      decreases |buf0|, 1
    {
      buf, remaining, step := buf0, n, FIELD;
      CostUnits(prices);
      r := ChargeGas(prices.perField);
      if r.Err? {
        FieldFirst(w, prices, n + 1, buf0, old(gasRemaining));
        return;
      }
      var head := w.header(buf);
      if head.None? {
        return Err(Serialization), buf, remaining, step;
      }
      assert ReadsHeader(w, buf0);
      if head.value.major == 6 && head.value.extra == 42 {
        r, buf, step := ScanLink(head.value.rest);
        if r.Err? {
          LinkFails(w, prices, n, buf0, old(gasRemaining));
          LinkUnread(w, n, buf0);
        }
      } else {
        r, buf, remaining := SkipField(w, buf0, n);
      }
    }

    /** A tag 42: the byte string after it must hold one CID and nothing else. */
    method ScanLink(buf0: seq<Byte>) returns (r: Result<(), ScanError>, buf: seq<Byte>, ghost step: Tally)
      requires ValidWire(w) && |buf0| <= U64_MAX
      modifies this
      ensures r.Ok? <==> LinkAffordable(w, prices, buf0, old(gasRemaining))
      ensures r.Ok? ==> buf == ReadLink(w, buf0).value.rest && step == LinkTally(w, buf0)
      ensures r.Ok? ==> links == old(links) + step.links
      ensures r.Ok? ==> gasRemaining + Cost(prices, step) == old(gasRemaining) + prices.perField
      ensures r.Err? && r.error != OutOfGas && ReadLink(w, buf0).Some? ==> Visit(w, ReadLink(w, buf0).value.cid).None?
      ensures gasRemaining <= old(gasRemaining) && (r == Err(OutOfGas) ==> gasRemaining == 0)
      decreases |buf0|, 0
    {
      buf, step := buf0, NOTHING;
      r := ChargeGas(prices.perCid);
      if r.Err? {
        return;
      }
      var link := TakeLink(w, buf0);
      if link.None? {
        return Err(Serialization), buf, step;
      }
      LinkIs(w, prices, buf0, Visit(w, link.value.0), old(gasRemaining));
      buf, step := link.value.1, LinkTally(w, buf0);
      r := VisitCid(link.value.0);
    }
  }

  /** The CID in the byte string of a tag 42, and what follows. */
  method TakeLink(w: Wire, buf: seq<Byte>) returns (r: Option<(Cid, seq<Byte>)>)
    requires ValidWire(w)
    ensures r.Some? <==> ReadLink(w, buf).Some?
    ensures r.Some? ==> r.value == (ReadLink(w, buf).value.cid, ReadLink(w, buf).value.rest)
  {
    var head := w.header(buf);
    if head.None? {
      return None;
    }
    assert ReadsHeader(w, buf);
    var Head(major, extra, rest) := head.value;
    if major != 2 || extra > |rest| || extra < 1 || rest[0] != 0 {
      return None;
    }
    var cidBuf := rest[1..extra];
    var cid := w.read(cidBuf);
    if cid.None? || cid.value.1 != |cidBuf| {
      return None;
    }
    assert ReadsCid(w, cidBuf);
    return Some((cid.value.0, rest[extra..]));
  }

  /** What follows a field that is no link, and how many items then come. */
  method SkipField(w: Wire, buf0: seq<Byte>, n: nat) returns (r: Result<(), ScanError>, buf: seq<Byte>, remaining: nat)
    requires ValidWire(w) && |buf0| <= U64_MAX && n < U64_MAX && w.header(buf0).Some?
    requires w.header(buf0).value.major != 6 || w.header(buf0).value.extra != 42
    ensures r.Err? ==> r.error == Serialization && Flat(w, n + 1, buf0).None?
    ensures r.Ok? ==> |buf| < |buf0| && remaining <= U64_MAX && Flat(w, n + 1, buf0) == Ahead(FIELD, Flat(w, remaining, buf))
  {
    assert ReadsHeader(w, buf0);
    var Head(major, extra, rest) := w.header(buf0).value;
    r, buf, remaining := Ok(()), rest, n;
    if major == 2 || major == 3 {
      if extra > |buf| {
        return Err(Serialization), buf, remaining;
      }
      buf := buf[extra..];
    } else if major == 6 {
      remaining := remaining + 1;
    } else if major == 4 {
      if remaining + extra > U64_MAX {
        TooMany(w, remaining + extra, buf);
        return Err(Serialization), buf, remaining;
      }
      remaining := remaining + extra;
    } else if major == 5 {
      if extra * 2 > U64_MAX || extra * 2 + remaining > U64_MAX {
        TooMany(w, remaining + 2 * extra, buf);
        return Err(Serialization), buf, remaining;
      }
      remaining := extra * 2 + remaining;
    }
  }

  lemma LinksAssociate(links: seq<Cid>, a: Tally, b: Tally)
    ensures (links + a.links) + b.links == links + Add(a, b).links
    ensures links + NOTHING.links == links
  {
  }

  ghost predicate LinkAffordable(w: Wire, p: Prices, buf: seq<Byte>, gas: nat)
    requires ValidWire(w)
  {
    var link := ReadLink(w, buf);
    link.Some? && Visit(w, link.value.cid).Some? && p.perCid + Cost(p, Visit(w, link.value.cid).value) <= gas
  }

  lemma LinkUnread(w: Wire, n: nat, buf: seq<Byte>)
    requires ValidWire(w) && w.header(buf).Some?
    requires w.header(buf).value.major == 6 && w.header(buf).value.extra == 42
    ensures var link := ReadLink(w, w.header(buf).value.rest);
            (link.Some? ==> Visit(w, link.value.cid).None?) ==> Flat(w, n + 1, buf).None?
  {
  }

  ghost function LinkTally(w: Wire, buf: seq<Byte>): Tally
    requires ValidWire(w)
  {
    var link := ReadLink(w, buf);
    if link.Some? && Visit(w, link.value.cid).Some? then Add(LINK, Visit(w, link.value.cid).value) else NOTHING
  }

  lemma LinkIs(w: Wire, p: Prices, buf: seq<Byte>, v: Option<Tally>, gas: nat)
    requires ValidWire(w) && ReadLink(w, buf).Some? && v == Visit(w, ReadLink(w, buf).value.cid)
    ensures LinkAffordable(w, p, buf, gas) <==> v.Some? && p.perCid + Cost(p, v.value) <= gas
    ensures v.Some? ==> LinkTally(w, buf).links == v.value.links
    ensures v.Some? ==> Cost(p, LinkTally(w, buf)) == p.perField + p.perCid + Cost(p, v.value)
  {
    CostUnits(p);
    if v.Some? {
      CostAdd(p, LINK, v.value);
    }
  }

  lemma LinkFails(w: Wire, p: Prices, n: nat, buf: seq<Byte>, gas: nat)
    requires ValidWire(w) && w.header(buf).Some? && p.perField <= gas
    requires w.header(buf).value.major == 6 && w.header(buf).value.extra == 42
    requires !LinkAffordable(w, p, w.header(buf).value.rest, gas - p.perField)
    ensures !Affordable(p, Flat(w, n + 1, buf), gas)
  {
    CostUnits(p);
    var link := ReadLink(w, w.header(buf).value.rest);
    if link.Some? && Visit(w, link.value.cid).Some? {
      var v := Visit(w, link.value.cid).value;
      CostAdd(p, LINK, v);
      AffordStep(p, Add(LINK, v), Flat(w, n, link.value.rest), gas);
    }
  }

  /** More items than bytes cannot be read, so an overflow of the counter is not a lost block. */
  lemma TooMany(w: Wire, n: nat, buf: seq<Byte>)
    requires ValidWire(w) && n > |buf|
    ensures Flat(w, n, buf).None?
  {
    if Flat(w, n, buf).Some? {
      FlatTakesBytes(w, n, buf);
    }
  }

  // ---------------------------------------------------------------- whole blocks

  /** What a block of any codec holds: DAG-CBOR is scanned, raw and plain CBOR are not looked into. */
  ghost predicate BlockHolds(w: Wire, codec: nat, data: seq<Byte>, t: Tally) {
    if codec == DAG_CBOR then IsBlock(w, data, t) else Allowed(codec) && t == NOTHING
  }

  lemma ReadOnce(w: Wire, prices: Prices, data: seq<Byte>, gas: nat)
    requires ValidWire(w)
    ensures Affordable(prices, Flat(w, 1, data), gas) <==> exists t :: IsBlock(w, data, t) && Cost(prices, t) <= gas
    ensures forall t :: IsBlock(w, data, t) ==> Flat(w, 1, data) == Some(Summary(t, []))
  {
    forall t | IsBlock(w, data, t) ensures Flat(w, 1, data) == Some(Summary(t, [])) {
      FlatIsGrammar(w, data, t);
    }
    if Affordable(prices, Flat(w, 1, data), gas) {
      var t := Flat(w, 1, data).value.tally;
      FlatIsGrammar(w, data, t);
      assert IsBlock(w, data, t);
    }
  }

  /** Scans a block for links within the gas available. A block is accepted exactly when it is one
      item of the grammar that the gas can pay for; its links come in document order. */
  method ScanBlock(w: Wire, codec: nat, data: seq<Byte>, prices: Prices, gasAvailable: nat)
    returns (r: Result<seq<Cid>, ScanError>, gasUsed: nat)
    requires ValidWire(w) && |data| <= U64_MAX
    ensures gasUsed <= gasAvailable && (r == Err(OutOfGas) ==> gasUsed == gasAvailable)
    ensures r.Ok? <==> exists t :: BlockHolds(w, codec, data, t) && Cost(prices, t) <= gasAvailable
    ensures r.Ok? ==> forall t :: BlockHolds(w, codec, data, t) ==> r.value == t.links && gasUsed == Cost(prices, t)
    ensures r.Err? && r.error != OutOfGas ==> forall t :: !BlockHolds(w, codec, data, t)
  {
    var visitor := new LinkVisitor(w, prices, gasAvailable);
    var scanned: Result<(), ScanError>;
    CostUnits(prices);
    if codec == DAG_CBOR {
      scanned := visitor.Scan(data);
      ReadOnce(w, prices, data, gasAvailable);
      HeldByGrammar(w, codec, data, prices, gasAvailable);
    } else if codec == IPLD_RAW || codec == CBOR {
      scanned := Ok(());
      assert BlockHolds(w, codec, data, NOTHING);
    } else {
      scanned := Err(IllegalCodec);
    }
    gasUsed := gasAvailable - visitor.gasRemaining;
    r := if scanned.Ok? then Ok(visitor.links) else Err(scanned.error);
  }

  lemma HeldByGrammar(w: Wire, codec: nat, data: seq<Byte>, prices: Prices, gas: nat)
    requires codec == DAG_CBOR
    ensures (exists t :: IsBlock(w, data, t) && Cost(prices, t) <= gas) <==>
            (exists t :: BlockHolds(w, codec, data, t) && Cost(prices, t) <= gas)
  {
    if t :| IsBlock(w, data, t) && Cost(prices, t) <= gas {
      assert BlockHolds(w, codec, data, t);
    }
    if t :| BlockHolds(w, codec, data, t) && Cost(prices, t) <= gas {
      assert IsBlock(w, data, t);
    }
  }
}
