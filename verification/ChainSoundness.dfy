/**
 What resolution is for. A block verified in a reorg is resolved on the overlay of the cell set, and
 the question is whether the chain it extends still spends every cell at most once. It does exactly
 when the block does not spend again a cell that the reorg itself created and spent, and does not
 spend one cell under two out points.
 */
module ChainSoundness {
  import opened CkbTypes
  import opened CellSets
  import opened CellReplay
  import O = CellOverlay
  import R = Resolution
  import X = SequentialExecution

  /** The provider answers from the overlay: live, dead, or unknown. */
  ghost predicate Provides(base: R.Base, o: O.Overlay) {
    forall c ::
      && (base(c).Live? <==> O.LiveIn(o, c))
      && (base(c).Dead? <==> o.Get(c.txHash).Some? && o.Get(c.txHash).value.IsDead(c.index) == Some(true))
  }

  /** The provider over the overlay: dead bits decide, and `output` is what attached blocks or the store hold. */
  ghost function OverlayProvider(o: O.Overlay, output: CellOutPoint -> CellOutput): (base: R.Base)
    ensures Provides(base, o)
    ensures forall c: CellOutPoint ::
      var meta := o.Get(c.txHash);
      var known := meta.Some? && c.index < |meta.value.deadCell|;
      && (base(c).Dead? <==> known && meta.value.deadCell[c.index])
      && (base(c).Live? <==> known && !meta.value.deadCell[c.index])
      && (base(c).Live? ==>
            base(c).meta == R.CellMeta(output(c), c, meta.value.blockNumber, meta.value.epochNumber, meta.value.cellbase))
  {
    (c: CellOutPoint) =>
      var meta := o.Get(c.txHash);
      if meta.None? || meta.value.IsDead(c.index).None? then R.Unknown
      else if meta.value.IsDead(c.index).value then R.Dead
      else R.Live(R.CellMeta(output(c), c, meta.value.blockNumber, meta.value.epochNumber, meta.value.cellbase))
  }

  /** New transaction hashes, and no issuing-DAO input. */
  ghost predicate NewTransactions(es: seq<Entry>, b: Block) {
    && (forall i, j :: 0 <= i < j < |b.transactions| ==> b.transactions[i].hash != b.transactions[j].hash)
    && (forall i :: 0 <= i < |b.transactions| ==>
          b.transactions[i].hash !in HashesOf(es) && b.transactions[i].hash != R.ISSUING_DAO_HASH)
    && (forall i, o :: 0 <= i < |b.transactions| && o in b.transactions[i].inputs ==> !R.IsIssuingDao(o))
  }

  /** Whatever cell of the block's inputs the base calls live, the chain made and has not spent. */
  ghost predicate Trusted(base: R.Base, es: seq<Entry>, b: Block) {
    forall i, o :: 0 <= i < |b.transactions| && o in b.transactions[i].inputs && o.cell.Some? && base(o.cell.value).Live? ==>
      Makes(es, o.cell.value) && o.cell.value !in Spent(es)
  }

  lemma SpentByOne(tx: Transaction)
    requires forall o :: o in tx.inputs ==> !R.IsIssuingDao(o)
    ensures (set op | op in tx.inputs && op.cell.Some? :: op.cell.value) == X.CellsIn(R.Consumed(R.Ins(tx)))
  {
  }

  lemma SpentNext(b: Block, n: nat)
    requires n < |b.transactions|
    ensures Spent(BlockEntries(b)[..n + 1]) ==
      Spent(BlockEntries(b)[..n]) + (set op | op in b.transactions[n].inputs && op.cell.Some? :: op.cell.value)
  {
    var front := BlockEntries(b)[..n + 1];
    assert front[..|front| - 1] == BlockEntries(b)[..n] && front[|front| - 1].tx == b.transactions[n];
    LastEntry(front);
  }

  /** What the first `n` transactions of the block spend is what resolution has seen. */
  lemma {:induction false} SpentIsSeen(es: seq<Entry>, b: Block, n: nat)
    requires n <= |b.transactions| && NewTransactions(es, b)
    ensures Spent(BlockEntries(b)[..n]) == X.CellsIn(R.SeenBefore(b.transactions, n))
  {
    hide X.CellsIn, R.Consumed, Spent, BlockEntries, HashesOf, R.IsIssuingDao;
    if n == 0 {
      NothingSeen(b);
    } else {
      SpentIsSeen(es, b, n - 1);
      SpentNext(b, n - 1);
      SpentByOne(b.transactions[n - 1]);
      X.CellsInAdd(R.SeenBefore(b.transactions, n - 1), R.Consumed(R.Ins(b.transactions[n - 1])));
    }
  }

  lemma NothingSeen(b: Block)
    ensures X.CellsIn(R.SeenBefore(b.transactions, 0)) == {} == Spent(BlockEntries(b)[..0])
  {
  }

  /** What block-wide resolution found for an input: a cell made before it, and an out point not seen before it. */
  lemma ResolvedInput(
    b: Block, base: R.Base, headers: R.Headers, rs: seq<R.ResolvedTransaction>, i: nat, k: nat)
    requires R.BlockResolves(b, base, headers, rs) && i < |b.transactions| && k < |R.Ins(b.transactions[i])|
    requires !R.IsIssuingDao(R.Ins(b.transactions[i])[k])
    ensures var o := R.Ins(b.transactions[i])[k];
      && o.cell.Some?
      && (MadeInBlock(b, i, o.cell.value) || base(o.cell.value).Live?)
      && o !in X.SeenAt(b.transactions, i, k)
  {
    var txs, tx := b.transactions, b.transactions[i];
    var o := R.Ins(tx)[k];
    assert R.ResolvesAt(b, base, headers, i, rs[i]);
    R.ScanInput(tx, R.SeenBefore(txs, i), R.CellsOf(b, base), headers, k);
    hide R.IsIssuingDao, R.SeenBefore, R.Scan;
    assert R.CheckInput(o, X.SeenAt(txs, i, k), R.CellIn(b, base, o), headers(o)).Good?;
    assert o in tx.inputs && R.Placed(txs, i, o);
  }

  ghost predicate MadeInBlock(b: Block, n: nat, c: CellOutPoint)
    requires n <= |b.transactions|
  {
    exists j :: 0 <= j < n && b.transactions[j].hash == c.txHash && c.index < |b.transactions[j].outputs|
  }

  /** The entries of the chain and of the block's first `n` transactions. */
  lemma FrontMakes(es: seq<Entry>, b: Block, n: nat, c: CellOutPoint)
    requires n <= |b.transactions| && (Makes(es, c) || MadeInBlock(b, n, c))
    ensures Makes(es + BlockEntries(b)[..n], c)
    ensures c.txHash in HashesOf(es + BlockEntries(b)[..n])
  {
    var front := BlockEntries(b)[..n];
    if Makes(es, c) {
      var e :| e in es && e.tx.hash == c.txHash && c.index < |e.tx.outputs|;
      assert e in es + front;
    } else {
      var j :| 0 <= j < n && b.transactions[j].hash == c.txHash && c.index < |b.transactions[j].outputs|;
      assert front[j] in es + front && front[j].tx == b.transactions[j];
    }
  }

  lemma HashIsNew(es: seq<Entry>, b: Block, n: nat)
    requires n < |b.transactions| && NewTransactions(es, b)
    ensures b.transactions[n].hash !in HashesOf(es + BlockEntries(b)[..n])
  {
    var front := BlockEntries(b)[..n];
    forall e | e in es + front ensures e.tx.hash != b.transactions[n].hash {
      if e in es {
        assert e.tx.hash in HashesOf(es);
      } else {
        var j :| 0 <= j < n && front[j] == e;
        assert front[j].tx == b.transactions[j];
      }
    }
  }

  /** No input of the block names a cell that an earlier input spent by a different out point. */
  ghost predicate InputsUnaliased(txs: seq<Transaction>) {
    forall i, k :: 0 <= i < |txs| && 0 <= k < |R.Ins(txs[i])| ==> X.UnaliasedAt(txs, i, k)
  }

  /** The same for inputs of different transactions only. */
  ghost predicate UnaliasedAcross(txs: seq<Transaction>) {
    forall i, k :: 0 <= i < |txs| && 0 <= k < |R.Ins(txs[i])| ==> X.Unaliased(R.SeenBefore(txs, i), R.Ins(txs[i])[k])
  }

  /** A resolved input is in order up to what earlier inputs of the same block spend. */
  lemma InputIsMade(
    es: seq<Entry>, b: Block, base: R.Base, headers: R.Headers, rs: seq<R.ResolvedTransaction>, i: nat, k: nat)
    requires WellFormed(es) && NewTransactions(es, b) && Trusted(base, es, b) && R.BlockResolves(b, base, headers, rs)
    requires i < |b.transactions| && k < |R.Ins(b.transactions[i])|
    ensures var o, front := R.Ins(b.transactions[i])[k], BlockEntries(b)[..i];
      && o.cell.Some? && o !in X.SeenAt(b.transactions, i, k)
      && Makes(es + front, o.cell.value) && o.cell.value.txHash in HashesOf(es + front)
      && (o.cell.value !in X.CellsIn(R.SeenBefore(b.transactions, i)) <==> o.cell.value !in Spent(es + front))
  {
    var o := R.Ins(b.transactions[i])[k];
    assert o in b.transactions[i].inputs;
    ResolvedInput(b, base, headers, rs, i, k);
    hide R.BlockResolves, R.IsIssuingDao, X.SeenAt, R.SeenBefore, X.CellsIn;
    var c := o.cell.value;
    FrontMakes(es, b, i, c);
    Append(es, BlockEntries(b)[..i]);
    SpentIsSeen(es, b, i);
    if MadeInBlock(b, i, c) {
      var j :| 0 <= j < i && b.transactions[j].hash == c.txHash && c.index < |b.transactions[j].outputs|;
      assert es + [] == es;
      SplitChain(es, []);
      assert c.txHash !in HashesOf(es);
    }
  }

  /** An input aliased with an earlier transaction of the block is one whose cell that transaction spent. */
  lemma AliasIsSpent(seen: set<OutPoint>, o: OutPoint)
    requires o.cell.Some? && o !in seen
    ensures X.Unaliased(seen, o) <==> o.cell.value !in X.CellsIn(seen)
  {
    if q :| q in seen && q.cell == o.cell { assert q.cell.value in X.CellsIn(seen); }
  }

  /** Transaction `i` can follow the chain exactly when none of its inputs is aliased with an earlier transaction. */
  lemma TransactionFollows(
    es: seq<Entry>, b: Block, base: R.Base, headers: R.Headers, rs: seq<R.ResolvedTransaction>, i: nat)
    requires WellFormed(es) && NewTransactions(es, b) && Trusted(base, es, b) && R.BlockResolves(b, base, headers, rs)
    requires i < |b.transactions|
    ensures Follows(es + BlockEntries(b)[..i], BlockEntries(b)[i]) <==>
      forall k :: 0 <= k < |R.Ins(b.transactions[i])| ==>
        X.Unaliased(R.SeenBefore(b.transactions, i), R.Ins(b.transactions[i])[k])
    ensures forall op :: op in b.transactions[i].inputs && op.cell.Some? ==> Makes(es + BlockEntries(b)[..i], op.cell.value)
  {
    var tx, front, seen := b.transactions[i], BlockEntries(b)[..i], R.SeenBefore(b.transactions, i);
    hide WellFormed, Trusted, NewTransactions, R.BlockResolves, Makes, Spent, HashesOf, X.Unaliased, R.SeenBefore;
    HashIsNew(es, b, i);
    forall k | 0 <= k < |R.Ins(tx)| ensures InputFits(es + front, seen, R.Ins(tx)[k]) {
      InputIsMade(es, b, base, headers, rs, i, k);
      AliasIsSpent(seen, R.Ins(tx)[k]);
    }
    FollowsWhenFits(es + front, BlockEntries(b)[i], seen);
  }

  /** The input names an output of the chain, which is unspent exactly when the input is not aliased. */
  ghost predicate InputFits(es: seq<Entry>, seen: set<OutPoint>, o: OutPoint) {
    && o.cell.Some? && o.cell.value.txHash in HashesOf(es) && Makes(es, o.cell.value)
    && (X.Unaliased(seen, o) <==> o.cell.value !in Spent(es))
  }

  lemma FollowsWhenFits(es: seq<Entry>, e: Entry, seen: set<OutPoint>)
    requires e.tx.hash !in HashesOf(es) && forall k :: 0 <= k < |R.Ins(e.tx)| ==> InputFits(es, seen, R.Ins(e.tx)[k])
    ensures Follows(es, e) <==> forall k :: 0 <= k < |R.Ins(e.tx)| ==> X.Unaliased(seen, R.Ins(e.tx)[k])
    ensures forall op :: op in e.tx.inputs && op.cell.Some? ==> Makes(es, op.cell.value)
  {
    hide Makes, Spent, HashesOf, X.Unaliased;
    var tx, ins := e.tx, R.Ins(e.tx);
    forall op | op in tx.inputs && op.cell.Some? ensures op in ins {
      assert !tx.IsCellbase();
    }
    forall k | 0 <= k < |ins| ensures ins[k] in tx.inputs && InputFits(es, seen, ins[k]) {}
    forall op | op in ins ensures InputFits(es, seen, op) {}
  }

  /** It spends different outputs exactly when none of its inputs is aliased at all. */
  lemma TransactionSpends(
    es: seq<Entry>, b: Block, base: R.Base, headers: R.Headers, rs: seq<R.ResolvedTransaction>, i: nat)
    requires WellFormed(es) && NewTransactions(es, b) && Trusted(base, es, b) && R.BlockResolves(b, base, headers, rs)
    requires i < |b.transactions|
    ensures SpendsOutputs(es + BlockEntries(b)[..i], BlockEntries(b)[i]) <==>
      forall k :: 0 <= k < |R.Ins(b.transactions[i])| ==> X.UnaliasedAt(b.transactions, i, k)
  {
    var tx := b.transactions[i];
    var ins := R.Ins(tx);
    TransactionFollows(es, b, base, headers, rs, i);
    forall k | 0 <= k < |ins|
      ensures X.UnaliasedAt(b.transactions, i, k) <==>
        X.Unaliased(R.SeenBefore(b.transactions, i), ins[k]) && forall j :: 0 <= j < k ==> ins[j].cell != ins[k].cell
    {
      InputIsMade(es, b, base, headers, rs, i, k);
      assert ins[k] in tx.inputs;
      AliasSplits(tx, R.SeenBefore(b.transactions, i), k);
    }
    hide WellFormed, Trusted, NewTransactions, R.BlockResolves, Makes, Spent, HashesOf;
    hide X.Unaliased, X.UnaliasedAt, R.SeenBefore;
    DistinctInputs(tx);
  }

  /** The inputs name different cells, said of the inputs that are resolved. */
  lemma DistinctInputs(tx: Transaction)
    ensures DistinctCells(tx.inputs) || exists j, k ::
      0 <= j < k < |R.Ins(tx)| && R.Ins(tx)[j].cell == R.Ins(tx)[k].cell && R.Ins(tx)[j].cell.Some?
    ensures DistinctCells(tx.inputs) ==> forall j, k ::
      0 <= j < k < |R.Ins(tx)| && R.Ins(tx)[j].cell.Some? ==> R.Ins(tx)[j].cell != R.Ins(tx)[k].cell
  {
    if !DistinctCells(tx.inputs) {
      var j, k :| 0 <= j < k < |tx.inputs| && tx.inputs[j].cell.Some? && tx.inputs[j].cell == tx.inputs[k].cell;
      assert R.Ins(tx) == tx.inputs;
    }
  }

  /** Aliases with earlier transactions, and with earlier inputs of the same transaction. */
  lemma AliasSplits(tx: Transaction, before: set<OutPoint>, k: nat)
    requires k < |R.Ins(tx)| && R.Ins(tx)[k].cell.Some? && (forall o :: o in tx.inputs ==> !R.IsIssuingDao(o))
    requires R.Ins(tx)[k] !in before + R.Consumed(R.Ins(tx)[..k])
    ensures var ins := R.Ins(tx);
      X.Unaliased(before + R.Consumed(ins[..k]), ins[k]) <==>
        X.Unaliased(before, ins[k]) && forall j :: 0 <= j < k ==> ins[j].cell != ins[k].cell
  {
    hide R.IsIssuingDao;
    var ins := R.Ins(tx);
    forall j | 0 <= j < k ensures ins[j] in R.Consumed(ins[..k]) && ins[j] != ins[k] {
      assert ins[j] in tx.inputs && ins[..k][j] == ins[j];
    }
  }

  lemma {:induction false} WellFormedAlong(es: seq<Entry>, more: seq<Entry>)
    requires WellFormed(es)
    ensures WellFormed(es + more) <==> forall i :: 0 <= i < |more| ==> Follows(es + more[..i], more[i])
    decreases |more|
  {
    hide Follows;
    if more == [] {
      assert es + more == es;
    } else {
      var n := |more| - 1;
      var front := more[..n];
      forall i | 0 <= i < n ensures front[..i] == more[..i] && front[i] == more[i] {}
      WellFormedAlong(es, front);
      assert (es + more)[..|es + more| - 1] == es + front;
      assert forall i :: 0 <= i < n ==> Follows(es + front[..i], front[i]) == Follows(es + more[..i], more[i]);
    }
  }

  lemma {:induction false} SpendsOnceAlong(es: seq<Entry>, more: seq<Entry>)
    requires SpendsOnce(es)
    ensures SpendsOnce(es + more) <==> forall i :: 0 <= i < |more| ==> SpendsOutputs(es + more[..i], more[i])
    decreases |more|
  {
    hide SpendsOutputs;
    if more == [] {
      assert es + more == es;
    } else {
      var n := |more| - 1;
      var front := more[..n];
      forall i | 0 <= i < n ensures front[..i] == more[..i] && front[i] == more[i] {}
      SpendsOnceAlong(es, front);
      assert (es + more)[..|es + more| - 1] == es + front;
      assert forall i :: 0 <= i < n ==> SpendsOutputs(es + front[..i], front[i]) == SpendsOutputs(es + more[..i], more[i]);
    }
  }

  /**
   On any base that is right about the block's inputs, a block that resolves extends a well-formed
   chain to a well-formed one exactly when no input is aliased with an earlier transaction, and a
   chain without double spends to one without exactly when no input is aliased at all.
   */
  lemma BlockExtends(es: seq<Entry>, b: Block, base: R.Base, headers: R.Headers, rs: seq<R.ResolvedTransaction>)
    requires WellFormed(es) && NewTransactions(es, b) && Trusted(base, es, b) && R.BlockResolves(b, base, headers, rs)
    ensures WellFormed(es + BlockEntries(b)) <==> UnaliasedAcross(b.transactions)
    ensures SpendsOnce(es) ==> (SpendsOnce(es + BlockEntries(b)) <==> InputsUnaliased(b.transactions))
  {
    var more := BlockEntries(b);
    hide WellFormed, SpendsOnce, NewTransactions, Trusted, R.BlockResolves, Follows, SpendsOutputs;
    hide X.Unaliased, X.UnaliasedAt;
    WellFormedAlong(es, more);
    if SpendsOnce(es) { SpendsOnceAlong(es, more); }
    forall i | 0 <= i < |more|
      ensures Follows(es + more[..i], more[i]) <==> forall k :: 0 <= k < |R.Ins(b.transactions[i])| ==>
        X.Unaliased(R.SeenBefore(b.transactions, i), R.Ins(b.transactions[i])[k])
      ensures SpendsOutputs(es + more[..i], more[i]) <==>
        forall k :: 0 <= k < |R.Ins(b.transactions[i])| ==> X.UnaliasedAt(b.transactions, i, k)
    {
      TransactionFollows(es, b, base, headers, rs, i);
      TransactionSpends(es, b, base, headers, rs, i);
    }
  }

  // ---------------------------------------------------------------- a block of a reorg

  /** The block spends a cell that the attached blocks spent already, in a transaction the old chain lacks. */
  ghost predicate Respends(main: seq<Entry>, attached: seq<Entry>, b: Block) {
    exists i, o :: 0 <= i < |b.transactions| && o in b.transactions[i].inputs && o.cell.Some?
                   && o.cell.value in Spent(attached) && o.cell.value.txHash !in HashesOf(main)
  }

  /** The overlay the next block is resolved on, after `attached`. */
  function ReorgOverlay(common: seq<Entry>, detached: seq<Entry>, attached: seq<Entry>): O.Overlay {
    O.OverlayOf(Replay(common + detached), DiffOf(detached, attached))
  }

  lemma OverlayTrusted(common: seq<Entry>, detached: seq<Entry>, attached: seq<Entry>, b: Block, base: R.Base)
    requires WellFormed(common + detached) && WellFormed(common + attached)
    requires Provides(base, ReorgOverlay(common, detached, attached)) && !Respends(common + detached, attached, b)
    ensures Trusted(base, common + attached, b)
  {
    hide Replay, WellFormed, HashesOf, Spent, O.OverlayOf;
    var es := common + attached;
    forall i, o | 0 <= i < |b.transactions| && o in b.transactions[i].inputs && o.cell.Some? && base(o.cell.value).Live?
      ensures Makes(es, o.cell.value) && o.cell.value !in Spent(es)
    {
      O.OverlayLiveness(common, detached, attached, o.cell.value);
      LiveInReplay(es, o.cell.value);
    }
  }

  /** A cell live in the replay is an output the chain made and has not spent. */
  lemma LiveInReplay(es: seq<Entry>, c: CellOutPoint)
    requires WellFormed(es) && Live(Replay(es), c)
    ensures Makes(es, c) && c !in Spent(es)
  {
    ReplayHolds(es);
    var e :| e in es && e.tx.hash == c.txHash;
    assert c == CellOutPoint(e.tx.hash, c.index);
  }

  /**
   A block of a reorg with new transactions, resolved on the overlay, keeps the new chain free of
   double spends if and only if it neither respends nor has aliased inputs; and well formed if and
   only if it neither respends nor has inputs aliased across transactions.
   */
  lemma ReorgBlockExtends(
    common: seq<Entry>, detached: seq<Entry>, attached: seq<Entry>, b: Block,
    base: R.Base, headers: R.Headers, rs: seq<R.ResolvedTransaction>)
    requires WellFormed(common + detached) && WellFormed(common + attached) && NewTransactions(common + attached, b)
    requires Provides(base, ReorgOverlay(common, detached, attached)) && R.BlockResolves(b, base, headers, rs)
    ensures WellFormed(common + attached + BlockEntries(b)) <==>
      !Respends(common + detached, attached, b) && UnaliasedAcross(b.transactions)
    ensures SpendsOnce(common + attached) ==>
      (SpendsOnce(common + attached + BlockEntries(b)) <==>
        !Respends(common + detached, attached, b) && InputsUnaliased(b.transactions))
  {
    hide WellFormed, SpendsOnce, NewTransactions, Provides, ReorgOverlay, R.BlockResolves, UnaliasedAcross, InputsUnaliased;
    if Respends(common + detached, attached, b) {
      RespendingIsNotWellFormed(common, detached, attached, b);
      if SpendsOnce(common + attached + BlockEntries(b)) { SpendsOnceWellFormed(common + attached + BlockEntries(b)); }
    } else {
      OverlayTrusted(common, detached, attached, b, base);
      BlockExtends(common + attached, b, base, headers, rs);
    }
  }

  lemma RespendingIsNotWellFormed(common: seq<Entry>, detached: seq<Entry>, attached: seq<Entry>, b: Block)
    requires Respends(common + detached, attached, b)
    ensures !WellFormed(common + attached + BlockEntries(b))
  {
    var i, o :| 0 <= i < |b.transactions| && o in b.transactions[i].inputs && o.cell.Some? && o.cell.value in Spent(attached);
    var es, more := common + attached, BlockEntries(b);
    Append(common, attached);
    assert more[i] in more && more[i].tx == b.transactions[i];
    assert o in InputsOf(more) && o.cell.value in Spent(more);
    if WellFormed(es + more) { SplitChain(es, more); }
  }

  // ---------------------------------------------------------------- the two ways to fail

  /** A block of one transaction that spends one output, live in the base, resolves. */
  lemma OneSpendResolves(b: Block, hash: Hash, from: Hash, base: R.Base, headers: R.Headers)
    requires b.transactions == [O.OneOutput(hash, [O.FirstOutput(from)])] && from !in {hash, R.ISSUING_DAO_HASH}
    requires base(CellOutPoint(from, 0)).Live? && headers(O.FirstOutput(from)).HeaderUnspecified?
    ensures exists rs :: R.BlockResolves(b, base, headers, rs)
  {
    var o, tx := O.FirstOutput(from), b.transactions[0];
    var v := R.Resolved(R.Cell(base(CellOutPoint(from, 0)).meta), None);
    var rs := [R.ResolvedTransaction([v], [])];
    assert R.Ins(tx) == [o] == R.Points(tx) && R.Ins(tx)[..0] == [];
    assert R.LastWith(b.transactions, from) == None;
    assert R.CellIn(b, base, o) == base(CellOutPoint(from, 0));
    assert R.FoundAt(tx, {}, R.CellsOf(b, base), headers, 0) == R.Good(v) by {
      assert R.Consumed([]) == {};
    }
    assert R.ResolvesAt(b, base, headers, 0, rs[0]);
    assert R.InOrder(b.transactions) by {
      forall i, q | 0 <= i < 1 && (q in b.transactions[i].deps || q in b.transactions[i].inputs)
        ensures R.Placed(b.transactions, i, q)
      {
        assert q == o;
      }
    }
    assert R.BlockResolves(b, base, headers, rs);
  }

  lemma OneSpendUnaliased(b: Block, hash: Hash, from: Hash)
    requires b.transactions == [O.OneOutput(hash, [O.FirstOutput(from)])]
    ensures InputsUnaliased(b.transactions)
  {
    var tx, o := b.transactions[0], O.FirstOutput(from);
    assert R.Points(tx) == [o] && R.Ins(tx) == [o] && R.Ins(tx)[..0] == [];
    assert X.SeenAt(b.transactions, 0, 0) == {};
  }

  /** A third attached block that spends the output of transaction 2 once more. */
  function SecondSpend(): Block {
    Block(12, 11, 3, 0, 1, 0, [O.OneOutput(4, [O.FirstOutput(2)])])
  }

  /** Whatever provider answers from the overlay, this block resolves, and the chain it extends spends a cell twice. */
  lemma ReorgDoubleSpend(base: R.Base, headers: R.Headers)
    requires Provides(base, ReorgOverlay(O.CommonPart(), O.OldBranch(), O.NewBranch()))
    requires headers(O.FirstOutput(2)).HeaderUnspecified?
    ensures WellFormed(O.CommonPart() + O.OldBranch()) && SpendsOnce(O.CommonPart() + O.NewBranch())
    ensures NewTransactions(O.CommonPart() + O.NewBranch(), SecondSpend()) && InputsUnaliased(SecondSpend().transactions)
    ensures exists rs :: R.BlockResolves(SecondSpend(), base, headers, rs)
    ensures Respends(O.CommonPart() + O.OldBranch(), O.NewBranch(), SecondSpend())
    ensures !WellFormed(O.CommonPart() + O.NewBranch() + BlockEntries(SecondSpend()))
  {
    O.BranchesWellFormed();
    O.OverlayMissesSpend();
    OneSpendResolves(SecondSpend(), 4, 2, base, headers);
    OneSpendUnaliased(SecondSpend(), 4, 2);
    SecondSpendRespends();
    RespendingIsNotWellFormed(O.CommonPart(), O.OldBranch(), O.NewBranch(), SecondSpend());
  }

  lemma SecondSpendRespends()
    ensures NewTransactions(O.CommonPart() + O.NewBranch(), SecondSpend())
    ensures Respends(O.CommonPart() + O.OldBranch(), O.NewBranch(), SecondSpend())
  {
    var n, b, o := O.NewBranch(), SecondSpend(), O.FirstOutput(2);
    var tx := b.transactions[0];
    assert n[1] in n && o in n[1].tx.inputs && CellOutPoint(2, 0) in Spent(n);
    assert o in tx.inputs;
    forall q | q in tx.inputs ensures q == o {}
  }

  /** Without any reorg: a block on top of the tip that spends one cell under two out-point forms. */
  lemma TipDoubleSpend(base: R.Base)
    requires Provides(base, ReorgOverlay(O.CommonPart(), [], []))
    ensures SpendsOnce(O.CommonPart()) && NewTransactions(O.CommonPart(), X.TwoForms())
    ensures exists rs :: R.BlockResolves(X.TwoForms(), base, X.AnyHeader(), rs)
    ensures !Respends(O.CommonPart(), [], X.TwoForms()) && !UnaliasedAcross(X.TwoForms().transactions)
    ensures !WellFormed(O.CommonPart() + BlockEntries(X.TwoForms()))
  {
    var es, b, c := O.CommonPart(), X.TwoForms(), CellOutPoint(1, 0);
    assert SpendsOnce(es) && WellFormed(es) && es + [] == es;
    assert Spent([]) == {};
    O.OverlayLiveness(es, [], [], c);
    ReplayHolds(es);
    assert es[0] in es && Spent(es) == {};
    assert Live(Replay(es), c);
    X.TwoFormsResolves(base);
    TwoFormsAlias();
    ghost var rs :| R.BlockResolves(b, base, X.AnyHeader(), rs);
    hide WellFormed, SpendsOnce, R.BlockResolves, NewTransactions, Respends, UnaliasedAcross, Provides;
    ReorgBlockExtends(es, [], [], b, base, X.AnyHeader(), rs);
  }

  lemma TwoFormsAlias()
    ensures NewTransactions(O.CommonPart(), X.TwoForms()) && !UnaliasedAcross(X.TwoForms().transactions)
    ensures !Respends(O.CommonPart(), [], X.TwoForms())
  {
    var txs := X.TwoForms().transactions;
    var q, o := txs[0].inputs[0], txs[1].inputs[0];
    assert R.Ins(txs[1])[0] == o && q in R.Consumed(R.Ins(txs[0])) && q in R.SeenBefore(txs, 1);
    assert !X.Unaliased(R.SeenBefore(txs, 1), o);
    forall i, p | 0 <= i < 2 && p in txs[i].inputs ensures p == txs[i].inputs[0] {}
  }
}
