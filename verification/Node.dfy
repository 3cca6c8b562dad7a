/**
 Chain service and cell set together: over every run in which the chains adopted are well formed,
 the cell set is the replay of the main chain from genesis, in memory and, without fully spent
 transactions, on disk. `ReorgSoundness` says when the chains adopted are well formed.
 */
module Node {
  import opened CkbTypes
  import opened BlockTree
  import opened ForkChoice
  import opened CellSets
  import opened CellReplay
  import CS = CellState
  import Service = ChainService

  /** The replay of a chain of blocks. */
  ghost function ReplayOf(p: seq<Block>): Cells {
    Replay(Entries(p))
  }

  lemma {:induction false} InEntries(p: seq<Block>, e: Entry)
    ensures e in Entries(p) <==> exists b :: b in p && e in BlockEntries(b)
    decreases |p|
  {
    if p != [] {
      var front, last := p[..|p| - 1], p[|p| - 1];
      InEntries(front, e);
      assert p == front + [last];
      if e in Entries(p) {
        if e in Entries(front) {
          var b :| b in front && e in BlockEntries(b);
          assert b in p;
        } else {
          assert last in p;
        }
      }
    }
  }

  /** The transaction of the block is an entry of the chain, with the block's number and epoch. */
  lemma TransactionIn(p: seq<Block>, b: Block, i: nat)
    requires b in p && i < |b.transactions|
    ensures Entry(b.transactions[i], b.number, b.epoch) in Entries(p)
  {
    assert BlockEntries(b)[i] == Entry(b.transactions[i], b.number, b.epoch);
    InEntries(p, BlockEntries(b)[i]);
  }

  /** What a chain spends are the cells named by inputs of its blocks. */
  lemma SpentIn(p: seq<Block>, c: CellOutPoint)
    ensures c in Spent(Entries(p)) <==>
      exists b, i, op :: b in p && 0 <= i < |b.transactions| && op in b.transactions[i].inputs && op.cell == Some(c)
  {
    if c in Spent(Entries(p)) {
      var e, op :| e in Entries(p) && op in e.tx.inputs && op.cell == Some(c);
      InEntries(p, e);
      var b :| b in p && e in BlockEntries(b);
      var i :| 0 <= i < |b.transactions| && BlockEntries(b)[i] == e;
      assert op in b.transactions[i].inputs;
    }
    if b, i, op :| b in p && 0 <= i < |b.transactions| && op in b.transactions[i].inputs && op.cell == Some(c) {
      TransactionIn(p, b, i);
      assert op in InputsOf(Entries(p));
    }
  }

  /**
   The cell set of a well-formed chain, by the fields of its blocks: every transaction is there with the number
   and epoch of its block, a cellbase exactly when it has the form of one, and each output dead exactly when
   an input of the chain names it.
   */
  lemma ChainCells(p: seq<Block>, b: Block, i: nat)
    requires WellFormed(Entries(p)) && b in p && i < |b.transactions|
    ensures b.transactions[i].hash in ReplayOf(p)
    ensures var tx, meta := b.transactions[i], ReplayOf(p)[b.transactions[i].hash];
      && meta.blockNumber == b.number && meta.epochNumber == b.epoch
      && (meta.cellbase <==>
            |tx.inputs| == 1 && |tx.outputs| == 1 && tx.witnesses == 1 && tx.inputs[0] == OutPoint(None, None))
      && |meta.deadCell| == |tx.outputs|
      && forall k :: 0 <= k < |tx.outputs| ==>
           (meta.deadCell[k] <==>
              exists x, j, op ::
                && x in p && 0 <= j < |x.transactions| && op in x.transactions[j].inputs
                && op.cell == Some(CellOutPoint(tx.hash, k)))
  {
    var es, tx := Entries(p), b.transactions[i];
    ReplayHolds(es);
    TransactionIn(p, b, i);
    var e := Entry(tx, b.number, b.epoch);
    assert e.tx.hash in HashesOf(es);
    hide Entries, Replay, WellFormed, Spent, HashesOf;
    forall k | 0 <= k < |tx.outputs|
      ensures CellOutPoint(tx.hash, k) in Spent(es) <==>
        exists x, j, op ::
          && x in p && 0 <= j < |x.transactions| && op in x.transactions[j].inputs
          && op.cell == Some(CellOutPoint(tx.hash, k))
    {
      SpentIn(p, CellOutPoint(tx.hash, k));
    }
  }

  /** It holds no other transaction. */
  lemma ChainCellsOnly(p: seq<Block>, h: Hash)
    requires WellFormed(Entries(p)) && h in ReplayOf(p)
    ensures exists b, i :: b in p && 0 <= i < |b.transactions| && b.transactions[i].hash == h
  {
    ReplayHolds(Entries(p));
    var e :| e in Entries(p) && e.tx.hash == h;
    InEntries(p, e);
    var b :| b in p && e in BlockEntries(b);
    var i :| 0 <= i < |b.transactions| && BlockEntries(b)[i] == e;
    assert b.transactions[i].hash == h;
  }

  /** The diff depends on which blocks are detached, not on their order. */
  lemma DetachedOrder(p: seq<Block>, q: seq<Block>, attached: seq<Entry>)
    requires SameBlocks(p, q)
    ensures DiffOf(Entries(p), attached) == DiffOf(Entries(q), attached)
  {
    forall e ensures e in Entries(p) <==> e in Entries(q) {
      InEntries(p, e);
      InEntries(q, e);
    }
    SameEntries(Entries(p), Entries(q));
  }

  lemma SameEntries(a: seq<Entry>, b: seq<Entry>)
    requires forall e :: e in a <==> e in b
    ensures HashesOf(a) == HashesOf(b) && InputsOf(a) == InputsOf(b)
  {
  }

  /** The request makes the chain switch to its block. */
  ghost predicate Switches(c: Consensus, s: State, r: Request)
    requires Inv(c, s) && Fresh(c, s.store.blocks, r.block)
  {
    Accepts(c, s, r) && NewBest(c, s, r.block)
  }

  /** What one request may do to the cell set: nothing, or the reorg's diff in any order of detached blocks. */
  ghost predicate CellsMove(c: Consensus, s: State, r: Request, m: Cells, m': Cells)
    requires Inv(c, s) && Fresh(c, s.store.blocks, r.block)
  {
    if Switches(c, s, r) then
      exists detached, txs: map<Hash, OutputInfo> ::
        && SameBlocks(detached, Detached(c, s, r.block))
        && Named(InputsOf(Entries(detached))) <= m.Keys + txs.Keys
        && m' == Updated(m, DiffOf(Entries(detached), Entries(Attached(c, s, r.block))), txs)
    else m' == m
  }

  /** The main chain after one more block. */
  ghost function NextChain(c: Consensus, s: State, r: Request): seq<Block>
    requires Inv(c, s) && Fresh(c, s.store.blocks, r.block)
  {
    StepKeepsInv(c, s, r);
    MainChain(c, Step(c, s, r))
  }

  /** Main chain before and after a request: a shared prefix, then what is detached and attached. */
  lemma ChainsSplit(c: Consensus, s: State, r: Request) returns (common: seq<Block>)
    requires Inv(c, s) && Fresh(c, s.store.blocks, r.block)
    ensures Inv(c, Step(c, s, r))
    ensures Switches(c, s, r) ==>
      && MainChain(c, s) == common + Detached(c, s, r.block)
      && MainChain(c, Step(c, s, r)) == common + Attached(c, s, r.block)
    ensures !Switches(c, s, r) ==> MainChain(c, Step(c, s, r)) == MainChain(c, s)
  {
    hide Tree, ExtsOk, EpochsOk, TipBest, Path, TotalDifficulty, TotalUncles, EpochOf;
    hide Marked, Unverified, NumberIndex, HashIndex, Passes, NewBest;
    StepKeepsInv(c, s, r);
    AddedInherits(c, s.store.blocks, r.block);
    AddKeepsInheritance(c, s.store.blocks, r.block, s.tip.hash);
    var main, fork := MainChain(c, s), Path(c, s.store.blocks[r.block.hash := r.block], r.block.hash);
    var k := Common(main, fork);
    common := main[..k];
    assert main == main[..k] + main[k..] && fork == fork[..k] + fork[k..];
  }

  /** Whatever the order of the detached blocks and whatever the store would rebuild. */
  lemma SwitchReplaysOne(common: seq<Block>, d: seq<Block>, a: seq<Block>, p: seq<Block>, txs: map<Hash, OutputInfo>)
    requires WellFormed(Entries(common + d)) && WellFormed(Entries(common + a)) && SameBlocks(p, d)
    ensures Named(InputsOf(Entries(p))) <= ReplayOf(common + d).Keys
    ensures Updated(ReplayOf(common + d), DiffOf(Entries(p), Entries(a)), txs) == ReplayOf(common + a)
  {
    hide Updated, Replay, Entries, InputsOf, Named, InfoOf, HashesOf, WellFormed, SameBlocks;
    EntriesAppend(common, d);
    EntriesAppend(common, a);
    DetachedOrder(p, d, Entries(a));
    ReorgReplays(Entries(common), Entries(d), Entries(a), txs);
  }

  /** One request keeps the cell set equal to the replay of the main chain, and never needs a rebuild. */
  lemma MoveReplays(c: Consensus, s: State, r: Request, m': Cells)
    requires Inv(c, s) && Fresh(c, s.store.blocks, r.block)
    requires WellFormed(Entries(MainChain(c, s))) && WellFormed(Entries(NextChain(c, s, r)))
    ensures CellsMove(c, s, r, ReplayOf(MainChain(c, s)), m') <==> m' == ReplayOf(NextChain(c, s, r))
    ensures Switches(c, s, r) ==>
      Named(InputsOf(Entries(Detached(c, s, r.block)))) <= ReplayOf(MainChain(c, s)).Keys
  {
    hide Tree, ExtsOk, EpochsOk, TipBest, Step, Accepts, NewBest;
    hide Updated, Entries, Replay, WellFormed, Detached, Attached, Named, InputsOf, MainChain;
    var common := ChainsSplit(c, s, r);
    if Switches(c, s, r) {
      var m, d, a := ReplayOf(MainChain(c, s)), Detached(c, s, r.block), Attached(c, s, r.block);
      SwitchReplaysOne(common, d, a, d, map[]);
      if CellsMove(c, s, r, m, m') {
        var p, txs: map<Hash, OutputInfo> :|
          && SameBlocks(p, d)
          && Named(InputsOf(Entries(p))) <= m.Keys + txs.Keys
          && m' == Updated(m, DiffOf(Entries(p), Entries(a)), txs);
        SwitchReplaysOne(common, d, a, p, txs);
      }
    }
  }

  // ---------------------------------------------------------------- runs

  /** The requests can be made, and every main chain on the way is well formed. */
  ghost predicate Sound(c: Consensus, s: State, rs: seq<Request>)
    requires Inv(c, s)
    decreases |rs|
  {
    && WellFormed(Entries(MainChain(c, s)))
    && (rs == [] ||
        (Fresh(c, s.store.blocks, rs[0].block) &&
         (StepKeepsInv(c, s, rs[0]); Sound(c, Step(c, s, rs[0]), rs[1..]))))
  }

  /** `m'` may be the cell set after the run that starts in `s` with `m`. */
  ghost predicate CellsRun(c: Consensus, s: State, m: Cells, rs: seq<Request>, m': Cells)
    requires Inv(c, s) && CanRun(c, s, rs)
    decreases |rs|
  {
    if rs == [] then m' == m
    else
      exists mid :: CellsMove(c, s, rs[0], m, mid) &&
        (StepKeepsInv(c, s, rs[0]); CellsRun(c, Step(c, s, rs[0]), mid, rs[1..], m'))
  }

  /** In every reachable state the cell set is the replay of the main chain, and there is one. */
  lemma {:induction false} RunReplays(c: Consensus, s: State, rs: seq<Request>, m': Cells)
    requires Inv(c, s) && CanRun(c, s, rs) && Sound(c, s, rs)
    ensures CellsRun(c, s, ReplayOf(MainChain(c, s)), rs, m') <==> m' == ReplayOf(MainChain(c, Run(c, s, rs)))
    decreases |rs|
  {
    if rs != [] {
      StepKeepsInv(c, s, rs[0]);
      var t := Step(c, s, rs[0]);
      forall mid { MoveReplays(c, s, rs[0], mid); }
      RunReplays(c, t, rs[1..], m');
    }
  }

  // ---------------------------------------------------------------- the objects

  /** The genesis cell set is written without looking at inputs; that is its replay when there are none. */
  lemma {:induction false} GenesisReplay(es: seq<Entry>)
    requires WellFormed(es) && Spent(es) == {}
    ensures CS.InsertedAll(map[], es) == Replay(es)
    decreases |es|
  {
    if es != [] {
      LastEntry(es);
      var ops := es[|es| - 1].tx.inputs;
      assert forall op :: op in ops ==> op.cell.None?;
      GenesisReplay(es[..|es| - 1]);
      SpendsNothing(Replay(es[..|es| - 1]), es[|es| - 1].tx.inputs);
    }
  }

  lemma {:induction false} SpendsNothing(m: Cells, ops: seq<OutPoint>)
    requires forall op :: op in ops ==> op.cell.None?
    ensures Spend(m, ops) == m
    decreases |ops|
  {
    if ops != [] {
      assert ops[|ops| - 1] in ops;
      SpendsNothing(m, ops[..|ops| - 1]);
    }
  }

  /** What a reorg undoes in a well-formed chain is in memory, and in range when the chain spends outputs once. */
  lemma UndoneIsKnown(common: seq<Block>, d: seq<Block>, p: seq<Block>, txs: map<Hash, OutputInfo>)
    requires WellFormed(Entries(common + d)) && SameBlocks(p, d)
    ensures Named(InputsOf(Entries(p))) <= ReplayOf(common + d).Keys
    ensures SpendsOnce(Entries(common + d)) ==> CS.InRange(ReplayOf(common + d), InputsOf(Entries(p)), txs)
  {
    hide Replay, Entries, InputsOf, Named, WellFormed, SameBlocks, SpendsOnce, CS.InRange;
    EntriesAppend(common, d);
    DetachedOrder(p, d, []);
    ReplayHolds(Entries(common + d));
    NothingRebuilt(ReplayOf(common + d), Entries(common), Entries(d));
    if SpendsOnce(Entries(common + d)) { UndoneInRange(Entries(common), Entries(d), txs); }
  }

  lemma UndoneInRange(common: seq<Entry>, d: seq<Entry>, txs: map<Hash, OutputInfo>)
    requires SpendsOnce(common + d) && Holds(Replay(common + d), common + d)
    requires Named(InputsOf(d)) <= Replay(common + d).Keys
    ensures CS.InRange(Replay(common + d), InputsOf(d), txs)
  {
    hide Replay;
    var es := common + d;
    Append(common, d);
    forall op | op in InputsOf(d) && op.cell.Some?
      ensures op.cell.value.txHash in Replay(es)
      ensures op.cell.value.index < |Replay(es)[op.cell.value.txHash].deadCell|
    {
      InputsInRange(es, op);
      var e :| e in es && e.tx.hash == op.cell.value.txHash && op.cell.value.index < |e.tx.outputs|;
      assert e.tx.hash in HashesOf(es);
    }
  }

  class Node {
    const chain: Service.Chain
    const cells: CS.ChainState

    /** The chain is in order, and the disk agrees with the cell set in memory. */
    ghost predicate Valid()
      reads this, chain, cells, cells.cellSet
    {
      && Inv(chain.consensus, chain.Snapshot())
      && CS.Agrees(cells.disk, cells.cellSet.inner)
    }

    ghost function Main(): seq<Block>
      requires Valid()
      reads this, chain, cells, cells.cellSet
    {
      MainChain(chain.consensus, chain.Snapshot())
    }

    /** The main chain is well formed and the cell set is its replay. */
    ghost predicate Exact()
      requires Valid()
      reads this, chain, cells, cells.cellSet
    {
      WellFormed(Entries(Main())) && cells.cellSet.inner == ReplayOf(Main())
    }

    constructor (c: Consensus)
      requires c.Valid()
      ensures Valid() && chain.consensus == c && chain.Snapshot() == Genesis(c) && CS.Tidy(cells.disk)
      ensures fresh(chain) && fresh(cells) && fresh(cells.cellSet)
      ensures WellFormed(BlockEntries(c.genesis)) && Spent(BlockEntries(c.genesis)) == {} ==> Exact()
    {
      chain := new Service.Chain(c);
      cells := new CS.ChainState(c.genesis);
      new;
      GenesisMain(c);
      CS.InsertedTidy(map[], BlockEntries(c.genesis));
      if WellFormed(BlockEntries(c.genesis)) && Spent(BlockEntries(c.genesis)) == {} {
        GenesisReplay(BlockEntries(c.genesis));
      }
    }

    /** What an exact cell set says about a transaction of the main chain, by the fields of its block. */
    lemma ExactCells(b: Block, i: nat)
      requires Valid() && Exact() && b in Main() && i < |b.transactions|
      ensures b.transactions[i].hash in cells.cellSet.inner
      ensures var tx, meta := b.transactions[i], cells.cellSet.inner[b.transactions[i].hash];
        && meta.blockNumber == b.number && meta.epochNumber == b.epoch
        && (meta.cellbase <==>
              |tx.inputs| == 1 && |tx.outputs| == 1 && tx.witnesses == 1 && tx.inputs[0] == OutPoint(None, None))
        && |meta.deadCell| == |tx.outputs|
        && forall k :: 0 <= k < |tx.outputs| ==>
             (meta.deadCell[k] <==>
                exists x, j, op ::
                  && x in Main() && 0 <= j < |x.transactions| && op in x.transactions[j].inputs
                  && op.cell == Some(CellOutPoint(tx.hash, k)))
    {
      ChainCells(Main(), b, i);
    }

    /**
     Processing a block moves the chain by `ForkChoice.Step` and, when the chain switches, applies
     the reorg's diff. An exact cell set stays exact as long as the chain adopted is well formed, and
     needs no transaction from the store. An inexact one needs what the source expects of its store.
     */
    method ProcessBlock(r: Request, txs: map<Hash, OutputInfo>) returns (outcome: Service.Outcome)
      requires Valid() && Fresh(chain.consensus, chain.store.blocks, r.block)
      requires Exact() || StoreHas(chain.consensus, chain.Snapshot(), r, cells.cellSet.inner, txs)
      modifies chain, cells, cells.cellSet
      ensures Valid()
      ensures chain.Snapshot() == Step(chain.consensus, old(chain.Snapshot()), r)
      ensures outcome.Ok? <==> Accepts(chain.consensus, old(chain.Snapshot()), r)
      ensures r.needVerify && !r.blockValid ==> outcome == Service.Err(Service.BlockInvalid)
      ensures outcome.Err? ==>
        && chain.Snapshot() == old(chain.Snapshot())
        && cells.cellSet.inner == old(cells.cellSet.inner) && cells.disk == old(cells.disk)
      ensures CellsMove(chain.consensus, old(chain.Snapshot()), r, old(cells.cellSet.inner), cells.cellSet.inner)
      ensures old(Exact()) && WellFormed(Entries(Main())) ==> Exact()
      ensures old(Exact() && SpendsOnce(Entries(Main())) && CS.Tidy(cells.disk)) ==> CS.Tidy(cells.disk)
    {
      hide Tree, ExtsOk, EpochsOk, TipBest, Path, Step, MainChain, Detached, Attached, Fresh, Accepts, NewBest;
      hide InputsOf, InfoOf, Entries, Replay, WellFormed, SpendsOnce, CS.Agrees, CS.Tidy, CS.InRange, Updated, Named;
      ghost var c, s := chain.consensus, chain.Snapshot();
      StepKeepsInv(c, s, r);
      var diff;
      outcome, diff := chain.InsertBlock(r);
      ghost var common := ChainsSplit(c, s, r);
      if diff.Some? {
        ghost var d, a := Detached(c, s, r.block), Attached(c, s, r.block);
        ghost var p :| SameBlocks(p, d) && diff.value == DiffOf(Entries(p), Entries(a));
        DetachedOrder(p, d, Entries(a));
        if WellFormed(Entries(common + d)) {
          UndoneIsKnown(common, d, p, txs);
          if WellFormed(Entries(common + a)) { SwitchReplaysOne(common, d, a, p, txs); }
        }
        cells.UpdateTip(diff.value, txs);
      }
    }
  }

  /** Every transaction named by an input to be undone is in memory or can be read from the store. */
  ghost predicate StoreHas(c: Consensus, s: State, r: Request, m: Cells, txs: map<Hash, OutputInfo>)
    requires Inv(c, s) && Fresh(c, s.store.blocks, r.block)
  {
    Switches(c, s, r) ==> Named(InputsOf(Entries(Detached(c, s, r.block)))) <= m.Keys + txs.Keys
  }

  lemma GenesisMain(c: Consensus)
    requires c.Valid()
    ensures Inv(c, Genesis(c)) && MainChain(c, Genesis(c)) == [c.genesis]
    ensures Entries(MainChain(c, Genesis(c))) == BlockEntries(c.genesis)
  {
    GenesisInv(c);
    assert MainChain(c, Genesis(c)) == [c.genesis];
    assert [c.genesis][..0] == [];
  }
}
