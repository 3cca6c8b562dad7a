/**
 The read-only overlay a reorg is verified against, compared with what `update_tip` will leave:
 where the two answers are the same, and exactly where they part.
 */
module CellOverlay {
  import opened CkbTypes
  import opened CellSets
  import opened CellReplay

  datatype Overlay = Overlay(origin: Cells, added: Cells, removed: set<Hash>)
  {
    function Get(h: Hash): Option<TransactionMeta> {
      if h in removed then None
      else if h in added then Some(added[h])
      else if h in origin then Some(origin[h])
      else None
    }
  }

  function Lookup(m: Cells, h: Hash): Option<TransactionMeta> {
    if h in m then Some(m[h]) else None
  }

  /** Unset or set many outputs of one meta. */
  function Changed(m: TransactionMeta, s: set<nat>, dead: bool): TransactionMeta {
    if dead then SetAll(m, s) else UnsetAll(m, s)
  }

  /** `added` after the out points have been applied to the transactions that `base` knows. */
  function Layered(base: Cells, added: Cells, ops: set<OutPoint>, dead: bool): Cells {
    map h | h in added.Keys + (Named(ops) * base.Keys) ::
      var m := if h in added then added[h] else base[h];
      if h in base then Changed(m, Indices(ops, h), dead) else m
  }

  lemma LayeredNone(base: Cells, added: Cells, dead: bool)
    ensures Layered(base, added, {}, dead) == added
  {
    forall h | h in added ensures Layered(base, added, {}, dead)[h] == added[h] {
      assert Indices({}, h) == {};
      UnsetOne(added[h], {}, 0);
    }
  }

  function LayeredMeta(base: Cells, added: Cells, ops: set<OutPoint>, dead: bool, h: Hash): TransactionMeta
    requires h in added || h in base
  {
    var m := if h in added then added[h] else base[h];
    if h in base then Changed(m, Indices(ops, h), dead) else m
  }

  lemma LayeredMetaAdd(base: Cells, added: Cells, ops: set<OutPoint>, op: OutPoint, dead: bool, h: Hash)
    requires h in added || h in base
    ensures var m := LayeredMeta(base, added, ops, dead, h);
      LayeredMeta(base, added, ops + {op}, dead, h)
      == if op.cell.Some? && op.cell.value.txHash == h && h in base then
           (if dead then m.SetDead(op.cell.value.index) else m.UnsetDead(op.cell.value.index))
         else m
    ensures h !in added && h !in Named(ops) ==> LayeredMeta(base, added, ops, dead, h) == base[h]
  {
  }

  lemma LayeredSkip(base: Cells, added: Cells, ops: set<OutPoint>, op: OutPoint, dead: bool)
    requires op.cell.None? || op.cell.value.txHash !in base
    ensures Layered(base, added, ops + {op}, dead) == Layered(base, added, ops, dead)
  {
    hide Indices, Changed;
    IndicesAdd(ops, op, 0);
    forall g | g in added || g in base { LayeredMetaAdd(base, added, ops, op, dead, g); }
  }

  lemma LayeredAdd(base: Cells, added: Cells, ops: set<OutPoint>, op: OutPoint, dead: bool)
    requires op.cell.Some? && op.cell.value.txHash in base
    ensures var h, i, l := op.cell.value.txHash, op.cell.value.index, Layered(base, added, ops, dead);
      var m := if h in l then l[h] else base[h];
      Layered(base, added, ops + {op}, dead) == l[h := if dead then m.SetDead(i) else m.UnsetDead(i)]
  {
    hide Indices, Named, Changed, TransactionMeta.SetDead, TransactionMeta.UnsetDead;
    var h, l, l' := op.cell.value.txHash, Layered(base, added, ops, dead), Layered(base, added, ops + {op}, dead);
    IndicesAdd(ops, op, 0);
    assert l'.Keys == l.Keys + {h};
    forall g | g in l && g != h ensures l'[g] == l[g] { LayeredMetaAdd(base, added, ops, op, dead, g); }
    LayeredMetaAdd(base, added, ops, op, dead, h);
  }

  lemma NoneNamed(ops: set<OutPoint>, h: Hash)
    requires h !in Named(ops)
    ensures Indices(ops, h) == {}
  {
  }

  function OverlayOf(m: Cells, d: Diff): Overlay {
    Overlay(m,
            Layered(m, Layered(m, FreshMetas(d.newOutputs), d.oldInputs, false), d.newInputs, true),
            (d.oldOutputs * m.Keys) - d.newOutputs.Keys)
  }

  /** The loops of `CellSet::new_overlay`, each set traversed in an arbitrary order. */
  method NewOverlay(inner: Cells, d: Diff) returns (o: Overlay)
    ensures o == OverlayOf(inner, d)
  {
    hide Layered, FreshMetas;
    var removed := RemoveOutputs(inner, d.oldOutputs);
    var added;
    added, removed := AddOutputs(d.newOutputs, removed);
    added := ApplyOps(inner, added, d.oldInputs, false);
    added := ApplyOps(inner, added, d.newInputs, true);
    o := Overlay(inner, added, removed);
  }

  /** The loop over the old outputs. */
  method RemoveOutputs(inner: Cells, outputs: set<Hash>) returns (removed: set<Hash>)
    ensures removed == outputs * inner.Keys
  {
    removed := {};
    var todo := outputs;
    while todo != {}
      invariant todo <= outputs && removed == (outputs - todo) * inner.Keys
      decreases |todo|
    {
      var h :| h in todo;
      if h in inner { removed := removed + {h}; }
      todo := todo - {h};
    }
  }

  /** The loop over the new outputs, which also takes them back out of the removed ones. */
  method AddOutputs(outputs: map<Hash, OutputInfo>, start: set<Hash>) returns (added: Cells, removed: set<Hash>)
    ensures added == FreshMetas(outputs)
    ensures removed == start - outputs.Keys
  {
    hide NewMeta;
    added, removed := map[], start;
    var todo := outputs.Keys;
    while todo != {}
      invariant todo <= outputs.Keys && removed == start - (outputs.Keys - todo)
      invariant added == map h | h in outputs.Keys - todo :: NewMeta(outputs[h], false)
      decreases |todo|
    {
      var h :| h in todo;
      removed := removed - {h};
      added := added[h := NewMeta(outputs[h], false)];
      todo := todo - {h};
    }
  }

  /** The common shape of the two input loops: clone the base meta on first use, then change it. */
  method ApplyOps(base: Cells, start: Cells, ops: set<OutPoint>, dead: bool) returns (added: Cells)
    ensures added == Layered(base, start, ops, dead)
  {
    added := start;
    var todo := ops;
    ghost var done := {};
    LayeredNone(base, start, dead);
    while todo != {}
      invariant done + todo == ops && added == Layered(base, start, done, dead)
      decreases |todo|
    {
      var op :| op in todo;
      if op.cell.Some? && op.cell.value.txHash in base {
        LayeredAdd(base, start, done, op, dead);
        var h, i := op.cell.value.txHash, op.cell.value.index;
        var m := if h in added then added[h] else base[h];
        added := added[h := if dead then m.SetDead(i) else m.UnsetDead(i)];
      } else {
        LayeredSkip(base, start, done, op, dead);
      }
      done := done + {op};
      todo := todo - {op};
    }
    assert done == ops;
  }

  // ---------------------------------------------------------------- overlay against update

  /**
   A transaction on which the overlay and the updated set differ: created by the diff, unknown to
   the base set, and with an output spent by the same diff; or rebuilt from the store.
   */
  predicate Diverges(m: Cells, d: Diff, h: Hash) {
    && h !in m
    && if h in d.newOutputs then exists i :: i in Indices(d.newInputs, h) && i < d.newOutputs[h].outputsLen
       else h !in d.oldOutputs && h in Named(d.oldInputs)
  }

  lemma SetAllFresh(info: OutputInfo, unset: set<nat>, dead: set<nat>)
    ensures UnsetAll(NewMeta(info, false), unset) == NewMeta(info, false)
    ensures SetAll(NewMeta(info, false), dead) == NewMeta(info, false) <==> !exists i :: i in dead && i < info.outputsLen
  {
    var whole := NewMeta(info, false);
    assert UnsetAll(whole, unset).deadCell == whole.deadCell;
    if exists i :: i in dead && i < info.outputsLen {
      var i :| i in dead && i < info.outputsLen;
      assert SetAll(whole, dead).deadCell[i] != whole.deadCell[i];
    } else {
      assert SetAll(whole, dead).deadCell == whole.deadCell;
    }
  }

  /** What the overlay answers, transaction by transaction. */
  lemma OverlayGet(m: Cells, d: Diff, h: Hash)
    ensures OverlayOf(m, d).Get(h)
         == if h in d.newOutputs then
              Some(if h in m then SetAll(NewMeta(d.newOutputs[h], false), Indices(d.newInputs, h))
                   else NewMeta(d.newOutputs[h], false))
            else if h in m && h !in d.oldOutputs then
              Some(SetAll(UnsetAll(m[h], Indices(d.oldInputs, h)), Indices(d.newInputs, h)))
            else None
  {
    hide Indices, SetAll, UnsetAll, NewMeta;
    if h in d.newOutputs { SetAllFresh(d.newOutputs[h], Indices(d.oldInputs, h), {}); }
    if h in m {
      UnsetOne(m[h], {}, 0);
      UnsetOne(UnsetAll(m[h], Indices(d.oldInputs, h)), {}, 0);
    }
    if h !in Named(d.oldInputs) { NoneNamed(d.oldInputs, h); }
    if h !in Named(d.newInputs) { NoneNamed(d.newInputs, h); }
  }

  /** The overlay answers what the update will leave, except exactly where `Diverges` says. */
  lemma OverlayExact(m: Cells, d: Diff, txs: map<Hash, OutputInfo>, h: Hash)
    requires Named(d.oldInputs) <= m.Keys + txs.Keys
    ensures OverlayOf(m, d).Get(h) == Lookup(Updated(m, d, txs), h) <==> !Diverges(m, d, h)
  {
    hide Indices, SetAll, UnsetAll, NewMeta, OverlayOf, Overlay.Get;
    OverlayGet(m, d, h);
    if h in d.newOutputs { SetAllFresh(d.newOutputs[h], {}, Indices(d.newInputs, h)); }
  }

  /** The overlay's answer on one out point. */
  predicate LiveIn(o: Overlay, c: CellOutPoint) {
    o.Get(c.txHash).Some? && o.Get(c.txHash).value.IsDead(c.index) == Some(false)
  }

  /**
   During a reorg between well-formed chains, the overlay calls a cell live exactly when it is live
   after the new chain, or when it was created and spent by the attached blocks in a transaction
   the old chain does not have.
   */
  lemma OverlayLiveness(common: seq<Entry>, detached: seq<Entry>, attached: seq<Entry>, c: CellOutPoint)
    requires WellFormed(common + detached) && WellFormed(common + attached)
    ensures LiveIn(OverlayOf(Replay(common + detached), DiffOf(detached, attached)), c)
       <==> || Live(Replay(common + attached), c)
            || (&& c in Spent(attached)
                && c.txHash !in HashesOf(common + detached)
                && exists e :: e in attached && e.tx.hash == c.txHash && c.index < |e.tx.outputs|)
  {
    hide Replay, OverlayOf, Overlay.Get, Updated, WellFormed, InfoOf, HashesOf, InputsOf;
    var m, d, h := Replay(common + detached), DiffOf(detached, attached), c.txHash;
    ReorgReplays(common, detached, attached, map[]);
    OverlayExact(m, d, map[], h);
    ReplayHolds(common + detached);
    if Diverges(m, d, h) {
      InfoKeys(attached);
      OverlayGet(m, d, h);
      CreatedInside(common, attached, c);
    } else {
      NotDiverging(common, detached, attached, c);
    }
  }

  lemma CreatedInside(common: seq<Entry>, attached: seq<Entry>, c: CellOutPoint)
    requires WellFormed(common + attached) && c.txHash in HashesOf(attached)
    ensures c.txHash in InfoOf(attached)
    ensures var len := InfoOf(attached)[c.txHash].outputsLen;
      && (c.index < len <==> exists e :: e in attached && e.tx.hash == c.txHash && c.index < |e.tx.outputs|)
      && (Live(Replay(common + attached), c) <==> c.index < len && c !in Spent(attached))
  {
    hide Replay, InfoOf, InputsOf;
    SplitChain(common, attached);
    Append(common, attached);
    ReplayHolds(common + attached);
    var e :| e in attached && e.tx.hash == c.txHash;
    assert e in common + attached;
    forall x, y | x in attached && y in attached && x.tx.hash == y.tx.hash ensures x == y {
      UniqueHash(common + attached, x, y);
    }
    InfoAt(attached, e);
  }

  lemma NotDiverging(common: seq<Entry>, detached: seq<Entry>, attached: seq<Entry>, c: CellOutPoint)
    requires WellFormed(common + detached) && WellFormed(common + attached)
    requires !Diverges(Replay(common + detached), DiffOf(detached, attached), c.txHash)
    ensures !(c in Spent(attached) && c.txHash !in HashesOf(common + detached)
              && exists e :: e in attached && e.tx.hash == c.txHash && c.index < |e.tx.outputs|)
  {
    hide Replay, InfoOf, WellFormed, InputsOf;
    ReplayHolds(common + detached);
    InfoKeys(attached);
    if c in Spent(attached) && c.txHash in HashesOf(attached) {
      CreatedInside(common, attached, c);
      assert c.index in Indices(InputsOf(attached), c.txHash);
    }
  }

  // ---------------------------------------------------------------- a reorg where they differ

  /** A transaction of one output. */
  function OneOutput(hash: Hash, inputs: seq<OutPoint>): Transaction {
    Transaction(hash, inputs, [], [CellOutput(1, Script(0, 0), None)], 0)
  }

  function FirstOutput(hash: Hash): OutPoint {
    OutPoint(Some(CellOutPoint(hash, 0)), None)
  }

  /** Transaction 1 is common; 9 is detached; 2 spends 1 and 3 spends 2 in the attached blocks. */
  function CommonPart(): seq<Entry> { [Entry(OneOutput(1, []), 0, 0)] }
  function OldBranch(): seq<Entry> { [Entry(OneOutput(9, []), 1, 0)] }
  function NewBranch(): seq<Entry> {
    [Entry(OneOutput(2, [FirstOutput(1)]), 1, 0), Entry(OneOutput(3, [FirstOutput(2)]), 2, 0)]
  }

  lemma BranchesWellFormed()
    ensures WellFormed(CommonPart() + OldBranch()) && SpendsOnce(CommonPart() + NewBranch())
    ensures WellFormed(CommonPart() + NewBranch())
  {
    var c, o, n := CommonPart(), OldBranch(), NewBranch();
    assert WellFormed(c) && SpendsOnce(c);
    assert (c + o)[..1] == c && (c + n[..1])[..1] == c && (c + n)[..2] == c + n[..1];
    SpendsFirst(c, n[0], c[0]);
    assert SpendsOnce(c + n[..1]) by { assert (c + n[..1])[1] == n[0]; }
    LastEntry(c + n[..1]);
    assert (c + n[..1])[1] == n[0];
    SpendsFirst(c + n[..1], n[1], n[0]);
    assert SpendsOnce(c + n) by { assert (c + n)[2] == n[1]; }
    SpendsOnceWellFormed(c + n);
  }

  /** A transaction with a new hash that spends the first output of `from` only. */
  lemma SpendsFirst(es: seq<Entry>, e: Entry, from: Entry)
    requires from in es && |from.tx.outputs| > 0 && e.tx.hash !in HashesOf(es)
    requires e.tx.inputs == [FirstOutput(from.tx.hash)] && CellOutPoint(from.tx.hash, 0) !in Spent(es)
    ensures SpendsOutputs(es, e)
  {
    forall op | op in e.tx.inputs ensures op == FirstOutput(from.tx.hash) {}
  }

  /** The output of transaction 2 looks live while the reorg is verified, and is spent by then. */
  lemma OverlayMissesSpend()
    ensures WellFormed(CommonPart() + OldBranch()) && WellFormed(CommonPart() + NewBranch())
    ensures LiveIn(OverlayOf(Replay(CommonPart() + OldBranch()), DiffOf(OldBranch(), NewBranch())), CellOutPoint(2, 0))
    ensures !Live(Replay(CommonPart() + NewBranch()), CellOutPoint(2, 0))
  {
    var c, o, n, cell := CommonPart(), OldBranch(), NewBranch(), CellOutPoint(2, 0);
    BranchesWellFormed();
    CreatedAndSpent();
    hide Replay, OverlayOf, WellFormed, LiveIn, CommonPart, OldBranch, NewBranch, Spent, HashesOf;
    OverlayLiveness(c, o, n, cell);
    CreatedInside(c, n, cell);
  }

  lemma CreatedAndSpent()
    ensures CellOutPoint(2, 0) in Spent(NewBranch()) && 2 !in HashesOf(CommonPart() + OldBranch())
    ensures 2 in HashesOf(NewBranch())
    ensures exists e :: e in NewBranch() && e.tx.hash == 2 && 0 < |e.tx.outputs|
  {
    var n := NewBranch();
    assert n[1] in n && FirstOutput(2) in n[1].tx.inputs;
    assert n[0] in n && n[0].tx.hash == 2 && 0 < |n[0].tx.outputs|;
  }
}
