/**
 The live-cell set as a value: one meta per transaction, the spends and outputs of a reorg's diff,
 and what applying the diff does, independently of the order of traversal.
 */
module CellSets {
  import opened CkbTypes

  /** Per transaction: where it was included and which of its outputs are spent. */
  datatype TransactionMeta = TransactionMeta(blockNumber: nat, epochNumber: nat, cellbase: bool, deadCell: seq<bool>)
  {
    predicate AllDead() {
      forall i :: 0 <= i < |deadCell| ==> deadCell[i]
    }

    /** Out-of-range indices are ignored, by both updates. */
    function SetDead(index: nat): TransactionMeta {
      if index < |deadCell| then this.(deadCell := deadCell[index := true]) else this
    }

    function UnsetDead(index: nat): TransactionMeta {
      if index < |deadCell| then this.(deadCell := deadCell[index := false]) else this
    }

    function IsDead(index: nat): Option<bool> {
      if index < |deadCell| then Some(deadCell[index]) else None
    }
  }

  type Cells = map<Hash, TransactionMeta>

  datatype OutputInfo = OutputInfo(number: nat, epoch: nat, cellbase: bool, outputsLen: nat)

  function NewMeta(info: OutputInfo, allDead: bool): TransactionMeta {
    TransactionMeta(info.number, info.epoch, info.cellbase, seq(info.outputsLen, _ => allDead))
  }

  datatype Diff = Diff(
    oldInputs: set<OutPoint>,
    oldOutputs: set<Hash>,
    newInputs: set<OutPoint>,
    newOutputs: map<Hash, OutputInfo>)

  /** A transaction together with the header fields the cell set keeps for it. */
  datatype Entry = Entry(tx: Transaction, number: nat, epoch: nat)
  {
    function Info(): OutputInfo {
      OutputInfo(number, epoch, tx.IsCellbase(), |tx.outputs|)
    }
  }

  /** The output is there and unspent. */
  predicate Live(m: Cells, c: CellOutPoint) {
    c.txHash in m && m[c.txHash].IsDead(c.index) == Some(false)
  }

  // ---------------------------------------------------------------- many updates at once

  function UnsetAll(m: TransactionMeta, s: set<nat>): TransactionMeta {
    m.(deadCell := seq(|m.deadCell|, i requires 0 <= i < |m.deadCell| => m.deadCell[i] && i !in s))
  }

  function SetAll(m: TransactionMeta, s: set<nat>): TransactionMeta {
    m.(deadCell := seq(|m.deadCell|, i requires 0 <= i < |m.deadCell| => m.deadCell[i] || i in s))
  }

  /** The output indices of transaction `h` among the out points. */
  function Indices(ops: set<OutPoint>, h: Hash): set<nat> {
    set op | op in ops && op.cell.Some? && op.cell.value.txHash == h :: op.cell.value.index
  }

  /** The transactions the out points name. */
  function Named(ops: set<OutPoint>): set<Hash> {
    set op | op in ops && op.cell.Some? :: op.cell.value.txHash
  }

  /** Undo of the spends `ops`; a transaction missing from memory is rebuilt from the store. */
  function Revived(m: Cells, ops: set<OutPoint>, txs: map<Hash, OutputInfo>): Cells
    requires Named(ops) <= m.Keys + txs.Keys
  {
    map h | h in m.Keys + Named(ops) ::
      UnsetAll(if h in m then m[h] else NewMeta(txs[h], true), Indices(ops, h))
  }

  /** New transactions with every output live. */
  function FreshMetas(outputs: map<Hash, OutputInfo>): Cells {
    map h | h in outputs :: NewMeta(outputs[h], false)
  }

  function Inserted(m: Cells, outputs: map<Hash, OutputInfo>): Cells {
    m + FreshMetas(outputs)
  }

  /** The spends `ops`, where the transaction is known. */
  function Killed(m: Cells, ops: set<OutPoint>): (k: Cells)
    ensures k.Keys == m.Keys
  {
    map h | h in m :: SetAll(m[h], Indices(ops, h))
  }

  /** The cell set after a diff, whatever the order in which its sets are traversed. */
  function Updated(m: Cells, d: Diff, txs: map<Hash, OutputInfo>): Cells
    requires Named(d.oldInputs) <= m.Keys + txs.Keys
  {
    Killed(Inserted(Revived(m, d.oldInputs, txs) - d.oldOutputs, d.newOutputs), d.newInputs)
  }

  /** One of the out points is output `i` of transaction `h`. */
  predicate Names(ops: set<OutPoint>, h: Hash, i: nat) {
    exists op :: op in ops && op.cell == Some(CellOutPoint(h, i))
  }

  /**
   The same, transaction by transaction and output by output: who is in the set afterwards, where the
   header fields come from, and which outputs are dead.
   */
  lemma UpdatedAt(m: Cells, d: Diff, txs: map<Hash, OutputInfo>, h: Hash)
    requires Named(d.oldInputs) <= m.Keys + txs.Keys
    ensures h in Updated(m, d, txs) <==>
      || h in d.newOutputs
      || (h !in d.oldOutputs && (h in m || exists op :: op in d.oldInputs && op.cell.Some? && op.cell.value.txHash == h))
    ensures h in Updated(m, d, txs) ==>
      var meta := Updated(m, d, txs)[h];
      if h in d.newOutputs then
        && meta.blockNumber == d.newOutputs[h].number && meta.epochNumber == d.newOutputs[h].epoch
        && meta.cellbase == d.newOutputs[h].cellbase && |meta.deadCell| == d.newOutputs[h].outputsLen
        && forall i :: 0 <= i < |meta.deadCell| ==> (meta.deadCell[i] <==> Names(d.newInputs, h, i))
      else if h in m then
        && meta == m[h].(deadCell := meta.deadCell) && |meta.deadCell| == |m[h].deadCell|
        && forall i :: 0 <= i < |meta.deadCell| ==>
             (meta.deadCell[i] <==> Names(d.newInputs, h, i) || (m[h].deadCell[i] && !Names(d.oldInputs, h, i)))
      else
        && h in txs
        && meta.blockNumber == txs[h].number && meta.epochNumber == txs[h].epoch
        && meta.cellbase == txs[h].cellbase && |meta.deadCell| == txs[h].outputsLen
        && forall i :: 0 <= i < |meta.deadCell| ==>
             (meta.deadCell[i] <==> Names(d.newInputs, h, i) || !Names(d.oldInputs, h, i))
  {
    UpdatedIs(m, d, txs, h);
    hide *;
    if h in d.newOutputs {
      BitsSet(NewMeta(d.newOutputs[h], false), d.newInputs, h);
      BitsNew(d.newOutputs[h], false);
    } else if h in m || h in txs {
      if h !in m { BitsNew(txs[h], true); }
      BitsUnset(m, d.oldInputs, txs, h);
      BitsSet(RevivedMeta(m, d.oldInputs, txs, h), d.newInputs, h);
    }
  }

  lemma BitsNew(info: OutputInfo, dead: bool)
    ensures var meta := NewMeta(info, dead);
      && meta.blockNumber == info.number && meta.epochNumber == info.epoch && meta.cellbase == info.cellbase
      && |meta.deadCell| == info.outputsLen && forall i :: 0 <= i < info.outputsLen ==> meta.deadCell[i] == dead
  {
  }

  lemma BitsSet(meta: TransactionMeta, ops: set<OutPoint>, h: Hash)
    ensures var after := SetAll(meta, Indices(ops, h));
      && after == meta.(deadCell := after.deadCell) && |after.deadCell| == |meta.deadCell|
      && forall i :: 0 <= i < |meta.deadCell| ==> (after.deadCell[i] <==> Names(ops, h, i) || meta.deadCell[i])
  {
    forall i: nat { IndexNamed(ops, h, i); }
    hide Indices, Names;
  }

  lemma BitsUnset(m: Cells, ops: set<OutPoint>, txs: map<Hash, OutputInfo>, h: Hash)
    requires h in m || h in txs
    ensures var meta, after := if h in m then m[h] else NewMeta(txs[h], true), RevivedMeta(m, ops, txs, h);
      && after == meta.(deadCell := after.deadCell) && |after.deadCell| == |meta.deadCell|
      && forall i :: 0 <= i < |meta.deadCell| ==> (after.deadCell[i] <==> meta.deadCell[i] && !Names(ops, h, i))
  {
    forall i: nat { IndexNamed(ops, h, i); }
    hide Indices, Names, NewMeta;
  }

  lemma UpdatedIs(m: Cells, d: Diff, txs: map<Hash, OutputInfo>, h: Hash)
    requires Named(d.oldInputs) <= m.Keys + txs.Keys
    ensures h in Updated(m, d, txs) <==>
      || h in d.newOutputs
      || (h !in d.oldOutputs && (h in m || exists op :: op in d.oldInputs && op.cell.Some? && op.cell.value.txHash == h))
    ensures h in Updated(m, d, txs) && h !in d.newOutputs ==> h in m || h in txs
    ensures h in Updated(m, d, txs) ==>
      Updated(m, d, txs)[h] ==
        SetAll(if h in d.newOutputs then NewMeta(d.newOutputs[h], false) else RevivedMeta(m, d.oldInputs, txs, h),
               Indices(d.newInputs, h))
  {
    hide SetAll, UnsetAll, NewMeta, Indices;
  }

  lemma IndexNamed(ops: set<OutPoint>, h: Hash, i: nat)
    ensures i in Indices(ops, h) <==> Names(ops, h, i)
  {
    if op :| op in ops && op.cell == Some(CellOutPoint(h, i)) { assert op.cell.value.index in Indices(ops, h); }
  }

  lemma IndicesAdd(ops: set<OutPoint>, op: OutPoint, h: Hash)
    ensures Indices(ops + {op}, h)
         == if op.cell.Some? && op.cell.value.txHash == h then Indices(ops, h) + {op.cell.value.index} else Indices(ops, h)
    ensures Named(ops + {op}) == if op.cell.Some? then Named(ops) + {op.cell.value.txHash} else Named(ops)
  {
  }

  lemma UnsetOne(m: TransactionMeta, s: set<nat>, i: nat)
    ensures UnsetAll(m, s).UnsetDead(i) == UnsetAll(m, s + {i})
    ensures UnsetAll(m, {}) == m && SetAll(m, {}) == m
    ensures SetAll(m, s).SetDead(i) == SetAll(m, s + {i})
  {
  }

  lemma NoIndices(m: Cells, txs: map<Hash, OutputInfo>)
    ensures Revived(m, {}, txs) == m && Killed(m, {}) == m
  {
    forall h | h in m ensures Revived(m, {}, txs)[h] == m[h] && Killed(m, {})[h] == m[h] {
      assert Indices({}, h) == {};
      UnsetOne(m[h], {}, 0);
    }
  }

  /** What reviving leaves for one transaction. */
  function RevivedMeta(m: Cells, ops: set<OutPoint>, txs: map<Hash, OutputInfo>, h: Hash): TransactionMeta
    requires h in m || h in txs
  {
    UnsetAll(if h in m then m[h] else NewMeta(txs[h], true), Indices(ops, h))
  }

  lemma RevivedMetaAdd(m: Cells, ops: set<OutPoint>, op: OutPoint, txs: map<Hash, OutputInfo>, h: Hash)
    requires h in m || h in txs
    ensures RevivedMeta(m, ops + {op}, txs, h)
         == if op.cell.Some? && op.cell.value.txHash == h
            then RevivedMeta(m, ops, txs, h).UnsetDead(op.cell.value.index)
            else RevivedMeta(m, ops, txs, h)
    ensures h !in m && h !in Named(ops) ==> RevivedMeta(m, ops, txs, h) == NewMeta(txs[h], true)
  {
  }

  /** An out point without a cell revives nothing. */
  lemma RevivedSkip(m: Cells, ops: set<OutPoint>, op: OutPoint, txs: map<Hash, OutputInfo>)
    requires op.cell.None? && Named(ops + {op}) <= m.Keys + txs.Keys
    ensures Named(ops + {op}) == Named(ops) && Revived(m, ops + {op}, txs) == Revived(m, ops, txs)
  {
    forall h { IndicesAdd(ops, op, h); }
  }

  /** Reviving one more spend. */
  lemma RevivedAdd(m: Cells, ops: set<OutPoint>, op: OutPoint, txs: map<Hash, OutputInfo>)
    requires op.cell.Some? && Named(ops + {op}) <= m.Keys + txs.Keys
    ensures Named(ops) <= m.Keys + txs.Keys
    ensures var h, r := op.cell.value.txHash, Revived(m, ops, txs);
      && (h !in r ==> h in txs)
      && Revived(m, ops + {op}, txs)
         == r[h := (if h in r then r[h] else NewMeta(txs[h], true)).UnsetDead(op.cell.value.index)]
  {
    hide UnsetAll, Indices, NewMeta, Named;
    IndicesAdd(ops, op, 0);
    var h, r, r' := op.cell.value.txHash, Revived(m, ops, txs), Revived(m, ops + {op}, txs);
    forall g | g in r && g != h ensures g in r' && r'[g] == r[g] {
      RevivedMetaAdd(m, ops, op, txs, g);
    }
    RevivedMetaAdd(m, ops, op, txs, h);
    assert r'.Keys == r.Keys + {h};
  }

  /** Spending one more cell. */
  lemma KilledAdd(m: Cells, ops: set<OutPoint>, op: OutPoint)
    ensures var k := Killed(m, ops);
      Killed(m, ops + {op})
      == if op.cell.Some? && op.cell.value.txHash in m
         then k[op.cell.value.txHash := k[op.cell.value.txHash].SetDead(op.cell.value.index)]
         else k
  {
    hide SetAll, Indices;
    var k, k' := Killed(m, ops), Killed(m, ops + {op});
    forall h | h in m
      ensures k'[h] == if op.cell.Some? && op.cell.value.txHash == h then k[h].SetDead(op.cell.value.index) else k[h]
    {
      IndicesAdd(ops, op, h);
      UnsetOne(m[h], Indices(ops, h), if op.cell.Some? then op.cell.value.index else 0);
    }
  }
}
