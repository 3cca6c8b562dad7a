/**
 The objects behind the live-cell set: the diff filled block by block, the set updated in place
 and the batch that persists it. Sets are traversed in an arbitrary order.
 */
module CellState {
  import opened CkbTypes
  import opened CellSets
  import opened CellReplay

  datatype CellWrite = Put(hash: Hash, meta: TransactionMeta) | Delete(hash: Hash)

  function Apply(disk: Cells, w: CellWrite): Cells {
    if w.Put? then disk[w.hash := w.meta] else disk - {w.hash}
  }

  function Commit(disk: Cells, ws: seq<CellWrite>): Cells {
    if ws == [] then disk else Apply(Commit(disk, ws[..|ws| - 1]), ws[|ws| - 1])
  }

  lemma {:induction false} CommitAppend(disk: Cells, a: seq<CellWrite>, b: seq<CellWrite>)
    ensures Commit(disk, a + b) == Commit(Commit(disk, a), b)
    decreases |b|
  {
    if b == [] {
      assert a + b == a;
    } else {
      CommitAppend(disk, a, b[..|b| - 1]);
      assert (a + b)[..|a + b| - 1] == a + b[..|b| - 1];
    }
  }

  lemma CommitOne(disk: Cells, a: seq<CellWrite>, w: CellWrite)
    ensures Commit(disk, a + [w]) == Apply(Commit(disk, a), w)
  {
  }

  /** What is on disk is what is in memory, except that fully spent transactions may be missing. */
  predicate Agrees(disk: Cells, mem: Cells) {
    && disk.Keys <= mem.Keys
    && (forall h :: h in disk ==> disk[h] == mem[h])
    && (forall h :: h in mem && h !in disk ==> mem[h].AllDead())
  }

  /** So loading the set from disk answers "live or not" the same for every out point. */
  lemma AgreesOnLive(disk: Cells, mem: Cells, c: CellOutPoint)
    requires Agrees(disk, mem)
    ensures Live(disk, c) <==> Live(mem, c)
    ensures Live(mem, c) <==> c.txHash in mem && c.index < |mem[c.txHash].deadCell| && !mem[c.txHash].deadCell[c.index]
  {
  }

  /** No fully spent transaction is on disk, unless it has no outputs at all. */
  predicate Tidy(disk: Cells) {
    forall h :: h in disk && |disk[h].deadCell| > 0 ==> !disk[h].AllDead()
  }

  /** Then the disk holds exactly the set in memory without its fully spent transactions. */
  lemma TidyIsExact(disk: Cells, mem: Cells, h: Hash)
    requires Agrees(disk, mem) && Tidy(disk) && h in mem && |mem[h].deadCell| > 0
    ensures h in disk <==> exists i :: 0 <= i < |mem[h].deadCell| && !mem[h].deadCell[i]
    ensures h in disk ==> disk[h] == mem[h]
  {
  }

  /** Every spend to be undone names an output its transaction has. */
  predicate InRange(m: Cells, ops: set<OutPoint>, txs: map<Hash, OutputInfo>)
    requires Named(ops) <= m.Keys + txs.Keys
  {
    forall op :: op in ops && op.cell.Some? ==>
      var c := op.cell.value;
      assert c.txHash in Named(ops);
      c.index < if c.txHash in m then |m[c.txHash].deadCell| else txs[c.txHash].outputsLen
  }

  /** Once such a spend is undone its transaction is not fully spent. */
  lemma RevivedIsLive(m: Cells, ops: set<OutPoint>, txs: map<Hash, OutputInfo>, op: OutPoint)
    requires Named(ops) <= m.Keys + txs.Keys && op in ops && op.cell.Some?
    ensures op.cell.value.txHash in Revived(m, ops, txs)
    ensures InRange(m, ops, txs) ==> !Revived(m, ops, txs)[op.cell.value.txHash].AllDead()
  {
    var c := op.cell.value;
    assert c.txHash in Named(ops) && c.index in Indices(ops, c.txHash);
    if InRange(m, ops, txs) { assert !Revived(m, ops, txs)[c.txHash].deadCell[c.index]; }
  }

  lemma RangeOfPart(m: Cells, part: set<OutPoint>, ops: set<OutPoint>, txs: map<Hash, OutputInfo>)
    requires part <= ops && Named(ops) <= m.Keys + txs.Keys
    ensures Named(part) <= m.Keys + txs.Keys && (InRange(m, ops, txs) ==> InRange(m, part, txs))
  {
  }

  lemma {:induction false} InfoAppend(a: seq<Entry>, b: seq<Entry>)
    ensures InfoOf(a + b) == InfoOf(a) + InfoOf(b)
    decreases |b|
  {
    if b == [] {
      assert a + b == a;
    } else {
      InfoAppend(a, b[..|b| - 1]);
      assert (a + b)[..|a + b| - 1] == a + b[..|b| - 1];
    }
  }

  /** The diff with one more attached transaction. */
  lemma PushedNew(detached: seq<Entry>, attached: seq<Entry>, e: Entry)
    ensures var d := DiffOf(detached, attached);
      DiffOf(detached, attached + [e]) ==
        d.(newInputs := d.newInputs + (set op | op in e.tx.inputs), newOutputs := d.newOutputs[e.tx.hash := e.Info()])
  {
    var next := attached + [e];
    assert next[..|next| - 1] == attached;
    LastEntry(next);
  }

  /** The diff with one more detached transaction. */
  lemma PushedOld(detached: seq<Entry>, attached: seq<Entry>, e: Entry)
    ensures var d := DiffOf(detached, attached);
      DiffOf(detached + [e], attached) ==
        d.(oldInputs := d.oldInputs + (set op | op in e.tx.inputs), oldOutputs := d.oldOutputs + {e.tx.hash})
  {
    var next := detached + [e];
    assert next[..|next| - 1] == detached;
    LastEntry(next);
  }

  class CellSetDiff {
    var oldInputs: set<OutPoint>
    var oldOutputs: set<Hash>
    var newInputs: set<OutPoint>
    var newOutputs: map<Hash, OutputInfo>

    function Value(): Diff
      reads this
    {
      Diff(oldInputs, oldOutputs, newInputs, newOutputs)
    }

    constructor ()
      ensures Value() == DiffOf([], [])
    {
      oldInputs, oldOutputs, newInputs, newOutputs := {}, {}, {}, map[];
    }

    /**
     Pushing a block after others is the diff of all their transactions: its inputs are added, and each of its
     transactions is filed with the header fields of the block; of two with the same hash the later one stays.
     */
    method PushNew(block: Block, ghost detached: seq<Entry>, ghost attached: seq<Entry>)
      requires Value() == DiffOf(detached, attached)
      modifies this
      ensures Value() == DiffOf(detached, attached + BlockEntries(block))
      ensures oldInputs == old(oldInputs) && oldOutputs == old(oldOutputs)
      ensures forall op :: op in newInputs <==>
        op in old(newInputs) || exists i :: 0 <= i < |block.transactions| && op in block.transactions[i].inputs
      ensures forall h :: h in newOutputs <==>
        h in old(newOutputs) || exists i :: 0 <= i < |block.transactions| && block.transactions[i].hash == h
      ensures forall h ::
        && h in old(newOutputs)
        && (forall i :: 0 <= i < |block.transactions| ==> block.transactions[i].hash != h) ==>
          newOutputs[h] == old(newOutputs)[h]
      ensures forall i ::
        && 0 <= i < |block.transactions|
        && (forall j :: i < j < |block.transactions| ==> block.transactions[j].hash != block.transactions[i].hash) ==>
          var tx := block.transactions[i];
          var cellbase := |tx.inputs| == 1 && |tx.outputs| == 1 && tx.witnesses == 1 && tx.inputs[0] == OutPoint(None, None);
          && tx.hash in newOutputs
          && newOutputs[tx.hash] == OutputInfo(block.number, block.epoch, cellbase, |tx.outputs|)
    {
      ghost var es := BlockEntries(block);
      hide DiffOf;
      assert attached + es[..0] == attached;
      for i := 0 to |block.transactions|
        invariant Value() == DiffOf(detached, attached + es[..i])
      {
        var tx := block.transactions[i];
        newInputs := newInputs + set op | op in tx.inputs;
        newOutputs := newOutputs[tx.hash := OutputInfo(block.number, block.epoch, tx.IsCellbase(), |tx.outputs|)];
        assert attached + es[..i + 1] == attached + es[..i] + [es[i]];
        PushedNew(detached, attached + es[..i], es[i]);
      }
      assert es[..|block.transactions|] == es;
      BlockDiff(detached, attached, block);
    }

    /** The diff gains the inputs and hashes of the old block. */
    method PushOld(block: Block, ghost detached: seq<Entry>, ghost attached: seq<Entry>)
      requires Value() == DiffOf(detached, attached)
      modifies this
      ensures Value() == DiffOf(detached + BlockEntries(block), attached)
      ensures newInputs == old(newInputs) && newOutputs == old(newOutputs)
      ensures forall op :: op in oldInputs <==>
        op in old(oldInputs) || exists i :: 0 <= i < |block.transactions| && op in block.transactions[i].inputs
      ensures forall h :: h in oldOutputs <==>
        h in old(oldOutputs) || exists i :: 0 <= i < |block.transactions| && block.transactions[i].hash == h
    {
      ghost var es := BlockEntries(block);
      hide DiffOf;
      assert detached + es[..0] == detached;
      for i := 0 to |block.transactions|
        invariant Value() == DiffOf(detached + es[..i], attached)
      {
        var tx := block.transactions[i];
        oldInputs := oldInputs + set op | op in tx.inputs;
        oldOutputs := oldOutputs + {tx.hash};
        assert detached + es[..i + 1] == detached + es[..i] + [es[i]];
        PushedOld(detached + es[..i], attached, es[i]);
      }
      assert es[..|block.transactions|] == es;
      OldBlockDiff(detached, attached, block);
    }
  }

  /** The inputs and hashes of a block's entries are those of its transactions. */
  lemma BlockParts(b: Block)
    ensures forall op :: op in InputsOf(BlockEntries(b)) <==>
      exists i :: 0 <= i < |b.transactions| && op in b.transactions[i].inputs
    ensures forall h :: h in HashesOf(BlockEntries(b)) <==>
      exists i :: 0 <= i < |b.transactions| && b.transactions[i].hash == h
  {
    var es := BlockEntries(b);
    forall i | 0 <= i < |b.transactions| ensures es[i] in es && es[i].tx == b.transactions[i] {}
    forall e | e in es ensures exists i :: 0 <= i < |b.transactions| && b.transactions[i] == e.tx {
      var i :| 0 <= i < |es| && es[i] == e;
      assert b.transactions[i] == e.tx;
    }
  }

  /** Of several entries with one hash the last one is filed. */
  lemma {:induction false} InfoLast(es: seq<Entry>, i: nat)
    requires i < |es| && forall j :: i < j < |es| ==> es[j].tx.hash != es[i].tx.hash
    ensures es[i].tx.hash in InfoOf(es) && InfoOf(es)[es[i].tx.hash] == es[i].Info()
    decreases |es|
  {
    var n := |es| - 1;
    if i < n {
      assert es[..n][i] == es[i] && es[n].tx.hash != es[i].tx.hash;
      InfoLast(es[..n], i);
    }
  }

  /** What an attached block adds to a diff, by the fields of its transactions. */
  lemma BlockDiff(detached: seq<Entry>, attached: seq<Entry>, b: Block)
    ensures var d, e := DiffOf(detached, attached), DiffOf(detached, attached + BlockEntries(b));
      && e.oldInputs == d.oldInputs && e.oldOutputs == d.oldOutputs
      && (forall op :: op in e.newInputs <==>
            op in d.newInputs || exists i :: 0 <= i < |b.transactions| && op in b.transactions[i].inputs)
      && (forall h :: h in e.newOutputs <==>
            h in d.newOutputs || exists i :: 0 <= i < |b.transactions| && b.transactions[i].hash == h)
      && (forall h :: h in d.newOutputs && (forall i :: 0 <= i < |b.transactions| ==> b.transactions[i].hash != h) ==>
            e.newOutputs[h] == d.newOutputs[h])
      && (forall i ::
            && 0 <= i < |b.transactions|
            && (forall j :: i < j < |b.transactions| ==> b.transactions[j].hash != b.transactions[i].hash) ==>
              var tx := b.transactions[i];
              var cellbase := |tx.inputs| == 1 && |tx.outputs| == 1 && tx.witnesses == 1 && tx.inputs[0] == OutPoint(None, None);
              && tx.hash in e.newOutputs
              && e.newOutputs[tx.hash] == OutputInfo(b.number, b.epoch, cellbase, |tx.outputs|))
  {
    var es := BlockEntries(b);
    BlockParts(b);
    Append(attached, es);
    InfoAppend(attached, es);
    InfoKeys(es);
    InfoKeys(attached);
    hide InputsOf, HashesOf, InfoOf;
    forall i |
      && 0 <= i < |b.transactions|
      && (forall j :: i < j < |b.transactions| ==> b.transactions[j].hash != b.transactions[i].hash)
      ensures b.transactions[i].hash in InfoOf(es) && InfoOf(es)[b.transactions[i].hash] == es[i].Info()
    {
      InfoLast(es, i);
    }
  }

  /** What a detached block adds. */
  lemma OldBlockDiff(detached: seq<Entry>, attached: seq<Entry>, b: Block)
    ensures var d, e := DiffOf(detached, attached), DiffOf(detached + BlockEntries(b), attached);
      && e.newInputs == d.newInputs && e.newOutputs == d.newOutputs
      && (forall op :: op in e.oldInputs <==>
            op in d.oldInputs || exists i :: 0 <= i < |b.transactions| && op in b.transactions[i].inputs)
      && (forall h :: h in e.oldOutputs <==>
            h in d.oldOutputs || exists i :: 0 <= i < |b.transactions| && b.transactions[i].hash == h)
  {
    BlockParts(b);
    Append(detached, BlockEntries(b));
  }

  datatype CellSetOpr = OprDelete | OprUpdate(meta: TransactionMeta)

  class CellSet {
    var inner: Cells

    constructor ()
      ensures inner == map[]
    {
      inner := map[];
    }

    /** The rebuilt entry: every output dead but the one revived. */
    method InsertCell(cell: CellOutPoint, info: OutputInfo) returns (meta: TransactionMeta)
      modifies this
      ensures meta == NewMeta(info, true).UnsetDead(cell.index)
      ensures meta.blockNumber == info.number && meta.epochNumber == info.epoch && meta.cellbase == info.cellbase
      ensures |meta.deadCell| == info.outputsLen
      ensures forall i :: 0 <= i < info.outputsLen ==> (meta.deadCell[i] <==> i != cell.index)
      ensures inner == old(inner)[cell.txHash := meta]
    {
      meta := NewMeta(info, true).UnsetDead(cell.index);
      inner := inner[cell.txHash := meta];
    }

    method InsertTransaction(txHash: Hash, info: OutputInfo) returns (meta: TransactionMeta)
      modifies this
      ensures meta == NewMeta(info, false)
      ensures meta.blockNumber == info.number && meta.epochNumber == info.epoch && meta.cellbase == info.cellbase
      ensures |meta.deadCell| == info.outputsLen && forall i :: 0 <= i < info.outputsLen ==> !meta.deadCell[i]
      ensures inner == old(inner)[txHash := meta]
    {
      meta := NewMeta(info, false);
      inner := inner[txHash := meta];
    }

    method Remove(txHash: Hash) returns (meta: Option<TransactionMeta>)
      modifies this
      ensures meta == if txHash in old(inner) then Some(old(inner)[txHash]) else None
      ensures inner == old(inner) - {txHash}
    {
      meta := if txHash in inner then Some(inner[txHash]) else None;
      inner := inner - {txHash};
    }

    method MarkDead(cell: CellOutPoint) returns (opr: Option<CellSetOpr>)
      modifies this
      ensures cell.txHash !in old(inner) ==> inner == old(inner) && opr == None
      ensures cell.txHash in old(inner) ==>
        var meta := old(inner)[cell.txHash].SetDead(cell.index);
        && inner == old(inner)[cell.txHash := meta]
        && opr == Some(if meta.AllDead() then OprDelete else OprUpdate(meta))
      ensures cell.txHash in old(inner) ==>
        var was, meta := old(inner)[cell.txHash], inner[cell.txHash];
        && meta == was.(deadCell := meta.deadCell) && |meta.deadCell| == |was.deadCell|
        && (forall i :: 0 <= i < |was.deadCell| ==> (meta.deadCell[i] <==> was.deadCell[i] || i == cell.index))
        && (opr == Some(OprDelete) <==> forall i :: 0 <= i < |meta.deadCell| ==> meta.deadCell[i])
        && (opr == Some(OprDelete) || opr == Some(OprUpdate(meta)))
    {
      if cell.txHash in inner {
        var meta := inner[cell.txHash].SetDead(cell.index);
        inner := inner[cell.txHash := meta];
        opr := Some(if meta.AllDead() then OprDelete else OprUpdate(meta));
      } else {
        opr := None;
      }
    }

    method TryMarkLive(cell: CellOutPoint) returns (meta: Option<TransactionMeta>)
      modifies this
      ensures cell.txHash !in old(inner) ==> inner == old(inner) && meta == None
      ensures cell.txHash in old(inner) ==>
        && meta == Some(old(inner)[cell.txHash].UnsetDead(cell.index))
        && inner == old(inner)[cell.txHash := meta.value]
      ensures cell.txHash in old(inner) ==>
        var was, now := old(inner)[cell.txHash], inner[cell.txHash];
        && now == was.(deadCell := now.deadCell) && |now.deadCell| == |was.deadCell|
        && forall i :: 0 <= i < |was.deadCell| ==> (now.deadCell[i] <==> was.deadCell[i] && i != cell.index)
    {
      if cell.txHash in inner {
        var m := inner[cell.txHash].UnsetDead(cell.index);
        inner := inner[cell.txHash := m];
        meta := Some(m);
      } else {
        meta := None;
      }
    }
  }

  class ChainState {
    const cellSet: CellSet
    var disk: Cells

    constructor (genesis: Block)
      ensures fresh(cellSet)
      ensures cellSet.inner == InsertedAll(map[], BlockEntries(genesis)) && disk == cellSet.inner
    {
      var c := new CellSet();
      c.inner := InsertedAll(map[], BlockEntries(genesis));
      cellSet := c;
      disk := InsertedAll(map[], BlockEntries(genesis));
    }

    /** First phase of `update_tip`: the spends of the detached blocks are undone. */
    method ReviveOld(d: Diff, txs: map<Hash, OutputInfo>) returns (writes: seq<CellWrite>)
      requires Named(d.oldInputs) <= cellSet.inner.Keys + txs.Keys && Agrees(disk, cellSet.inner)
      modifies cellSet
      ensures cellSet.inner == Revived(old(cellSet.inner), d.oldInputs, txs)
      ensures Agrees(Commit(disk, writes), cellSet.inner)
      ensures Tidy(disk) && InRange(old(cellSet.inner), d.oldInputs, txs) ==> Tidy(Commit(disk, writes))
    {
      hide InRange, Tidy, Agrees, Revived, Commit;
      writes := [];
      CommitNothing(disk);
      var todo := d.oldInputs;
      ghost var m, done := cellSet.inner, {};
      NoIndices(m, txs);
      while todo != {}
        invariant done + todo == d.oldInputs && Named(done) <= m.Keys + txs.Keys
        invariant cellSet.inner == Revived(m, done, txs)
        invariant Agrees(Commit(disk, writes), cellSet.inner)
        invariant Tidy(disk) && InRange(m, d.oldInputs, txs) ==> Tidy(Commit(disk, writes))
        decreases |todo|
      {
        var op :| op in todo;
        assert forall x :: x in done + {op} ==> x in d.oldInputs;
        match op.cell {
          case None =>
            RevivedSkip(m, done, op, txs);
          case Some(cell) =>
            RevivedAdd(m, done, op, txs);
            ghost var before := cellSet.inner;
            var marked := cellSet.TryMarkLive(cell);
            var meta;
            if marked.Some? {
              meta := marked.value;
            } else {
              meta := cellSet.InsertCell(cell, txs[cell.txHash]);
            }
            RangeOfPart(m, done + {op}, d.oldInputs, txs);
            RevivedIsLive(m, done + {op}, txs, op);
            CommitOne(disk, writes, Put(cell.txHash, meta));
            AgreesPut(Commit(disk, writes), before, cell.txHash, meta);
            if InRange(m, d.oldInputs, txs) { TidyPut(Commit(disk, writes), cell.txHash, meta); }
            writes := writes + [Put(cell.txHash, meta)];
        }
        done := done + {op};
        todo := todo - {op};
      }
      assert done == d.oldInputs;
    }

    /** Second phase: the transactions of the detached blocks go. */
    method RemoveOld(d: Diff, ghost persisted: Cells) returns (writes: seq<CellWrite>)
      requires Agrees(persisted, cellSet.inner)
      modifies cellSet
      ensures cellSet.inner == old(cellSet.inner) - d.oldOutputs
      ensures Agrees(Commit(persisted, writes), cellSet.inner)
      ensures Tidy(persisted) ==> Tidy(Commit(persisted, writes))
    {
      writes := [];
      var todo := d.oldOutputs;
      while todo != {}
        invariant todo <= d.oldOutputs
        invariant cellSet.inner == old(cellSet.inner) - (d.oldOutputs - todo)
        invariant Agrees(Commit(persisted, writes), cellSet.inner)
        invariant Tidy(persisted) ==> Tidy(Commit(persisted, writes))
        decreases |todo|
      {
        var h :| h in todo;
        var removed := cellSet.Remove(h);
        if removed.Some? {
          CommitOne(persisted, writes, Delete(h));
          writes := writes + [Delete(h)];
        }
        todo := todo - {h};
      }
      assert d.oldOutputs - todo == d.oldOutputs;
    }

    /** Third phase: the transactions of the attached blocks come, all their outputs live. */
    method InsertNew(d: Diff, ghost persisted: Cells) returns (writes: seq<CellWrite>)
      requires Agrees(persisted, cellSet.inner)
      modifies cellSet
      ensures cellSet.inner == Inserted(old(cellSet.inner), d.newOutputs)
      ensures Agrees(Commit(persisted, writes), cellSet.inner)
      ensures Tidy(persisted) ==> Tidy(Commit(persisted, writes))
    {
      hide Agrees, Tidy, Commit;
      writes := [];
      CommitNothing(persisted);
      var todo := d.newOutputs.Keys;
      while todo != {}
        invariant todo <= d.newOutputs.Keys
        invariant cellSet.inner == Inserted(old(cellSet.inner), d.newOutputs - todo)
        invariant Agrees(Commit(persisted, writes), cellSet.inner)
        invariant Tidy(persisted) ==> Tidy(Commit(persisted, writes))
        decreases |todo|
      {
        var h :| h in todo;
        ghost var before := cellSet.inner;
        var meta := cellSet.InsertTransaction(h, d.newOutputs[h]);
        CommitOne(persisted, writes, Put(h, meta));
        AgreesPut(Commit(persisted, writes), before, h, meta);
        NewIsLive(d.newOutputs[h]);
        TidyPut(Commit(persisted, writes), h, meta);
        writes := writes + [Put(h, meta)];
        InsertedNext(old(cellSet.inner), d.newOutputs, todo, h);
        todo := todo - {h};
      }
      assert d.newOutputs - todo == d.newOutputs;
    }

    /** Fourth phase: the attached blocks' spends. Fully spent transactions are deleted after all updates. */
    method SpendNew(d: Diff, ghost persisted: Cells) returns (updates: seq<CellWrite>, deletes: seq<CellWrite>)
      requires Agrees(persisted, cellSet.inner)
      modifies cellSet
      ensures cellSet.inner == Killed(old(cellSet.inner), d.newInputs)
      ensures Agrees(Commit(Commit(persisted, updates), deletes), cellSet.inner)
      ensures Tidy(persisted) ==> Tidy(Commit(Commit(persisted, updates), deletes))
    {
      hide Killed, Commit, Agrees, Gone, Tidy;
      updates, deletes := [], [];
      CommitNothing(persisted);
      var todo := d.newInputs;
      ghost var m, done, gone := cellSet.inner, {}, {};
      NoIndices(m, map[]);
      while todo != {}
        invariant done + todo == d.newInputs
        invariant cellSet.inner == Killed(m, done)
        invariant OnlyDeletes(deletes) && Gone(deletes) == gone
        invariant gone <= cellSet.inner.Keys && forall h :: h in gone ==> cellSet.inner[h].AllDead()
        invariant Agrees(Commit(persisted, updates) - gone, cellSet.inner)
        invariant Tidy(persisted) ==> Tidy(Commit(persisted, updates))
        decreases |todo|
      {
        var op :| op in todo;
        KilledAdd(m, done, op);
        if op.cell.Some? {
          var cell := op.cell.value;
          ghost var before := cellSet.inner;
          var opr := cellSet.MarkDead(cell);
          if opr.Some? {
            StaysDead(before[cell.txHash], cell.index);
            match opr.value {
              case OprDelete =>
                AgreesDelete(Commit(persisted, updates), gone, before, cell.txHash, cellSet.inner[cell.txHash]);
                GoneAdd(deletes, cell.txHash);
                deletes := deletes + [Delete(cell.txHash)];
                gone := gone + {cell.txHash};
              case OprUpdate(meta) =>
                AgreesUpdate(Commit(persisted, updates), gone, before, cell.txHash, meta);
                CommitOne(persisted, updates, Put(cell.txHash, meta));
                TidyPut(Commit(persisted, updates), cell.txHash, meta);
                updates := updates + [Put(cell.txHash, meta)];
            }
          }
        }
        done := done + {op};
        todo := todo - {op};
      }
      assert done == d.newInputs;
      CommitDeletions(Commit(persisted, updates), deletes);
      TidyLess(Commit(persisted, updates), Gone(deletes));
    }

    /**
     The set in memory becomes `Updated`, whatever the order of traversal, and what is written to
     disk still agrees with it although the writes captured intermediate metas. When the spends
     undone are in range, fully spent transactions are off the disk again.
     */
    method UpdateTip(d: Diff, txs: map<Hash, OutputInfo>)
      requires Named(d.oldInputs) <= cellSet.inner.Keys + txs.Keys && Agrees(disk, cellSet.inner)
      modifies this, cellSet
      ensures cellSet.inner == Updated(old(cellSet.inner), d, txs)
      ensures Agrees(disk, cellSet.inner)
      ensures old(Tidy(disk)) && InRange(old(cellSet.inner), d.oldInputs, txs) ==> Tidy(disk)
    {
      hide InRange, Tidy;
      var updatedOldInputs := ReviveOld(d, txs);
      ghost var d1 := Commit(disk, updatedOldInputs);
      var removedOldOutputs := RemoveOld(d, d1);
      ghost var d2 := Commit(d1, removedOldOutputs);
      var insertedNewOutputs := InsertNew(d, d2);
      ghost var d3 := Commit(d2, insertedNewOutputs);
      var updatedNewInputs, removedNewInputs := SpendNew(d, d3);
      CommitAppend(disk, updatedOldInputs, removedOldOutputs);
      CommitAppend(disk, updatedOldInputs + removedOldOutputs, insertedNewOutputs);
      CommitAppend(disk, updatedOldInputs + removedOldOutputs + insertedNewOutputs, updatedNewInputs);
      CommitAppend(disk, updatedOldInputs + removedOldOutputs + insertedNewOutputs + updatedNewInputs, removedNewInputs);
      disk := Commit(disk, updatedOldInputs + removedOldOutputs + insertedNewOutputs + updatedNewInputs + removedNewInputs);
    }
  }

  lemma InsertedNext(m: Cells, outputs: map<Hash, OutputInfo>, todo: set<Hash>, h: Hash)
    requires h in todo && todo <= outputs.Keys
    ensures Inserted(m, outputs - (todo - {h})) == Inserted(m, outputs - todo)[h := NewMeta(outputs[h], false)]
  {
  }

  lemma CommitNothing(disk: Cells)
    ensures Commit(disk, []) == disk == disk - {} && OnlyDeletes([]) && Gone([]) == {}
  {
  }

  lemma AgreesDelete(disk: Cells, gone: set<Hash>, mem: Cells, h: Hash, meta: TransactionMeta)
    requires Agrees(disk - gone, mem) && meta.AllDead()
    ensures Agrees(disk - (gone + {h}), mem[h := meta])
  {
  }

  lemma AgreesUpdate(disk: Cells, gone: set<Hash>, mem: Cells, h: Hash, meta: TransactionMeta)
    requires Agrees(disk - gone, mem) && h !in gone
    ensures Agrees(disk[h := meta] - gone, mem[h := meta])
  {
  }

  lemma TidyPut(disk: Cells, h: Hash, meta: TransactionMeta)
    requires |meta.deadCell| > 0 ==> !meta.AllDead()
    ensures Tidy(disk) ==> Tidy(disk[h := meta])
  {
  }

  lemma AgreesPut(disk: Cells, mem: Cells, h: Hash, meta: TransactionMeta)
    requires Agrees(disk, mem)
    ensures Agrees(disk[h := meta], mem[h := meta])
  {
  }

  lemma NewIsLive(info: OutputInfo)
    ensures var meta := NewMeta(info, false); |meta.deadCell| > 0 ==> !meta.AllDead()
  {
    assert info.outputsLen > 0 ==> !NewMeta(info, false).deadCell[0];
  }

  lemma TidyLess(disk: Cells, gone: set<Hash>)
    ensures Tidy(disk) ==> Tidy(disk - gone)
  {
  }

  lemma StaysDead(meta: TransactionMeta, index: nat)
    ensures meta.AllDead() ==> meta.SetDead(index).AllDead()
  {
  }

  /** The hashes a list of deletions deletes. */
  function Gone(ws: seq<CellWrite>): set<Hash> {
    set w | w in ws :: w.hash
  }

  predicate OnlyDeletes(ws: seq<CellWrite>) {
    forall w :: w in ws ==> w.Delete?
  }

  lemma GoneAdd(ws: seq<CellWrite>, h: Hash)
    ensures Gone(ws + [Delete(h)]) == Gone(ws) + {h}
  {
  }

  lemma {:induction false} CommitDeletions(disk: Cells, ws: seq<CellWrite>)
    requires OnlyDeletes(ws)
    ensures Commit(disk, ws) == disk - Gone(ws)
    decreases |ws|
  {
    if ws != [] {
      var front, last := ws[..|ws| - 1], ws[|ws| - 1];
      assert ws == front + [last] && last in ws;
      assert last == Delete(last.hash);
      CommitDeletions(disk, front);
      GoneAdd(front, last.hash);
    }
  }

  /** The entries of the genesis block, all live. */
  function InsertedAll(m: Cells, es: seq<Entry>): Cells {
    if es == [] then m else InsertedAll(m, es[..|es| - 1])[es[|es| - 1].tx.hash := NewMeta(es[|es| - 1].Info(), false)]
  }

  lemma {:induction false} InsertedTidy(m: Cells, es: seq<Entry>)
    requires Tidy(m)
    ensures Tidy(InsertedAll(m, es)) && Agrees(InsertedAll(m, es), InsertedAll(m, es))
    decreases |es|
  {
    if es != [] {
      InsertedTidy(m, es[..|es| - 1]);
      NewIsLive(es[|es| - 1].Info());
    }
  }
}
