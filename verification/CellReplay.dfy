/**
 Replaying a chain of transactions from genesis, and the theorem that a reorg's diff turns the
 replay of the old chain into the replay of the new one.
 */
module CellReplay {
  import opened CkbTypes
  import opened CellSets

  function BlockEntries(b: Block): seq<Entry> {
    seq(|b.transactions|, i requires 0 <= i < |b.transactions| => Entry(b.transactions[i], b.number, b.epoch))
  }

  /** The transactions of a chain of blocks, in order. */
  function Entries(p: seq<Block>): seq<Entry> {
    if p == [] then [] else Entries(p[..|p| - 1]) + BlockEntries(p[|p| - 1])
  }

  lemma {:induction false} EntriesAppend(p: seq<Block>, q: seq<Block>)
    ensures Entries(p + q) == Entries(p) + Entries(q)
    decreases |q|
  {
    if q == [] {
      assert p + q == p;
    } else {
      EntriesAppend(p, q[..|q| - 1]);
      assert (p + q)[..|p + q| - 1] == p + q[..|q| - 1];
    }
  }

  function HashesOf(es: seq<Entry>): set<Hash> {
    set e | e in es :: e.tx.hash
  }

  function InputsOf(es: seq<Entry>): set<OutPoint> {
    set e, op | e in es && op in e.tx.inputs :: op
  }

  /** The cells the chain spends. */
  function Spent(es: seq<Entry>): set<CellOutPoint> {
    set op | op in InputsOf(es) && op.cell.Some? :: op.cell.value
  }

  function InfoOf(es: seq<Entry>): map<Hash, OutputInfo> {
    if es == [] then map[] else InfoOf(es[..|es| - 1])[es[|es| - 1].tx.hash := es[|es| - 1].Info()]
  }

  /** The diff of a reorg that undoes `detached` and adds `attached`. */
  function DiffOf(detached: seq<Entry>, attached: seq<Entry>): Diff {
    Diff(InputsOf(detached), HashesOf(detached), InputsOf(attached), InfoOf(attached))
  }

  /** `e` can follow `es`: its hash is new, and it spends only cells of `es` that are not spent yet. */
  predicate Follows(es: seq<Entry>, e: Entry) {
    && e.tx.hash !in HashesOf(es)
    && forall op :: op in e.tx.inputs && op.cell.Some? ==>
         op.cell.value.txHash in HashesOf(es) && op.cell.value !in Spent(es)
  }

  /** Transaction hashes are unique and every cell is spent at most once, after its creation. */
  predicate WellFormed(es: seq<Entry>) {
    es == [] || (WellFormed(es[..|es| - 1]) && Follows(es[..|es| - 1], es[|es| - 1]))
  }

  /** The chain creates this output. */
  predicate Makes(es: seq<Entry>, c: CellOutPoint) {
    exists e :: e in es && e.tx.hash == c.txHash && c.index < |e.tx.outputs|
  }

  /** No two of these inputs name the same cell. */
  predicate DistinctCells(inputs: seq<OutPoint>) {
    forall i, j :: 0 <= i < j < |inputs| && inputs[i].cell.Some? ==> inputs[i].cell != inputs[j].cell
  }

  /** Its inputs are different outputs that `es` makes and has not spent. */
  predicate SpendsOutputs(es: seq<Entry>, e: Entry) {
    && Follows(es, e)
    && DistinctCells(e.tx.inputs)
    && forall op :: op in e.tx.inputs && op.cell.Some? ==> Makes(es, op.cell.value)
  }

  /** Well formed, and every input spends an existing output that no other input spends. */
  predicate SpendsOnce(es: seq<Entry>) {
    es == [] || (SpendsOnce(es[..|es| - 1]) && SpendsOutputs(es[..|es| - 1], es[|es| - 1]))
  }

  lemma {:induction false} SpendsOnceWellFormed(es: seq<Entry>)
    requires SpendsOnce(es)
    ensures WellFormed(es)
    decreases |es|
  {
    if es != [] { SpendsOnceWellFormed(es[..|es| - 1]); }
  }

  /** What that means for the inputs of the whole chain: no double spend, and nothing spent before it exists. */
  lemma {:induction false} NoDoubleSpend(es: seq<Entry>, i: nat, a: nat)
    requires SpendsOnce(es) && i < |es| && a < |es[i].tx.inputs| && es[i].tx.inputs[a].cell.Some?
    ensures Makes(es[..i], es[i].tx.inputs[a].cell.value)
    ensures forall j, b ::
      0 <= j < |es| && 0 <= b < |es[j].tx.inputs| && es[j].tx.inputs[b].cell == es[i].tx.inputs[a].cell ==> j == i && b == a
    decreases |es|
  {
    var n := |es| - 1;
    var front, last := es[..n], es[n];
    var cell := es[i].tx.inputs[a].cell;
    if i < n {
      NoDoubleSpend(front, i, a);
      assert front[..i] == es[..i];
      assert es[i] in front && es[i].tx.inputs[a] in es[i].tx.inputs;
      assert cell.value in Spent(front);
    } else {
      assert last.tx.inputs[a] in last.tx.inputs;
    }
    forall j, b | 0 <= j < |es| && 0 <= b < |es[j].tx.inputs| && es[j].tx.inputs[b].cell == cell ensures j == i && b == a {
      assert es[j].tx.inputs[b] in es[j].tx.inputs;
      if j < n {
        assert front[j] == es[j] && es[j] in front;
        assert cell.value in Spent(front);
      }
    }
  }

  lemma {:induction false} InputsInRange(es: seq<Entry>, op: OutPoint)
    requires SpendsOnce(es) && op in InputsOf(es) && op.cell.Some?
    ensures Makes(es, op.cell.value)
    decreases |es|
  {
    var front, last := es[..|es| - 1], es[|es| - 1];
    assert es == front + [last];
    if op !in last.tx.inputs {
      InputsInRange(front, op);
    }
    var e :| e in front && e.tx.hash == op.cell.value.txHash && op.cell.value.index < |e.tx.outputs|;
    assert e in es;
  }

  /** One transaction at a time: spend its inputs, then add its outputs, all live. */
  function Replay(es: seq<Entry>): Cells {
    if es == [] then map[]
    else
      var e := es[|es| - 1];
      Spend(Replay(es[..|es| - 1]), e.tx.inputs)[e.tx.hash := NewMeta(e.Info(), false)]
  }

  function Spend(m: Cells, ops: seq<OutPoint>): Cells {
    if ops == [] then m
    else
      var k := Spend(m, ops[..|ops| - 1]);
      match ops[|ops| - 1].cell
      case None => k
      case Some(c) => if c.txHash in k then k[c.txHash := k[c.txHash].SetDead(c.index)] else k
  }

  // ---------------------------------------------------------------- the closed form

  /** The meta of a transaction once the cells `spent` are gone. */
  function MetaOf(e: Entry, spent: set<CellOutPoint>): TransactionMeta {
    TransactionMeta(e.number, e.epoch, e.tx.IsCellbase(),
                    seq(|e.tx.outputs|, i requires 0 <= i < |e.tx.outputs| => CellOutPoint(e.tx.hash, i) in spent))
  }

  /** The cell set holds exactly the transactions of the chain, dead where the chain spends them. */
  predicate Holds(m: Cells, es: seq<Entry>) {
    && m.Keys == HashesOf(es)
    && forall e :: e in es ==> m[e.tx.hash] == MetaOf(e, Spent(es))
  }

  lemma HoldsUnique(m: Cells, k: Cells, es: seq<Entry>)
    requires Holds(m, es) && Holds(k, es)
    ensures m == k
  {
  }

  lemma {:induction false} SpendIs(m: Cells, ops: seq<OutPoint>)
    ensures Spend(m, ops) == Killed(m, (set op | op in ops))
    decreases |ops|
  {
    if ops == [] {
      NoIndices(m, map[]);
      assert (set op | op in ops) == {};
    } else {
      var front, last := ops[..|ops| - 1], ops[|ops| - 1];
      SpendIs(m, front);
      KilledAdd(m, (set op | op in front), last);
      assert (set op | op in ops) == (set op | op in front) + {last} by { assert ops == front + [last]; }
    }
  }

  lemma Append(a: seq<Entry>, b: seq<Entry>)
    ensures HashesOf(a + b) == HashesOf(a) + HashesOf(b)
    ensures InputsOf(a + b) == InputsOf(a) + InputsOf(b)
    ensures Spent(a + b) == Spent(a) + Spent(b)
  {
  }

  lemma LastEntry(es: seq<Entry>)
    requires es != []
    ensures var front, e := es[..|es| - 1], es[|es| - 1];
      && HashesOf(es) == HashesOf(front) + {e.tx.hash}
      && InputsOf(es) == InputsOf(front) + (set op | op in e.tx.inputs)
      && Spent(es) == Spent(front) + (set op | op in e.tx.inputs && op.cell.Some? :: op.cell.value)
  {
  }

  /** What well-formedness says about a chain split in two. */
  lemma {:induction false} SplitChain(a: seq<Entry>, b: seq<Entry>)
    requires WellFormed(a + b)
    ensures WellFormed(a)
    ensures HashesOf(a) !! HashesOf(b)
    ensures Spent(a) !! Spent(b)
    ensures forall c :: c in Spent(a) ==> c.txHash in HashesOf(a)
    ensures forall c :: c in Spent(b) ==> c.txHash in HashesOf(a) + HashesOf(b)
    decreases |a| + |b|
  {
    if b == [] {
      assert a + b == a;
      if a != [] {
        assert a[..|a| - 1] + [] == a[..|a| - 1];
        SplitChain(a[..|a| - 1], []);
        LastEntry(a);
      }
    } else {
      var front, e := b[..|b| - 1], b[|b| - 1];
      assert (a + b)[..|a + b| - 1] == a + front;
      SplitChain(a, front);
      Append(a, front);
      LastEntry(b);
    }
  }

  /** In a well-formed chain a hash names one entry. */
  lemma {:induction false} UniqueHash(es: seq<Entry>, x: Entry, y: Entry)
    requires WellFormed(es) && x in es && y in es && x.tx.hash == y.tx.hash
    ensures x == y
    decreases |es|
  {
    var front, last := es[..|es| - 1], es[|es| - 1];
    assert es == front + [last];
    if x in front && y in front { UniqueHash(front, x, y); }
  }

  lemma {:induction false} InfoKeys(es: seq<Entry>)
    ensures InfoOf(es).Keys == HashesOf(es)
    decreases |es|
  {
    if es != [] {
      InfoKeys(es[..|es| - 1]);
      LastEntry(es);
    }
  }

  lemma {:induction false} InfoAt(es: seq<Entry>, e: Entry)
    requires e in es && forall x, y :: x in es && y in es && x.tx.hash == y.tx.hash ==> x == y
    ensures e.tx.hash in InfoOf(es) && InfoOf(es)[e.tx.hash] == e.Info()
    decreases |es|
  {
    var front, last := es[..|es| - 1], es[|es| - 1];
    assert es == front + [last];
    if e != last { InfoAt(front, e); }
  }

  /** Reviving, then spending, in terms of the cells spent. */
  lemma SetUnset(e: Entry, spent: set<CellOutPoint>, gone: set<OutPoint>, back: set<OutPoint>)
    ensures SetAll(MetaOf(e, spent), Indices(gone, e.tx.hash))
         == MetaOf(e, spent + set op | op in gone && op.cell.Some? :: op.cell.value)
    ensures UnsetAll(MetaOf(e, spent), Indices(back, e.tx.hash))
         == MetaOf(e, spent - set op | op in back && op.cell.Some? :: op.cell.value)
  {
  }

  /** A transaction none of whose outputs is spent has the meta it is inserted with. */
  lemma FreshMeta(e: Entry, spent: set<CellOutPoint>)
    requires forall c :: c in spent ==> c.txHash != e.tx.hash
    ensures NewMeta(e.Info(), false) == MetaOf(e, spent)
  {
  }

  lemma SpentNames(front: seq<Entry>, last: Entry)
    requires Follows(front, last)
    requires forall c :: c in Spent(front) ==> c.txHash in HashesOf(front)
    ensures forall c :: c in Spent(front + [last]) ==> c.txHash != last.tx.hash
  {
  }

  /** One more transaction. */
  lemma StepHolds(m: Cells, front: seq<Entry>, last: Entry)
    requires Holds(m, front) && Follows(front, last)
    requires forall c :: c in Spent(front) ==> c.txHash in HashesOf(front)
    ensures Holds(Spend(m, last.tx.inputs)[last.tx.hash := NewMeta(last.Info(), false)], front + [last])
  {
    hide MetaOf, SetAll, UnsetAll, Indices, NewMeta, Spend, Spent, InputsOf;
    var es := front + [last];
    assert es[..|es| - 1] == front;
    LastEntry(es);
    SpentNames(front, last);
    SpendIs(m, last.tx.inputs);
    var ins := set op | op in last.tx.inputs;
    assert (set op | op in last.tx.inputs && op.cell.Some? :: op.cell.value)
        == (set op | op in ins && op.cell.Some? :: op.cell.value);
    var t := Killed(m, ins)[last.tx.hash := NewMeta(last.Info(), false)];
    FreshMeta(last, Spent(es));
    forall e | e in front ensures t[e.tx.hash] == MetaOf(e, Spent(es)) {
      assert e.tx.hash in HashesOf(front);
      SetUnset(e, Spent(front), ins, {});
    }
  }

  /** Replaying a well-formed chain leaves its closed form. */
  lemma {:induction false} ReplayHolds(es: seq<Entry>)
    requires WellFormed(es)
    ensures Holds(Replay(es), es)
    decreases |es|
  {
    if es != [] {
      var front := es[..|es| - 1];
      ReplayHolds(front);
      assert front + [] == front && es == front + [es[|es| - 1]];
      SplitChain(front, []);
      StepHolds(Replay(front), front, es[|es| - 1]);
    }
  }

  // ---------------------------------------------------------------- the reorg

  /** A well-formed old chain never needs a transaction to be rebuilt from the store. */
  lemma NothingRebuilt(m: Cells, common: seq<Entry>, detached: seq<Entry>)
    requires WellFormed(common + detached) && Holds(m, common + detached)
    ensures Named(InputsOf(detached)) <= m.Keys
  {
    SplitChain(common, detached);
    Append(common, detached);
    forall h | h in Named(InputsOf(detached)) ensures h in m {
      var op :| op in InputsOf(detached) && op.cell.Some? && op.cell.value.txHash == h;
      assert op.cell.value in Spent(detached);
    }
  }

  /** Undoing the old branch leaves what the common part alone would. */
  lemma UndoHolds(m: Cells, common: seq<Entry>, detached: seq<Entry>, txs: map<Hash, OutputInfo>)
    requires WellFormed(common + detached) && Holds(m, common + detached)
    ensures Named(InputsOf(detached)) <= m.Keys
    ensures Holds(Revived(m, InputsOf(detached), txs) - HashesOf(detached), common)
  {
    hide MetaOf, UnsetAll, SetAll, NewMeta, InputsOf, WellFormed, Indices, Named;
    NothingRebuilt(m, common, detached);
    SplitChain(common, detached);
    Append(common, detached);
    var k := Revived(m, InputsOf(detached), txs) - HashesOf(detached);
    assert Spent(common) + Spent(detached) - Spent(detached) == Spent(common);
    forall e | e in common ensures e.tx.hash in k && k[e.tx.hash] == MetaOf(e, Spent(common)) {
      assert e in common + detached;
      assert e.tx.hash in HashesOf(common);
      SetUnset(e, Spent(common + detached), {}, InputsOf(detached));
    }
  }

  /** Adding the new branch to the common part leaves what the whole new chain would. */
  lemma RedoHolds(k: Cells, common: seq<Entry>, attached: seq<Entry>)
    requires WellFormed(common + attached) && Holds(k, common)
    ensures Holds(Killed(Inserted(k, InfoOf(attached)), InputsOf(attached)), common + attached)
  {
    hide MetaOf, SetAll, UnsetAll, Indices, NewMeta, InputsOf, WellFormed, InfoOf;
    SplitChain(common, attached);
    Append(common, attached);
    var t := Killed(Inserted(k, InfoOf(attached)), InputsOf(attached));
    InfoKeys(attached);
    forall x, y | x in attached && y in attached && x.tx.hash == y.tx.hash ensures x == y {
      UniqueHash(common + attached, x, y);
    }
    forall e | e in common + attached ensures e.tx.hash in t && t[e.tx.hash] == MetaOf(e, Spent(common + attached)) {
      if e in common {
        assert e.tx.hash in HashesOf(common);
        SetUnset(e, Spent(common), InputsOf(attached), {});
      } else {
        InfoAt(attached, e);
        assert e.tx.hash in HashesOf(attached);
        FreshMeta(e, Spent(common));
        SetUnset(e, Spent(common), InputsOf(attached), {});
      }
    }
  }

  /**
   The cell set after a reorg is the replay of the new chain from genesis, when both chains have
   unique transaction hashes and spend every cell at most once after its creation.
   */
  lemma ReorgReplays(common: seq<Entry>, detached: seq<Entry>, attached: seq<Entry>, txs: map<Hash, OutputInfo>)
    requires WellFormed(common + detached) && WellFormed(common + attached)
    ensures Named(InputsOf(detached)) <= Replay(common + detached).Keys
    ensures Updated(Replay(common + detached), DiffOf(detached, attached), txs) == Replay(common + attached)
  {
    var m := Replay(common + detached);
    ReplayHolds(common + detached);
    ReplayHolds(common + attached);
    UndoHolds(m, common, detached, txs);
    RedoHolds(Revived(m, InputsOf(detached), txs) - HashesOf(detached), common, attached);
    HoldsUnique(Updated(m, DiffOf(detached, attached), txs), Replay(common + attached), common + attached);
  }

  /** Reorganising back restores the cell set exactly. */
  lemma ReorgBack(common: seq<Entry>, detached: seq<Entry>, attached: seq<Entry>, txs: map<Hash, OutputInfo>)
    requires WellFormed(common + detached) && WellFormed(common + attached)
    ensures Named(InputsOf(detached)) <= Replay(common + detached).Keys
    ensures var there := Updated(Replay(common + detached), DiffOf(detached, attached), txs);
      && Named(InputsOf(attached)) <= there.Keys
      && Updated(there, DiffOf(attached, detached), txs) == Replay(common + detached)
  {
    ReorgReplays(common, detached, attached, txs);
    ReorgReplays(common, attached, detached, txs);
  }
}
