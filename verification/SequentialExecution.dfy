/**
 The reference for block resolution: transactions executed one after the other on a ledger, each
 input spent as it is met, each output created when its transaction is done. Whole-block resolution
 equals it exactly when the block never names a cell it has spent by a second form of out point.
 */
module SequentialExecution {
  import opened CkbTypes
  import opened Resolution

  datatype Ledger = Ledger(spent: set<CellOutPoint>, made: map<CellOutPoint, CellMeta>)

  /** The state of a cell in the ledger on top of the base cells. */
  ghost function Lookup(l: Ledger, base: Base, o: OutPoint): CellStatus {
    if o.cell.None? then Unspecified
    else if o.cell.value in l.spent then Dead
    else if o.cell.value in l.made then Live(l.made[o.cell.value])
    else base(o.cell.value)
  }

  /** A reference is usable when what it names exists: a live cell, a live header, or both. */
  ghost function Usable(cell: CellStatus, header: HeaderStatus): Option<Resolved> {
    if header.HeaderUnknown? || header.InclusionFailure? || cell.Dead? || cell.Unknown? then None
    else if cell.Live? then Some(Resolved(Cell(cell.meta), if header.HeaderLive? then Some(header.header) else None))
    else if header.HeaderLive? then Some(Resolved(Null, Some(header.header)))
    else None
  }

  ghost function Consume(l: Ledger, base: Base, headers: Headers, points: seq<OutPoint>)
    : Option<(Ledger, seq<Resolved>)>
  {
    if points == [] then Some((l, []))
    else
      var o, rest := points[|points| - 1], Consume(l, base, headers, points[..|points| - 1]);
      if rest.None? then None
      else if o == OutPoint(Some(CellOutPoint(ISSUING_DAO_HASH, 0)), None) then
        Some((rest.value.0, rest.value.1 + [Resolved(IssuingDaoInput, None)]))
      else
        var v := Usable(Lookup(rest.value.0, base, o), headers(o));
        if o.cell.None? || v.None? then None
        else Some((rest.value.0.(spent := rest.value.0.spent + {o.cell.value}), rest.value.1 + [v.value]))
  }

  ghost function Borrow(l: Ledger, base: Base, headers: Headers, points: seq<OutPoint>)
    : Option<seq<Resolved>>
  {
    if points == [] then Some([])
    else
      var o, rest := points[|points| - 1], Borrow(l, base, headers, points[..|points| - 1]);
      var v := Usable(Lookup(l, base, o), headers(o));
      if rest.None? || v.None? then None else Some(rest.value + [v.value])
  }

  ghost function Created(b: Block, i: nat): map<CellOutPoint, CellMeta>
    requires i < |b.transactions|
  {
    map k: nat | k < |b.transactions[i].outputs| ::
      CellOutPoint(b.transactions[i].hash, k) :=
        CellMeta(b.transactions[i].outputs[k], CellOutPoint(b.transactions[i].hash, k), b.number, b.epoch, i == 0)
  }

  /** The ledger and the resolved transactions after the first `n` transactions. */
  ghost function Execute(b: Block, base: Base, headers: Headers, n: nat)
    : Option<(Ledger, seq<ResolvedTransaction>)>
    requires n <= |b.transactions|
  {
    if n == 0 then Some((Ledger({}, map[]), []))
    else
      var tx, before := b.transactions[n - 1], Execute(b, base, headers, n - 1);
      if before.None? then None
      else
        var cellbase := |tx.inputs| == 1 && |tx.outputs| == 1 && tx.witnesses == 1 && tx.inputs[0] == OutPoint(None, None);
        var taken := Consume(before.value.0, base, headers, if cellbase then [] else tx.inputs);
        if taken.None? then None
        else
          var deps := Borrow(taken.value.0, base, headers, tx.deps);
          if deps.None? then None
          else
            var l := taken.value.0;
            var done := before.value.1 + [ResolvedTransaction(taken.value.1, deps.value)];
            Some((l.(made := l.made + Created(b, n - 1)), done))
  }

  ghost predicate Executes(
    b: Block, base: Base, headers: Headers, rs: seq<ResolvedTransaction>) {
    var r := Execute(b, base, headers, |b.transactions|);
    r.Some? && r.value.1 == rs
  }

  // ---------------------------------------------------------------- the conditions

  /** Transaction hashes are new: unequal in the block, unknown below it, none the issuing-DAO mark. */
  ghost predicate FreshHashes(b: Block, base: Base) {
    && (forall i, j :: 0 <= i < j < |b.transactions| ==> b.transactions[i].hash != b.transactions[j].hash)
    && (forall i, k: nat :: 0 <= i < |b.transactions| ==> base(CellOutPoint(b.transactions[i].hash, k)) == Unknown)
    && (forall i :: 0 <= i < |b.transactions| ==> b.transactions[i].hash != ISSUING_DAO_HASH)
  }

  /** Every used-up out point that names the same cell as `o` is `o` itself. */
  ghost predicate Unaliased(seen: set<OutPoint>, o: OutPoint) {
    forall q :: q in seen && o.cell.Some? && q.cell == o.cell ==> q == o
  }

  ghost function SeenAt(txs: seq<Transaction>, i: nat, k: nat): set<OutPoint>
    requires i < |txs|
  {
    SeenBefore(txs, i) + Consumed(Ins(txs[i])[..if k < |Ins(txs[i])| then k else |Ins(txs[i])|])
  }

  /** A cell the block has spent is not named again, except by the very out point that spent it. */
  ghost predicate NoAlias(txs: seq<Transaction>) {
    forall i, k :: 0 <= i < |txs| && 0 <= k < |Points(txs[i])| ==> UnaliasedAt(txs, i, k)
  }

  ghost predicate UnaliasedAt(txs: seq<Transaction>, i: nat, k: nat)
    requires i < |txs| && k < |Points(txs[i])|
  {
    (k < |Ins(txs[i])| && IsIssuingDao(Points(txs[i])[k])) || Unaliased(SeenAt(txs, i, k), Points(txs[i])[k])
  }

  // ---------------------------------------------------------------- execution, point by point

  ghost function CellsIn(points: set<OutPoint>): set<CellOutPoint> {
    set o | o in points && o.cell.Some? :: o.cell.value
  }

  /** One input of a sequential run. */
  ghost predicate TakenAt(
    l: Ledger, base: Base, headers: Headers, points: seq<OutPoint>, k: nat, v: Resolved)
    requires k < |points|
  {
    var o := points[k];
    if IsIssuingDao(o) then v == Resolved(IssuingDaoInput, None)
    else
      var m := l.(spent := l.spent + CellsIn(Consumed(points[..k])));
      o.cell.Some? && Usable(Lookup(m, base, o), headers(o)) == Some(v)
  }

  lemma {:induction false} ConsumeLedger(
    l: Ledger, base: Base, headers: Headers, points: seq<OutPoint>)
    ensures var r := Consume(l, base, headers, points);
      r.Some? ==> r.value.0 == l.(spent := l.spent + CellsIn(Consumed(points))) && |r.value.1| == |points|
    decreases |points|
  {
    if points == [] {
      assert l.spent + CellsIn(Consumed(points)) == l.spent;
    } else {
      var n := |points| - 1;
      ConsumeLedger(l, base, headers, points[..n]);
      ConsumedNext(points, n);
      assert points[..n + 1] == points;
      var o := points[n];
      if !IsIssuingDao(o) && o.cell.Some? {
        assert CellsIn(Consumed(points)) == CellsIn(Consumed(points[..n])) + {o.cell.value};
      }
    }
  }

  lemma {:induction false} ConsumeIs(
    l: Ledger, base: Base, headers: Headers, points: seq<OutPoint>, rs: seq<Resolved>)
    requires |rs| == |points|
    ensures var r := Consume(l, base, headers, points);
      (r.Some? && r.value.1 == rs) <==> forall k :: 0 <= k < |points| ==> TakenAt(l, base, headers, points, k, rs[k])
    decreases |points|
  {
    if points != [] {
      var n := |points| - 1;
      var front, o := points[..n], points[n];
      var r, rest := Consume(l, base, headers, points), Consume(l, base, headers, front);
      ConsumeIs(l, base, headers, front, rs[..n]);
      ConsumeLedger(l, base, headers, front);
      forall k | 0 <= k < n
        ensures TakenAt(l, base, headers, front, k, rs[k]) == TakenAt(l, base, headers, points, k, rs[k])
      {
        assert front[..k] == points[..k];
      }
      assert rs == rs[..n] + [rs[n]];
      assert (r.Some? && r.value.1 == rs) <==>
        rest.Some? && rest.value.1 == rs[..n] && TakenAt(l, base, headers, points, n, rs[n]);
    }
  }

  /** One dep of a sequential run. */
  ghost predicate ReadAt(
    l: Ledger, base: Base, headers: Headers, o: OutPoint, v: Resolved) {
    Usable(Lookup(l, base, o), headers(o)) == Some(v)
  }

  lemma {:induction false} BorrowIs(
    l: Ledger, base: Base, headers: Headers, points: seq<OutPoint>, rs: seq<Resolved>)
    ensures Borrow(l, base, headers, points) == Some(rs) <==>
      |rs| == |points| && forall k :: 0 <= k < |points| ==> ReadAt(l, base, headers, points[k], rs[k])
    decreases |points|
  {
    if points != [] {
      var n := |points| - 1;
      if |rs| == n + 1 {
        BorrowIs(l, base, headers, points[..n], rs[..n]);
        assert rs == rs[..n] + [rs[n]];
        assert ReadAt(l, base, headers, points[n], rs[n]) <==>
          Usable(Lookup(l, base, points[n]), headers(points[n])) == Some(rs[n]);
      } else {
        BorrowLength(l, base, headers, points);
      }
    }
  }

  lemma {:induction false} BorrowLength(
    l: Ledger, base: Base, headers: Headers, points: seq<OutPoint>)
    ensures var r := Borrow(l, base, headers, points); r.Some? ==> |r.value| == |points|
    decreases |points|
  {
    if points != [] { BorrowLength(l, base, headers, points[..|points| - 1]); }
  }

  // ---------------------------------------------------------------- the ledger in closed form

  ghost function MadeBefore(b: Block, n: nat): map<CellOutPoint, CellMeta>
    requires n <= |b.transactions|
  {
    if n == 0 then map[] else MadeBefore(b, n - 1) + Created(b, n - 1)
  }

  ghost function LedgerAt(b: Block, i: nat, k: nat): Ledger
    requires i < |b.transactions|
  {
    Ledger(CellsIn(SeenAt(b.transactions, i, k)), MadeBefore(b, i))
  }

  lemma {:induction false} MadeIs(b: Block, n: nat, p: CellOutPoint)
    requires n <= |b.transactions|
    requires forall i, j :: 0 <= i < j < |b.transactions| ==> b.transactions[i].hash != b.transactions[j].hash
    ensures p in MadeBefore(b, n) <==>
      exists i :: 0 <= i < n && b.transactions[i].hash == p.txHash && p.index < |b.transactions[i].outputs|
    ensures forall i :: 0 <= i < n && b.transactions[i].hash == p.txHash && p.index < |b.transactions[i].outputs| ==>
      MadeBefore(b, n)[p] == MetaAt(b, i, p)
  {
    if n > 0 {
      MadeIs(b, n - 1, p);
      assert p in Created(b, n - 1) <==>
        b.transactions[n - 1].hash == p.txHash && p.index < |b.transactions[n - 1].outputs| by {
        assert p == CellOutPoint(p.txHash, p.index);
      }
    }
  }

  /** Before a cell is spent, ledger and overlay agree on every out point that is in order. */
  lemma StatusAgrees(b: Block, base: Base, l: Ledger, i: nat, o: OutPoint)
    requires FreshHashes(b, base) && i < |b.transactions| && l.made == MadeBefore(b, i)
    requires o.cell.Some? ==> o.cell.value !in l.spent
    ensures Placed(b.transactions, i, o) ==> Lookup(l, base, o) == CellIn(b, base, o)
    ensures !Placed(b.transactions, i, o) ==> Lookup(l, base, o) == Unknown
  {
    if o.cell.Some? {
      var p := o.cell.value;
      MadeIs(b, i, p);
      var last := LastWith(b.transactions, p.txHash);
      assert p == CellOutPoint(p.txHash, p.index);
      if last.Some? { assert base(CellOutPoint(b.transactions[last.value].hash, p.index)) == Unknown; }
    }
  }

  // ---------------------------------------------------------------- one reference, both ways

  /** The sequential run resolves reference `k` of transaction `i` to `v`. */
  ghost predicate PointRuns(
    b: Block, base: Base, headers: Headers, i: nat, k: nat, v: Resolved)
    requires i < |b.transactions| && k < |Points(b.transactions[i])|
  {
    var tx := b.transactions[i];
    var o := Points(tx)[k];
    if k < |Ins(tx)| && IsIssuingDao(o) then v == Resolved(IssuingDaoInput, None)
    else (k < |Ins(tx)| ==> o.cell.Some?) && Usable(Lookup(LedgerAt(b, i, k), base, o), headers(o)) == Some(v)
  }

  /** It does so exactly when whole-block resolution does and the reference is in order and unaliased. */
  lemma PointExact(
    b: Block, base: Base, headers: Headers, i: nat, k: nat, v: Resolved)
    requires FreshHashes(b, base) && i < |b.transactions| && k < |Points(b.transactions[i])|
    ensures var tx := b.transactions[i];
      PointRuns(b, base, headers, i, k, v) <==>
        && FoundAt(tx, SeenBefore(b.transactions, i), CellsOf(b, base), headers, k) == Good(v)
        && Placed(b.transactions, i, Points(tx)[k])
        && UnaliasedAt(b.transactions, i, k)
  {
    var tx := b.transactions[i];
    var o := Points(tx)[k];
    var seen := SeenAt(b.transactions, i, k);
    assert Ins(tx)[..|Ins(tx)|] == Ins(tx);
    if k < |Ins(tx)| && IsIssuingDao(o) {
    } else {
      hide SeenBefore, IsIssuingDao;
      SpentOrAgrees(b, base, i, k);
      Verdicts(o, seen, Lookup(LedgerAt(b, i, k), base, o), CellIn(b, base, o), headers(o),
               Placed(b.transactions, i, o), Unaliased(seen, o));
    }
  }

  /** What the two cell states of a reference have to do with each other. */
  ghost predicate Related(
    o: OutPoint, seen: set<OutPoint>, run: CellStatus, whole: CellStatus, placed: bool, unaliased: bool) {
    if o.cell.None? then run == whole == Unspecified && placed && unaliased
    else if whole.Unspecified? then false
    else if run.Dead? && unaliased && o in seen then true
    else if run.Dead? && !unaliased then true
    else o !in seen && unaliased && (if placed then run == whole else run.Unknown?)
  }

  lemma SpentOrAgrees(b: Block, base: Base, i: nat, k: nat)
    requires FreshHashes(b, base) && i < |b.transactions| && k < |Points(b.transactions[i])|
    ensures var o := Points(b.transactions[i])[k];
      var seen, run := SeenAt(b.transactions, i, k), Lookup(LedgerAt(b, i, k), base, o);
      Related(o, seen, run, CellIn(b, base, o), Placed(b.transactions, i, o), Unaliased(seen, o))
  {
    var o := Points(b.transactions[i])[k];
    var seen, l := SeenAt(b.transactions, i, k), LedgerAt(b, i, k);
    if o.cell.Some? {
      assert o in seen ==> o.cell.value in l.spent;
      if o.cell.value in l.spent {
        var q :| q in seen && q.cell == o.cell;
        assert Unaliased(seen, o) ==> o in seen;
      } else {
        StatusAgrees(b, base, l, i, o);
      }
    }
  }

  lemma Verdicts(
    o: OutPoint, seen: set<OutPoint>, run: CellStatus, whole: CellStatus, header: HeaderStatus, placed: bool, unaliased: bool)
    requires Related(o, seen, run, whole, placed, unaliased)
    ensures forall v ::
      Usable(run, header) == Some(v) <==> CheckDep(o, seen, whole, header) == Good(v) && placed && unaliased
    ensures !IsIssuingDao(o) ==> forall v ::
      o.cell.Some? && Usable(run, header) == Some(v) <==>
        CheckInput(o, seen, whole, header) == Good(v) && placed && unaliased
  {
  }

  ghost predicate ExecutesAt(
    b: Block, base: Base, headers: Headers, i: nat, rt: ResolvedTransaction)
    requires i < |b.transactions|
  {
    var tx := b.transactions[i];
    && |rt.inputs| == |Ins(tx)| && |rt.deps| == |tx.deps|
    && forall k :: 0 <= k < |Points(tx)| ==> PointRuns(b, base, headers, i, k, (rt.inputs + rt.deps)[k])
  }

  lemma TxExact(
    b: Block, base: Base, headers: Headers, i: nat, rt: ResolvedTransaction)
    requires FreshHashes(b, base) && i < |b.transactions|
    ensures ExecutesAt(b, base, headers, i, rt) <==>
      ResolvesAt(b, base, headers, i, rt) && CleanAt(b.transactions, i)
  {
    hide FreshHashes, PointRuns, FoundAt, UnaliasedAt, Placed, SeenBefore;
    var tx := b.transactions[i];
    var vs := rt.inputs + rt.deps;
    forall k | 0 <= k < |Points(tx)| && k < |vs|
      ensures PointRuns(b, base, headers, i, k, vs[k]) <==>
        && FoundAt(tx, SeenBefore(b.transactions, i), CellsOf(b, base), headers, k) == Good(vs[k])
        && Placed(b.transactions, i, Points(tx)[k]) && UnaliasedAt(b.transactions, i, k)
    {
      PointExact(b, base, headers, i, k, vs[k]);
    }
    forall k | 0 <= k < |Points(tx)|
      ensures Scan(tx, SeenBefore(b.transactions, i), CellsOf(b, base), headers)[k] ==
        FoundAt(tx, SeenBefore(b.transactions, i), CellsOf(b, base), headers, k)
    {
    }
  }

  // ---------------------------------------------------------------- the whole block

  /** One more transaction of the reference run. */
  lemma ExecuteStep(b: Block, base: Base, headers: Headers, n: nat)
    requires n < |b.transactions|
    ensures var r, before, tx := Execute(b, base, headers, n + 1), Execute(b, base, headers, n), b.transactions[n];
      if before.None? then r.None?
      else
        var taken := Consume(before.value.0, base, headers, Ins(tx));
        if taken.None? || Borrow(taken.value.0, base, headers, tx.deps).None? then r.None?
        else
          && r.Some?
          && r.value.0 == taken.value.0.(made := taken.value.0.made + Created(b, n))
          && r.value.1 == before.value.1
                          + [ResolvedTransaction(taken.value.1, Borrow(taken.value.0, base, headers, tx.deps).value)]
  {
    hide Consume, Borrow, Created;
  }

  lemma {:induction false} ExecuteLedger(b: Block, base: Base, headers: Headers, n: nat)
    requires n <= |b.transactions|
    ensures var r := Execute(b, base, headers, n);
      r.Some? ==> r.value.0 == Ledger(CellsIn(SeenBefore(b.transactions, n)), MadeBefore(b, n)) && |r.value.1| == n
  {
    hide *;
    if n == 0 {
      ExecuteNothing(b, base, headers);
    } else {
      var ins, before := Ins(b.transactions[n - 1]), Execute(b, base, headers, n - 1);
      MadeNext(b, n);
      SeenNext(b.transactions, n);
      ExecuteStep(b, base, headers, n - 1);
      ExecuteLedger(b, base, headers, n - 1);
      if before.Some? { ConsumeLedger(before.value.0, base, headers, ins); }
      CellsInAdd(SeenBefore(b.transactions, n - 1), Consumed(ins));
    }
  }

  lemma ExecuteNothing(b: Block, base: Base, headers: Headers)
    ensures Execute(b, base, headers, 0) == Some((Ledger(CellsIn(SeenBefore(b.transactions, 0)), MadeBefore(b, 0)), []))
  {
    assert CellsIn({}) == {};
  }

  lemma MadeNext(b: Block, n: nat)
    requires 0 < n <= |b.transactions|
    ensures MadeBefore(b, n) == MadeBefore(b, n - 1) + Created(b, n - 1)
  {
  }

  lemma CellsInAdd(s: set<OutPoint>, t: set<OutPoint>)
    ensures CellsIn(s + t) == CellsIn(s) + CellsIn(t)
  {
  }

  /** One more transaction executes to `rt`. */
  lemma StepIs(b: Block, base: Base, headers: Headers, i: nat, rt: ResolvedTransaction)
    requires i < |b.transactions|
    ensures var tx := b.transactions[i];
      var taken := Consume(Ledger(CellsIn(SeenBefore(b.transactions, i)), MadeBefore(b, i)), base, headers, Ins(tx));
      ExecutesAt(b, base, headers, i, rt) <==>
        taken.Some? && taken.value.1 == rt.inputs && Borrow(taken.value.0, base, headers, tx.deps) == Some(rt.deps)
  {
    var txs, tx := b.transactions, b.transactions[i];
    var ins := Ins(tx);
    var l := Ledger(CellsIn(SeenBefore(txs, i)), MadeBefore(b, i));
    var m := Ledger(CellsIn(SeenBefore(txs, i) + Consumed(ins)), MadeBefore(b, i));
    hide Consume, Borrow, MadeBefore, SeenBefore, CellsIn, Consumed, Points, IsIssuingDao, Transaction.IsCellbase;
    ConsumeLedger(l, base, headers, ins);
    CellsInAdd(SeenBefore(txs, i), Consumed(ins));
    BorrowIs(m, base, headers, tx.deps, rt.deps);
    if |rt.inputs| == |ins| && |rt.deps| == |tx.deps| {
      ConsumeIs(l, base, headers, ins, rt.inputs);
      SplitPoints(b, base, headers, i, rt);
      hide PointRuns, DepRuns, TakenAt, ReadAt, ExecutesAt;
      forall k | 0 <= k < |ins|
        ensures PointRuns(b, base, headers, i, k, rt.inputs[k]) <==> TakenAt(l, base, headers, ins, k, rt.inputs[k])
      {
        InputRuns(b, base, headers, i, k, rt.inputs[k]);
      }
      forall k | 0 <= k < |tx.deps|
        ensures DepRuns(b, base, headers, i, k, rt.deps[k]) <==> ReadAt(m, base, headers, tx.deps[k], rt.deps[k])
      {
        DepReads(b, base, headers, i, k, rt.deps[k]);
      }
    }
  }

  lemma InputRuns(b: Block, base: Base, headers: Headers, i: nat, k: nat, v: Resolved)
    requires i < |b.transactions| && k < |Ins(b.transactions[i])|
    ensures var l := Ledger(CellsIn(SeenBefore(b.transactions, i)), MadeBefore(b, i));
      PointRuns(b, base, headers, i, k, v) <==> TakenAt(l, base, headers, Ins(b.transactions[i]), k, v)
  {
  }

  lemma DepReads(b: Block, base: Base, headers: Headers, i: nat, k: nat, v: Resolved)
    requires i < |b.transactions| && k < |b.transactions[i].deps|
    ensures var m := Ledger(CellsIn(SeenBefore(b.transactions, i) + Consumed(Ins(b.transactions[i]))), MadeBefore(b, i));
      DepRuns(b, base, headers, i, k, v) <==> ReadAt(m, base, headers, b.transactions[i].deps[k], v)
  {
  }

  ghost predicate DepRuns(
    b: Block, base: Base, headers: Headers, i: nat, k: nat, v: Resolved)
    requires i < |b.transactions| && k < |b.transactions[i].deps|
  {
    PointRuns(b, base, headers, i, |Ins(b.transactions[i])| + k, v)
  }

  lemma SplitPoints(b: Block, base: Base, headers: Headers, i: nat, rt: ResolvedTransaction)
    requires i < |b.transactions|
    requires |rt.inputs| == |Ins(b.transactions[i])| && |rt.deps| == |b.transactions[i].deps|
    ensures var n, vs := |rt.inputs|, rt.inputs + rt.deps;
      ExecutesAt(b, base, headers, i, rt) <==>
        && (forall k :: 0 <= k < n ==> PointRuns(b, base, headers, i, k, rt.inputs[k]))
        && (forall k :: 0 <= k < |rt.deps| ==> DepRuns(b, base, headers, i, k, rt.deps[k]))
  {
    hide PointRuns;
    var n, vs := |rt.inputs|, rt.inputs + rt.deps;
    forall k | 0 <= k < n ensures vs[k] == rt.inputs[k] {}
    if ExecutesAt(b, base, headers, i, rt) {
      forall k | 0 <= k < |rt.deps| ensures DepRuns(b, base, headers, i, k, rt.deps[k]) {
        assert PointRuns(b, base, headers, i, n + k, vs[n + k]);
      }
    } else {
      var k :| 0 <= k < |vs| && !PointRuns(b, base, headers, i, k, vs[k]);
      assert k >= n ==> !DepRuns(b, base, headers, i, k - n, rt.deps[k - n]);
    }
  }

  lemma ExecuteNext(
    b: Block, base: Base, headers: Headers, n: nat,
    front: seq<ResolvedTransaction>, rt: ResolvedTransaction)
    requires n < |b.transactions| && |front| == n
    ensures var r, before := Execute(b, base, headers, n + 1), Execute(b, base, headers, n);
      (r.Some? && r.value.1 == front + [rt]) <==>
        (before.Some? && before.value.1 == front) && ExecutesAt(b, base, headers, n, rt)
  {
    hide *;
    ExecuteStep(b, base, headers, n);
    ExecuteLedger(b, base, headers, n);
    StepIs(b, base, headers, n, rt);
    var r, before := Execute(b, base, headers, n + 1), Execute(b, base, headers, n);
    if r.Some? { assert |before.value.1| == n && before.value.1 == r.value.1[..n]; }
    assert (front + [rt])[..n] == front;
  }

  /** Every transaction listed executes to its entry. */
  ghost predicate AllExecute(b: Block, base: Base, headers: Headers, rs: seq<ResolvedTransaction>)
    requires |rs| <= |b.transactions|
  {
    forall i :: 0 <= i < |rs| ==> ExecutesAt(b, base, headers, i, rs[i])
  }

  lemma AllExecuteNext(
    b: Block, base: Base, headers: Headers, front: seq<ResolvedTransaction>, rt: ResolvedTransaction)
    requires |front| < |b.transactions|
    ensures AllExecute(b, base, headers, front + [rt]) <==>
      AllExecute(b, base, headers, front) && ExecutesAt(b, base, headers, |front|, rt)
  {
    hide ExecutesAt;
    var rs := front + [rt];
    assert rs[|front|] == rt;
    forall i | 0 <= i < |front| ensures rs[i] == front[i] {}
    if AllExecute(b, base, headers, rs) {
      forall i | 0 <= i < |front| ensures ExecutesAt(b, base, headers, i, front[i]) {
        assert ExecutesAt(b, base, headers, i, rs[i]);
      }
    }
  }

  lemma {:induction false} ExecuteIs(
    b: Block, base: Base, headers: Headers, n: nat, rs: seq<ResolvedTransaction>)
    requires n <= |b.transactions| && |rs| == n
    ensures var r := Execute(b, base, headers, n);
      (r.Some? && r.value.1 == rs) <==> AllExecute(b, base, headers, rs)
  {
    if n == 0 {
      assert rs == [];
    } else {
      hide *;
      var front, rt := rs[..n - 1], rs[n - 1];
      assert rs == front + [rt];
      ExecuteIs(b, base, headers, n - 1, front);
      ExecuteNext(b, base, headers, n - 1, front, rt);
      AllExecuteNext(b, base, headers, front, rt);
    }
  }

  /**
   Whole-block resolution is sequential execution: for blocks with new transaction hashes, the
   reference run succeeds with `rs` if and only if resolution does and no spent cell is named again
   by a different out point.
   */
  lemma ResolutionIsExecution(
    b: Block, base: Base, headers: Headers, rs: seq<ResolvedTransaction>)
    requires FreshHashes(b, base)
    ensures Executes(b, base, headers, rs) <==> BlockResolves(b, base, headers, rs) && NoAlias(b.transactions)
  {
    hide FreshHashes, ExecutesAt, ResolvesAt, UnaliasedAt, Placed, Execute, InOrder;
    var txs := b.transactions;
    ExecuteLedger(b, base, headers, |txs|);
    OrderIs(b, base);
    if |rs| == |txs| {
      ExecuteIs(b, base, headers, |txs|, rs);
      forall i | 0 <= i < |txs|
        ensures ExecutesAt(b, base, headers, i, rs[i]) <==>
          ResolvesAt(b, base, headers, i, rs[i]) && CleanAt(txs, i)
      {
        TxExact(b, base, headers, i, rs[i]);
      }
      if forall i :: 0 <= i < |txs| ==> CleanAt(txs, i) {
        forall i, k | 0 <= i < |txs| && 0 <= k < |Points(txs[i])|
          ensures UnaliasedAt(txs, i, k) && Placed(txs, i, Points(txs[i])[k])
        {
          assert CleanAt(txs, i);
        }
      }
    }
  }

  /** Every reference of transaction `i` is in order and unaliased. */
  ghost predicate CleanAt(txs: seq<Transaction>, i: nat)
    requires i < |txs|
  {
    forall k :: 0 <= k < |Points(txs[i])| ==> UnaliasedAt(txs, i, k) && Placed(txs, i, Points(txs[i])[k])
  }

  /** The order check over all deps and inputs is the order of all resolved references. */
  lemma OrderIs(b: Block, base: Base)
    requires FreshHashes(b, base)
    ensures InOrder(b.transactions) <==>
      forall i, k :: 0 <= i < |b.transactions| && 0 <= k < |Points(b.transactions[i])| ==>
        Placed(b.transactions, i, Points(b.transactions[i])[k])
  {
    var txs := b.transactions;
    if forall i, k :: 0 <= i < |txs| && 0 <= k < |Points(txs[i])| ==> Placed(txs, i, Points(txs[i])[k]) {
      forall i, o | 0 <= i < |txs| && (o in txs[i].deps || o in txs[i].inputs) ensures Placed(txs, i, o) {
        if o in Points(txs[i]) {
          var k :| 0 <= k < |Points(txs[i])| && Points(txs[i])[k] == o;
          assert Placed(txs, i, Points(txs[i])[k]);
        } else {
          assert txs[i].IsCellbase() && o == txs[i].inputs[0];
        }
      }
    }
  }

  // ---------------------------------------------------------------- when the condition holds, and when not

  /** Every reference to a cell names the cell alone. */
  ghost predicate CellsAlone(txs: seq<Transaction>) {
    forall i, o :: 0 <= i < |txs| && o in Points(txs[i]) && o.cell.Some? ==> o.blockHash.None?
  }

  lemma {:induction false} SeenWasNamed(txs: seq<Transaction>, n: nat, q: OutPoint)
    requires n <= |txs| && q in SeenBefore(txs, n)
    ensures exists i :: 0 <= i < n && q in Points(txs[i])
  {
    if q in SeenBefore(txs, n - 1) {
      SeenWasNamed(txs, n - 1, q);
    } else {
      assert q in Points(txs[n - 1]);
    }
  }

  /** In a block whose references name cells alone nothing is aliased. */
  lemma CellsAloneNoAlias(txs: seq<Transaction>)
    requires CellsAlone(txs)
    ensures NoAlias(txs)
  {
    forall i, k | 0 <= i < |txs| && 0 <= k < |Points(txs[i])| ensures UnaliasedAt(txs, i, k) {
      var o := Points(txs[i])[k];
      forall q | q in SeenAt(txs, i, k) && o.cell.Some? && q.cell == o.cell ensures q == o {
        if q in SeenBefore(txs, i) {
          SeenWasNamed(txs, i, q);
        } else {
          assert q in Points(txs[i]);
        }
      }
    }
  }

  /** One spend by the bare cell, a second one by the cell together with a live block header. */
  ghost function TwoForms(): Block {
    var output := CellOutput(1, Script(0, 0), None);
    var p := Some(CellOutPoint(1, 0));
    Block(9, 8, 1, 0, 1, 0, [
      Transaction(2, [OutPoint(p, None)], [], [output], 0),
      Transaction(3, [OutPoint(p, Some(7))], [], [output], 0)])
  }

  ghost function OneCell(): Base {
    p => if p == CellOutPoint(1, 0) then Live(CellMeta(CellOutput(1, Script(0, 0), None), p, 0, 0, false)) else Unknown
  }

  ghost function AnyHeader(): Headers {
    (o: OutPoint) => if o.blockHash.Some? then HeaderLive(o.blockHash.value) else HeaderUnspecified
  }

  lemma TwoFormsFacts()
    ensures FreshHashes(TwoForms(), OneCell()) && InOrder(TwoForms().transactions)
    ensures !UnaliasedAt(TwoForms().transactions, 1, 0) && !NoAlias(TwoForms().transactions)
  {
    var txs := TwoForms().transactions;
    assert !UnaliasedAt(txs, 1, 0) by {
      hide LastWith;
      var q := txs[0].inputs[0];
      assert q in Ins(txs[0]) && q in Consumed(Ins(txs[0]));
      assert q in SeenBefore(txs, 1) && q in SeenAt(txs, 1, 0);
      assert Points(txs[1])[0] == txs[1].inputs[0];
    }
    forall i, o | 0 <= i < |txs| && (o in txs[i].deps || o in txs[i].inputs) ensures Placed(txs, i, o) {
      assert o == txs[i].inputs[0];
    }
  }

  /** Each spend is resolved: the second out point is not the one seen before. */
  lemma TwoFormsResolvesAt(base: Base, i: nat)
    requires i < 2 && base(CellOutPoint(1, 0)).Live?
    ensures var v := Resolved(Cell(base(CellOutPoint(1, 0)).meta), if i == 0 then None else Some(7));
      ResolvesAt(TwoForms(), base, AnyHeader(), i, ResolvedTransaction([v], []))
  {
    var b, headers := TwoForms(), AnyHeader();
    var tx := b.transactions[i];
    var o, seen := tx.inputs[0], SeenBefore(b.transactions, i);
    assert Ins(tx) == [o] == Points(tx);
    assert o !in seen by {
      if i == 1 { assert seen == SeenBefore(b.transactions, 0) + Consumed(Ins(b.transactions[0])); }
    }
    assert LastWith(b.transactions, 1) == None;
    assert FoundAt(tx, seen, CellsOf(b, base), headers, 0) == CheckInput(o, seen, CellIn(b, base, o), headers(o)) by {
      assert Ins(tx)[..0] == [];
      assert seen + Consumed([]) == seen;
    }
  }

  lemma TwoFormsResolves(base: Base)
    requires base(CellOutPoint(1, 0)).Live?
    ensures exists rs :: BlockResolves(TwoForms(), base, AnyHeader(), rs)
  {
    TwoFormsFacts();
    TwoFormsResolvesAt(base, 0);
    TwoFormsResolvesAt(base, 1);
    hide InOrder, ResolvesAt, AnyHeader;
    var cell := Cell(base(CellOutPoint(1, 0)).meta);
    var rs := [ResolvedTransaction([Resolved(cell, None)], []), ResolvedTransaction([Resolved(cell, Some(7))], [])];
    assert BlockResolves(TwoForms(), base, AnyHeader(), rs);
  }

  /** Without the condition the two differ: this block resolves, and its execution fails at the second spend. */
  lemma TwoFormsDiffer()
    ensures FreshHashes(TwoForms(), OneCell())
    ensures exists rs :: BlockResolves(TwoForms(), OneCell(), AnyHeader(), rs)
    ensures forall rs :: !Executes(TwoForms(), OneCell(), AnyHeader(), rs)
  {
    TwoFormsFacts();
    TwoFormsResolves(OneCell());
    hide FreshHashes, NoAlias, Executes, OneCell, AnyHeader, TwoForms;
    forall ts ensures !Executes(TwoForms(), OneCell(), AnyHeader(), ts) {
      ResolutionIsExecution(TwoForms(), OneCell(), AnyHeader(), ts);
    }
  }
}
