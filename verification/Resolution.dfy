/**
 Resolution of the transactions of one block against the cells of the chain below it and the cells
 the block itself creates. The base cells and the headers are arbitrary functions.
 */
module Resolution {
  import opened CkbTypes

  const ISSUING_DAO_HASH: Hash := 0x4e4552564f5344414f494e50555430303031

  datatype CellMeta = CellMeta(output: CellOutput, outPoint: CellOutPoint, number: nat, epoch: nat, cellbase: bool)

  datatype CellStatus = Live(meta: CellMeta) | Dead | Unknown | Unspecified

  /** What a provider says about a reference that does name a cell. */
  type KnownStatus = s: CellStatus | !s.Unspecified? witness Unknown

  datatype HeaderStatus = HeaderLive(header: Hash) | InclusionFailure | HeaderUnknown | HeaderUnspecified

  /** The cells below the block. */
  type Base = CellOutPoint -> KnownStatus

  type CellView = OutPoint -> CellStatus

  type Headers = OutPoint -> HeaderStatus

  datatype ResolvedCell = Cell(meta: CellMeta) | IssuingDaoInput | Null

  datatype Resolved = Resolved(cell: ResolvedCell, header: Option<Hash>)

  datatype ResolvedTransaction = ResolvedTransaction(inputs: seq<Resolved>, deps: seq<Resolved>)

  datatype UnresolvableError =
    | Empty
    | UnspecifiedInputCell(point: OutPoint)
    | InvalidHeader(point: OutPoint)
    | DeadCell(point: OutPoint)
    | UnknownCells(points: seq<OutPoint>)
    | OutOfOrder(point: OutPoint)

  datatype Result<T> = Ok(value: T) | Err(error: UnresolvableError)

  predicate IsIssuingDao(o: OutPoint) {
    o.blockHash.None? && o.cell.Some? && o.cell.value.txHash == ISSUING_DAO_HASH && o.cell.value.index == 0
  }

  // ---------------------------------------------------------------- the block's own cells

  /** The position of the last transaction with this hash: later entries of the index replace earlier ones. */
  function LastWith(txs: seq<Transaction>, h: Hash): (r: Option<nat>)
    ensures r.Some? ==> r.value < |txs| && txs[r.value].hash == h
    ensures r.Some? ==> forall j :: r.value < j < |txs| ==> txs[j].hash != h
    ensures r.None? ==> forall j :: 0 <= j < |txs| ==> txs[j].hash != h
  {
    if txs == [] then None
    else if txs[|txs| - 1].hash == h then Some(|txs| - 1)
    else LastWith(txs[..|txs| - 1], h)
  }

  /** The cell named by a transaction at position `i` is not created at `i` or later in the block. */
  ghost predicate Placed(txs: seq<Transaction>, i: nat, o: OutPoint) {
    o.cell.Some? ==> forall j :: i <= j < |txs| ==> txs[j].hash != o.cell.value.txHash
  }

  ghost predicate InOrder(txs: seq<Transaction>) {
    forall i, o :: 0 <= i < |txs| && (o in txs[i].deps || o in txs[i].inputs) ==> Placed(txs, i, o)
  }

  function MetaAt(b: Block, i: nat, p: CellOutPoint): CellMeta
    requires i < |b.transactions| && p.index < |b.transactions[i].outputs|
  {
    CellMeta(b.transactions[i].outputs[p.index], p, b.number, b.epoch, i == 0)
  }

  /** What the provider of a block and the provider below it say together about an out point. */
  function CellIn(b: Block, base: Base, o: OutPoint): CellStatus {
    if o.cell.None? then Unspecified
    else
      var p := o.cell.value;
      var i := LastWith(b.transactions, p.txHash);
      if i.Some? && p.index < |b.transactions[i.value].outputs| then Live(MetaAt(b, i.value, p))
      else base(p)
  }

  function CellsOf(b: Block, base: Base): CellView {
    o => CellIn(b, base, o)
  }

  /** The index from hashes to positions, and the order check over all deps and inputs. */
  datatype BlockCellProvider = BlockCellProvider(outputIndices: map<Hash, nat>, block: Block)
  {
    ghost predicate Valid() {
      forall h :: if h in outputIndices then LastWith(block.transactions, h) == Some(outputIndices[h])
                  else LastWith(block.transactions, h) == None
    }

    function Cell(o: OutPoint): (r: CellStatus)
      requires Valid()
      ensures o.cell.None? ==> r == Unspecified
      ensures o.cell.Some? ==>
        forall base: Base :: CellIn(block, base, o) == if r == Unknown then base(o.cell.value) else r
      ensures o.cell.Some? && (forall i :: 0 <= i < |block.transactions| ==> block.transactions[i].hash != o.cell.value.txHash) ==>
        r == Unknown
      ensures o.cell.Some? ==>
        forall i ::
          && 0 <= i < |block.transactions|
          && block.transactions[i].hash == o.cell.value.txHash
          && (forall j :: i < j < |block.transactions| ==> block.transactions[j].hash != o.cell.value.txHash) ==>
            var p, outputs := o.cell.value, block.transactions[i].outputs;
            r == if p.index < |outputs| then Live(CellMeta(outputs[p.index], p, block.number, block.epoch, i == 0)) else Unknown
    {
      if o.cell.None? then Unspecified
      else
        var p := o.cell.value;
        if p.txHash in outputIndices then
          assert LastWith(block.transactions, p.txHash).Some?;
          var i := outputIndices[p.txHash];
          if p.index < |block.transactions[i].outputs| then Live(MetaAt(block, i, p)) else Unknown
        else Unknown
    }
  }

  /** The block's cells in front of the base cells. */
  function OverlayCell(provider: BlockCellProvider, base: Base, o: OutPoint): (r: CellStatus)
    requires provider.Valid()
    ensures r == CellIn(provider.block, base, o)
  {
    var status := provider.Cell(o);
    if status.Unknown? then base(o.cell.value) else status
  }

  /** The error names an out point that is used before the transaction it refers to. */
  ghost predicate NamesLate(b: Block, e: UnresolvableError) {
    exists i, o ::
      && 0 <= i < |b.transactions| && (o in b.transactions[i].deps || o in b.transactions[i].inputs)
      && !Placed(b.transactions, i, o) && e == OutOfOrder(o)
  }

  method NewBlockCellProvider(b: Block) returns (r: Result<BlockCellProvider>)
    ensures r.Ok? <==> InOrder(b.transactions)
    ensures r.Ok? ==> r.value.block == b && r.value.Valid()
    ensures r.Err? ==> NamesLate(b, r.error)
  {
    var txs := b.transactions;
    var indices: map<Hash, nat> := map[];
    for i := 0 to |txs|
      invariant forall h :: LastWith(txs[..i], h) == if h in indices then Some(indices[h]) else None
    {
      assert txs[..i + 1][..i] == txs[..i];
      indices := indices[txs[i].hash := i];
    }
    assert txs[..|txs|] == txs;
    for i := 0 to |txs|
      invariant forall j, o :: 0 <= j < i && (o in txs[j].deps || o in txs[j].inputs) ==> Placed(txs, j, o)
    {
      var late := FirstLate(txs, indices, i, txs[i].deps);
      if late.Some? { return Err(OutOfOrder(late.value)); }
      late := FirstLate(txs, indices, i, txs[i].inputs);
      if late.Some? { return Err(OutOfOrder(late.value)); }
    }
    r := Ok(BlockCellProvider(indices, b));
  }

  method FirstLate(txs: seq<Transaction>, indices: map<Hash, nat>, i: nat, points: seq<OutPoint>)
    returns (late: Option<OutPoint>)
    requires forall h :: LastWith(txs, h) == if h in indices then Some(indices[h]) else None
    ensures late.None? ==> forall o :: o in points ==> Placed(txs, i, o)
    ensures late.Some? ==> late.value in points && !Placed(txs, i, late.value)
  {
    for k := 0 to |points|
      invariant forall j :: 0 <= j < k ==> Placed(txs, i, points[j])
    {
      var o := points[k];
      if o.cell.Some? && o.cell.value.txHash in indices && indices[o.cell.value.txHash] >= i {
        var h := o.cell.value.txHash;
        assert LastWith(txs, h) == Some(indices[h]);
        return Some(o);
      }
      if o.cell.Some? { assert LastWith(txs, o.cell.value.txHash).Some? ==> o.cell.value.txHash in indices; }
    }
    late := None;
  }

  // ---------------------------------------------------------------- one transaction

  /** The verdict on one out point of a transaction. */
  datatype Found = Good(value: Resolved) | Missing | Fault(error: UnresolvableError)

  function CheckInput(o: OutPoint, seen: set<OutPoint>, cell: CellStatus, header: HeaderStatus): (f: Found)
    ensures f.Fault? ==> !f.error.UnknownCells? && !f.error.OutOfOrder?
  {
    if IsIssuingDao(o) then Good(Resolved(IssuingDaoInput, None))
    else if o in seen || cell.Dead? then Fault(DeadCell(o))
    else if cell.Unknown? then Missing
    else if cell.Unspecified? then Fault(UnspecifiedInputCell(o))
    else if header.HeaderUnknown? || header.InclusionFailure? then Fault(InvalidHeader(o))
    else Good(Resolved(Cell(cell.meta), if header.HeaderLive? then Some(header.header) else None))
  }

  function CheckDep(o: OutPoint, seen: set<OutPoint>, cell: CellStatus, header: HeaderStatus): (f: Found)
    ensures f.Fault? ==> !f.error.UnknownCells? && !f.error.OutOfOrder?
  {
    if cell.Dead? then Fault(DeadCell(o))
    else if cell.Unknown? then Missing
    else if header.HeaderUnknown? || header.InclusionFailure? then Fault(InvalidHeader(o))
    else if cell.Live? && o in seen then Fault(DeadCell(o))
    else if cell.Live? then Good(Resolved(Cell(cell.meta), if header.HeaderLive? then Some(header.header) else None))
    else if header.HeaderLive? then Good(Resolved(Null, Some(header.header)))
    else Fault(Empty)
  }

  /** The inputs that are resolved: none for a cellbase. */
  function Ins(tx: Transaction): seq<OutPoint> {
    if tx.IsCellbase() then [] else tx.inputs
  }

  /** The out points a list of inputs uses up. */
  function Consumed(points: seq<OutPoint>): set<OutPoint> {
    set o | o in points && !IsIssuingDao(o)
  }

  /** All out points of a transaction in the order they are looked at. */
  function Points(tx: Transaction): seq<OutPoint> {
    Ins(tx) + tx.deps
  }

  /** The verdicts on all out points; an input counts as seen for everything after it. */
  ghost function Scan(tx: Transaction, seen: set<OutPoint>, cells: CellView, headers: Headers)
    : (fs: seq<Found>)
    ensures |fs| == |Points(tx)|
  {
    seq(|Points(tx)|, k requires 0 <= k < |Points(tx)| => FoundAt(tx, seen, cells, headers, k))
  }

  ghost function FoundAt(
    tx: Transaction, seen: set<OutPoint>, cells: CellView, headers: Headers, k: nat): Found
    requires k < |Points(tx)|
  {
    var o := Points(tx)[k];
    if k < |Ins(tx)| then CheckInput(o, seen + Consumed(Ins(tx)[..k]), cells(o), headers(o))
    else CheckDep(o, seen + Consumed(Ins(tx)), cells(o), headers(o))
  }

  ghost predicate FirstFault(fs: seq<Found>, e: UnresolvableError) {
    exists k :: 0 <= k < |fs| && fs[k] == Fault(e) && forall j :: 0 <= j < k ==> !fs[j].Fault?
  }

  /** The out points whose verdict is `Missing`, in order. */
  ghost function MissingOf(points: seq<OutPoint>, fs: seq<Found>): seq<OutPoint>
    requires |points| == |fs|
  {
    if fs == [] then []
    else
      var n := |fs| - 1;
      MissingOf(points[..n], fs[..n]) + if fs[n].Missing? then [points[n]] else []
  }

  /** The transaction resolves to `rt`: every verdict is good and `rt` lists the values. */
  ghost predicate TxResolves(tx: Transaction, fs: seq<Found>, rt: ResolvedTransaction) {
    && |fs| == |rt.inputs| + |rt.deps| && |rt.inputs| == |Ins(tx)|
    && forall k :: 0 <= k < |fs| ==> fs[k] == Good((rt.inputs + rt.deps)[k])
  }

  /** The transaction fails with `e`: the first fault, or, without faults, all unknown out points in order. */
  ghost predicate TxFails(tx: Transaction, fs: seq<Found>, e: UnresolvableError)
    requires |fs| == |Points(tx)|
  {
    if e.UnknownCells? then (forall k :: 0 <= k < |fs| ==> !fs[k].Fault?) && e.points == MissingOf(Points(tx), fs) != []
    else FirstFault(fs, e)
  }

  method ResolveTransaction(
    tx: Transaction, seenInputs: set<OutPoint>, cells: CellView, headers: Headers)
    returns (r: Result<ResolvedTransaction>, seen: set<OutPoint>)
    ensures var fs := Scan(tx, seenInputs, cells, headers);
      if r.Ok? then TxResolves(tx, fs, r.value) else TxFails(tx, fs, r.error)
    ensures r.Ok? ==> seen == seenInputs + Consumed(Ins(tx))
    // The inputs of a cellbase are skipped.
    ensures |tx.inputs| == 1 && tx.inputs[0] == OutPoint(None, None) && |tx.outputs| == 1 && tx.witnesses == 1 ==>
      && (r.Ok? ==> r.value.inputs == [] && seen == seenInputs)
      && (tx.deps == [] ==> r == Ok(ResolvedTransaction([], [])))
    // Of every other transaction all inputs are resolved, each from a live cell that no earlier input has used.
    ensures !(|tx.inputs| == 1 && tx.inputs[0] == OutPoint(None, None) && |tx.outputs| == 1 && tx.witnesses == 1) && r.Ok? ==>
      && |r.value.inputs| == |tx.inputs|
      && forall k :: 0 <= k < |tx.inputs| ==> GoodInput(tx, seenInputs, cells, headers, k, r.value.inputs[k])
    ensures r.Ok? ==> |r.value.deps| == |tx.deps|
  {
    hide MissingOf, Collected, FirstFault, Scan, TxResolves, TxFails, IsIssuingDao, Transaction.IsCellbase, GoodInput;
    r, seen := ResolvePoints(tx, seenInputs, cells, headers);
    if r.Ok? {
      ResolvedLengths(tx, Scan(tx, seenInputs, cells, headers), r.value);
      CellbaseFields(tx);
      forall k | 0 <= k < |tx.inputs| && !tx.IsCellbase() ensures GoodInput(tx, seenInputs, cells, headers, k, r.value.inputs[k]) {
        InputVerdict(tx, seenInputs, cells, headers, k);
        ResolvedAre(tx, Scan(tx, seenInputs, cells, headers), r.value, k);
      }
    } else {
      CellbaseFields(tx);
      if tx.IsCellbase() && tx.deps == [] { NothingToFail(tx, Scan(tx, seenInputs, cells, headers), r.error); }
    }
  }

  /** The two loops and the final check for unknown out points. */
  method ResolvePoints(
    tx: Transaction, seenInputs: set<OutPoint>, cells: CellView, headers: Headers)
    returns (r: Result<ResolvedTransaction>, seen: set<OutPoint>)
    ensures var fs := Scan(tx, seenInputs, cells, headers);
      if r.Ok? then TxResolves(tx, fs, r.value) else TxFails(tx, fs, r.error)
    ensures r.Ok? ==> seen == seenInputs + Consumed(Ins(tx))
  {
    ghost var fs := Scan(tx, seenInputs, cells, headers);
    hide Scan, MissingOf, Collected, FirstFault, Consumed;
    var fault, unknown, inputs, deps;
    fault, seen, unknown, inputs := ResolveInputs(tx, seenInputs, cells, headers);
    if fault.Some? { return Err(fault.value), seen; }
    CollectedAll(tx, fs, 0, |Ins(tx)|, unknown, inputs);
    fault, unknown, deps := ResolveDeps(tx, seenInputs, seen, unknown, cells, headers);
    if fault.Some? { return Err(fault.value), seen; }
    CollectedAll(tx, fs, |Ins(tx)|, |fs|, unknown, deps);
    if unknown != [] { r := Err(UnknownCells(unknown)); } else { r := Ok(ResolvedTransaction(inputs, deps)); }
  }

  lemma CellbaseFields(tx: Transaction)
    ensures tx.IsCellbase() <==>
      |tx.inputs| == 1 && tx.inputs[0] == OutPoint(None, None) && |tx.outputs| == 1 && tx.witnesses == 1
    ensures Ins(tx) == if tx.IsCellbase() then [] else tx.inputs
  {
  }

  lemma ResolvedLengths(tx: Transaction, fs: seq<Found>, rt: ResolvedTransaction)
    requires |fs| == |Points(tx)| && TxResolves(tx, fs, rt)
    ensures |rt.inputs| == |Ins(tx)| && |rt.deps| == |tx.deps|
  {
  }

  lemma ResolvedAre(tx: Transaction, fs: seq<Found>, rt: ResolvedTransaction, k: nat)
    requires TxResolves(tx, fs, rt) && k < |Ins(tx)|
    ensures fs[k] == Good(rt.inputs[k])
  {
    assert (rt.inputs + rt.deps)[k] == rt.inputs[k];
  }

  lemma NothingToFail(tx: Transaction, fs: seq<Found>, e: UnresolvableError)
    requires |fs| == |Points(tx)| && TxFails(tx, fs, e)
    ensures Points(tx) != []
  {
  }

  /** What an input that resolves to `v` has to be. */
  ghost predicate GoodInput(
    tx: Transaction, seen: set<OutPoint>, cells: CellView, headers: Headers, k: nat, v: Resolved)
    requires k < |tx.inputs|
  {
    var o := tx.inputs[k];
    if o == OutPoint(Some(CellOutPoint(ISSUING_DAO_HASH, 0)), None) then v == Resolved(IssuingDaoInput, None)
    else
      && o !in seen && o !in tx.inputs[..k]
      && cells(o).Live? && (headers(o).HeaderLive? || headers(o).HeaderUnspecified?)
      && v == Resolved(Cell(cells(o).meta), if headers(o).HeaderLive? then Some(headers(o).header) else None)
  }

  lemma SeenAfter(tx: Transaction, seen: set<OutPoint>)
    ensures forall o :: o in seen + Consumed(Ins(tx)) <==>
      o in seen || (!tx.IsCellbase() && o in tx.inputs && o != OutPoint(Some(CellOutPoint(ISSUING_DAO_HASH, 0)), None))
  {
  }

  /** The verdict on input `k` of a transaction that is no cellbase, case by case. */
  lemma InputVerdict(tx: Transaction, seen: set<OutPoint>, cells: CellView, headers: Headers, k: nat)
    requires !tx.IsCellbase() && k < |tx.inputs|
    ensures |Ins(tx)| == |tx.inputs| && |Scan(tx, seen, cells, headers)| == |tx.inputs| + |tx.deps|
    ensures
      var o, f := tx.inputs[k], Scan(tx, seen, cells, headers)[k];
      var dao := o == OutPoint(Some(CellOutPoint(ISSUING_DAO_HASH, 0)), None);
      var used := o in seen || o in tx.inputs[..k];
      var badHeader := headers(o).HeaderUnknown? || headers(o).InclusionFailure?;
      && (f.Good? ==> GoodInput(tx, seen, cells, headers, k, f.value))
      && (f.Good? <==> dao || (!used && cells(o).Live? && !badHeader))
      && (f.Good? ==>
            && f.value.cell == (if dao then IssuingDaoInput else Cell(cells(o).meta))
            && f.value.header == (if !dao && headers(o).HeaderLive? then Some(headers(o).header) else None))
      && (f == Missing <==> !dao && !used && cells(o).Unknown?)
      && (f == Fault(DeadCell(o)) <==> !dao && (used || cells(o).Dead?))
      && (f == Fault(UnspecifiedInputCell(o)) <==> !dao && !used && cells(o).Unspecified?)
      && (f == Fault(InvalidHeader(o)) <==> !dao && !used && cells(o).Live? && badHeader)
  {
    ScanInput(tx, seen, cells, headers, k);
    var o := tx.inputs[k];
    assert !IsIssuingDao(o) ==> (o in Consumed(tx.inputs[..k]) <==> o in tx.inputs[..k]);
    hide Scan;
  }

  /** The verdict on dep `k`, case by case. */
  lemma DepVerdict(tx: Transaction, seen: set<OutPoint>, cells: CellView, headers: Headers, k: nat)
    requires k < |tx.deps|
    ensures |Scan(tx, seen, cells, headers)| == |Ins(tx)| + |tx.deps|
    ensures
      var o, f := tx.deps[k], Scan(tx, seen, cells, headers)[|Ins(tx)| + k];
      var dao := o == OutPoint(Some(CellOutPoint(ISSUING_DAO_HASH, 0)), None);
      var used := o in seen || (!tx.IsCellbase() && o in tx.inputs && !dao);
      var badHeader := headers(o).HeaderUnknown? || headers(o).InclusionFailure?;
      && (f.Good? <==> !badHeader && ((cells(o).Live? && !used) || (cells(o).Unspecified? && headers(o).HeaderLive?)))
      && (f.Good? ==>
            && f.value.cell == (if cells(o).Live? then Cell(cells(o).meta) else Null)
            && f.value.header == (if headers(o).HeaderLive? then Some(headers(o).header) else None))
      && (f == Missing <==> cells(o).Unknown?)
      && (f == Fault(DeadCell(o)) <==> cells(o).Dead? || (cells(o).Live? && !badHeader && used))
      && (f == Fault(InvalidHeader(o)) <==> (cells(o).Live? || cells(o).Unspecified?) && badHeader)
      && (f == Fault(Empty) <==> cells(o).Unspecified? && headers(o).HeaderUnspecified?)
  {
    ScanDep(tx, seen, cells, headers, k);
    SeenAfter(tx, seen);
    hide Scan, Consumed;
  }

  /** The unknown out points are listed in the order in which they are looked at. */
  lemma MissingNext(points: seq<OutPoint>, fs: seq<Found>, o: OutPoint, f: Found)
    requires |points| == |fs|
    ensures MissingOf(points + [o], fs + [f]) == MissingOf(points, fs) + if f.Missing? then [o] else []
  {
    var ps, gs := points + [o], fs + [f];
    assert ps[..|fs|] == points && gs[..|fs|] == fs && ps[|fs|] == o && gs[|fs|] == f;
  }

  /** The loop over the inputs. */
  method ResolveInputs(
    tx: Transaction, seenInputs: set<OutPoint>, cells: CellView, headers: Headers)
    returns (fault: Option<UnresolvableError>, seen: set<OutPoint>, unknown: seq<OutPoint>, inputs: seq<Resolved>)
    ensures var fs := Scan(tx, seenInputs, cells, headers);
      if fault.Some? then FirstFault(fs, fault.value) && !fault.value.UnknownCells?
      else Collected(tx, fs, 0, |Ins(tx)|, unknown, inputs) && seen == seenInputs + Consumed(Ins(tx))
  {
    ghost var fs := Scan(tx, seenInputs, cells, headers);
    var ins := Ins(tx);
    seen, unknown, inputs, fault := seenInputs, [], [], None;
    CollectedStart(tx, fs);
    hide CheckInput, MissingOf, Scan, Collected, IsIssuingDao, FoundAt, Points, FirstFault;
    for k := 0 to |ins|
      invariant fault == None && seen == seenInputs + Consumed(ins[..k])
      invariant Collected(tx, fs, 0, k, unknown, inputs)
    {
      var o := ins[k];
      var f := CheckInput(o, seen, cells(o), headers(o));
      ScanInput(tx, seenInputs, cells, headers, k);
      CollectedNext(tx, fs, 0, k, unknown, inputs);
      if f.Fault? { fault := Some(f.error); return; }
      if f.Good? { inputs := inputs + [f.value]; } else { unknown := unknown + [o]; }
      ConsumedNext(ins, k);
      if !IsIssuingDao(o) { seen := seen + {o}; }
    }
    assert ins[..|ins|] == ins;
  }

  /** The loop over the deps. */
  method ResolveDeps(
    tx: Transaction, ghost seenInputs: set<OutPoint>, seen: set<OutPoint>, missing: seq<OutPoint>,
    cells: CellView, headers: Headers)
    returns (fault: Option<UnresolvableError>, unknown: seq<OutPoint>, deps: seq<Resolved>)
    requires seen == seenInputs + Consumed(Ins(tx))
    requires Collected(tx, Scan(tx, seenInputs, cells, headers), |Ins(tx)|, |Ins(tx)|, missing, [])
    ensures var fs := Scan(tx, seenInputs, cells, headers);
      if fault.Some? then FirstFault(fs, fault.value) && !fault.value.UnknownCells?
      else Collected(tx, fs, |Ins(tx)|, |Points(tx)|, unknown, deps) && |missing| <= |unknown|
  {
    ghost var fs := Scan(tx, seenInputs, cells, headers);
    assert |Points(tx)| == |Ins(tx)| + |tx.deps|;
    hide *;
    unknown, deps, fault := missing, [], None;
    for k := 0 to |tx.deps|
      invariant fault == None && |missing| <= |unknown|
      invariant Collected(tx, fs, |Ins(tx)|, |Ins(tx)| + k, unknown, deps)
    {
      var o := tx.deps[k];
      var f := CheckDep(o, seen, cells(o), headers(o));
      DepNext(tx, seenInputs, cells, headers, k, unknown, deps);
      if f.Fault? { fault := Some(f.error); return; }
      if f.Good? { deps := deps + [f.value]; } else { unknown := unknown + [o]; }
    }
  }

  lemma ScanInput(tx: Transaction, seen: set<OutPoint>, cells: CellView, headers: Headers, k: nat)
    requires k < |Ins(tx)|
    ensures |Scan(tx, seen, cells, headers)| == |Points(tx)| == |Ins(tx)| + |tx.deps|
    ensures var o := Ins(tx)[k];
      && Points(tx)[k] == o
      && Scan(tx, seen, cells, headers)[k] == CheckInput(o, seen + Consumed(Ins(tx)[..k]), cells(o), headers(o))
  {
  }

  lemma ScanDep(tx: Transaction, seen: set<OutPoint>, cells: CellView, headers: Headers, k: nat)
    requires k < |tx.deps|
    ensures |Scan(tx, seen, cells, headers)| == |Points(tx)| == |Ins(tx)| + |tx.deps|
    ensures var o := tx.deps[k];
      && Points(tx)[|Ins(tx)| + k] == o
      && Scan(tx, seen, cells, headers)[|Ins(tx)| + k] == CheckDep(o, seen + Consumed(Ins(tx)), cells(o), headers(o))
  {
  }

  lemma DepNext(
    tx: Transaction, seenInputs: set<OutPoint>, cells: CellView, headers: Headers, k: nat,
    unknown: seq<OutPoint>, deps: seq<Resolved>)
    requires k < |tx.deps|
    requires Collected(tx, Scan(tx, seenInputs, cells, headers), |Ins(tx)|, |Ins(tx)| + k, unknown, deps)
    ensures var fs, o := Scan(tx, seenInputs, cells, headers), tx.deps[k];
      var f := CheckDep(o, seenInputs + Consumed(Ins(tx)), cells(o), headers(o));
      && (f.Fault? ==> FirstFault(fs, f.error))
      && (f.Good? ==> Collected(tx, fs, |Ins(tx)|, |Ins(tx)| + k + 1, unknown, deps + [f.value]))
      && (f.Missing? ==> Collected(tx, fs, |Ins(tx)|, |Ins(tx)| + k + 1, unknown + [o], deps))
  {
    hide *;
    ScanDep(tx, seenInputs, cells, headers, k);
    CollectedNext(tx, Scan(tx, seenInputs, cells, headers), |Ins(tx)|, |Ins(tx)| + k, unknown, deps);
  }

  lemma ConsumedNext(points: seq<OutPoint>, k: nat)
    requires k < |points|
    ensures Consumed(points[..k + 1]) == Consumed(points[..k]) + if IsIssuingDao(points[k]) then {} else {points[k]}
  {
  }

  /** The loop state after the first `n` verdicts; `values` holds the good ones from `start` on. */
  ghost predicate Collected(
    tx: Transaction, fs: seq<Found>, start: nat, n: nat, unknown: seq<OutPoint>, values: seq<Resolved>) {
    && start <= n <= |fs| == |Points(tx)|
    && (forall k :: 0 <= k < n ==> !fs[k].Fault?)
    && unknown == MissingOf(Points(tx)[..n], fs[..n])
    && (unknown == [] ==> |values| == n - start && forall k :: start <= k < n ==> fs[k] == Good(values[k - start]))
  }

  lemma CollectedStart(tx: Transaction, fs: seq<Found>)
    requires |fs| == |Points(tx)|
    ensures Collected(tx, fs, 0, 0, [], [])
  {
  }

  lemma CollectedNext(tx: Transaction, fs: seq<Found>, start: nat, n: nat, unknown: seq<OutPoint>, values: seq<Resolved>)
    requires Collected(tx, fs, start, n, unknown, values) && n < |fs|
    ensures fs[n].Fault? ==> FirstFault(fs, fs[n].error)
    ensures fs[n].Good? ==> Collected(tx, fs, start, n + 1, unknown, values + [fs[n].value])
    ensures fs[n].Missing? ==> Collected(tx, fs, start, n + 1, unknown + [Points(tx)[n]], values)
  {
    assert fs[..n + 1][..n] == fs[..n] && Points(tx)[..n + 1][..n] == Points(tx)[..n];
  }

  lemma CollectedAll(tx: Transaction, fs: seq<Found>, start: nat, n: nat, unknown: seq<OutPoint>, values: seq<Resolved>)
    requires Collected(tx, fs, start, n, unknown, values)
    ensures forall k :: 0 <= k < n ==> !fs[k].Fault?
    ensures n == |fs| ==> unknown == MissingOf(Points(tx), fs)
    ensures unknown == [] ==> |values| == n - start && forall k :: start <= k < n ==> fs[k] == Good(values[k - start])
    ensures Collected(tx, fs, n, n, unknown, [])
  {
    assert fs[..|fs|] == fs && Points(tx)[..|fs|] == Points(tx);
  }

  // ---------------------------------------------------------------- the whole block

  /** Everything the transactions before `n` used up. */
  ghost function SeenBefore(txs: seq<Transaction>, n: nat): set<OutPoint>
    requires n <= |txs|
  {
    if n == 0 then {} else SeenBefore(txs, n - 1) + Consumed(Ins(txs[n - 1]))
  }

  ghost predicate BlockResolves(
    b: Block, base: Base, headers: Headers, rs: seq<ResolvedTransaction>) {
    && InOrder(b.transactions)
    && |rs| == |b.transactions|
    && forall i :: 0 <= i < |rs| ==> ResolvesAt(b, base, headers, i, rs[i])
  }

  ghost predicate ResolvesAt(
    b: Block, base: Base, headers: Headers, i: nat, rt: ResolvedTransaction)
    requires i < |b.transactions|
  {
    var tx := b.transactions[i];
    TxResolves(tx, Scan(tx, SeenBefore(b.transactions, i), CellsOf(b, base), headers), rt)
  }

  lemma ScanSame(tx: Transaction, seen: set<OutPoint>, c: CellView, d: CellView, headers: Headers)
    requires forall o :: c(o) == d(o)
    ensures Scan(tx, seen, c, headers) == Scan(tx, seen, d, headers)
  {
  }

  /** A transaction that failed resolves to nothing. */
  lemma FailedTx(tx: Transaction, fs: seq<Found>, e: UnresolvableError)
    requires |fs| == |Points(tx)| && TxFails(tx, fs, e)
    ensures forall rt :: !TxResolves(tx, fs, rt)
  {
    MissingExists(Points(tx), fs);
  }

  lemma {:induction false} MissingExists(points: seq<OutPoint>, fs: seq<Found>)
    requires |points| == |fs|
    ensures MissingOf(points, fs) != [] <==> exists k :: 0 <= k < |fs| && fs[k].Missing?
    decreases |fs|
  {
    if fs != [] {
      var n := |fs| - 1;
      MissingExists(points[..n], fs[..n]);
      if k :| 0 <= k < n && fs[k].Missing? { assert fs[..n][k].Missing?; }
    }
  }

  ghost predicate Resolvable(b: Block, base: Base, headers: Headers, i: nat)
    requires i < |b.transactions|
  {
    exists rt :: ResolvesAt(b, base, headers, i, rt)
  }

  /** Transaction `i` is the first that fails, and fails with `e`. */
  ghost predicate FailsAt(b: Block, base: Base, headers: Headers, i: nat, e: UnresolvableError) {
    && i < |b.transactions|
    && (forall j :: 0 <= j < i ==> Resolvable(b, base, headers, j))
    && TxFails(b.transactions[i], Scan(b.transactions[i], SeenBefore(b.transactions, i), CellsOf(b, base), headers), e)
  }

  method ResolveBlock(b: Block, base: Base, headers: Headers)
    returns (r: Result<seq<ResolvedTransaction>>)
    ensures r.Ok? ==> BlockResolves(b, base, headers, r.value)
    ensures r.Err? ==> forall rs :: !BlockResolves(b, base, headers, rs)
    ensures r.Err? && InOrder(b.transactions) ==> exists i :: FailsAt(b, base, headers, i, r.error)
    ensures r.Err? && !InOrder(b.transactions) ==> NamesLate(b, r.error)
  {
    hide *;
    var provider := NewBlockCellProvider(b);
    if provider.Err? {
      NoneOutOfOrder(b, base, headers);
      return Err(provider.error);
    }
    var blockCells := provider.value;
    var cells: CellView := (o: OutPoint) => OverlayCell(blockCells, base, o);
    var rs: seq<ResolvedTransaction>, seen: set<OutPoint> := [], {};
    forall o ensures cells(o) == CellsOf(b, base)(o) { ViewIs(b, base, o); }
    SeenNext(b.transactions, 0);
    NoneResolved(b, base, headers);
    for i := 0 to |b.transactions|
      invariant |rs| == i && seen == SeenBefore(b.transactions, i)
      invariant ResolvedBefore(b, base, headers, i, rs)
    {
      var t;
      ScanSame(b.transactions[i], seen, cells, CellsOf(b, base), headers);
      t, seen := ResolveTransaction(b.transactions[i], seen, cells, headers);
      if t.Err? {
        BlockFails(b, base, headers, i, rs, t.error);
        return Err(t.error);
      }
      SeenNext(b.transactions, i + 1);
      ResolvedNext(b, base, headers, i, rs, t.value);
      rs := rs + [t.value];
    }
    WholeBlock(b, base, headers, rs);
    r := Ok(rs);
  }

  lemma NoneOutOfOrder(b: Block, base: Base, headers: Headers)
    ensures !InOrder(b.transactions) ==> forall rs :: !BlockResolves(b, base, headers, rs)
  {
  }

  lemma ViewIs(b: Block, base: Base, o: OutPoint)
    ensures CellsOf(b, base)(o) == CellIn(b, base, o)
  {
  }

  /** The first `n` transactions resolve to `rs`. */
  ghost predicate ResolvedBefore(b: Block, base: Base, headers: Headers, n: nat, rs: seq<ResolvedTransaction>)
    requires n <= |b.transactions|
  {
    |rs| == n && forall j :: 0 <= j < n ==> ResolvesAt(b, base, headers, j, rs[j])
  }

  lemma SeenNext(txs: seq<Transaction>, n: nat)
    requires n <= |txs|
    ensures n == 0 ==> SeenBefore(txs, n) == {}
    ensures n > 0 ==> SeenBefore(txs, n) == SeenBefore(txs, n - 1) + Consumed(Ins(txs[n - 1]))
  {
  }

  lemma NoneResolved(b: Block, base: Base, headers: Headers)
    ensures ResolvedBefore(b, base, headers, 0, [])
  {
  }

  lemma ResolvedNext(
    b: Block, base: Base, headers: Headers, i: nat, rs: seq<ResolvedTransaction>, rt: ResolvedTransaction)
    requires i < |b.transactions| && ResolvedBefore(b, base, headers, i, rs)
    requires
      TxResolves(b.transactions[i], Scan(b.transactions[i], SeenBefore(b.transactions, i), CellsOf(b, base), headers), rt)
    ensures ResolvedBefore(b, base, headers, i + 1, rs + [rt])
  {
    hide TxResolves, Scan, SeenBefore;
    assert ResolvesAt(b, base, headers, i, rt);
  }

  lemma WholeBlock(b: Block, base: Base, headers: Headers, rs: seq<ResolvedTransaction>)
    requires InOrder(b.transactions) && ResolvedBefore(b, base, headers, |b.transactions|, rs)
    ensures BlockResolves(b, base, headers, rs)
  {
  }

  /** Once a transaction fails the block resolves to nothing, and that transaction is the first to fail. */
  lemma BlockFails(b: Block, base: Base, headers: Headers, i: nat, rs: seq<ResolvedTransaction>, e: UnresolvableError)
    requires i < |b.transactions| && ResolvedBefore(b, base, headers, i, rs)
    requires TxFails(b.transactions[i], Scan(b.transactions[i], SeenBefore(b.transactions, i), CellsOf(b, base), headers), e)
    ensures forall others :: !BlockResolves(b, base, headers, others)
    ensures FailsAt(b, base, headers, i, e)
  {
    hide TxResolves, TxFails, Scan, SeenBefore, InOrder;
    FailedTx(b.transactions[i], Scan(b.transactions[i], SeenBefore(b.transactions, i), CellsOf(b, base), headers), e);
    forall others: seq<ResolvedTransaction> | |others| == |b.transactions|
      ensures !BlockResolves(b, base, headers, others)
    {
      assert !ResolvesAt(b, base, headers, i, others[i]);
    }
    forall j | 0 <= j < i ensures Resolvable(b, base, headers, j) {
      assert ResolvesAt(b, base, headers, j, rs[j]);
    }
  }
}
