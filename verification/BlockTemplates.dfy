/**
 Block templates: budgeting of the transactions of a new block by bytes and cycles, and the cache of
 templates handed out before. Uncles, proposals, the pool, the tip and the clock are arbitrary inputs.
 */
module BlockTemplates {
  import opened CkbTypes

  const BLOCK_TEMPLATE_TIMEOUT: nat := 3000
  const RAW_HEADER_SIZE: nat := 224
  const NONCE_SIZE: nat := 8
  const PROPOSAL_ID_SIZE: nat := 10

  /** A proposed transaction: its serialized size, and the size and cycles the pool recorded for it. */
  datatype PoolEntry = PoolEntry(hash: Hash, serializedSize: nat, size: nat, cycles: nat)

  datatype Limits = Limits(maxBlockBytes: nat, maxProposals: nat, maxBlockCycles: nat, blockVersion: nat)

  datatype Template = Template(
    version: nat,
    parent: Hash,
    number: nat,
    currentTime: nat,
    cyclesLimit: nat,
    bytesLimit: nat,
    uncles: seq<Hash>,
    proposals: seq<Hash>,
    cellbaseSize: nat,
    transactions: seq<PoolEntry>,
    workId: nat)

  datatype Tip = Tip(hash: Hash, number: nat, timestamp: nat)

  datatype CacheKey = CacheKey(tip: Hash, cyclesLimit: nat, bytesLimit: nat, version: nat)

  datatype CacheEntry = CacheEntry(time: nat, unclesUpdatedAt: nat, txsUpdatedAt: nat, template: Template)
  {
    predicate IsOutdated(now: nat) {
      now > time && now - time > BLOCK_TEMPLATE_TIMEOUT
    }

    predicate IsModified(uncles: nat, txs: nat) {
      uncles != unclesUpdatedAt || txs != txsUpdatedAt
    }
  }

  // ---------------------------------------------------------------- sizes

  function HeaderSize(proofSize: nat): nat {
    RAW_HEADER_SIZE + proofSize + NONCE_SIZE
  }

  function SizeSum(entries: seq<PoolEntry>): nat {
    if entries == [] then 0 else SizeSum(entries[..|entries| - 1]) + entries[|entries| - 1].size
  }

  function SerializedSum(entries: seq<PoolEntry>): nat {
    if entries == [] then 0 else SerializedSum(entries[..|entries| - 1]) + entries[|entries| - 1].serializedSize
  }

  function CycleSum(entries: seq<PoolEntry>): nat {
    if entries == [] then 0 else CycleSum(entries[..|entries| - 1]) + entries[|entries| - 1].cycles
  }

  /** The serialized size of the block a miner rebuilds from the template. */
  function BlockSize(t: Template, proofSize: nat): nat {
    HeaderSize(proofSize) + |t.uncles| * HeaderSize(proofSize) + |t.proposals| * PROPOSAL_ID_SIZE
      + t.cellbaseSize + SerializedSum(t.transactions)
  }

  /** Header and uncles take the bytes of a header each: 224 raw, the proof and the nonce; a proposal takes ten. */
  lemma BlockSizeIs(t: Template, proofSize: nat)
    ensures BlockSize(t, proofSize)
         == (|t.uncles| + 1) * (224 + proofSize + 8) + 10 * |t.proposals| + t.cellbaseSize + SerializedSum(t.transactions)
  {
    var header := HeaderSize(proofSize);
    assert (|t.uncles| + 1) * header == |t.uncles| * header + header;
  }

  /** The sums count every entry once. */
  lemma {:induction false} SumParts(a: seq<PoolEntry>, b: seq<PoolEntry>)
    ensures SizeSum(a + b) == SizeSum(a) + SizeSum(b)
    ensures SerializedSum(a + b) == SerializedSum(a) + SerializedSum(b)
    ensures CycleSum(a + b) == CycleSum(a) + CycleSum(b)
    ensures |b| == 1 ==> SizeSum(b) == b[0].size && SerializedSum(b) == b[0].serializedSize && CycleSum(b) == b[0].cycles
    decreases |b|
  {
    if b == [] {
      assert a + b == a;
    } else {
      SumParts(a, b[..|b| - 1]);
      assert (a + b)[..|a + b| - 1] == a + b[..|b| - 1];
    }
  }

  ghost predicate SizesRecorded(entries: seq<PoolEntry>) {
    forall i :: 0 <= i < |entries| ==> entries[i].size == entries[i].serializedSize
  }

  lemma {:induction false} RecordedSum(entries: seq<PoolEntry>)
    requires SizesRecorded(entries)
    ensures SerializedSum(entries) == SizeSum(entries)
    decreases |entries|
  {
    if entries != [] { RecordedSum(entries[..|entries| - 1]); }
  }

  // ---------------------------------------------------------------- choosing transactions

  /** The running sums of the first `n` entries stay strictly below both limits. */
  ghost predicate Within(pool: seq<PoolEntry>, n: nat, sizeLimit: nat, cyclesLimit: nat)
    requires n <= |pool|
  {
    SizeSum(pool[..n]) < sizeLimit && CycleSum(pool[..n]) < cyclesLimit
  }

  /** The longest prefix of the pool within the limits; the sums include the entry that ended it. */
  method GetProposedTxs(pool: seq<PoolEntry>, sizeLimit: nat, cyclesLimit: nat)
    returns (entries: seq<PoolEntry>, size: nat, cycles: nat)
    ensures entries <= pool
    ensures entries != [] ==> SizeSum(entries) < sizeLimit && CycleSum(entries) < cyclesLimit
    ensures forall m :: |entries| < m <= |pool| ==> SizeSum(pool[..m]) >= sizeLimit || CycleSum(pool[..m]) >= cyclesLimit
    ensures var n := if |entries| < |pool| then |entries| + 1 else |entries|;
      size == SizeSum(pool[..n]) && cycles == CycleSum(pool[..n])
  {
    size, cycles, entries := 0, 0, [];
    var i := 0;
    while i < |pool|
      invariant i <= |pool| && entries == pool[..i]
      invariant size == SizeSum(pool[..i]) && cycles == CycleSum(pool[..i])
      invariant i > 0 ==> Within(pool, i, sizeLimit, cyclesLimit)
    {
      assert pool[..i + 1][..i] == pool[..i];
      cycles := cycles + pool[i].cycles;
      size := size + pool[i].size;
      if !(size < sizeLimit && cycles < cyclesLimit) {
        forall n | i < n <= |pool|
          ensures SizeSum(pool[..n]) >= sizeLimit || CycleSum(pool[..n]) >= cyclesLimit
        {
          SumsGrow(pool, i + 1, n);
        }
        return;
      }
      i := i + 1;
      entries := entries + [pool[i - 1]];
    }
  }

  lemma {:induction false} SumsGrow(pool: seq<PoolEntry>, m: nat, n: nat)
    requires m <= n <= |pool|
    ensures SizeSum(pool[..m]) <= SizeSum(pool[..n]) && CycleSum(pool[..m]) <= CycleSum(pool[..n])
    decreases n
  {
    if m < n {
      SumsGrow(pool, m, n - 1);
      assert pool[..n][..n - 1] == pool[..n - 1];
    }
  }

  // ---------------------------------------------------------------- the assembler

  /** `None` is smaller than every `Some`, so the minimum with an absent request is absent. */
  function OrMaximum(requested: Option<nat>, maximum: nat): (r: nat)
    ensures r <= maximum && (requested.Some? ==> r <= requested.value)
    ensures r == maximum || requested == Some(r)
  {
    if requested.Some? && requested.value < maximum then requested.value else maximum
  }

  /** A template that fits: rebuilt, it respects its own limits and those of consensus. */
  ghost predicate Fits(t: Template, limits: Limits, proofSize: nat) {
    && BlockSize(t, proofSize) <= t.bytesLimit <= limits.maxBlockBytes
    && CycleSum(t.transactions) <= t.cyclesLimit == limits.maxBlockCycles
    && t.version <= limits.blockVersion
  }

  /** The block the template is for: on this tip, with this limit and version. */
  ghost predicate Answers(t: Template, tip: Hash, bytesLimit: nat, version: nat) {
    t.parent == tip && t.bytesLimit == bytesLimit && t.version == version
  }

  datatype Reply = Ok(template: Template) | InvalidParams(bytesLimit: nat)

  /** What one request reads from the rest of the node while it runs. */
  datatype View = View(
    storeTip: Tip, now: nat,
    lockedTip: Tip, unclesUpdatedAt: nat, txsUpdatedAt: nat,
    uncles: seq<Hash>, pending: seq<Hash>, cellbaseSize: nat, pool: seq<PoolEntry>,
    later: nat, evicted: set<CacheKey>)

  /** The first ids waiting to be proposed, in the order the pool gives them. */
  function Proposals(pending: seq<Hash>, limit: nat): (r: seq<Hash>)
    ensures r <= pending && |r| <= limit && (r == pending || |r| == limit)
  {
    if |pending| <= limit then pending else pending[..limit]
  }

  function Max(a: nat, b: nat): nat { if a > b then a else b }

  class BlockAssembler {
    const limits: Limits
    const proofSize: nat
    var caches: map<CacheKey, CacheEntry>
    var workId: nat

    ghost predicate Valid()
      reads this
    {
      forall k :: k in caches ==>
        && Fits(caches[k].template, limits, proofSize)
        && Answers(caches[k].template, k.tip, k.bytesLimit, k.version)
    }

    constructor (limits: Limits, proofSize: nat)
      ensures Valid() && this.limits == limits && this.proofSize == proofSize && caches == map[] && workId == 0
    {
      this.limits, this.proofSize, caches, workId := limits, proofSize, map[], 0;
    }

    /** The bytes left for transactions, if header, uncles, proposals and cellbase fit at all. */
    function TxsSizeLimit(bytesLimit: nat, uncles: nat, proposals: nat, cellbaseSize: nat): (r: Option<nat>)
      ensures
        var used := (uncles + 1) * (224 + proofSize + 8) + 10 * proposals + cellbaseSize;
        if r.Some? then r.value + used == bytesLimit else bytesLimit < used
    {
      assert (uncles + 1) * HeaderSize(proofSize) == HeaderSize(proofSize) + uncles * HeaderSize(proofSize);
      var occupied := HeaderSize(proofSize) + uncles * HeaderSize(proofSize) + proposals * PROPOSAL_ID_SIZE + cellbaseSize;
      if occupied <= bytesLimit then Some(bytesLimit - occupied) else None
    }

    /**
     One request. Whatever comes back, from the cache or new, fits and is for a tip this request saw;
     it is refused only when the fixed parts alone exceed the byte limit.
     */
    method GetBlockTemplate(bytesLimit: Option<nat>, proposalsLimit: Option<nat>, maxVersion: Option<nat>, view: View)
      returns (r: Reply)
      requires Valid() && SizesRecorded(view.pool)
      modifies this
      ensures Valid()
      ensures r.Ok? ==> Fits(r.template, limits, proofSize)
      ensures r.Ok? ==>
        var bytes, version := OrMaximum(bytesLimit, limits.maxBlockBytes), OrMaximum(maxVersion, limits.blockVersion);
        && (r.template.parent == view.storeTip.hash || r.template.parent == view.lockedTip.hash)
        && r.template.bytesLimit == bytes && r.template.version == version
      ensures r.InvalidParams? ==> caches == old(caches) && workId == old(workId)
      ensures r.InvalidParams? ==>
        && r.bytesLimit == OrMaximum(bytesLimit, limits.maxBlockBytes)
        && forall t: Template ::
          && t.uncles == view.uncles && t.cellbaseSize == view.cellbaseSize
          && t.proposals == Proposals(view.pending, OrMaximum(proposalsLimit, limits.maxProposals)) ==>
            BlockSize(t, proofSize) > r.bytesLimit
      ensures workId != old(workId) ==> workId == old(workId) + 1 && r.Ok? && r.template.workId == old(workId)
      ensures r.Ok? && workId == old(workId) ==>
        && caches == old(caches)
        && exists k ::
             && k in caches && r.template == caches[k].template
             && (|| (&& k.tip == view.storeTip.hash
                     && view.now <= caches[k].time + 3000 && view.storeTip.timestamp + 1 <= caches[k].time + 3000)
                 || (&& k.tip == view.lockedTip.hash
                     && caches[k].unclesUpdatedAt == view.unclesUpdatedAt && caches[k].txsUpdatedAt == view.txsUpdatedAt))
      ensures workId != old(workId) ==>
        var txs := r.template.transactions;
        var rest := r.template.bytesLimit - (BlockSize(r.template, proofSize) - SizeSum(txs));
        && |r.template.proposals| <= OrMaximum(proposalsLimit, limits.maxProposals)
        && rest >= 0 && txs <= view.pool
        && forall m :: |txs| < m <= |view.pool| ==>
             SizeSum(view.pool[..m]) >= rest || CycleSum(view.pool[..m]) >= limits.maxBlockCycles
      // A new template is for the block after the locked tip, with the uncles and proposals handed in.
      ensures workId != old(workId) ==>
        var t := r.template;
        && t.parent == view.lockedTip.hash && t.number == view.lockedTip.number + 1
        && t.uncles == view.uncles && t.cellbaseSize == view.cellbaseSize && t.proposals <= view.pending
        && (t.proposals == view.pending || |t.proposals| == OrMaximum(proposalsLimit, limits.maxProposals))
        && t.currentTime >= view.later && t.currentTime > view.lockedTip.timestamp
        && (t.currentTime == view.later || t.currentTime == view.lockedTip.timestamp + 1)
      // It is cached under its tip and limits; of the other cached templates only evicted ones go.
      ensures workId != old(workId) ==>
        var key := CacheKey(view.lockedTip.hash, limits.maxBlockCycles, r.template.bytesLimit, r.template.version);
        && key in caches
        && caches[key] == CacheEntry(r.template.currentTime, view.unclesUpdatedAt, view.txsUpdatedAt, r.template)
        && forall k :: k != key ==>
             && (k in caches <==> k in old(caches) && k !in view.evicted)
             && (k in caches ==> caches[k] == old(caches)[k])
      ensures r.Ok? ==>
        var t := r.template;
        && (|t.uncles| + 1) * (224 + proofSize + 8) + 10 * |t.proposals| + t.cellbaseSize + SerializedSum(t.transactions)
             <= t.bytesLimit <= limits.maxBlockBytes
        && CycleSum(t.transactions) <= limits.maxBlockCycles && t.cyclesLimit == limits.maxBlockCycles
    {
      hide Fits, BlockSize, SizeSum, SerializedSum, CycleSum, SizesRecorded;
      var cyclesLimit := limits.maxBlockCycles;
      var bytes := OrMaximum(bytesLimit, limits.maxBlockBytes);
      var version := OrMaximum(maxVersion, limits.blockVersion);
      var key := CacheKey(view.storeTip.hash, cyclesLimit, bytes, version);
      if key in caches && !caches[key].IsOutdated(Max(view.now, view.storeTip.timestamp + 1)) {
        FitsIs(caches[key].template, limits, proofSize);
        return Ok(caches[key].template);
      }
      key := CacheKey(view.lockedTip.hash, cyclesLimit, bytes, version);
      if key in caches && !caches[key].IsModified(view.unclesUpdatedAt, view.txsUpdatedAt) {
        FitsIs(caches[key].template, limits, proofSize);
        return Ok(caches[key].template);
      }
      var built := Assemble(bytes, OrMaximum(proposalsLimit, limits.maxProposals), version, view);
      if built.None? { return InvalidParams(bytes); }
      var template := built.value;
      FitsIs(template, limits, proofSize);
      workId := workId + 1;
      caches := (caches - view.evicted)[
        key := CacheEntry(template.currentTime, view.unclesUpdatedAt, view.txsUpdatedAt, template)];
      r := Ok(template);
    }

    /** The template built when no cached one will do, unless its fixed parts exceed the byte limit. */
    method Assemble(bytes: nat, proposalsLimit: nat, version: nat, view: View) returns (built: Option<Template>)
      requires bytes <= limits.maxBlockBytes && version <= limits.blockVersion && SizesRecorded(view.pool)
      ensures built.None? ==> forall t: Template ::
        && t.uncles == view.uncles && t.cellbaseSize == view.cellbaseSize
        && t.proposals == Proposals(view.pending, proposalsLimit) ==>
          BlockSize(t, proofSize) > bytes
      ensures built.Some? ==>
        var t := built.value;
        && Fits(t, limits, proofSize) && Answers(t, view.lockedTip.hash, bytes, version) && t.workId == workId
        && t.number == view.lockedTip.number + 1
        && t.uncles == view.uncles && t.cellbaseSize == view.cellbaseSize
        && t.proposals == Proposals(view.pending, proposalsLimit)
        && t.currentTime == Max(view.later, view.lockedTip.timestamp + 1)
        && var rest := t.bytesLimit - (BlockSize(t, proofSize) - SizeSum(t.transactions));
           && rest >= 0 && t.transactions <= view.pool
           && forall m :: |t.transactions| < m <= |view.pool| ==>
                SizeSum(view.pool[..m]) >= rest || CycleSum(view.pool[..m]) >= limits.maxBlockCycles
    {
      var cyclesLimit := limits.maxBlockCycles;
      var proposals := Proposals(view.pending, proposalsLimit);
      var txsSizeLimit := TxsSizeLimit(bytes, |view.uncles|, |proposals|, view.cellbaseSize);
      if txsSizeLimit.None? {
        forall t: Template { BlockSizeIs(t, proofSize); }
        return None;
      }
      var entries, size, cycles := GetProposedTxs(view.pool, txsSizeLimit.value, cyclesLimit);
      RecordedSum(entries);
      var time := Max(view.later, view.lockedTip.timestamp + 1);
      var template := Template(version, view.lockedTip.hash, view.lockedTip.number + 1, time, cyclesLimit, bytes,
                               view.uncles, proposals, view.cellbaseSize, entries, workId);
      BlockSizeIs(template, proofSize);
      assert entries == [] ==> CycleSum(entries) == 0;
      built := Some(template);
    }
  }

  lemma FitsIs(t: Template, limits: Limits, proofSize: nat)
    ensures Fits(t, limits, proofSize) <==>
      && (|t.uncles| + 1) * (224 + proofSize + 8) + 10 * |t.proposals| + t.cellbaseSize + SerializedSum(t.transactions)
           <= t.bytesLimit <= limits.maxBlockBytes
      && CycleSum(t.transactions) <= limits.maxBlockCycles && t.cyclesLimit == limits.maxBlockCycles
      && t.version <= limits.blockVersion
  {
    BlockSizeIs(t, proofSize);
  }
}
