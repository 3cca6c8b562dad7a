/**
 The tree of stored blocks and what a block inherits along its parent path:
 the path itself, total difficulty, total uncle count and epoch.
 */
module BlockTree {
  import opened CkbTypes

  datatype EpochExt = EpochExt(
    number: nat,
    lastBlockHashInPreviousEpoch: Hash,
    startNumber: nat,
    length: nat,
    difficulty: nat)

  /** Epoch adjustment is left uninterpreted; the store is keyed by the hash it puts in the epoch. */
  datatype Consensus = Consensus(
    genesis: Block,
    genesisEpoch: EpochExt,
    nextEpoch: (EpochExt, Block) -> Option<EpochExt>)
  {
    ghost predicate Valid() {
      && genesis.number == 0
      && genesis.hash != genesisEpoch.lastBlockHashInPreviousEpoch
      && forall e: EpochExt, b: Block :: nextEpoch(e, b).Some? ==>
           nextEpoch(e, b).value.lastBlockHashInPreviousEpoch == b.hash
    }
  }

  /** `b` sits on a stored parent, one number above it, with positive difficulty. */
  predicate Child(blocks: map<Hash, Block>, b: Block) {
    && b.parent in blocks
    && b.number == blocks[b.parent].number + 1
    && b.difficulty > 0
  }

  /** A stored block is filed under its own hash and hangs from a stored parent, or is genesis. */
  ghost predicate Linked(c: Consensus, blocks: map<Hash, Block>, h: Hash) {
    h in blocks ==> blocks[h].hash == h && (h == c.genesis.hash || Child(blocks, blocks[h]))
  }

  /** Everything stored hangs from the genesis block. */
  ghost predicate Tree(c: Consensus, blocks: map<Hash, Block>) {
    && c.Valid()
    && c.genesis.hash in blocks
    && blocks[c.genesis.hash] == c.genesis
    && c.genesisEpoch.lastBlockHashInPreviousEpoch !in blocks
    && forall h :: Linked(c, blocks, h)
  }

  /** The blocks from genesis to `h`, in order of number. */
  ghost function Path(c: Consensus, blocks: map<Hash, Block>, h: Hash): (p: seq<Block>)
    requires Tree(c, blocks) && h in blocks
    ensures |p| == blocks[h].number + 1
    ensures p[|p| - 1] == blocks[h]
    ensures forall n :: 0 <= n < |p| ==> p[n].hash in blocks && p[n] == blocks[p[n].hash] && p[n].number == n
    decreases blocks[h].number
  {
    assert Linked(c, blocks, h);
    if h == c.genesis.hash then [blocks[h]] else Path(c, blocks, blocks[h].parent) + [blocks[h]]
  }

  ghost function TotalDifficulty(c: Consensus, blocks: map<Hash, Block>, h: Hash): nat
    requires Tree(c, blocks) && h in blocks
    decreases blocks[h].number
  {
    assert Linked(c, blocks, h);
    blocks[h].difficulty +
    if h == c.genesis.hash then 0 else TotalDifficulty(c, blocks, blocks[h].parent)
  }

  ghost function TotalUncles(c: Consensus, blocks: map<Hash, Block>, h: Hash): nat
    requires Tree(c, blocks) && h in blocks
    decreases blocks[h].number
  {
    assert Linked(c, blocks, h);
    if h == c.genesis.hash then 0 else TotalUncles(c, blocks, blocks[h].parent) + blocks[h].uncles
  }

  /** The epoch of a child of `parent`, given the parent's own epoch. */
  function ChildEpoch(c: Consensus, parentEpoch: EpochExt, parent: Block): EpochExt {
    match c.nextEpoch(parentEpoch, parent)
    case Some(e) => e
    case None => parentEpoch
  }

  ghost function EpochOf(c: Consensus, blocks: map<Hash, Block>, h: Hash): EpochExt
    requires Tree(c, blocks) && h in blocks
    decreases blocks[h].number
  {
    assert Linked(c, blocks, h);
    if h == c.genesis.hash then c.genesisEpoch
    else ChildEpoch(c, EpochOf(c, blocks, blocks[h].parent), blocks[blocks[h].parent])
  }

  /** Fork choice: more total difficulty wins, then the smaller hash. */
  ghost predicate Better(c: Consensus, blocks: map<Hash, Block>, a: Hash, b: Hash)
    requires Tree(c, blocks) && a in blocks && b in blocks
  {
    var x, y := TotalDifficulty(c, blocks, a), TotalDifficulty(c, blocks, b);
    x > y || (x == y && a < b)
  }

  /** A block may be handed to the chain service: new, with a stored parent. */
  ghost predicate Fresh(c: Consensus, blocks: map<Hash, Block>, b: Block) {
    && b.hash !in blocks
    && b.hash != c.genesisEpoch.lastBlockHashInPreviousEpoch
    && Child(blocks, b)
  }

  lemma AddKeepsTree(c: Consensus, blocks: map<Hash, Block>, b: Block)
    requires Tree(c, blocks) && Fresh(c, blocks, b)
    ensures Tree(c, blocks[b.hash := b])
  {
    var bs := blocks[b.hash := b];
    forall h ensures Linked(c, bs, h) {
      assert Linked(c, blocks, h);
    }
  }

  /** What a stored block inherits does not change when blocks are added. */
  lemma {:induction false} AddKeepsInheritance(c: Consensus, blocks: map<Hash, Block>, b: Block, h: Hash)
    requires Tree(c, blocks) && Fresh(c, blocks, b) && h in blocks
    ensures Tree(c, blocks[b.hash := b])
    ensures Path(c, blocks[b.hash := b], h) == Path(c, blocks, h)
    ensures TotalDifficulty(c, blocks[b.hash := b], h) == TotalDifficulty(c, blocks, h)
    ensures TotalUncles(c, blocks[b.hash := b], h) == TotalUncles(c, blocks, h)
    ensures EpochOf(c, blocks[b.hash := b], h) == EpochOf(c, blocks, h)
    decreases blocks[h].number
  {
    assert Linked(c, blocks, h);
    AddKeepsTree(c, blocks, b);
    if h != c.genesis.hash {
      AddKeepsInheritance(c, blocks, b, blocks[h].parent);
    }
  }

  /** What the added block inherits comes from its parent. */
  lemma AddedInherits(c: Consensus, blocks: map<Hash, Block>, b: Block)
    requires Tree(c, blocks) && Fresh(c, blocks, b)
    ensures Tree(c, blocks[b.hash := b])
    ensures Path(c, blocks[b.hash := b], b.hash) == Path(c, blocks, b.parent) + [b]
    ensures TotalDifficulty(c, blocks[b.hash := b], b.hash) == TotalDifficulty(c, blocks, b.parent) + b.difficulty
    ensures TotalUncles(c, blocks[b.hash := b], b.hash) == TotalUncles(c, blocks, b.parent) + b.uncles
    ensures EpochOf(c, blocks[b.hash := b], b.hash)
         == ChildEpoch(c, EpochOf(c, blocks, b.parent), blocks[b.parent])
  {
    AddKeepsTree(c, blocks, b);
    assert Linked(c, blocks[b.hash := b], b.hash);
    AddKeepsInheritance(c, blocks, b, b.parent);
  }

  /** Consecutive blocks of a path are parent and child; every prefix is itself a path. */
  lemma {:induction false} PathPrefix(c: Consensus, blocks: map<Hash, Block>, h: Hash, n: nat)
    requires Tree(c, blocks) && h in blocks && n <= blocks[h].number
    ensures var p := Path(c, blocks, h);
            p[..n + 1] == Path(c, blocks, p[n].hash) && (n > 0 ==> p[n].parent == p[n - 1].hash)
    decreases blocks[h].number
  {
    assert Linked(c, blocks, h);
    var p := Path(c, blocks, h);
    if n == blocks[h].number {
      assert p[..n + 1] == p;
      assert n > 0 ==> Linked(c, blocks, blocks[h].parent);
    } else {
      var q := Path(c, blocks, blocks[h].parent);
      PathPrefix(c, blocks, blocks[h].parent, n);
      assert p[..n + 1] == q[..n + 1];
    }
  }

  /** The difficulty below a block on its path is smaller. */
  lemma {:induction false} DifficultyGrows(c: Consensus, blocks: map<Hash, Block>, h: Hash, n: nat)
    requires Tree(c, blocks) && h in blocks && n < blocks[h].number
    ensures TotalDifficulty(c, blocks, Path(c, blocks, h)[n].hash) < TotalDifficulty(c, blocks, h)
    decreases blocks[h].number
  {
    assert Linked(c, blocks, h);
    if n < blocks[h].number - 1 {
      DifficultyGrows(c, blocks, blocks[h].parent, n);
    }
  }

  /** An epoch is the genesis epoch, or was opened by the stored block its key names. */
  lemma {:induction false} EpochOrigin(c: Consensus, blocks: map<Hash, Block>, h: Hash)
    requires Tree(c, blocks) && h in blocks
    ensures var e := EpochOf(c, blocks, h);
            var key := e.lastBlockHashInPreviousEpoch;
            if key in blocks then
              c.nextEpoch(EpochOf(c, blocks, key), blocks[key]) == Some(e)
            else
              e == c.genesisEpoch
    decreases blocks[h].number
  {
    assert Linked(c, blocks, h);
    if h != c.genesis.hash {
      EpochOrigin(c, blocks, blocks[h].parent);
      assert Linked(c, blocks, blocks[h].parent);
    }
  }

  /** So the store's epoch key determines the epoch, and rewriting it rewrites the same value. */
  lemma EpochDeterminedByKey(c: Consensus, blocks: map<Hash, Block>, g: Hash, h: Hash)
    requires Tree(c, blocks) && g in blocks && h in blocks
    requires EpochOf(c, blocks, g).lastBlockHashInPreviousEpoch
          == EpochOf(c, blocks, h).lastBlockHashInPreviousEpoch
    ensures EpochOf(c, blocks, g) == EpochOf(c, blocks, h)
  {
    EpochOrigin(c, blocks, g);
    EpochOrigin(c, blocks, h);
  }

  lemma SuffixAt(p: seq<Block>, k: nat, n: nat)
    requires k <= n < |p|
    ensures p[k..][n - k] == p[n] && p[n] in p[k..]
  {
  }

  lemma PrefixAt(p: seq<Block>, q: seq<Block>, k: nat, n: nat)
    requires n < k <= |p| && k <= |q| && p[..k] == q[..k]
    ensures p[n] == q[n]
  {
  }

  /** The paths agree on their first `k` blocks and part, or end, right there. */
  ghost predicate ForkAt(p: seq<Block>, q: seq<Block>, k: nat) {
    && k <= |p|
    && k <= |q|
    && p[..k] == q[..k]
    && (k < |p| && k < |q| ==> p[k] != q[k])
  }

  lemma ForkExists(p: seq<Block>, q: seq<Block>)
    ensures exists k: nat :: ForkAt(p, q, k)
  {
    var k := 0;
    while k < |p| && k < |q| && p[k] == q[k]
      invariant k <= |p| && k <= |q| && p[..k] == q[..k]
    {
      k := k + 1;
    }
    assert ForkAt(p, q, k);
  }

  /** The number of blocks two paths share from genesis on. */
  ghost function Common(p: seq<Block>, q: seq<Block>): (k: nat)
    ensures ForkAt(p, q, k)
  {
    ForkExists(p, q);
    var k: nat :| ForkAt(p, q, k);
    k
  }

  /** Paths of one tree that have parted stay apart: above the fork point they share no block. */
  lemma ForkApart(c: Consensus, blocks: map<Hash, Block>, g: Hash, h: Hash, n: nat)
    requires Tree(c, blocks) && g in blocks && h in blocks
    requires n < |Path(c, blocks, g)| && n < |Path(c, blocks, h)|
    ensures Path(c, blocks, g)[n] == Path(c, blocks, h)[n] <==> n < Common(Path(c, blocks, g), Path(c, blocks, h))
  {
    hide Path, Tree;
    var p, q := Path(c, blocks, g), Path(c, blocks, h);
    PathPrefix(c, blocks, g, n);
    PathPrefix(c, blocks, h, n);
    ApartAt(p, q, Common(p, q), n);
  }

  lemma ApartAt(p: seq<Block>, q: seq<Block>, k: nat, n: nat)
    requires ForkAt(p, q, k) && n < |p| && n < |q| && (p[n] == q[n] ==> p[..n + 1] == q[..n + 1])
    ensures p[n] == q[n] <==> n < k
  {
  }

  lemma CommonIs(p: seq<Block>, q: seq<Block>, k: nat)
    requires ForkAt(p, q, k)
    ensures Common(p, q) == k
  {
  }
}
