/**
 What one accepted or rejected block does to the chain, stated on whole paths, and what every
 run from genesis keeps. `ChainService` carries this out with the loops and writes of the source.
 */
module ForkChoice {
  import opened CkbTypes
  import opened BlockTree

  datatype BlockExt = BlockExt(
    totalDifficulty: nat,
    totalUnclesCount: nat,
    verified: Option<bool>,
    txsFees: seq<nat>)

  /** The columns of the store that fork choice reads and writes. */
  datatype Store = Store(
    blocks: map<Hash, Block>,
    exts: map<Hash, BlockExt>,
    index: map<nat, Hash>,
    numbers: map<Hash, nat>,
    tipHeader: Hash,
    currentEpoch: EpochExt,
    blockEpochIndex: map<Hash, Hash>,
    epochs: map<Hash, EpochExt>)

  /** The store together with the chain state held in memory. */
  datatype State = State(store: Store, tip: Block, totalDifficulty: nat, currentEpoch: EpochExt)

  /** The answer of cell resolution and contextual verification for one attached block. */
  datatype Verdict =
    | Valid(txsFees: seq<nat>)
    | OutOfOrder
    | Unresolvable
    | Invalid

  /** One call of `process_block`; both verifiers are arbitrary. */
  datatype Request = Request(block: Block, needVerify: bool, blockValid: bool, judge: Block -> Verdict)

  ghost function NumberIndex(p: seq<Block>): map<nat, Hash> {
    map n | 0 <= n < |p| :: p[n].hash
  }

  ghost function HashIndex(p: seq<Block>): map<Hash, nat> {
    map h | h in (set b | b in p :: b.hash) :: NumberOf(p, h)
  }

  ghost function NumberOf(p: seq<Block>, h: Hash): nat
    requires exists b :: b in p && b.hash == h
  {
    var b :| b in p && b.hash == h;
    b.number
  }

  ghost predicate IsVerified(s: Store, h: Hash) {
    h in s.exts && s.exts[h].verified == Some(true)
  }

  ghost predicate ExtOk(c: Consensus, s: Store, h: Hash)
    requires Tree(c, s.blocks)
  {
    h in s.blocks ==>
      && h in s.exts
      && s.exts[h].totalDifficulty == TotalDifficulty(c, s.blocks, h)
      && s.exts[h].totalUnclesCount == TotalUncles(c, s.blocks, h)
      && s.exts[h].verified != Some(false)
      && (h != c.genesis.hash && IsVerified(s, h) ==> IsVerified(s, s.blocks[h].parent))
  }

  ghost predicate ExtsOk(c: Consensus, s: Store)
    requires Tree(c, s.blocks)
  {
    && s.exts.Keys == s.blocks.Keys
    && IsVerified(s, c.genesis.hash)
    && forall h :: ExtOk(c, s, h)
  }

  ghost predicate EpochOk(c: Consensus, s: Store, h: Hash)
    requires Tree(c, s.blocks)
  {
    h in s.blocks ==>
      && h in s.blockEpochIndex
      && s.blockEpochIndex[h] == EpochOf(c, s.blocks, h).lastBlockHashInPreviousEpoch
      && s.blockEpochIndex[h] in s.epochs
      && s.epochs[s.blockEpochIndex[h]] == EpochOf(c, s.blocks, h)
  }

  ghost predicate EpochsOk(c: Consensus, s: Store)
    requires Tree(c, s.blocks)
  {
    forall h :: EpochOk(c, s, h)
  }

  ghost predicate TipOk(c: Consensus, s: State)
    requires Tree(c, s.store.blocks)
  {
    && s.tip.hash in s.store.blocks
    && s.store.blocks[s.tip.hash] == s.tip
    && s.store.tipHeader == s.tip.hash
    && s.totalDifficulty == TotalDifficulty(c, s.store.blocks, s.tip.hash)
    && s.currentEpoch == EpochOf(c, s.store.blocks, s.tip.hash)
    && s.store.currentEpoch == s.currentEpoch
    && IsVerified(s.store, s.tip.hash)
    && s.store.index == NumberIndex(Path(c, s.store.blocks, s.tip.hash))
    && s.store.numbers == HashIndex(Path(c, s.store.blocks, s.tip.hash))
  }

  ghost predicate TipBest(c: Consensus, s: State)
    requires Tree(c, s.store.blocks) && s.tip.hash in s.store.blocks
  {
    forall h :: h in s.store.blocks && h != s.tip.hash ==> Better(c, s.store.blocks, s.tip.hash, h)
  }

  /** What every reachable state satisfies. */
  ghost predicate Inv(c: Consensus, s: State) {
    && Tree(c, s.store.blocks)
    && ExtsOk(c, s.store)
    && EpochsOk(c, s.store)
    && TipOk(c, s)
    && TipBest(c, s)
  }

  ghost function MainChain(c: Consensus, s: State): seq<Block>
    requires Tree(c, s.store.blocks) && s.tip.hash in s.store.blocks
  {
    Path(c, s.store.blocks, s.tip.hash)
  }

  /** The state right after the genesis block is written. */
  ghost function Genesis(c: Consensus): State {
    var g := c.genesis;
    var key := c.genesisEpoch.lastBlockHashInPreviousEpoch;
    State(
      Store(
        map[g.hash := g],
        map[g.hash := BlockExt(g.difficulty, 0, Some(true), [])],
        map[0 := g.hash],
        map[g.hash := 0],
        g.hash,
        c.genesisEpoch,
        map[g.hash := key],
        map[key := c.genesisEpoch]),
      g, g.difficulty, c.genesisEpoch)
  }

  /** The store with `b` added on a side branch: unverified, nothing else moved. */
  ghost function Stored(c: Consensus, s: Store, b: Block): Store
    requires Tree(c, s.blocks) && Fresh(c, s.blocks, b)
  {
    var e := ChildEpoch(c, EpochOf(c, s.blocks, b.parent), s.blocks[b.parent]);
    var ext := BlockExt(
      TotalDifficulty(c, s.blocks, b.parent) + b.difficulty,
      TotalUncles(c, s.blocks, b.parent) + b.uncles,
      None, []);
    s.(blocks := s.blocks[b.hash := b],
       exts := s.exts[b.hash := ext],
       blockEpochIndex := s.blockEpochIndex[b.hash := e.lastBlockHashInPreviousEpoch],
       epochs := s.epochs[e.lastBlockHashInPreviousEpoch := e])
  }

  /** The hashes of the blocks above the fork point that no earlier reorg has verified. */
  ghost function Unverified(s: Store, attached: seq<Block>): set<Hash> {
    set b | b in attached && b.hash in s.exts && s.exts[b.hash].verified == None :: b.hash
  }

  function Fees(r: Request, b: Block): seq<nat> {
    if r.needVerify && r.judge(b).Valid? then r.judge(b).txsFees else []
  }

  /** Every block the reorg has to verify passes. */
  ghost predicate Passes(s: Store, attached: seq<Block>, r: Request) {
    r.needVerify ==> forall b :: b in attached && b.hash in Unverified(s, attached) ==> r.judge(b).Valid?
  }

  /** The exts once the blocks of `todo` have passed verification. */
  ghost function Marked(st: Store, todo: set<Hash>, r: Request): map<Hash, BlockExt> {
    map h | h in st.exts ::
      if h in todo && h in st.blocks
      then st.exts[h].(verified := Some(true), txsFees := Fees(r, st.blocks[h]))
      else st.exts[h]
  }

  /** The state once the chain has switched to the path ending in the newly stored block. */
  ghost function Switched(c: Consensus, s: State, r: Request): State
    requires Tree(c, s.store.blocks) && s.tip.hash in s.store.blocks && Fresh(c, s.store.blocks, r.block)
  {
    AddKeepsTree(c, s.store.blocks, r.block);
    var st := Stored(c, s.store, r.block);
    var main := MainChain(c, s);
    var fork := Path(c, st.blocks, r.block.hash);
    var todo := Unverified(st, fork[Common(main, fork)..]);
    var e := EpochOf(c, st.blocks, r.block.hash);
    State(
      st.(exts := Marked(st, todo, r),
          index := NumberIndex(fork),
          numbers := HashIndex(fork),
          tipHeader := r.block.hash,
          currentEpoch := e),
      r.block,
      TotalDifficulty(c, st.blocks, r.block.hash),
      e)
  }

  /** The new block would beat the current tip. */
  ghost predicate NewBest(c: Consensus, s: State, b: Block)
    requires Tree(c, s.store.blocks) && Fresh(c, s.store.blocks, b)
  {
    var td := TotalDifficulty(c, s.store.blocks, b.parent) + b.difficulty;
    td > s.totalDifficulty || (td == s.totalDifficulty && b.hash < s.tip.hash)
  }

  /** The blocks the reorg attaches: those of the new path above the fork point. */
  ghost function Attached(c: Consensus, s: State, b: Block): seq<Block>
    requires Tree(c, s.store.blocks) && s.tip.hash in s.store.blocks && Fresh(c, s.store.blocks, b)
  {
    AddKeepsTree(c, s.store.blocks, b);
    var fork := Path(c, s.store.blocks[b.hash := b], b.hash);
    fork[Common(MainChain(c, s), fork)..]
  }

  /** The blocks the reorg detaches: those of the main chain above the fork point. */
  ghost function Detached(c: Consensus, s: State, b: Block): seq<Block>
    requires Tree(c, s.store.blocks) && s.tip.hash in s.store.blocks && Fresh(c, s.store.blocks, b)
  {
    AddKeepsTree(c, s.store.blocks, b);
    MainChain(c, s)[Common(MainChain(c, s), Path(c, s.store.blocks[b.hash := b], b.hash))..]
  }

  ghost predicate SameBlocks(p: seq<Block>, q: seq<Block>) {
    forall b :: b in p <==> b in q
  }

  ghost predicate Accepts(c: Consensus, s: State, r: Request)
    requires Inv(c, s) && Fresh(c, s.store.blocks, r.block)
  {
    && (r.needVerify ==> r.blockValid)
    && (NewBest(c, s, r.block) ==>
          Passes(Stored(c, s.store, r.block), Attached(c, s, r.block), r))
  }

  /** The state after one request. A rejected request changes nothing. */
  ghost function Step(c: Consensus, s: State, r: Request): State
    requires Inv(c, s) && Fresh(c, s.store.blocks, r.block)
  {
    if !Accepts(c, s, r) then s
    else if NewBest(c, s, r.block) then Switched(c, s, r)
    else s.(store := Stored(c, s.store, r.block))
  }

  // ---------------------------------------------------------------- every step keeps the invariant

  lemma GenesisInv(c: Consensus)
    requires c.Valid()
    ensures Inv(c, Genesis(c))
  {
  }

  lemma StoredKeepsExts(c: Consensus, s: Store, b: Block)
    requires Tree(c, s.blocks) && Fresh(c, s.blocks, b) && ExtsOk(c, s)
    ensures Tree(c, s.blocks[b.hash := b]) && ExtsOk(c, Stored(c, s, b))
  {
    hide Path, EpochOf, TotalDifficulty, TotalUncles;
    AddedInherits(c, s.blocks, b);
    var t := Stored(c, s, b);
    forall h ensures ExtOk(c, t, h) {
      assert ExtOk(c, s, h);
      assert Linked(c, s.blocks, h);
      if h in s.blocks { AddKeepsInheritance(c, s.blocks, b, h); }
    }
  }

  lemma StoredKeepsEpochs(c: Consensus, s: Store, b: Block)
    requires Tree(c, s.blocks) && Fresh(c, s.blocks, b) && EpochsOk(c, s)
    ensures Tree(c, s.blocks[b.hash := b]) && EpochsOk(c, Stored(c, s, b))
  {
    AddedInherits(c, s.blocks, b);
    var t := Stored(c, s, b);
    var e := EpochOf(c, t.blocks, b.hash);
    forall h ensures EpochOk(c, t, h) {
      assert EpochOk(c, s, h);
      if h in s.blocks {
        AddKeepsInheritance(c, s.blocks, b, h);
        if EpochOf(c, t.blocks, h).lastBlockHashInPreviousEpoch == e.lastBlockHashInPreviousEpoch {
          EpochDeterminedByKey(c, t.blocks, h, b.hash);
        }
      }
    }
  }

  /** A block that does not win leaves the tip the best of all stored blocks. */
  lemma SideBlockKeepsInv(c: Consensus, s: State, r: Request)
    requires Inv(c, s) && Fresh(c, s.store.blocks, r.block) && !NewBest(c, s, r.block)
    ensures Inv(c, s.(store := Stored(c, s.store, r.block)))
  {
    var b := r.block;
    StoredKeepsExts(c, s.store, b);
    StoredKeepsEpochs(c, s.store, b);
    AddedInherits(c, s.store.blocks, b);
    AddKeepsInheritance(c, s.store.blocks, b, s.tip.hash);
    var t := s.(store := Stored(c, s.store, b));
    forall h | h in t.store.blocks && h != t.tip.hash
      ensures Better(c, t.store.blocks, t.tip.hash, h)
    {
      if h != b.hash { AddKeepsInheritance(c, s.store.blocks, b, h); }
    }
  }

  /** Below the fork point the new path is the old main chain, whose blocks are all verified. */
  lemma {:induction false} PathVerified(c: Consensus, s: Store, h: Hash, n: nat)
    requires Tree(c, s.blocks) && ExtsOk(c, s) && h in s.blocks && IsVerified(s, h)
    requires n <= s.blocks[h].number
    ensures IsVerified(s, Path(c, s.blocks, h)[n].hash)
    decreases s.blocks[h].number
  {
    assert Linked(c, s.blocks, h) && ExtOk(c, s, h);
    if n < s.blocks[h].number {
      PathVerified(c, s, s.blocks[h].parent, n);
    }
  }

  /** Marking the unverified blocks above the fork point leaves the whole new path verified. */
  lemma MarkedVerifies(c: Consensus, st: Store, tip: Hash, fork: seq<Block>, k: nat, r: Request, n: nat)
    requires Tree(c, st.blocks) && ExtsOk(c, st) && tip in st.blocks && IsVerified(st, tip)
    requires k <= |fork| && k <= |Path(c, st.blocks, tip)| && fork[..k] == Path(c, st.blocks, tip)[..k]
    requires n < |fork| && fork[n].hash in st.blocks && st.blocks[fork[n].hash] == fork[n]
    ensures IsVerified(st.(exts := Marked(st, Unverified(st, fork[k..]), r)), fork[n].hash)
  {
    assert ExtOk(c, st, fork[n].hash);
    if n < k {
      PrefixAt(Path(c, st.blocks, tip), fork, k, n);
      PathVerified(c, st, tip, n);
    } else {
      SuffixAt(fork, k, n);
      var v := st.exts[fork[n].hash].verified;
      if v.Some? { assert v == if v.value then Some(true) else Some(false); }
      assert v.None? ==> fork[n].hash in Unverified(st, fork[k..]);
    }
  }

  /** Marking changes no difficulty or uncle count, marks the blocks of `todo` and unmarks none. */
  lemma MarkedChanges(st: Store, todo: set<Hash>, r: Request)
    requires todo <= st.blocks.Keys && st.exts.Keys == st.blocks.Keys
    ensures Marked(st, todo, r).Keys == st.exts.Keys
    ensures forall h :: h in st.exts ==>
              && Marked(st, todo, r)[h].totalDifficulty == st.exts[h].totalDifficulty
              && Marked(st, todo, r)[h].totalUnclesCount == st.exts[h].totalUnclesCount
              && Marked(st, todo, r)[h].verified == if h in todo then Some(true) else st.exts[h].verified
  {
  }

  /** A block verified by this reorg lies on the new path, and so does its parent. */
  lemma MarkedParent(c: Consensus, st: Store, tip: Hash, b: Hash, k: nat, r: Request, h: Hash)
    requires Tree(c, st.blocks) && ExtsOk(c, st) && tip in st.blocks && IsVerified(st, tip) && b in st.blocks
    requires k <= |Path(c, st.blocks, b)| && k <= |Path(c, st.blocks, tip)|
    requires Path(c, st.blocks, b)[..k] == Path(c, st.blocks, tip)[..k]
    requires h in Unverified(st, Path(c, st.blocks, b)[k..]) && h in st.blocks && h != c.genesis.hash
    ensures IsVerified(st.(exts := Marked(st, Unverified(st, Path(c, st.blocks, b)[k..]), r)), st.blocks[h].parent)
  {
    var fork := Path(c, st.blocks, b);
    var n := IndexOnPath(fork, k, h);
    hide Path, TotalDifficulty, TotalUncles, Marked, Unverified, ExtOk;
    PathPrefix(c, st.blocks, b, n);
    assert Linked(c, st.blocks, h);
    MarkedVerifies(c, st, tip, fork, k, r, n - 1);
  }

  lemma MarkedKeepsExts(c: Consensus, st: Store, tip: Hash, b: Hash, k: nat, r: Request)
    requires Tree(c, st.blocks) && ExtsOk(c, st) && tip in st.blocks && IsVerified(st, tip) && b in st.blocks
    requires k <= |Path(c, st.blocks, b)| && k <= |Path(c, st.blocks, tip)|
    requires Path(c, st.blocks, b)[..k] == Path(c, st.blocks, tip)[..k]
    ensures ExtsOk(c, st.(exts := Marked(st, Unverified(st, Path(c, st.blocks, b)[k..]), r)))
  {
    hide Path, TotalDifficulty, TotalUncles, Marked;
    var todo := Unverified(st, Path(c, st.blocks, b)[k..]);
    var t := st.(exts := Marked(st, todo, r));
    MarkedChanges(st, todo, r);
    forall h ensures ExtOk(c, t, h) {
      assert ExtOk(c, st, h);
      if h in todo && h in st.blocks && h != c.genesis.hash { MarkedParent(c, st, tip, b, k, r, h); }
    }
  }

  lemma IndexOnPath(p: seq<Block>, k: nat, h: Hash) returns (n: nat)
    requires k <= |p| && exists b :: b in p[k..] && b.hash == h
    ensures n < |p| && p[n].hash == h
  {
    var b :| b in p[k..] && b.hash == h;
    var i :| 0 <= i < |p[k..]| && p[k..][i] == b;
    n := k + i;
  }

  /** The winner beats every other stored block. */
  lemma SwitchedBest(c: Consensus, s: State, r: Request)
    requires Inv(c, s) && Fresh(c, s.store.blocks, r.block) && NewBest(c, s, r.block)
    ensures Tree(c, s.store.blocks[r.block.hash := r.block])
    ensures TipBest(c, Switched(c, s, r))
  {
    var b := r.block;
    AddedInherits(c, s.store.blocks, b);
    var t := Switched(c, s, r);
    forall h | h in t.store.blocks && h != b.hash
      ensures Better(c, t.store.blocks, b.hash, h)
    {
      AddKeepsInheritance(c, s.store.blocks, b, h);
      if h != s.tip.hash { assert Better(c, s.store.blocks, s.tip.hash, h); }
    }
  }

  lemma SwitchKeepsInv(c: Consensus, s: State, r: Request)
    requires Inv(c, s) && Fresh(c, s.store.blocks, r.block) && NewBest(c, s, r.block)
    ensures Inv(c, Switched(c, s, r))
  {
    hide Path, EpochOf, TotalDifficulty, TotalUncles;
    var b := r.block;
    var st := Stored(c, s.store, b);
    AddedInherits(c, s.store.blocks, b);
    AddKeepsInheritance(c, s.store.blocks, b, s.tip.hash);
    StoredKeepsExts(c, s.store, b);
    var fork := Path(c, st.blocks, b.hash);
    var k := Common(MainChain(c, s), fork);
    MarkedKeepsExts(c, st, s.tip.hash, b.hash, k, r);
    MarkedVerifies(c, st, s.tip.hash, fork, k, r, b.number);
    StoredKeepsEpochs(c, s.store, b);
    var t := Switched(c, s, r);
    forall h ensures ExtOk(c, t.store, h) {
      assert ExtOk(c, st.(exts := t.store.exts), h);
    }
    forall h ensures EpochOk(c, t.store, h) {
      assert EpochOk(c, st, h);
    }
    SwitchedBest(c, s, r);
  }

  lemma StepKeepsInv(c: Consensus, s: State, r: Request)
    requires Inv(c, s) && Fresh(c, s.store.blocks, r.block)
    ensures Inv(c, Step(c, s, r))
  {
    if Accepts(c, s, r) {
      if NewBest(c, s, r.block) { SwitchKeepsInv(c, s, r); } else { SideBlockKeepsInv(c, s, r); }
    }
  }

  // ---------------------------------------------------------------- one step, read off the columns

  /** The attached blocks are those of the new path that the hash index does not list. */
  lemma AttachedAre(c: Consensus, s: State, b: Block, x: Block)
    requires Inv(c, s) && Fresh(c, s.store.blocks, b)
    ensures x in Attached(c, s, b) <==> x in Path(c, s.store.blocks, b.parent) + [b] && x.hash !in s.store.numbers
  {
    hide Path, ExtsOk, EpochsOk, TipBest, TotalDifficulty, TotalUncles, EpochOf, Common;
    var blocks := s.store.blocks;
    var bs := blocks[b.hash := b];
    AddedInherits(c, blocks, b);
    AddKeepsInheritance(c, blocks, b, s.tip.hash);
    var main, fork := MainChain(c, s), Path(c, bs, b.hash);
    var k := Common(main, fork);
    if x in fork {
      var n := x.number;
      assert fork[n] == x;
      if n < k {
        PrefixAt(main, fork, k, n);
        assert x in main;
      } else {
        SuffixAt(fork, k, n);
        if y :| y in main && y.hash == x.hash {
          assert main[y.number] == y && bs[y.hash] == y;
          ForkApart(c, bs, s.tip.hash, b.hash, n);
        }
      }
    }
  }

  /** A block of the new path is unverified unless the store says otherwise. */
  lemma UnverifiedOnPath(c: Consensus, s: Store, b: Block, x: Block)
    requires Tree(c, s.blocks) && ExtsOk(c, s) && Fresh(c, s.blocks, b) && x in Path(c, s.blocks, b.parent) + [b]
    ensures x.hash in Stored(c, s, b).exts
    ensures Stored(c, s, b).exts[x.hash].verified == None <==> !(x.hash in s.exts && s.exts[x.hash].verified == Some(true))
  {
    hide Path, TotalDifficulty, TotalUncles, EpochOf;
    if x != b {
      assert ExtOk(c, s, x.hash);
      var v := s.exts[x.hash].verified;
      if v.Some? { assert v == if v.value then Some(true) else Some(false); }
    }
  }

  /** What decides: stateless verification, then, for a block that wins, the verdicts on the unverified blocks. */
  lemma AcceptsExactly(c: Consensus, s: State, r: Request)
    requires Inv(c, s) && Fresh(c, s.store.blocks, r.block)
    ensures r.block.parent in s.store.exts
    ensures var td := s.store.exts[r.block.parent].totalDifficulty + r.block.difficulty;
      NewBest(c, s, r.block) <==> td > s.totalDifficulty || (td == s.totalDifficulty && r.block.hash < s.tip.hash)
    ensures Accepts(c, s, r) <==>
      && !(r.needVerify && !r.blockValid)
      && (r.needVerify && NewBest(c, s, r.block) ==>
            forall x ::
              && x in Path(c, s.store.blocks, r.block.parent) + [r.block]
              && x.hash !in s.store.numbers
              && !(x.hash in s.store.exts && s.store.exts[x.hash].verified == Some(true)) ==>
                r.judge(x).Valid?)
  {
    var b := r.block;
    var attached, st := Attached(c, s, b), Stored(c, s.store, b);
    assert ExtOk(c, s.store, b.parent);
    hide Attached, Path, TotalDifficulty, TotalUncles, EpochOf, ExtOk, TipOk, TipBest, EpochsOk;
    forall x ensures x in attached && x.hash in Unverified(st, attached) <==>
      x in Path(c, s.store.blocks, b.parent) + [b] && x.hash !in s.store.numbers
      && !(x.hash in s.store.exts && s.store.exts[x.hash].verified == Some(true))
    {
      AttachedAre(c, s, b, x);
      if x in Path(c, s.store.blocks, b.parent) + [b] { UnverifiedOnPath(c, s.store, b, x); }
    }
  }

  /** The columns an accepted block leaves, by name. */
  lemma StepColumns(c: Consensus, s: State, r: Request)
    requires Inv(c, s) && Fresh(c, s.store.blocks, r.block) && Accepts(c, s, r)
    ensures var t, st := Step(c, s, r).store, Stored(c, s.store, r.block);
      && t.blocks == st.blocks && t.blockEpochIndex == st.blockEpochIndex && t.epochs == st.epochs
      && t.exts == (if NewBest(c, s, r.block) then Marked(st, Unverified(st, Attached(c, s, r.block)), r) else st.exts)
  {
    hide Tree, Path, TotalDifficulty, TotalUncles, EpochOf, Accepts, ExtsOk, EpochsOk, TipOk, TipBest, NewBest;
    hide Marked, Unverified, NumberIndex, HashIndex;
  }

  /** An accepted block is stored on top of its parent; what was stored before keeps its sums. */
  lemma StepStores(c: Consensus, s: State, r: Request)
    requires Inv(c, s) && Fresh(c, s.store.blocks, r.block) && Accepts(c, s, r)
    ensures r.block.parent in s.store.exts
    ensures var t, b := Step(c, s, r), r.block;
      && t.store.blocks == s.store.blocks[b.hash := b]
      && t.store.exts.Keys == s.store.exts.Keys + {b.hash}
      && t.store.exts[b.hash].totalDifficulty == s.store.exts[b.parent].totalDifficulty + b.difficulty
      && t.store.exts[b.hash].totalUnclesCount == s.store.exts[b.parent].totalUnclesCount + b.uncles
      && forall h :: h in s.store.exts ==>
           && t.store.exts[h].totalDifficulty == s.store.exts[h].totalDifficulty
           && t.store.exts[h].totalUnclesCount == s.store.exts[h].totalUnclesCount
  {
    assert ExtOk(c, s.store, r.block.parent);
    var st := Stored(c, s.store, r.block);
    assert Unverified(st, Attached(c, s, r.block)) <= st.exts.Keys;
    hide Tree, Step, Path, TotalDifficulty, TotalUncles, EpochOf, Accepts, ExtOk, EpochsOk, TipOk, TipBest, NewBest;
    hide Attached, Marked, Unverified;
    StepColumns(c, s, r);
    MarkedChanges(st, Unverified(st, Attached(c, s, r.block)), r);
  }

  /** Its epoch is the one the epoch rule gives for its parent, or else the epoch of its parent. */
  lemma StepEpoch(c: Consensus, s: State, r: Request)
    requires Inv(c, s) && Fresh(c, s.store.blocks, r.block) && Accepts(c, s, r)
    ensures r.block.parent in s.store.blockEpochIndex && s.store.blockEpochIndex[r.block.parent] in s.store.epochs
    ensures var t, b := Step(c, s, r).store, r.block;
      var above := s.store.epochs[s.store.blockEpochIndex[b.parent]];
      var next := c.nextEpoch(above, s.store.blocks[b.parent]);
      && b.hash in t.blockEpochIndex && t.blockEpochIndex[b.hash] in t.epochs
      && t.epochs[t.blockEpochIndex[b.hash]] == if next.Some? then next.value else above
  {
    assert EpochOk(c, s.store, r.block.parent);
    StepColumns(c, s, r);
    hide Tree, Step, Path, TotalDifficulty, TotalUncles, EpochOf, Accepts, ExtsOk, EpochsOk, TipOk, TipBest, NewBest;
  }

  /** A block that does not win moves nothing else; its ext waits for verification. */
  lemma StepLoses(c: Consensus, s: State, r: Request)
    requires Inv(c, s) && Fresh(c, s.store.blocks, r.block) && Accepts(c, s, r) && !NewBest(c, s, r.block)
    ensures r.block.parent in s.store.exts
    ensures var t, b, parent := Step(c, s, r), r.block, s.store.exts[r.block.parent];
      && t.tip == s.tip && t.totalDifficulty == s.totalDifficulty && t.currentEpoch == s.currentEpoch
      && t.store.index == s.store.index && t.store.numbers == s.store.numbers
      && t.store.tipHeader == s.store.tipHeader && t.store.currentEpoch == s.store.currentEpoch
      && t.store.exts ==
         s.store.exts[b.hash := BlockExt(parent.totalDifficulty + b.difficulty, parent.totalUnclesCount + b.uncles, None, [])]
  {
    assert ExtOk(c, s.store, r.block.parent);
  }

  /** A block that wins becomes the tip: the index is its path, its epoch is current, and its path is verified. */
  lemma StepWins(c: Consensus, s: State, r: Request)
    requires Inv(c, s) && Fresh(c, s.store.blocks, r.block) && Accepts(c, s, r) && NewBest(c, s, r.block)
    ensures r.block.parent in s.store.exts
    ensures var t, b, up := Step(c, s, r), r.block, Path(c, s.store.blocks, r.block.parent) + [r.block];
      && t.tip == b && t.store.tipHeader == b.hash
      && t.totalDifficulty == s.store.exts[b.parent].totalDifficulty + b.difficulty
      && b.hash in t.store.blockEpochIndex && t.store.blockEpochIndex[b.hash] in t.store.epochs
      && t.currentEpoch == t.store.currentEpoch == t.store.epochs[t.store.blockEpochIndex[b.hash]]
      && (forall n :: n in t.store.index <==> 0 <= n < |up|)
      && (forall n :: 0 <= n < |up| ==> t.store.index[n] == up[n].hash)
      && (forall h :: h in t.store.numbers <==> exists x :: x in up && x.hash == h)
      && (forall x :: x in up ==> t.store.numbers[x.hash] == x.number)
  {
    var b := r.block;
    assert ExtOk(c, s.store, b.parent) && EpochOk(c, s.store, b.parent);
    AddedInherits(c, s.store.blocks, b);
    StoredKeepsEpochs(c, s.store, b);
    assert EpochOk(c, Stored(c, s.store, b), b.hash);
    hide Path, TotalDifficulty, TotalUncles, EpochOf, Accepts, TipOk, TipBest, Marked, Unverified, Tree, ExtsOk, EpochsOk;
  }

  /** The exts of a switch: the unverified blocks of the new path are marked, with their fees; no other ext changes. */
  lemma StepMarks(c: Consensus, s: State, r: Request, h: Hash)
    requires Inv(c, s) && Fresh(c, s.store.blocks, r.block) && Accepts(c, s, r) && NewBest(c, s, r.block)
    requires h in s.store.blocks || h == r.block.hash
    ensures h in Step(c, s, r).store.exts
    ensures
      var up, x := Path(c, s.store.blocks, r.block.parent) + [r.block], if h == r.block.hash then r.block else s.store.blocks[h];
      var ext := Step(c, s, r).store.exts[h];
      if x in up && h !in s.store.numbers && !(h in s.store.exts && s.store.exts[h].verified == Some(true)) then
        && ext.verified == Some(true)
        && (r.needVerify ==> r.judge(x).Valid? && ext.txsFees == r.judge(x).txsFees)
        && (!r.needVerify ==> ext.txsFees == [])
      else h in s.store.exts && ext == s.store.exts[h]
  {
    var b := r.block;
    var x, st := if h == b.hash then b else s.store.blocks[h], Stored(c, s.store, b);
    assert Linked(c, s.store.blocks, h) && ExtOk(c, s.store, h);
    hide Attached, Path, TotalDifficulty, TotalUncles, EpochOf, TipOk, TipBest, EpochsOk, Step, Accepts, NewBest, Linked;
    AttachedAre(c, s, b, x);
    AcceptsExactly(c, s, r);
    StepColumns(c, s, r);
    if x in Path(c, s.store.blocks, b.parent) + [b] { UnverifiedOnPath(c, s.store, b, x); }
    if h in Unverified(st, Attached(c, s, b)) {
      var y :| y in Attached(c, s, b) && y.hash == h;
      AttachedAre(c, s, b, y);
      PathStored(c, s.store.blocks, b, y);
    }
  }

  lemma PathStored(c: Consensus, blocks: map<Hash, Block>, b: Block, x: Block)
    requires Tree(c, blocks) && Fresh(c, blocks, b) && x in Path(c, blocks, b.parent) + [b]
    ensures x == b || (x.hash in blocks && blocks[x.hash] == x)
  {
  }

  // ---------------------------------------------------------------- whole runs

  /** The requests can be made one after another, each on a stored parent. */
  ghost predicate CanRun(c: Consensus, s: State, rs: seq<Request>)
    requires Inv(c, s)
    decreases |rs|
  {
    rs == [] ||
    (Fresh(c, s.store.blocks, rs[0].block) &&
     (StepKeepsInv(c, s, rs[0]); CanRun(c, Step(c, s, rs[0]), rs[1..])))
  }

  ghost function Run(c: Consensus, s: State, rs: seq<Request>): (t: State)
    requires Inv(c, s) && CanRun(c, s, rs)
    ensures Inv(c, t)
    decreases |rs|
  {
    if rs == [] then s
    else StepKeepsInv(c, s, rs[0]); Run(c, Step(c, s, rs[0]), rs[1..])
  }

  /** The requests can be served one after the other from genesis on. */
  ghost predicate Served(c: Consensus, rs: seq<Request>)
    requires c.Valid()
  {
    GenesisInv(c);
    CanRun(c, Genesis(c), rs)
  }

  ghost function After(c: Consensus, rs: seq<Request>): (s: State)
    requires c.Valid() && Served(c, rs)
    ensures Inv(c, s)
  {
    GenesisInv(c);
    Run(c, Genesis(c), rs)
  }

  /**
   In every state a run reaches, the tip beats every other stored block, the number index is the
   parent path of the tip, every block on it is verified and the current epoch is the tip's.
   */
  lemma ReachableState(c: Consensus, rs: seq<Request>)
    requires c.Valid() && Served(c, rs)
    ensures var s := After(c, rs);
      && (forall h :: h in s.store.blocks && h != s.tip.hash ==> Better(c, s.store.blocks, s.tip.hash, h))
      && (forall n :: n in s.store.index <==> 0 <= n <= s.tip.number)
      && s.store.index[0] == c.genesis.hash
      && s.store.index[s.tip.number] == s.tip.hash
      && (forall n :: 0 < n <= s.tip.number ==>
            s.store.index[n] in s.store.blocks && s.store.blocks[s.store.index[n]].parent == s.store.index[n - 1])
      && (forall n :: 0 <= n <= s.tip.number ==> IsVerified(s.store, s.store.index[n]))
      && s.currentEpoch == EpochOf(c, s.store.blocks, s.tip.hash)
    ensures var s := After(c, rs);
      && s.tip.hash in s.store.exts && s.totalDifficulty == s.store.exts[s.tip.hash].totalDifficulty
      && forall h :: h in s.store.blocks && h != s.tip.hash ==>
           && h in s.store.exts
           && (|| s.store.exts[h].totalDifficulty < s.totalDifficulty
               || (s.store.exts[h].totalDifficulty == s.totalDifficulty && s.tip.hash < h))
  {
    var s := After(c, rs);
    TipPath(c, s);
    forall h | h in s.store.blocks ensures ExtOk(c, s.store, h) {}
  }

  /**
   In every state a run reaches, each stored block has an ext with the sums of its own path, none is
   marked invalid, and the parents of verified blocks are verified.
   */
  lemma ReachableExts(c: Consensus, rs: seq<Request>, h: Hash)
    requires c.Valid() && Served(c, rs) && h in After(c, rs).store.blocks
    ensures var s := After(c, rs).store;
      && h in s.exts
      && s.exts[h].totalDifficulty == TotalDifficulty(c, s.blocks, h)
      && s.exts[h].totalUnclesCount == TotalUncles(c, s.blocks, h)
      && s.exts[h].verified != Some(false)
      && (h != c.genesis.hash && IsVerified(s, h) ==> IsVerified(s, s.blocks[h].parent))
    ensures var s, b := After(c, rs).store, After(c, rs).store.blocks[h];
      if h == c.genesis.hash then
        b == c.genesis && s.exts[h].totalDifficulty == b.difficulty && s.exts[h].totalUnclesCount == 0
      else
        && b.parent in s.exts
        && s.exts[h].totalDifficulty == s.exts[b.parent].totalDifficulty + b.difficulty
        && s.exts[h].totalUnclesCount == s.exts[b.parent].totalUnclesCount + b.uncles
  {
    hide After;
    var s := After(c, rs).store;
    assert Linked(c, s.blocks, h);
    assert ExtOk(c, s, h) && ExtOk(c, s, s.blocks[h].parent);
  }

  /**
   In every state a run reaches, the epoch filed for a block is the one the epoch rule gives for its
   parent, or its parent's own; genesis has the genesis epoch, and the current epoch is the tip's.
   */
  lemma ReachableEpochs(c: Consensus, rs: seq<Request>, h: Hash)
    requires c.Valid() && Served(c, rs) && h in After(c, rs).store.blocks
    ensures var s := After(c, rs).store; h in s.blockEpochIndex && s.blockEpochIndex[h] in s.epochs
    ensures var s, b := After(c, rs).store, After(c, rs).store.blocks[h];
      var epoch := s.epochs[s.blockEpochIndex[h]];
      if h == c.genesis.hash then epoch == c.genesisEpoch
      else
        && b.parent in s.blocks && b.parent in s.blockEpochIndex && s.blockEpochIndex[b.parent] in s.epochs
        && var above := s.epochs[s.blockEpochIndex[b.parent]];
           var next := c.nextEpoch(above, s.blocks[b.parent]);
           epoch == if next.Some? then next.value else above
    ensures h == After(c, rs).tip.hash ==>
      var s := After(c, rs); s.currentEpoch == s.store.currentEpoch == s.store.epochs[s.store.blockEpochIndex[h]]
  {
    hide After;
    var s := After(c, rs).store;
    assert Linked(c, s.blocks, h);
    assert EpochOk(c, s, h) && EpochOk(c, s, s.blocks[h].parent);
  }

  /** The number index read backwards from the tip follows the parents, all verified. */
  lemma TipPath(c: Consensus, s: State)
    requires Tree(c, s.store.blocks) && ExtsOk(c, s.store) && TipOk(c, s)
    ensures forall n :: n in s.store.index <==> 0 <= n <= s.tip.number
    ensures s.store.index[0] == c.genesis.hash
    ensures s.store.index[s.tip.number] == s.tip.hash
    ensures forall n :: 0 <= n <= s.tip.number ==> IsVerified(s.store, s.store.index[n])
    ensures forall n :: 0 < n <= s.tip.number ==>
              s.store.index[n] in s.store.blocks && s.store.blocks[s.store.index[n]].parent == s.store.index[n - 1]
  {
    var main := MainChain(c, s);
    assert Linked(c, s.store.blocks, main[0].hash);
    forall n | 0 < n <= s.tip.number
      ensures s.store.index[n] in s.store.blocks && s.store.blocks[s.store.index[n]].parent == s.store.index[n - 1]
    {
      PathPrefix(c, s.store.blocks, s.tip.hash, n);
      assert s.store.index[n] == main[n].hash && s.store.index[n - 1] == main[n - 1].hash;
    }
    forall n | 0 <= n <= s.tip.number ensures IsVerified(s.store, s.store.index[n]) {
      PathVerified(c, s.store, s.tip.hash, n);
      assert s.store.index[n] == main[n].hash;
    }
  }

  /** The winner is determined by the stored blocks alone. */
  lemma SameBlocksSameChain(c: Consensus, s: State, t: State)
    requires Inv(c, s) && Inv(c, t) && s.store.blocks == t.store.blocks
    ensures s.tip == t.tip && s.totalDifficulty == t.totalDifficulty && s.currentEpoch == t.currentEpoch
    ensures s.store.index == t.store.index && s.store.numbers == t.store.numbers
  {
  }

  /** Two runs that end up storing the same blocks, in whatever order, agree on tip and main chain. */
  lemma OrderIndependence(c: Consensus, rs: seq<Request>, qs: seq<Request>)
    requires c.Valid() && Served(c, rs) && Served(c, qs)
    requires After(c, rs).store.blocks == After(c, qs).store.blocks
    ensures var s, t := After(c, rs), After(c, qs);
            s.tip == t.tip && s.totalDifficulty == t.totalDifficulty && s.currentEpoch == t.currentEpoch
            && s.store.index == t.store.index && s.store.numbers == t.store.numbers
  {
    SameBlocksSameChain(c, After(c, rs), After(c, qs));
  }

  /** A winning block that detaches nothing extends the old tip directly. */
  lemma NoDetachExtendsTip(c: Consensus, s: State, b: Block)
    requires Inv(c, s) && Fresh(c, s.store.blocks, b) && NewBest(c, s, b)
    ensures Tree(c, s.store.blocks[b.hash := b])
    ensures Common(MainChain(c, s), Path(c, s.store.blocks[b.hash := b], b.hash)) == |MainChain(c, s)|
       <==> b.parent == s.tip.hash
  {
    AddedInherits(c, s.store.blocks, b);
    var bs := s.store.blocks[b.hash := b];
    var main, fork := MainChain(c, s), Path(c, bs, b.hash);
    var up := Path(c, s.store.blocks, b.parent);
    var k := |main|;
    assert Linked(c, s.store.blocks, b.parent);
    assert b.parent != s.tip.hash ==> Better(c, s.store.blocks, s.tip.hash, b.parent);
    if b.parent == s.tip.hash {
      assert fork[..k] == main[..k];
      CommonIs(main, fork, k);
    } else if Common(main, fork) == k {
      PrefixAt(main, fork, k, k - 1);
      if k < |fork| {
        assert up[k - 1] == fork[k - 1] == s.tip;
        if k < |up| { DifficultyGrows(c, s.store.blocks, b.parent, k - 1); }
      }
    }
  }
}
