/**
 The chain service: finding a fork, reindexing, reconciling the main chain and inserting a block,
 with the loops, deques and batch of the source, proved against `ForkChoice`.
 */
module ChainService {
  import opened CkbTypes
  import opened BlockTree
  import opened ForkChoice
  import opened StoreBatch
  import opened CellReplay
  import CellSets
  import CellState

  datatype Error = BlockInvalid | InvalidParentBlock | UnresolvableTransaction | InvalidTransaction

  datatype Outcome = Ok | Err(error: Error)

  function ErrorOf(v: Verdict): Error {
    if v.Invalid? then InvalidTransaction else UnresolvableTransaction
  }

  function Reversed(bs: seq<Block>): (r: seq<Block>)
    ensures |r| == |bs|
    ensures forall i :: 0 <= i < |bs| ==> r[i] == bs[|bs| - 1 - i]
  {
    if bs == [] then [] else [bs[|bs| - 1]] + Reversed(bs[..|bs| - 1])
  }

  lemma ReversedNext(bs: seq<Block>, lo: nat, hi: nat)
    requires lo <= hi < |bs|
    ensures Reversed(bs[lo..hi + 1]) == [bs[hi]] + Reversed(bs[lo..hi])
    ensures Reversed(bs[lo..lo]) == []
  {
    var s := bs[lo..hi + 1];
    assert s[|s| - 1] == bs[hi] && s[..|s| - 1] == bs[lo..hi];
  }

  lemma {:induction false} ReversedHas(bs: seq<Block>, b: Block)
    ensures b in Reversed(bs) <==> b in bs
    decreases |bs|
  {
    if bs != [] {
      ReversedHas(bs[..|bs| - 1], b);
      assert bs == bs[..|bs| - 1] + [bs[|bs| - 1]];
    }
  }

  class ForkChanges {
    var attachedBlocks: seq<Block>
    var detachedBlocks: seq<Block>
    var dirtyExts: seq<BlockExt>

    constructor ()
      ensures attachedBlocks == [] && detachedBlocks == [] && dirtyExts == []
    {
      attachedBlocks, detachedBlocks, dirtyExts := [], [], [];
    }
  }

  class GlobalIndex {
    var number: nat
    var hash: Hash
    var unseen: bool

    constructor (number: nat, hash: Hash, unseen: bool)
      ensures this.number == number && this.hash == hash && this.unseen == unseen
    {
      this.number, this.hash, this.unseen := number, hash, unseen;
    }

    method Forward(hash: Hash)
      requires number > 0
      modifies this
      ensures number == old(number) - 1 && this.hash == hash && unseen == old(unseen)
    {
      number := number - 1;
      this.hash := hash;
    }
  }

  /** The ext of block `n` of a path whose last block is not stored yet and brings `tipExt`. */
  ghost function ExtAt(s: Store, path: seq<Block>, tipExt: BlockExt, n: nat): BlockExt
    requires n < |path|
    requires n < |path| - 1 ==> path[n].hash in s.exts
  {
    if n == |path| - 1 then tipExt else s.exts[path[n].hash]
  }

  ghost predicate Chained(path: seq<Block>, n: nat)
    requires 1 <= n < |path|
  {
    path[n].parent == path[n - 1].hash
  }

  /** All blocks of the path but the last are stored, as a parent path, with their exts. */
  ghost predicate StoredPath(s: Store, path: seq<Block>) {
    && |path| >= 2
    && (forall n :: 0 <= n < |path| ==> path[n].number == n)
    && (forall n :: 0 <= n < |path| - 1 ==>
          path[n].hash in s.blocks && s.blocks[path[n].hash] == path[n] && path[n].hash in s.exts)
    && (forall n :: 1 <= n < |path| ==> Chained(path, n))
  }

  /** The number index is that of `main`, and its blocks are stored. */
  ghost predicate StoredMain(s: Store, main: seq<Block>) {
    && |main| >= 1
    && s.index == NumberIndex(main)
    && (forall n :: 0 <= n < |main| ==>
          main[n].number == n && main[n].hash in s.blocks && s.blocks[main[n].hash] == main[n])
    && (forall n :: 1 <= n < |main| ==> Chained(main, n))
  }

  /** The exts of the blocks of the path from number `m` on. */
  ghost function ExtsFrom(s: Store, path: seq<Block>, tipExt: BlockExt, m: nat): (es: seq<BlockExt>)
    requires StoredPath(s, path) && m <= |path|
    ensures |es| == |path| - m
    decreases |path| - m
  {
    if m == |path| then [] else [ExtAt(s, path, tipExt, m)] + ExtsFrom(s, path, tipExt, m + 1)
  }

  lemma {:induction false} ExtsFromAt(s: Store, path: seq<Block>, tipExt: BlockExt, m: nat, i: nat)
    requires StoredPath(s, path) && m + i < |path|
    ensures ExtsFrom(s, path, tipExt, m)[i] == ExtAt(s, path, tipExt, m + i)
    decreases i
  {
    if i > 0 { ExtsFromAt(s, path, tipExt, m + 1, i - 1); }
  }

  /**
   After walking down to `n`, the blocks above are attached and the dirty exts are those of the
   topmost attached blocks; the walk stopped collecting them at the first verified block.
   */
  ghost predicate Walked(s: Store, path: seq<Block>, tipExt: BlockExt, n: nat,
                         attached: seq<Block>, dirty: seq<BlockExt>, unseen: bool)
    requires StoredPath(s, path)
  {
    && n < |path| - 1
    && attached == path[n + 1..]
    && 1 <= |dirty| <= |attached|
    && dirty == ExtsFrom(s, path, tipExt, |path| - |dirty|)
    && (forall e :: e in dirty ==> e.verified.None?)
    && (unseen ==> |dirty| == |attached|)
    && (!unseen ==> |dirty| < |attached| && ExtAt(s, path, tipExt, |path| - |dirty| - 1).verified.Some?)
  }

  /** One round of the walk: look at block `n`, collect its ext if nothing verified was seen yet. */
  lemma WalkStep(s: Store, path: seq<Block>, tipExt: BlockExt, n: nat,
                 attached: seq<Block>, dirty: seq<BlockExt>, unseen: bool)
    requires StoredPath(s, path) && n > 0
    requires Walked(s, path, tipExt, n, attached, dirty, unseen)
    ensures var ext := s.exts[path[n].hash];
      Walked(s, path, tipExt, n - 1, [path[n]] + attached,
             if unseen && ext.verified.None? then [ext] + dirty else dirty,
             unseen && ext.verified.None?)
  {
  }

  /** Where the detached deque turns from ascending to descending numbers. */
  ghost function Turn(main: seq<Block>, path: seq<Block>): nat
    requires |path| >= 1
  {
    if |path| <= |main| then |path| - 1 else |main|
  }

  /**
   What a finished fork search leaves. The attached blocks are the new path above the fork point
   in ascending order. The detached ones are the main chain above it: those numbered below the new
   tip in ascending order, then the rest in descending order.
   */
  ghost predicate ForkFound(s: Store, main: seq<Block>, path: seq<Block>, tipExt: BlockExt,
                            attached: seq<Block>, detached: seq<Block>, dirty: seq<BlockExt>)
    requires StoredPath(s, path)
  {
    var k, turn := Common(main, path), Turn(main, path);
    && 1 <= k <= turn <= |main|
    && k < |path|
    && Walked(s, path, tipExt, k - 1, attached, dirty, |dirty| == |attached|)
    && detached == main[k..turn] + Reversed(main[turn..])
  }

  /** `rest` with blocks `hi - 1` down to `lo` of `main` pushed to its front. */
  ghost function Pushed(main: seq<Block>, lo: nat, hi: nat, rest: seq<Block>): seq<Block>
    requires lo <= hi <= |main|
    decreases hi - lo
  {
    if lo == hi then rest else [main[lo]] + Pushed(main, lo + 1, hi, rest)
  }

  lemma {:induction false} PushedIs(main: seq<Block>, lo: nat, hi: nat, rest: seq<Block>)
    requires lo <= hi <= |main|
    ensures Pushed(main, lo, hi, rest) == main[lo..hi] + rest
    decreases hi - lo
  {
    if lo < hi {
      PushedIs(main, lo + 1, hi, rest);
      assert main[lo..hi] == [main[lo]] + main[lo + 1..hi];
    }
  }

  lemma WalkStart(s: Store, path: seq<Block>, tipExt: BlockExt)
    requires StoredPath(s, path) && tipExt.verified.None?
    ensures path[|path| - 1].parent == path[|path| - 2].hash
    ensures Walked(s, path, tipExt, |path| - 2, [path[|path| - 1]], [tipExt], true)
  {
    assert Chained(path, |path| - 1);
    assert ExtsFrom(s, path, tipExt, |path|) == [];
  }

  lemma WalkDone(s: Store, main: seq<Block>, path: seq<Block>, tipExt: BlockExt, k: nat, top: nat,
                 attached: seq<Block>, detached: seq<Block>, dirty: seq<BlockExt>, unseen: bool)
    requires StoredMain(s, main) && StoredPath(s, path) && path[|path| - 1] !in main
    requires 1 <= k <= top + 1 == Turn(main, path)
    requires main[k - 1] == path[k - 1]
    requires forall n :: k <= n <= top ==> main[n] != path[n]
    requires Walked(s, path, tipExt, k - 1, attached, dirty, unseen)
    requires detached == Pushed(main, k, top + 1, if |path| <= |main| then Reversed(main[|path| - 1..]) else [])
    ensures ForkFound(s, main, path, tipExt, attached, detached, dirty) && |dirty| <= |attached|
  {
    ForkPointFound(s, main, path, k, top);
    PushedIs(main, k, top + 1, if |path| <= |main| then Reversed(main[|path| - 1..]) else []);
  }

  class Chain {
    const consensus: Consensus
    var store: Store
    var tip: Block
    var totalDifficulty: nat
    var currentEpoch: EpochExt

    ghost function Snapshot(): State
      reads this
    {
      State(store, tip, totalDifficulty, currentEpoch)
    }

    constructor (c: Consensus)
      requires c.Valid()
      ensures consensus == c && Snapshot() == Genesis(c) && Inv(c, Snapshot())
    {
      consensus := c;
      var g := c.genesis;
      var key := c.genesisEpoch.lastBlockHashInPreviousEpoch;
      store := Store(
        map[g.hash := g],
        map[g.hash := BlockExt(g.difficulty, 0, Some(true), [])],
        map[0 := g.hash],
        map[g.hash := 0],
        g.hash,
        c.genesisEpoch,
        map[g.hash := key],
        map[key := c.genesisEpoch]);
      tip, totalDifficulty, currentEpoch := g, g.difficulty, c.genesisEpoch;
      new;
      GenesisInv(c);
    }

    /** The part of both fork-search loops that moves one block from the walk to the attached deque. */
    method AttachNext(fork: ForkChanges, index: GlobalIndex, ghost path: seq<Block>, ghost tipExt: BlockExt)
      requires StoredPath(store, path) && 0 < index.number < |path| - 1
      requires index.hash == path[index.number].hash
      requires Walked(store, path, tipExt, index.number, fork.attachedBlocks, fork.dirtyExts, index.unseen)
      modifies fork, index
      ensures index.number == old(index.number) - 1 && index.hash == path[index.number].hash
      ensures Walked(store, path, tipExt, index.number, fork.attachedBlocks, fork.dirtyExts, index.unseen)
      ensures fork.detachedBlocks == old(fork.detachedBlocks)
    {
      ghost var n, attached, dirty, unseen := index.number, fork.attachedBlocks, fork.dirtyExts, index.unseen;
      WalkStep(store, path, tipExt, n, attached, dirty, unseen);
      if index.unseen {
        var ext := store.exts[index.hash];
        if ext.verified.None? {
          fork.dirtyExts := [ext] + fork.dirtyExts;
        } else {
          index.unseen := false;
        }
      }
      var newBlock := store.blocks[index.hash];
      assert Chained(path, n);
      index.Forward(newBlock.parent);
      fork.attachedBlocks := [newBlock] + fork.attachedBlocks;
      assert fork.attachedBlocks == [path[n]] + attached;
      assert index.unseen == (unseen && store.exts[path[n].hash].verified.None?);
      assert fork.dirtyExts == if index.unseen then [store.exts[path[n].hash]] + dirty else dirty;
    }

    method AlignmentFork(fork: ForkChanges, index: GlobalIndex, newTipNumber: nat, currentTipNumber: nat,
                         ghost main: seq<Block>, ghost path: seq<Block>, ghost tipExt: BlockExt)
      requires StoredMain(store, main) && |main| == currentTipNumber + 1
      requires StoredPath(store, path) && |path| == newTipNumber + 1
      requires index.number == newTipNumber - 1 && index.hash == path[newTipNumber - 1].hash
      requires Walked(store, path, tipExt, index.number, fork.attachedBlocks, fork.dirtyExts, index.unseen)
      requires fork.detachedBlocks == []
      modifies fork, index
      ensures index.number == (if newTipNumber <= currentTipNumber then newTipNumber - 1 else currentTipNumber)
      ensures index.hash == path[index.number].hash
      ensures Walked(store, path, tipExt, index.number, fork.attachedBlocks, fork.dirtyExts, index.unseen)
      ensures fork.detachedBlocks
           == if newTipNumber <= currentTipNumber then Reversed(main[newTipNumber..]) else []
    {
      hide Walked, ExtsFrom, Reversed;
      if newTipNumber <= currentTipNumber {
        var bn := newTipNumber;
        ReversedNext(main, newTipNumber, bn);
        while bn <= currentTipNumber
          invariant newTipNumber <= bn <= currentTipNumber + 1
          invariant fork.detachedBlocks == Reversed(main[newTipNumber..bn])
          invariant index.number == newTipNumber - 1 && index.hash == path[index.number].hash
          invariant Walked(store, path, tipExt, index.number, fork.attachedBlocks, fork.dirtyExts, index.unseen)
        {
          var hash := store.index[bn];
          var oldBlock := store.blocks[hash];
          ReversedNext(main, newTipNumber, bn);
          fork.detachedBlocks := [oldBlock] + fork.detachedBlocks;
          bn := bn + 1;
        }
        assert bn == |main|;
        assert main[newTipNumber..bn] == main[newTipNumber..];
      } else {
        while index.number > currentTipNumber
          invariant currentTipNumber <= index.number < newTipNumber
          invariant index.hash == path[index.number].hash
          invariant Walked(store, path, tipExt, index.number, fork.attachedBlocks, fork.dirtyExts, index.unseen)
          invariant fork.detachedBlocks == []
          decreases index.number
        {
          AttachNext(fork, index, path, tipExt);
        }
      }
    }

    method FindForkUntilLatestCommon(fork: ForkChanges, index: GlobalIndex,
                                     ghost main: seq<Block>, ghost path: seq<Block>, ghost tipExt: BlockExt)
      requires StoredMain(store, main) && StoredPath(store, path) && main[0] == path[0]
      requires index.number < |main| && index.number < |path| - 1
      requires index.hash == path[index.number].hash
      requires Walked(store, path, tipExt, index.number, fork.attachedBlocks, fork.dirtyExts, index.unseen)
      modifies fork, index
      ensures index.number <= old(index.number)
      ensures main[index.number] == path[index.number]
      ensures forall n :: index.number < n <= old(index.number) ==> main[n] != path[n]
      ensures Walked(store, path, tipExt, index.number, fork.attachedBlocks, fork.dirtyExts, index.unseen)
      ensures fork.detachedBlocks == Pushed(main, index.number + 1, old(index.number) + 1, old(fork.detachedBlocks))
    {
      hide Walked, ExtsFrom;
      ghost var top := index.number;
      ghost var aligned := fork.detachedBlocks;
      while true
        invariant index.number <= top
        invariant index.hash == path[index.number].hash
        invariant Walked(store, path, tipExt, index.number, fork.attachedBlocks, fork.dirtyExts, index.unseen)
        invariant fork.detachedBlocks == Pushed(main, index.number + 1, top + 1, aligned)
        invariant forall n :: index.number < n <= top ==> main[n] != path[n]
        decreases index.number
      {
        if index.number == 0 {
          break;
        }
        var detachedHash := store.index[index.number];
        if detachedHash == index.hash {
          break;
        }
        var detachedBlock := store.blocks[detachedHash];
        fork.detachedBlocks := [detachedBlock] + fork.detachedBlocks;
        AttachNext(fork, index, path, tipExt);
      }
    }

    method FindFork(fork: ForkChanges, currentTipNumber: nat, newTipBlock: Block, newTipExt: BlockExt,
                    ghost main: seq<Block>, ghost path: seq<Block>)
      requires StoredMain(store, main) && |main| == currentTipNumber + 1
      requires StoredPath(store, path) && path[|path| - 1] == newTipBlock
      requires main[0] == path[0] && newTipBlock !in main
      requires newTipExt.verified.None?
      requires fork.attachedBlocks == [] && fork.detachedBlocks == [] && fork.dirtyExts == []
      modifies fork
      ensures ForkFound(store, main, path, newTipExt, fork.attachedBlocks, fork.detachedBlocks, fork.dirtyExts)
      ensures |fork.dirtyExts| <= |fork.attachedBlocks|
    {
      hide Walked, ForkFound, ExtsFrom, Pushed, Reversed, NumberIndex;
      var newTipNumber := newTipBlock.number;
      fork.dirtyExts := [newTipExt] + fork.dirtyExts;
      fork.attachedBlocks := [newTipBlock] + fork.attachedBlocks;
      assert fork.dirtyExts == [newTipExt] && fork.attachedBlocks == [path[|path| - 1]];
      WalkStart(store, path, newTipExt);
      var index := new GlobalIndex(newTipNumber - 1, newTipBlock.parent, true);
      AlignmentFork(fork, index, newTipNumber, currentTipNumber, main, path, newTipExt);
      ghost var top := index.number;
      FindForkUntilLatestCommon(fork, index, main, path, newTipExt);
      WalkDone(store, main, path, newTipExt, index.number + 1, top,
               fork.attachedBlocks, fork.detachedBlocks, fork.dirtyExts, index.unseen);
    }

    method UpdateIndex(batch: seq<Write>, fork: ForkChanges) returns (r: seq<Write>)
      ensures r == batch + Detaches(fork.detachedBlocks) + Attaches(fork.attachedBlocks)
    {
      r := batch;
      for i := 0 to |fork.detachedBlocks|
        invariant r == batch + Detaches(fork.detachedBlocks)[..i]
      {
        r := r + [DetachBlock(fork.detachedBlocks[i])];
      }
      for i := 0 to |fork.attachedBlocks|
        invariant r == batch + Detaches(fork.detachedBlocks) + Attaches(fork.attachedBlocks)[..i]
      {
        r := r + [AttachBlock(fork.attachedBlocks[i])];
      }
    }

    /** The diff of the detached blocks and of the attached ones already verified. */
    method BuildVerifyContext(fork: ForkChanges) returns (diff: CellState.CellSetDiff)
      requires |fork.dirtyExts| <= |fork.attachedBlocks|
      ensures fresh(diff)
      ensures diff.Value() == DiffOf(Entries(fork.detachedBlocks),
                                     Entries(fork.attachedBlocks[..|fork.attachedBlocks| - |fork.dirtyExts|]))
    {
      hide DiffOf, Entries, BlockEntries;
      EntriesNone();
      diff := new CellState.CellSetDiff();
      var bs := fork.detachedBlocks;
      for i := 0 to |bs|
        invariant fresh(diff) && diff.Value() == DiffOf(Entries(bs[..i]), [])
      {
        EntriesNext(bs, i);
        diff.PushOld(bs[i], Entries(bs[..i]), []);
      }
      assert bs[..|bs|] == bs;
      ghost var detached := Entries(bs);
      var verified := fork.attachedBlocks[..|fork.attachedBlocks| - |fork.dirtyExts|];
      for i := 0 to |verified|
        invariant fresh(diff) && diff.Value() == DiffOf(detached, Entries(verified[..i]))
      {
        EntriesNext(verified, i);
        diff.PushNew(verified[i], detached, Entries(verified[..i]));
      }
      assert verified[..|verified|] == verified;
    }

    /** One round of the verification loop: judge the block unless an earlier one failed. */
    method VerifyOne(r: Request, b: Block, foundError: Option<Error>, before: VerifyResult)
      returns (result: VerifyResult, err: Option<Error>)
      ensures result.hash == before.hash
      ensures err.None? <==> foundError.None? && (r.needVerify ==> r.judge(b).Valid?)
      ensures err.None? ==> result.verified == Some(true) && result.txsFees == before.txsFees + Fees(r, b)
      ensures err.Some? ==> err == if foundError.Some? then foundError else Some(ErrorOf(r.judge(b)))
    {
      result, err := before, foundError;
      if r.needVerify {
        if err.None? {
          match r.judge(b)
          case OutOfOrder =>
            err := Some(UnresolvableTransaction);
          case Unresolvable =>
            err := Some(UnresolvableTransaction);
            result := result.(verified := Some(false));
          case Invalid =>
            err := Some(InvalidTransaction);
            result := result.(verified := Some(false));
          case Valid(txsFees) =>
            result := result.(verified := Some(true), txsFees := result.txsFees + txsFees);
        } else {
          result := result.(verified := Some(false));
        }
      } else {
        result := result.(verified := Some(true));
      }
    }

    /** The verification loop: the blocks still to be verified are judged in order until one fails. */
    method VerifyAttached(attached: seq<Block>, dirty: seq<BlockExt>, r: Request, diff: CellState.CellSetDiff,
                          ghost detached: seq<CellSets.Entry>)
      returns (results: seq<VerifyResult>, err: Option<Error>)
      requires |dirty| <= |attached|
      requires diff.Value() == DiffOf(detached, Entries(attached[..|attached| - |dirty|]))
      modifies diff
      ensures |results| == |dirty|
      ensures forall j :: 0 <= j < |results| ==> results[j].hash == Todo(attached, dirty)[j].hash
      ensures err.None? <==> AllPass(r, Todo(attached, dirty))
      ensures err.None? ==> forall j :: 0 <= j < |results| ==>
                results[j].verified == Some(true) && results[j].txsFees == Fees(r, Todo(attached, dirty)[j])
      ensures err.None? ==> diff.Value() == DiffOf(detached, Entries(attached))
      ensures err.Some? ==> err.value == ErrorOf(FirstFailure(r, Todo(attached, dirty)))
    {
      hide DiffOf, Entries, BlockEntries, AllPass, FirstFailure, Fees, ErrorOf;
      var verifiedLen := |attached| - |dirty|;
      var todo := attached[verifiedLen..];
      results := seq(|dirty|, i requires 0 <= i < |dirty| => VerifyResult(todo[i].hash, dirty[i].verified, []));
      err := None;
      PassNone(r, todo);
      for i := 0 to |results|
        invariant |results| == |dirty|
        invariant forall j :: 0 <= j < |results| ==> results[j].hash == todo[j].hash
        invariant err.None? <==> AllPass(r, todo[..i])
        invariant err.None? ==> forall j :: 0 <= j < i ==>
                    results[j].verified == Some(true) && results[j].txsFees == Fees(r, todo[j])
        invariant err.None? ==> forall j :: i <= j < |results| ==> results[j].txsFees == []
        invariant err.None? ==> diff.Value() == DiffOf(detached, Entries(attached[..verifiedLen + i]))
        invariant err.Some? ==> err.value == ErrorOf(FirstFailure(r, todo[..i]))
      {
        var b := todo[i];
        PassNext(r, todo, i);
        EntriesNext(attached, verifiedLen + i);
        var result;
        result, err := VerifyOne(r, b, err, results[i]);
        results := results[i := result];
        if err.None? {
          diff.PushNew(b, detached, Entries(attached[..verifiedLen + i]));
        }
      }
      assert todo[..|results|] == todo && attached[..verifiedLen + |results|] == attached;
    }

    /**
     The exts written are those of the unverified blocks, all marked valid, when each of them
     passes; otherwise the error is that of the first block that does not.
     */
    method ReconcileMainChain(batch: seq<Write>, fork: ForkChanges, r: Request)
      returns (writes: seq<Write>, err: Option<Error>, diff: CellSets.Diff)
      requires |fork.dirtyExts| <= |fork.attachedBlocks|
      modifies fork`dirtyExts
      ensures |fork.dirtyExts| == |old(fork.dirtyExts)|
      ensures err.None? <==> AllPass(r, Todo(fork.attachedBlocks, fork.dirtyExts))
      ensures err.None? ==> fork.dirtyExts == MarkedExts(r, Todo(fork.attachedBlocks, fork.dirtyExts), old(fork.dirtyExts))
      ensures err.None? ==> writes == batch + ExtWrites(Todo(fork.attachedBlocks, fork.dirtyExts), fork.dirtyExts)
      ensures err.None? ==> diff == DiffOf(Entries(fork.detachedBlocks), Entries(fork.attachedBlocks))
      ensures err.Some? ==> err.value == ErrorOf(FirstFailure(r, Todo(fork.attachedBlocks, fork.dirtyExts)))
    {
      hide DiffOf, Entries, AllPass, FirstFailure, Fees;
      var todo, dirty := Todo(fork.attachedBlocks, fork.dirtyExts), fork.dirtyExts;
      var context := BuildVerifyContext(fork);
      var results;
      results, err := VerifyAttached(fork.attachedBlocks, dirty, r, context, Entries(fork.detachedBlocks));
      diff := context.Value();
      writes := batch;
      for i := 0 to |results|
        invariant |fork.dirtyExts| == |dirty|
        invariant forall j :: 0 <= j < i ==>
                    fork.dirtyExts[j] == dirty[j].(verified := results[j].verified, txsFees := results[j].txsFees)
        invariant forall j :: i <= j < |dirty| ==> fork.dirtyExts[j] == dirty[j]
        invariant writes == batch + ExtWrites(todo[..i], fork.dirtyExts[..i])
      {
        var ext := fork.dirtyExts[i].(verified := results[i].verified, txsFees := results[i].txsFees);
        ghost var before := fork.dirtyExts;
        fork.dirtyExts := fork.dirtyExts[i := ext];
        assert fork.dirtyExts[..i] == before[..i];
        assert ExtWrites(todo[..i + 1], fork.dirtyExts[..i + 1])
            == ExtWrites(todo[..i], fork.dirtyExts[..i]) + [InsertBlockExt(todo[i].hash, ext)];
        writes := writes + [InsertBlockExt(results[i].hash, ext)];
      }
      assert todo[..|results|] == todo && fork.dirtyExts[..|results|] == fork.dirtyExts;
    }

    /** The branch of `insert_block` taken by a new best block: search, reindex, verify, commit. */
    method Reorganise(r: Request, ext: BlockExt, epoch: EpochExt, newEpoch: bool, cannonTotalDifficulty: nat,
                      base: seq<Write>, ghost main: seq<Block>, ghost path: seq<Block>)
      returns (outcome: Outcome, diff: Option<CellSets.Diff>,
               ghost attached: seq<Block>, ghost detached: seq<Block>, ghost dirty: seq<BlockExt>)
      requires StoredMain(store, main) && |main| == tip.number + 1
      requires StoredPath(store, path) && path[|path| - 1] == r.block
      requires main[0] == path[0] && r.block !in main && ext.verified.None?
      requires base == BaseWrites(r.block, epoch)
      modifies this
      ensures ForkFound(old(store), main, path, ext, attached, detached, dirty)
      ensures |dirty| <= |attached|
      ensures outcome.Ok? <==> AllPass(r, Todo(attached, dirty))
      ensures outcome.Ok? ==> Snapshot() == Reorganised(old(Snapshot()), r, attached, detached, dirty, epoch,
                                                         newEpoch || detached != [], cannonTotalDifficulty)
      ensures diff == if outcome.Ok? then Some(DiffOf(Entries(detached), Entries(attached))) else None
      ensures outcome.Err? ==> Snapshot() == old(Snapshot())
                               && outcome.error == ErrorOf(FirstFailure(r, Todo(attached, dirty)))
    {
      hide Walked, StoredMain, StoredPath, ForkFound, BaseWrites, Detaches, Attaches, ExtWrites;
      hide MarkedExts, Commit, AllPass, DiffOf, Entries;
      var fork := new ForkChanges();
      FindFork(fork, tip.number, r.block, ext, main, path);
      attached, detached, dirty := fork.attachedBlocks, fork.detachedBlocks, fork.dirtyExts;
      var batch := UpdateIndex(base, fork);
      var err: Option<Error>;
      var cellSetDiff;
      batch, err, cellSetDiff := ReconcileMainChain(batch, fork, r);
      if err.Some? {
        outcome, diff := Err(err.value), None;
        return;
      }
      batch := batch + [InsertTipHeader(r.block.hash)];
      if newEpoch || fork.detachedBlocks != [] {
        batch := batch + [InsertCurrentEpochExt(epoch)];
      } else {
        assert batch == batch + [];
      }
      store := Commit(store, batch);
      if newEpoch || fork.detachedBlocks != [] {
        currentEpoch := epoch;
      }
      tip, totalDifficulty := r.block, cannonTotalDifficulty;
      outcome, diff := Ok, Some(cellSetDiff);
    }

    /**
     One `process_block`: the state moves by `ForkChoice.Step`, and only acceptance is reported as
     success. A rejected block, also one rejected in the middle of a reorg, leaves no trace.
     */
    method InsertBlock(r: Request) returns (outcome: Outcome, diff: Option<CellSets.Diff>)
      requires Inv(consensus, Snapshot()) && Fresh(consensus, store.blocks, r.block)
      modifies this
      ensures Snapshot() == Step(consensus, old(Snapshot()), r)
      ensures Inv(consensus, Snapshot())
      ensures outcome.Ok? <==> Accepts(consensus, old(Snapshot()), r)
      ensures outcome != Err(InvalidParentBlock)
      ensures outcome.Err? ==> Snapshot() == old(Snapshot())
      // Stateless verification comes first.
      ensures r.needVerify && !r.blockValid ==> outcome == Err(BlockInvalid)
      // After it, only a block that wins is judged, with the blocks of its path that are neither indexed nor verified.
      ensures r.block.parent in old(store.exts)
      ensures !(r.needVerify && !r.blockValid) ==>
        var td := old(store.exts)[r.block.parent].totalDifficulty + r.block.difficulty;
        var wins := td > old(totalDifficulty) || (td == old(totalDifficulty) && r.block.hash < old(tip).hash);
        (outcome.Ok? <==>
          (r.needVerify && wins ==>
            forall x ::
              && x in Path(consensus, old(store.blocks), r.block.parent) + [r.block]
              && x.hash !in old(store.numbers)
              && !(x.hash in old(store.exts) && old(store.exts)[x.hash].verified == Some(true)) ==>
                r.judge(x).Valid?))
      ensures outcome.Ok? ==>
        var td := old(store.exts)[r.block.parent].totalDifficulty + r.block.difficulty;
        var wins := td > old(totalDifficulty) || (td == old(totalDifficulty) && r.block.hash < old(tip).hash);
        && store.blocks == old(store.blocks)[r.block.hash := r.block]
        && tip == (if wins then r.block else old(tip))
        && totalDifficulty == (if wins then td else old(totalDifficulty))
      // The error is that of the first such block that is not valid.
      ensures outcome.Err? && outcome.error != BlockInvalid ==>
        var path := Path(consensus, old(store.blocks), r.block.parent) + [r.block];
        exists n ::
          && 0 <= n < |path|
          && path[n].hash !in old(store.numbers)
          && !(path[n].hash in old(store.exts) && old(store.exts)[path[n].hash].verified == Some(true))
          && !r.judge(path[n]).Valid?
          && outcome.error == (if r.judge(path[n]).Invalid? then InvalidTransaction else UnresolvableTransaction)
          && forall m ::
               && 0 <= m < n
               && path[m].hash !in old(store.numbers)
               && !(path[m].hash in old(store.exts) && old(store.exts)[path[m].hash].verified == Some(true)) ==>
                 r.judge(path[m]).Valid?
      ensures diff.Some? <==> outcome.Ok? && NewBest(consensus, old(Snapshot()), r.block)
      ensures diff.Some? ==> exists detached ::
                && SameBlocks(detached, Detached(consensus, old(Snapshot()), r.block))
                && diff.value == DiffOf(Entries(detached), Entries(Attached(consensus, old(Snapshot()), r.block)))
    {
      hide Inv, Fresh, Step, Accepts, NewBest, SameBlocks, Detached, Attached, DiffOf, Entries, Path;
      ghost var s := Snapshot();
      AcceptsExactly(consensus, s, r);
      if r.needVerify && !r.blockValid {
        Refused(consensus, s, r);
        return Err(BlockInvalid), None;
      }
      outcome, diff := InsertVerified(r);
      if outcome.Ok? { StepMoves(consensus, s, r); } else { Refused(consensus, s, r); }
    }

    /** The rest of `insert_block`, once stateless verification has passed or was not asked for. */
    method InsertVerified(r: Request) returns (outcome: Outcome, diff: Option<CellSets.Diff>)
      requires Inv(consensus, Snapshot()) && Fresh(consensus, store.blocks, r.block)
      requires r.needVerify ==> r.blockValid
      modifies this
      ensures Snapshot() == Step(consensus, old(Snapshot()), r) && Inv(consensus, Snapshot())
      ensures outcome.Ok? <==> Accepts(consensus, old(Snapshot()), r)
      ensures outcome.Err? ==>
        IsFirstError(old(store), Path(consensus, old(store.blocks), r.block.parent) + [r.block], r, outcome.error)
      ensures diff.Some? <==> outcome.Ok? && NewBest(consensus, old(Snapshot()), r.block)
      ensures diff.Some? ==> exists detached ::
                && SameBlocks(detached, Detached(consensus, old(Snapshot()), r.block))
                && diff.value == DiffOf(Entries(detached), Entries(Attached(consensus, old(Snapshot()), r.block)))
    {
      diff := None;
      hide Tree, ExtsOk, EpochsOk, TipOk, TipBest, Path, EpochOf, TotalDifficulty, TotalUncles;
      hide SameBlocks, Detached, DiffOf, Entries, PathLike, StoredMain, StoredPath, Adds, LeadsTo;
      hide ForkFound, Commit, Reorganised, Passes, AllPass, Attached, Switched, IsFirstError;
      ghost var s := Snapshot();
      StepKeepsInv(consensus, s, r);
      var block := r.block;
      ParentFacts(consensus, s, block);
      var parentExt := store.exts[block.parent];
      var parent := store.blocks[block.parent];
      var cannonTotalDifficulty := parentExt.totalDifficulty + block.difficulty;
      if parentExt.verified == Some(false) {
        return Err(InvalidParentBlock), None;
      }
      var batch := [Write.InsertBlock(block)];
      var parentEpoch := store.epochs[store.blockEpochIndex[block.parent]];
      var nextEpoch := consensus.nextEpoch(parentEpoch, parent);
      var newEpoch := nextEpoch.Some?;
      var epoch := if nextEpoch.Some? then nextEpoch.value else parentEpoch;
      var ext := BlockExt(cannonTotalDifficulty, parentExt.totalUnclesCount + block.uncles, None, []);
      batch := batch + [InsertBlockEpochIndex(block.hash, epoch.lastBlockHashInPreviousEpoch)];
      batch := batch + [InsertEpochExt(epoch.lastBlockHashInPreviousEpoch, epoch)];
      assert batch == BaseWrites(block, epoch);
      if cannonTotalDifficulty > totalDifficulty
         || (totalDifficulty == cannonTotalDifficulty && block.hash < tip.hash)
      {
        ghost var path := ReadyToSearch(consensus, s, r, ext);
        ghost var attached, detached, dirty;
        outcome, diff, attached, detached, dirty :=
          Reorganise(r, ext, epoch, newEpoch, cannonTotalDifficulty, batch, MainChain(consensus, s), path);
        if !newEpoch && detached == [] { ReorgEpoch(consensus, s, block, path, ext, attached, dirty); }
        ReorgIsSwitch(consensus, s, Stored(consensus, s.store, block), r, path, ext, attached, detached, dirty, epoch,
                      newEpoch || detached != [], cannonTotalDifficulty);
        if outcome.Err? { ErrorIsFirst(consensus, s, r, path, ext, attached, detached, dirty); }
      } else {
        batch := batch + [InsertBlockExt(block.hash, ext)];
        SideIsStored(consensus, s.store, block);
        store := Commit(store, batch);
        outcome := Ok;
      }
    }
  }

  datatype VerifyResult = VerifyResult(hash: Hash, verified: Option<bool>, txsFees: seq<nat>)

  /** The attached blocks whose exts are dirty: the topmost ones. */
  function Todo(attached: seq<Block>, dirty: seq<BlockExt>): seq<Block>
    requires |dirty| <= |attached|
  {
    attached[|attached| - |dirty|..]
  }

  predicate AllPass(r: Request, todo: seq<Block>) {
    r.needVerify ==> forall i :: 0 <= i < |todo| ==> r.judge(todo[i]).Valid?
  }

  /** The verdict on the first block that does not pass. */
  function FirstFailure(r: Request, todo: seq<Block>): (v: Verdict)
    requires !AllPass(r, todo)
    ensures !v.Valid?
  {
    if !AllPass(r, todo[..|todo| - 1]) then FirstFailure(r, todo[..|todo| - 1])
    else r.judge(todo[|todo| - 1])
  }

  lemma EntriesNext(bs: seq<Block>, n: nat)
    requires n < |bs|
    ensures Entries(bs[..n + 1]) == Entries(bs[..n]) + BlockEntries(bs[n])
  {
    assert bs[..n + 1][..n] == bs[..n];
  }

  lemma EntriesNone()
    ensures Entries([]) == []
  {
  }

  lemma PassNone(r: Request, todo: seq<Block>)
    ensures AllPass(r, todo[..0])
  {
  }

  lemma PassNext(r: Request, todo: seq<Block>, i: nat)
    requires i < |todo|
    ensures AllPass(r, todo[..i + 1]) <==> AllPass(r, todo[..i]) && (r.needVerify ==> r.judge(todo[i]).Valid?)
    ensures !r.needVerify ==> AllPass(r, todo[..i])
    ensures !AllPass(r, todo[..i]) ==> FirstFailure(r, todo[..i + 1]) == FirstFailure(r, todo[..i])
    ensures AllPass(r, todo[..i]) && !AllPass(r, todo[..i + 1]) ==> FirstFailure(r, todo[..i + 1]) == r.judge(todo[i])
  {
    assert todo[..i + 1][..i] == todo[..i];
  }

  function MarkedExts(r: Request, todo: seq<Block>, dirty: seq<BlockExt>): (es: seq<BlockExt>)
    requires |todo| == |dirty|
    ensures |es| == |dirty|
  {
    seq(|dirty|, i requires 0 <= i < |dirty| => dirty[i].(verified := Some(true), txsFees := Fees(r, todo[i])))
  }

  /** What the store holds for the parent of a block being inserted. */
  lemma ParentFacts(c: Consensus, s: State, b: Block)
    requires Inv(c, s) && Fresh(c, s.store.blocks, b)
    ensures b.parent in s.store.exts
    ensures s.store.exts[b.parent].totalDifficulty == TotalDifficulty(c, s.store.blocks, b.parent)
    ensures s.store.exts[b.parent].totalUnclesCount == TotalUncles(c, s.store.blocks, b.parent)
    ensures s.store.exts[b.parent].verified != Some(false)
    ensures b.parent in s.store.blockEpochIndex && s.store.blockEpochIndex[b.parent] in s.store.epochs
    ensures s.store.epochs[s.store.blockEpochIndex[b.parent]] == EpochOf(c, s.store.blocks, b.parent)
  {
    assert ExtOk(c, s.store, b.parent) && EpochOk(c, s.store, b.parent);
  }

  lemma {:induction false} PathChained(c: Consensus, blocks: map<Hash, Block>, h: Hash, n: nat)
    requires Tree(c, blocks) && h in blocks && 1 <= n <= blocks[h].number
    ensures Chained(Path(c, blocks, h), n)
  {
    PathPrefix(c, blocks, h, n);
  }

  lemma MainFacts(c: Consensus, s: State)
    requires Inv(c, s)
    ensures StoredMain(s.store, MainChain(c, s)) && PathLike(MainChain(c, s))
    ensures MainChain(c, s)[0] == c.genesis
  {
    var main := MainChain(c, s);
    PathIsPathLike(c, s.store.blocks, s.tip.hash);
    assert Linked(c, s.store.blocks, main[0].hash);
    forall n | 1 <= n < |main| ensures Chained(main, n) { PathChained(c, s.store.blocks, s.tip.hash, n); }
  }

  /** `path` leads from genesis to `b`, whose parent is stored. */
  ghost predicate LeadsTo(c: Consensus, s: Store, b: Block, path: seq<Block>) {
    && Tree(c, s.blocks)
    && b.parent in s.blocks
    && |path| >= 2
    && path[|path| - 1] == b
    && path[..|path| - 1] == Path(c, s.blocks, b.parent)
  }

  /** The new path meets what the fork search relies on. */
  lemma PathFacts(c: Consensus, s: State, b: Block) returns (path: seq<Block>)
    requires Inv(c, s) && Fresh(c, s.store.blocks, b)
    ensures LeadsTo(c, s.store, b, path)
    ensures Adds(s.store, Stored(c, s.store, b), path, Stored(c, s.store, b).exts[b.hash])
    ensures path[0] == c.genesis
    ensures b !in MainChain(c, s)
  {
    hide Path, TotalDifficulty, TotalUncles, EpochOf, TipBest, EpochsOk;
    var up := Path(c, s.store.blocks, b.parent);
    path := up + [b];
    AddedInherits(c, s.store.blocks, b);
    PathIsPathLike(c, s.store.blocks[b.hash := b], b.hash);
    assert Linked(c, s.store.blocks, b.parent) && Linked(c, s.store.blocks, path[0].hash);
    forall n | 0 <= n < |path| - 1 ensures path[n].hash in s.store.exts {
      assert path[n] == up[n];
    }
    forall n | 1 <= n < |path| ensures Chained(path, n) {
      if n < |up| {
        PathChained(c, s.store.blocks, b.parent, n);
        assert path[n] == up[n] && path[n - 1] == up[n - 1];
      }
    }
  }

  // ---------------------------------------------------------------- what a reorg writes

  lemma DetachedHas(main: seq<Block>, k: nat, turn: nat)
    requires k <= turn <= |main|
    ensures var detached := main[k..turn] + Reversed(main[turn..]);
            |detached| == |main| - k && forall x :: x in detached <==> x in main[k..]
  {
    assert main[k..] == main[k..turn] + main[turn..];
    forall x ensures x in main[k..turn] + Reversed(main[turn..]) <==> x in main[k..] {
      ReversedHas(main[turn..], x);
    }
  }

  /** Attached is `ForkChoice.Attached`; detached holds exactly the main-chain blocks above the fork point. */
  lemma SearchedSplits(c: Consensus, s: State, b: Block, path: seq<Block>, ext: BlockExt,
                       attached: seq<Block>, detached: seq<Block>, dirty: seq<BlockExt>)
    requires Tree(c, s.store.blocks) && Fresh(c, s.store.blocks, b) && s.tip.hash in s.store.blocks
    requires LeadsTo(c, s.store, b, path) && StoredPath(s.store, path)
    requires ForkFound(s.store, MainChain(c, s), path, ext, attached, detached, dirty)
    ensures attached == Attached(c, s, b)
    ensures Tree(c, s.store.blocks[b.hash := b])
    ensures path == Path(c, s.store.blocks[b.hash := b], b.hash)
    ensures var k := Common(MainChain(c, s), path);
      && |detached| == |MainChain(c, s)| - k
      && forall x :: x in detached <==> x in MainChain(c, s)[k..]
  {
    AddedInherits(c, s.store.blocks, b);
    assert path == path[..|path| - 1] + [b];
    DetachedHas(MainChain(c, s), Common(MainChain(c, s), path), Turn(MainChain(c, s), path));
  }

  /** Once one block of a path has been verified, all below it have been. */
  lemma SeenBelow(c: Consensus, s: Store, h: Hash, m: nat, n: nat)
    requires Tree(c, s.blocks) && ExtsOk(c, s) && h in s.blocks && n <= m <= s.blocks[h].number
    requires var x := Path(c, s.blocks, h)[m].hash; x in s.exts && s.exts[x].verified.Some?
    ensures IsVerified(s, Path(c, s.blocks, h)[n].hash)
  {
    var up := Path(c, s.blocks, h);
    assert ExtOk(c, s, up[m].hash);
    var v := s.exts[up[m].hash].verified;
    assert v == if v.value then Some(true) else Some(false);
    PathPrefix(c, s.blocks, h, m);
    assert up[..m + 1][n] == up[n];
    PathVerified(c, s, up[m].hash, n);
  }

  /** The dirty exts belong to exactly the unverified blocks: verification is closed under parents. */
  lemma DirtyIsUnverified(c: Consensus, s: Store, h: Hash, path: seq<Block>, ext: BlockExt, k: nat,
                          attached: seq<Block>, dirty: seq<BlockExt>, n: nat)
    requires Tree(c, s.blocks) && ExtsOk(c, s) && h in s.blocks
    requires StoredPath(s, path) && path[..|path| - 1] == Path(c, s.blocks, h)
    requires 1 <= k <= n < |path|
    requires Walked(s, path, ext, k - 1, attached, dirty, |dirty| == |attached|)
    ensures ExtAt(s, path, ext, n).verified.None? <==> n >= |path| - |dirty|
  {
    hide Tree, ExtsOk, Path, Chained;
    var up := Path(c, s.blocks, h);
    var m := |path| - |dirty|;
    if n >= m {
      ExtsFromAt(s, path, ext, m, n - m);
      assert dirty[n - m] in dirty;
    } else {
      assert path[..|path| - 1][m - 1] == up[m - 1] && path[..|path| - 1][n] == up[n];
      SeenBelow(c, s, h, m - 1, n);
    }
  }

  /** `st` is `s` with the last block of the path added, bringing `ext`. */
  ghost predicate Adds(s: Store, st: Store, path: seq<Block>, ext: BlockExt) {
    && StoredPath(s, path)
    && PathLike(path)
    && var b := path[|path| - 1];
       && b.hash !in s.blocks
       && st.blocks == s.blocks[b.hash := b]
       && st.exts == s.exts[b.hash := ext]
  }

  lemma ExtAtIs(s: Store, st: Store, path: seq<Block>, ext: BlockExt, n: nat)
    requires Adds(s, st, path, ext) && n < |path|
    ensures path[n].hash in st.exts && st.exts[path[n].hash] == ExtAt(s, path, ext, n)
    ensures path[n].hash in st.blocks && st.blocks[path[n].hash] == path[n]
  {
  }

  lemma UnverifiedIs(s: Store, st: Store, path: seq<Block>, ext: BlockExt, k: nat, m: nat)
    requires Adds(s, st, path, ext) && k <= m <= |path|
    requires forall n :: k <= n < |path| ==> (ExtAt(s, path, ext, n).verified.None? <==> n >= m)
    ensures Unverified(st, path[k..]) == Hashes(path[m..])
  {
    forall h | h in Unverified(st, path[k..]) ensures h in Hashes(path[m..]) {
      var x :| x in path[k..] && x.hash == h;
      InSuffix(path, k, x);
      ExtAtIs(s, st, path, ext, x.number);
      InSuffix(path, m, x);
    }
    forall h | h in Hashes(path[m..]) ensures h in Unverified(st, path[k..]) {
      var x :| x in path[m..] && x.hash == h;
      InSuffix(path, m, x);
      ExtAtIs(s, st, path, ext, x.number);
      InSuffix(path, k, x);
    }
  }

  lemma PassesIs(st: Store, path: seq<Block>, k: nat, m: nat, r: Request)
    requires PathLike(path) && k <= m <= |path|
    requires Unverified(st, path[k..]) == Hashes(path[m..])
    ensures Passes(st, path[k..], r) <==> AllPass(r, path[m..])
  {
  }

  lemma DistinctHashes(path: seq<Block>, m: nat)
    requires PathLike(path) && m <= |path|
    ensures forall i, j :: 0 <= i < j < |path[m..]| ==> path[m..][i].hash != path[m..][j].hash
  {
  }

  lemma MarkedAt(s: Store, st: Store, path: seq<Block>, ext: BlockExt, m: nat, r: Request, i: nat)
    requires Adds(s, st, path, ext) && m + i < |path|
    ensures var bs, dirty := path[m..], ExtsFrom(s, path, ext, m);
      && bs[i].hash in Marked(st, Hashes(bs), r)
      && Marked(st, Hashes(bs), r)[bs[i].hash] == MarkedExts(r, bs, dirty)[i]
  {
    var bs := path[m..];
    ExtAtIs(s, st, path, ext, m + i);
    ExtsFromAt(s, path, ext, m, i);
    assert bs[i] == path[m + i] && bs[i] in bs;
    assert bs[i].hash in Hashes(bs);
  }

  /** Writing the dirty exts back gives the store's exts with the unverified blocks marked. */
  lemma ExtsWritten(s: Store, st: Store, x: Store, path: seq<Block>, ext: BlockExt, m: nat, r: Request)
    requires Adds(s, st, path, ext) && m < |path| && x.exts == s.exts
    ensures var bs, dirty := path[m..], ExtsFrom(s, path, ext, m);
      Commit(x, ExtWrites(bs, MarkedExts(r, bs, dirty))) == x.(exts := Marked(st, Hashes(bs), r))
  {
    hide Commit, ExtsFrom, MarkedExts, Rewritten, PathLike, StoredPath;
    var bs, dirty := path[m..], ExtsFrom(s, path, ext, m);
    var es := MarkedExts(r, bs, dirty);
    DistinctHashes(path, m);
    WriteExts(x, bs, es);
    var exts := Rewritten(x.exts, bs, es);
    forall i | 0 <= i < |bs|
      ensures bs[i].hash in exts && bs[i].hash in st.exts && exts[bs[i].hash] == Marked(st, Hashes(bs), r)[bs[i].hash]
    {
      MarkedAt(s, st, path, ext, m, r, i);
      RewrittenAt(x.exts, bs, es, i);
    }
    assert path[|path| - 1] == bs[|bs| - 1];
    RewrittenElse(x.exts, bs, es);
    SameExts(s, st, exts, bs, ext, r);
  }

  lemma SameExts(s: Store, st: Store, exts: map<Hash, BlockExt>, bs: seq<Block>, ext: BlockExt, r: Request)
    requires bs != [] && st.exts == s.exts[bs[|bs| - 1].hash := ext]
    requires forall i :: 0 <= i < |bs| ==>
               bs[i].hash in exts && bs[i].hash in st.exts && exts[bs[i].hash] == Marked(st, Hashes(bs), r)[bs[i].hash]
    requires forall h :: h !in Hashes(bs) ==> (h in exts <==> h in s.exts) && (h in s.exts ==> exts[h] == s.exts[h])
    ensures exts == Marked(st, Hashes(bs), r)
  {
  }

  /** The writes made for every block, winning or not. */
  function BaseWrites(b: Block, e: EpochExt): seq<Write> {
    [Write.InsertBlock(b),
     InsertBlockEpochIndex(b.hash, e.lastBlockHashInPreviousEpoch),
     InsertEpochExt(e.lastBlockHashInPreviousEpoch, e)]
  }

  lemma CommitBase(s: Store, b: Block, e: EpochExt)
    ensures Commit(s, BaseWrites(b, e))
         == s.(blocks := s.blocks[b.hash := b],
               blockEpochIndex := s.blockEpochIndex[b.hash := e.lastBlockHashInPreviousEpoch],
               epochs := s.epochs[e.lastBlockHashInPreviousEpoch := e])
  {
    var ws := BaseWrites(b, e);
    assert ws[..2] == [ws[0], ws[1]] && ws[..2][..1] == [ws[0]];
    assert Commit(s, ws[..2][..1]) == Apply(s, ws[0]);
    assert Commit(s, ws[..2]) == Apply(Apply(s, ws[0]), ws[1]);
  }

  /** The exts still to be verified are those of the unverified blocks above the fork point. */
  lemma SearchedTodo(c: Consensus, s: Store, st: Store, h: Hash, path: seq<Block>, ext: BlockExt, k: nat,
                     attached: seq<Block>, dirty: seq<BlockExt>)
    requires Tree(c, s.blocks) && ExtsOk(c, s) && h in s.blocks
    requires Adds(s, st, path, ext) && path[..|path| - 1] == Path(c, s.blocks, h)
    requires 1 <= k < |path|
    requires Walked(s, path, ext, k - 1, attached, dirty, |dirty| == |attached|)
    ensures var m := |path| - |dirty|;
      && k <= m < |path|
      && attached == path[k..]
      && Todo(attached, dirty) == path[m..]
      && dirty == ExtsFrom(s, path, ext, m)
      && Unverified(st, attached) == Hashes(path[m..])
  {
    hide Tree, ExtsOk, Path, PathLike, ExtsFrom, Chained;
    var m := |path| - |dirty|;
    forall n | k <= n < |path| ensures ExtAt(s, path, ext, n).verified.None? <==> n >= m {
      DirtyIsUnverified(c, s, h, path, ext, k, attached, dirty, n);
    }
    UnverifiedIs(s, st, path, ext, k, m);
    assert path[k..][m - k..] == path[m..];
  }

  /** The reorg goes through exactly when every unverified block passes. */
  lemma ReorgDecision(c: Consensus, s: Store, st: Store, b: Block, path: seq<Block>, ext: BlockExt, k: nat,
                      attached: seq<Block>, dirty: seq<BlockExt>, r: Request)
    requires LeadsTo(c, s, b, path) && ExtsOk(c, s) && Adds(s, st, path, ext)
    requires 1 <= k < |path|
    requires Walked(s, path, ext, k - 1, attached, dirty, |dirty| == |attached|)
    ensures Passes(st, attached, r) <==> AllPass(r, Todo(attached, dirty))
  {
    hide Tree, ExtsOk, Path, StoredPath, ExtsFrom, Passes, AllPass, Unverified, Hashes;
    SearchedTodo(c, s, st, b.parent, path, ext, k, attached, dirty);
    PassesIs(st, path, k, |path| - |dirty|, r);
  }

  /** The epoch is rewritten only when a new one starts or blocks are detached, and that is enough. */
  lemma EpochStays(c: Consensus, s: State, b: Block, path: seq<Block>)
    requires Inv(c, s) && Fresh(c, s.store.blocks, b) && NewBest(c, s, b)
    requires Tree(c, s.store.blocks[b.hash := b]) && path == Path(c, s.store.blocks[b.hash := b], b.hash)
    requires Common(MainChain(c, s), path) == |MainChain(c, s)|
    requires c.nextEpoch(EpochOf(c, s.store.blocks, b.parent), s.store.blocks[b.parent]).None?
    ensures EpochOf(c, s.store.blocks[b.hash := b], b.hash) == s.currentEpoch
  {
    AddedInherits(c, s.store.blocks, b);
    NoDetachExtendsTip(c, s, b);
  }

  /** The store once a whole reorg batch is committed, by columns. */
  lemma ReorgColumns(s: Store, st: Store, main: seq<Block>, path: seq<Block>, ext: BlockExt, k: nat, m: nat,
                     detached: seq<Block>, r: Request, e: EpochExt, epochWrite: seq<Write>)
    requires Adds(s, st, path, ext) && PathLike(main) && k <= m < |path|
    requires k <= |main| && main[..k] == path[..k]
    requires s.index == NumberIndex(main) && s.numbers == HashIndex(main)
    requires forall x :: x in detached <==> x in main[k..]
    requires epochWrite == [InsertCurrentEpochExt(e)] || (epochWrite == [] && e == s.currentEpoch)
    ensures var b := path[|path| - 1];
      var dirty := ExtsFrom(s, path, ext, m);
      Commit(s, BaseWrites(b, e) + Detaches(detached) + Attaches(path[k..])
                + ExtWrites(path[m..], MarkedExts(r, path[m..], dirty)) + [InsertTipHeader(b.hash)] + epochWrite)
      == s.(blocks := s.blocks[b.hash := b],
            exts := Marked(st, Hashes(path[m..]), r),
            index := NumberIndex(path),
            numbers := HashIndex(path),
            tipHeader := b.hash,
            currentEpoch := e,
            blockEpochIndex := s.blockEpochIndex[b.hash := e.lastBlockHashInPreviousEpoch],
            epochs := s.epochs[e.lastBlockHashInPreviousEpoch := e])
  {
    var b, dirty := path[|path| - 1], ExtsFrom(s, path, ext, m);
    var extWrites := ExtWrites(path[m..], MarkedExts(r, path[m..], dirty));
    CommitParts(s, BaseWrites(b, e), Detaches(detached), Attaches(path[k..]), extWrites, [InsertTipHeader(b.hash)], epochWrite);
    CommitBase(s, b, e);
    var s1 := Commit(s, BaseWrites(b, e));
    Reindex(s1, main, path, k, detached);
    var s3 := Commit(Commit(s1, Detaches(detached)), Attaches(path[k..]));
    ExtsWritten(s, st, s3, path, ext, m, r);
    CommitLast(Commit(s3, extWrites), b.hash, e, epochWrite);
  }

  lemma CommitLast(s: Store, h: Hash, e: EpochExt, epochWrite: seq<Write>)
    requires epochWrite == [InsertCurrentEpochExt(e)] || (epochWrite == [] && e == s.currentEpoch)
    ensures Commit(Commit(s, [InsertTipHeader(h)]), epochWrite) == s.(tipHeader := h, currentEpoch := e)
  {
  }

  /** Those columns are the store of `ForkChoice.Switched`. */
  lemma SwitchedColumns(c: Consensus, s: State, r: Request, path: seq<Block>, attached: seq<Block>, m: nat, e: EpochExt)
    requires Tree(c, s.store.blocks) && Fresh(c, s.store.blocks, r.block) && s.tip.hash in s.store.blocks
    requires Tree(c, s.store.blocks[r.block.hash := r.block])
    requires path == Path(c, s.store.blocks[r.block.hash := r.block], r.block.hash) && m <= |path|
    requires attached == Attached(c, s, r.block)
    requires Unverified(Stored(c, s.store, r.block), attached) == Hashes(path[m..])
    requires e == ChildEpoch(c, EpochOf(c, s.store.blocks, r.block.parent), s.store.blocks[r.block.parent])
    ensures Switched(c, s, r).store
      == s.store.(blocks := s.store.blocks[r.block.hash := r.block],
            exts := Marked(Stored(c, s.store, r.block), Hashes(path[m..]), r),
            index := NumberIndex(path),
            numbers := HashIndex(path),
            tipHeader := r.block.hash,
            currentEpoch := e,
            blockEpochIndex := s.store.blockEpochIndex[r.block.hash := e.lastBlockHashInPreviousEpoch],
            epochs := s.store.epochs[e.lastBlockHashInPreviousEpoch := e])
    ensures Switched(c, s, r).currentEpoch == e && Switched(c, s, r).tip == r.block
    ensures Switched(c, s, r).totalDifficulty == TotalDifficulty(c, s.store.blocks, r.block.parent) + r.block.difficulty
  {
    AddedInherits(c, s.store.blocks, r.block);
  }

  function ReorgWrites(r: Request, attached: seq<Block>, detached: seq<Block>, dirty: seq<BlockExt>,
                       e: EpochExt, epochWrite: seq<Write>): seq<Write>
    requires |dirty| <= |attached|
  {
    var todo := Todo(attached, dirty);
    BaseWrites(r.block, e) + Detaches(detached) + Attaches(attached) + ExtWrites(todo, MarkedExts(r, todo, dirty))
    + [InsertTipHeader(r.block.hash)] + epochWrite
  }

  /** The state a successful reorg leaves, as written by the batch. */
  ghost function Reorganised(s: State, r: Request, attached: seq<Block>, detached: seq<Block>, dirty: seq<BlockExt>,
                             e: EpochExt, rewriteEpoch: bool, totalDifficulty: nat): State
    requires |dirty| <= |attached|
  {
    var epochWrite := if rewriteEpoch then [InsertCurrentEpochExt(e)] else [];
    State(
      Commit(s.store, ReorgWrites(r, attached, detached, dirty, e, epochWrite)),
      r.block,
      totalDifficulty,
      if rewriteEpoch then e else s.currentEpoch)
  }

  lemma ReadyToSearch(c: Consensus, s: State, r: Request, ext: BlockExt) returns (path: seq<Block>)
    requires Inv(c, s) && Fresh(c, s.store.blocks, r.block)
    requires ext == Stored(c, s.store, r.block).exts[r.block.hash]
    ensures LeadsTo(c, s.store, r.block, path) && Adds(s.store, Stored(c, s.store, r.block), path, ext)
    ensures StoredPath(s.store, path) && path[|path| - 1] == r.block
    ensures MainOk(c, s)
    ensures StoredMain(s.store, MainChain(c, s)) && |MainChain(c, s)| == s.tip.number + 1
    ensures MainChain(c, s)[0] == path[0] && r.block !in MainChain(c, s)
  {
    MainFacts(c, s);
    path := PathFacts(c, s, r.block);
  }

  /** The tip's block, index and epoch are in order. */
  ghost predicate MainOk(c: Consensus, s: State) {
    && Tree(c, s.store.blocks)
    && ExtsOk(c, s.store)
    && s.tip.hash in s.store.blocks
    && s.store.currentEpoch == s.currentEpoch
    && PathLike(MainChain(c, s))
    && s.store.index == NumberIndex(MainChain(c, s))
    && s.store.numbers == HashIndex(MainChain(c, s))
  }

  /** What the imperative reorg computes is what `ForkChoice` says. */
  lemma ReorgIsSwitch(c: Consensus, s: State, st: Store, r: Request, path: seq<Block>, ext: BlockExt,
                      attached: seq<Block>, detached: seq<Block>, dirty: seq<BlockExt>,
                      e: EpochExt, rewriteEpoch: bool, totalDifficulty: nat)
    requires MainOk(c, s) && Fresh(c, s.store.blocks, r.block) && LeadsTo(c, s.store, r.block, path)
    requires st == Stored(c, s.store, r.block) && Adds(s.store, st, path, ext)
    requires ForkFound(s.store, MainChain(c, s), path, ext, attached, detached, dirty) && |dirty| <= |attached|
    requires e == ChildEpoch(c, EpochOf(c, s.store.blocks, r.block.parent), s.store.blocks[r.block.parent])
    requires rewriteEpoch || e == s.currentEpoch
    requires totalDifficulty == TotalDifficulty(c, s.store.blocks, r.block.parent) + r.block.difficulty
    ensures attached == Attached(c, s, r.block) && SameBlocks(detached, Detached(c, s, r.block))
    ensures Passes(st, Attached(c, s, r.block), r) <==> AllPass(r, Todo(attached, dirty))
    ensures Reorganised(s, r, attached, detached, dirty, e, rewriteEpoch, totalDifficulty) == Switched(c, s, r)
  {
    hide Tree, ExtsOk, Path, EpochOf, TotalDifficulty, TotalUncles, Walked, StoredPath, PathLike;
    hide Commit, Passes, AllPass, Attached, Detaches, Attaches, ExtWrites, BaseWrites, MarkedExts, ExtsFrom;
    hide Unverified, Hashes, Marked, NumberIndex, HashIndex, Switched, Reversed;
    var b, main := r.block, MainChain(c, s);
    var k, m := Common(main, path), |path| - |dirty|;
    SearchedTodo(c, s.store, st, b.parent, path, ext, k, attached, dirty);
    ReorgDecision(c, s.store, st, b, path, ext, k, attached, dirty, r);
    SearchedSplits(c, s, b, path, ext, attached, detached, dirty);
    ReorgColumns(s.store, st, main, path, ext, k, m, detached, r, e, if rewriteEpoch then [InsertCurrentEpochExt(e)] else []);
    SwitchedColumns(c, s, r, path, attached, m, e);
    var sw := Switched(c, s, r);
    assert sw == State(sw.store, sw.tip, sw.totalDifficulty, sw.currentEpoch);
  }

  /** The reorg needs no epoch rewrite when nothing is detached and no epoch starts. */
  lemma ReorgEpoch(c: Consensus, s: State, b: Block, path: seq<Block>, ext: BlockExt,
                   attached: seq<Block>, dirty: seq<BlockExt>)
    requires Inv(c, s) && Fresh(c, s.store.blocks, b) && NewBest(c, s, b)
    requires LeadsTo(c, s.store, b, path) && StoredPath(s.store, path)
    requires ForkFound(s.store, MainChain(c, s), path, ext, attached, [], dirty)
    requires c.nextEpoch(EpochOf(c, s.store.blocks, b.parent), s.store.blocks[b.parent]).None?
    ensures EpochOf(c, s.store.blocks, b.parent) == s.currentEpoch
  {
    hide ExtsOk, EpochsOk, TipBest, Walked, StoredPath;
    SearchedSplits(c, s, b, path, ext, attached, [], dirty);
    AddedInherits(c, s.store.blocks, b);
    EpochStays(c, s, b, path);
  }

  /** The failure reported is that of the first block, in path order, that is judged and not valid. */
  lemma {:induction false} FirstFailureAt(r: Request, todo: seq<Block>) returns (i: nat)
    requires !AllPass(r, todo)
    ensures i < |todo| && !r.judge(todo[i]).Valid? && FirstFailure(r, todo) == r.judge(todo[i])
    ensures forall j :: 0 <= j < i ==> r.judge(todo[j]).Valid?
    decreases |todo|
  {
    var front := todo[..|todo| - 1];
    if !AllPass(r, front) {
      i := FirstFailureAt(r, front);
      forall j | 0 <= j < i ensures r.judge(todo[j]).Valid? { assert front[j] == todo[j]; }
    } else {
      i := |todo| - 1;
      forall j | 0 <= j < i ensures r.judge(todo[j]).Valid? { assert front[j] == todo[j]; }
    }
  }

  /** What a finished search says about the new path. */
  lemma SearchedPath(c: Consensus, s: State, b: Block, path: seq<Block>, ext: BlockExt,
                     attached: seq<Block>, detached: seq<Block>, dirty: seq<BlockExt>)
    requires MainOk(c, s) && Fresh(c, s.store.blocks, b) && LeadsTo(c, s.store, b, path)
    requires Adds(s.store, Stored(c, s.store, b), path, ext)
    requires ForkFound(s.store, MainChain(c, s), path, ext, attached, detached, dirty) && |dirty| <= |attached|
    ensures PathLike(path) && path == Path(c, s.store.blocks, b.parent) + [b]
    ensures |dirty| <= |path| && Todo(attached, dirty) == path[|path| - |dirty|..]
    ensures attached == Attached(c, s, b)
    ensures Unverified(Stored(c, s.store, b), attached) == Hashes(path[|path| - |dirty|..])
  {
    hide Tree, ExtsOk, Path, EpochOf, TotalDifficulty, TotalUncles, Walked, StoredPath, PathLike;
    hide ExtsFrom, Hashes, Attached, Unverified, Reversed, NumberIndex, HashIndex;
    var st, k := Stored(c, s.store, b), Common(MainChain(c, s), path);
    assert path == path[..|path| - 1] + [b];
    SearchedTodo(c, s.store, st, b.parent, path, ext, k, attached, dirty);
    SearchedSplits(c, s, b, path, ext, attached, detached, dirty);
  }

  /** The block is neither on the main chain nor verified. */
  ghost predicate Awaits(s: Store, x: Block) {
    x.hash !in s.numbers && !(x.hash in s.exts && s.exts[x.hash].verified == Some(true))
  }

  /** Of the new path, these are the blocks to verify. */
  lemma TodoAt(c: Consensus, s: State, b: Block, path: seq<Block>, start: nat, n: nat)
    requires Inv(c, s) && Fresh(c, s.store.blocks, b)
    requires PathLike(path) && path == Path(c, s.store.blocks, b.parent) + [b] && start <= |path| && n < |path|
    requires Unverified(Stored(c, s.store, b), Attached(c, s, b)) == Hashes(path[start..])
    ensures n >= start <==> Awaits(s.store, path[n])
  {
    var st, attached := Stored(c, s.store, b), Attached(c, s, b);
    hide Tree, ExtsOk, EpochsOk, TipBest, TipOk, Path, Hashes, Attached, Stored, PathLike;
    AttachedAre(c, s, b, path[n]);
    UnverifiedOnPath(c, s.store, b, path[n]);
    HashAbove(path, start, n);
    if path[n].hash in Unverified(st, attached) {
      var y :| y in attached && y.hash == path[n].hash;
      AttachedAre(c, s, b, y);
    }
  }

  /** On a path a hash occurs once. */
  lemma HashAbove(path: seq<Block>, m: nat, n: nat)
    requires PathLike(path) && m <= |path| && n < |path|
    ensures path[n] in path[m..] <==> n >= m
    ensures path[n].hash in Hashes(path[m..]) <==> n >= m
  {
    if n >= m { SuffixAt(path, m, n); }
    if path[n].hash in Hashes(path[m..]) {
      var x :| x in path[m..] && x.hash == path[n].hash;
      InSuffix(path, m, x);
    }
  }

  /** `e` is the error of the first block of the path that has to be verified and is not valid. */
  ghost predicate IsFirstError(s: Store, path: seq<Block>, r: Request, e: Error) {
    exists n ::
      && 0 <= n < |path|
      && Awaits(s, path[n]) && !r.judge(path[n]).Valid?
      && e == (if r.judge(path[n]).Invalid? then InvalidTransaction else UnresolvableTransaction)
      && forall m :: 0 <= m < n && Awaits(s, path[m]) ==> r.judge(path[m]).Valid?
  }

  lemma FirstOnPath(s: Store, path: seq<Block>, start: nat, r: Request)
    requires start <= |path| && !AllPass(r, path[start..])
    requires forall n :: 0 <= n < |path| ==> (n >= start <==> Awaits(s, path[n]))
    ensures IsFirstError(s, path, r, ErrorOf(FirstFailure(r, path[start..])))
  {
    hide AllPass, FirstFailure, Awaits;
    var todo := path[start..];
    var i := FirstFailureAt(r, todo);
    assert path[start + i] == todo[i];
    forall m | 0 <= m < start + i && Awaits(s, path[m]) ensures r.judge(path[m]).Valid? {
      assert path[m] == todo[m - start];
    }
  }

  lemma ErrorIsFirst(c: Consensus, s: State, r: Request, path: seq<Block>, ext: BlockExt,
                     attached: seq<Block>, detached: seq<Block>, dirty: seq<BlockExt>)
    requires Inv(c, s) && MainOk(c, s) && Fresh(c, s.store.blocks, r.block) && LeadsTo(c, s.store, r.block, path)
    requires Adds(s.store, Stored(c, s.store, r.block), path, ext)
    requires ForkFound(s.store, MainChain(c, s), path, ext, attached, detached, dirty) && |dirty| <= |attached|
    requires !AllPass(r, Todo(attached, dirty))
    ensures path == Path(c, s.store.blocks, r.block.parent) + [r.block]
    ensures IsFirstError(s.store, path, r, ErrorOf(FirstFailure(r, Todo(attached, dirty))))
  {
    hide Tree, ExtsOk, EpochsOk, TipOk, TipBest, MainOk, Fresh, Adds, ForkFound, LeadsTo, StoredPath, AllPass, FirstFailure;
    hide Path, Unverified, Hashes, Stored, Attached, PathLike, Awaits, IsFirstError;
    SearchedPath(c, s, r.block, path, ext, attached, detached, dirty);
    var start := |path| - |dirty|;
    forall n | 0 <= n < |path| ensures n >= start <==> Awaits(s.store, path[n]) {
      TodoAt(c, s, r.block, path, start, n);
    }
    FirstOnPath(s.store, path, start, r);
  }

  /** A request that is not accepted leaves the state as it is. */
  lemma Refused(c: Consensus, s: State, r: Request)
    requires Inv(c, s) && Fresh(c, s.store.blocks, r.block) && !Accepts(c, s, r)
    ensures Step(c, s, r) == s
  {
  }

  /** The blocks stored, the tip and its difficulty after an accepted request. */
  lemma StepMoves(c: Consensus, s: State, r: Request)
    requires Inv(c, s) && Fresh(c, s.store.blocks, r.block) && Accepts(c, s, r)
    ensures r.block.parent in s.store.exts
    ensures var t, wins := Step(c, s, r), NewBest(c, s, r.block);
      && t.store.blocks == s.store.blocks[r.block.hash := r.block]
      && t.tip == (if wins then r.block else s.tip)
      && t.totalDifficulty ==
         (if wins then s.store.exts[r.block.parent].totalDifficulty + r.block.difficulty else s.totalDifficulty)
  {
    var wins := NewBest(c, s, r.block);
    hide Inv, Step, Accepts, NewBest, Fresh;
    StepStores(c, s, r);
    if wins { StepWins(c, s, r); } else { StepLoses(c, s, r); }
  }

  lemma SideIsStored(c: Consensus, s: Store, b: Block)
    requires Tree(c, s.blocks) && Fresh(c, s.blocks, b)
    ensures var e := ChildEpoch(c, EpochOf(c, s.blocks, b.parent), s.blocks[b.parent]);
      var st := Stored(c, s, b);
      Commit(s, BaseWrites(b, e) + [InsertBlockExt(b.hash, st.exts[b.hash])]) == st
  {
    var e := ChildEpoch(c, EpochOf(c, s.blocks, b.parent), s.blocks[b.parent]);
    var ws := [InsertBlockExt(b.hash, Stored(c, s, b).exts[b.hash])];
    CommitBase(s, b, e);
    CommitAppend(s, BaseWrites(b, e), ws);
    var s1 := Commit(s, BaseWrites(b, e));
    assert ws[..|ws| - 1] == [] && Commit(s1, []) == s1;
  }

  lemma CommitParts(s: Store, a: seq<Write>, b: seq<Write>, c: seq<Write>, d: seq<Write>, e: seq<Write>, f: seq<Write>)
    ensures Commit(s, a + b + c + d + e + f)
         == Commit(Commit(Commit(Commit(Commit(Commit(s, a), b), c), d), e), f)
  {
    CommitAppend(s, a, b);
    CommitAppend(s, a + b, c);
    CommitAppend(s, a + b + c, d);
    CommitAppend(s, a + b + c + d, e);
    CommitAppend(s, a + b + c + d + e, f);
  }

  /** Two stored parent paths that agree at one number agree below it. */
  lemma {:induction false} AgreeBelow(s: Store, main: seq<Block>, path: seq<Block>, n: nat)
    requires StoredMain(s, main) && StoredPath(s, path)
    requires n < |main| && n < |path| - 1 && main[n] == path[n]
    ensures main[..n + 1] == path[..n + 1]
    decreases n
  {
    if n > 0 {
      assert Chained(main, n) && Chained(path, n);
      AgreeBelow(s, main, path, n - 1);
      assert main[..n + 1] == main[..n] + [main[n]] && path[..n + 1] == path[..n] + [path[n]];
    }
  }

  /** Walking down from `top` to the first agreement finds the fork point. */
  lemma ForkPointFound(s: Store, main: seq<Block>, path: seq<Block>, k: nat, top: nat)
    requires StoredMain(s, main) && StoredPath(s, path)
    requires 1 <= k <= top + 1 <= |main| && top < |path| - 1
    requires main[k - 1] == path[k - 1]
    requires forall n :: k <= n <= top ==> main[n] != path[n]
    requires top + 1 == |main| || (top + 2 == |path| && path[|path| - 1] !in main)
    ensures Common(main, path) == k
  {
    AgreeBelow(s, main, path, k - 1);
    assert k < |main| && k < |path| ==> main[k] != path[k];
    CommonIs(main, path, k);
  }
}
