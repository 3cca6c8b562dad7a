/**
 When the chains a node adopts are well formed. Blocks already verified were on a main chain before;
 the others are resolved during the reorg, each on the overlay of the blocks before it. The chain
 adopted is free of double spends exactly when none of them respends or has aliased inputs.
 */
module ReorgSoundness {
  import opened CkbTypes
  import opened BlockTree
  import opened ForkChoice
  import opened CellSets
  import opened CellReplay
  import opened ChainSoundness
  import N = Node
  import CS = CellState
  import R = Resolution
  import X = SequentialExecution

  // ---------------------------------------------------------------- one reorg, block by block

  /** Attached block `n` has new transactions and resolves on the overlay of the blocks attached before it. */
  ghost predicate ResolvedAt(common: seq<Block>, d: seq<Block>, a: seq<Block>, n: nat)
    requires n < |a|
  {
    && NewTransactions(Entries(common) + Entries(a[..n]), a[n])
    && exists base, headers, rs ::
      && Provides(base, ReorgOverlay(Entries(common), Entries(d), Entries(a[..n])))
      && R.BlockResolves(a[n], base, headers, rs)
  }

  /** Attached block `n` spends a cell that the reorg has created and spent before it. */
  ghost predicate RespendsAt(common: seq<Block>, d: seq<Block>, a: seq<Block>, n: nat)
    requires n < |a|
  {
    Respends(Entries(common) + Entries(d), Entries(a[..n]), a[n])
  }

  lemma {:induction false} SpendsOncePrefix(a: seq<Entry>, b: seq<Entry>)
    requires SpendsOnce(a + b)
    ensures SpendsOnce(a)
    decreases |b|
  {
    if b == [] {
      assert a + b == a;
    } else {
      assert (a + b)[..|a + b| - 1] == a + b[..|b| - 1];
      SpendsOncePrefix(a, b[..|b| - 1]);
    }
  }

  lemma EntriesNext(common: seq<Block>, a: seq<Block>, n: nat)
    requires n < |a|
    ensures Entries(common + a[..n]) == Entries(common) + Entries(a[..n])
    ensures Entries(common + a[..n + 1]) == Entries(common) + Entries(a[..n]) + BlockEntries(a[n])
  {
    EntriesAppend(common, a[..n]);
    EntriesAppend(common, a[..n + 1]);
    assert a[..n + 1][..n] == a[..n];
    assert Entries(common) + (Entries(a[..n]) + BlockEntries(a[n])) == Entries(common) + Entries(a[..n]) + BlockEntries(a[n]);
  }

  /** Attached block `n` brings a double spend: it respends, or spends one cell under two out points. */
  ghost predicate SpoilsAt(common: seq<Block>, d: seq<Block>, a: seq<Block>, n: nat)
    requires n < |a|
  {
    RespendsAt(common, d, a, n) || !InputsUnaliased(a[n].transactions)
  }

  /** It does so across transactions, so that the chain is not even well formed. */
  ghost predicate BreaksAt(common: seq<Block>, d: seq<Block>, a: seq<Block>, n: nat)
    requires n < |a|
  {
    RespendsAt(common, d, a, n) || !UnaliasedAcross(a[n].transactions)
  }

  lemma BranchStep(common: seq<Block>, d: seq<Block>, a: seq<Block>, n: nat)
    requires n < |a| && WellFormed(Entries(common + d)) && WellFormed(Entries(common + a[..n])) && ResolvedAt(common, d, a, n)
    ensures WellFormed(Entries(common + a[..n + 1])) <==> !BreaksAt(common, d, a, n)
    ensures SpendsOnce(Entries(common + a[..n])) ==>
      (SpendsOnce(Entries(common + a[..n + 1])) <==> !SpoilsAt(common, d, a, n))
  {
    hide SpendsOnce, WellFormed, Entries, NewTransactions, Provides, R.BlockResolves, Respends;
    hide InputsUnaliased, UnaliasedAcross;
    EntriesNext(common, a, n);
    EntriesAppend(common, d);
    var base, headers, rs :|
      && Provides(base, ReorgOverlay(Entries(common), Entries(d), Entries(a[..n])))
      && R.BlockResolves(a[n], base, headers, rs);
    ReorgBlockExtends(Entries(common), Entries(d), Entries(a[..n]), a[n], base, headers, rs);
  }

  lemma BranchPrefix(common: seq<Block>, a: seq<Block>, n: nat)
    requires n <= |a|
    ensures SpendsOnce(Entries(common + a)) ==> SpendsOnce(Entries(common + a[..n]))
    ensures WellFormed(Entries(common + a)) ==> WellFormed(Entries(common + a[..n]))
  {
    hide SpendsOnce, WellFormed, Entries;
    EntriesAppend(common + a[..n], a[n..]);
    assert common + a[..n] + a[n..] == common + a;
    if SpendsOnce(Entries(common + a)) { SpendsOncePrefix(Entries(common + a[..n]), Entries(a[n..])); }
    if WellFormed(Entries(common + a)) { SplitChain(Entries(common + a[..n]), Entries(a[n..])); }
  }

  /** Blocks in `good` were verified before; the branch has no double spend iff no other block brings one. */
  lemma {:induction false} BranchSpendsOnce(common: seq<Block>, d: seq<Block>, a: seq<Block>, good: set<nat>, n: nat)
    requires WellFormed(Entries(common + d)) && SpendsOnce(Entries(common)) && n <= |a|
    requires forall i :: 0 <= i < n && i in good ==> SpendsOnce(Entries(common + a[..i + 1]))
    requires forall i :: 0 <= i < n && i !in good ==> ResolvedAt(common, d, a, i)
    ensures SpendsOnce(Entries(common + a[..n])) <==> forall i :: 0 <= i < n && i !in good ==> !SpoilsAt(common, d, a, i)
    decreases n
  {
    hide SpendsOnce, WellFormed, Entries, ResolvedAt, SpoilsAt;
    if n == 0 {
      assert common + a[..0] == common;
    } else {
      BranchSpendsOnce(common, d, a, good, n - 1);
      BranchPrefix(common, a[..n], n - 1);
      assert a[..n][..n - 1] == a[..n - 1];
      if SpendsOnce(Entries(common + a[..n - 1])) && n - 1 !in good {
        SpendsOnceWellFormed(Entries(common + a[..n - 1]));
        BranchStep(common, d, a, n - 1);
      }
    }
  }

  /** The same for well-formedness. */
  lemma {:induction false} BranchWellFormed(common: seq<Block>, d: seq<Block>, a: seq<Block>, good: set<nat>, n: nat)
    requires WellFormed(Entries(common + d)) && WellFormed(Entries(common)) && n <= |a|
    requires forall i :: 0 <= i < n && i in good ==> WellFormed(Entries(common + a[..i + 1]))
    requires forall i :: 0 <= i < n && i !in good ==> ResolvedAt(common, d, a, i)
    ensures WellFormed(Entries(common + a[..n])) <==> forall i :: 0 <= i < n && i !in good ==> !BreaksAt(common, d, a, i)
    decreases n
  {
    hide SpendsOnce, WellFormed, Entries, ResolvedAt, BreaksAt;
    if n == 0 {
      assert common + a[..0] == common;
    } else {
      BranchWellFormed(common, d, a, good, n - 1);
      BranchPrefix(common, a[..n], n - 1);
      assert a[..n][..n - 1] == a[..n - 1];
      if WellFormed(Entries(common + a[..n - 1])) && n - 1 !in good { BranchStep(common, d, a, n - 1); }
    }
  }

  // ---------------------------------------------------------------- the chain a request adopts

  /** The path of a verified block spends every cell at most once, after its creation. */
  ghost predicate SoundAt(c: Consensus, s: State, h: Hash)
    requires Inv(c, s)
  {
    h in s.store.blocks && IsVerified(s.store, h) ==> SpendsOnce(Entries(Path(c, s.store.blocks, h)))
  }

  ghost predicate VerifiedSound(c: Consensus, s: State)
    requires Inv(c, s)
  {
    forall h :: SoundAt(c, s, h)
  }

  /** The part of the main chain that a switch to `b` keeps. */
  ghost function Kept(c: Consensus, s: State, b: Block): seq<Block>
    requires Inv(c, s) && Fresh(c, s.store.blocks, b)
  {
    AddKeepsTree(c, s.store.blocks, b);
    var main, fork := MainChain(c, s), Path(c, s.store.blocks[b.hash := b], b.hash);
    main[..Common(main, fork)]
  }

  lemma KeptSplits(c: Consensus, s: State, b: Block)
    requires Inv(c, s) && Fresh(c, s.store.blocks, b)
    ensures MainChain(c, s) == Kept(c, s, b) + Detached(c, s, b)
    ensures Tree(c, s.store.blocks[b.hash := b])
    ensures Path(c, s.store.blocks[b.hash := b], b.hash) == Kept(c, s, b) + Attached(c, s, b)
  {
    hide Tree, Path, ExtsOk, EpochsOk, TipBest;
    AddKeepsTree(c, s.store.blocks, b);
    var main, fork := MainChain(c, s), Path(c, s.store.blocks[b.hash := b], b.hash);
    var k := Common(main, fork);
    assert main == main[..k] + main[k..] && fork == fork[..k] + fork[k..];
  }

  lemma NextIsKept(c: Consensus, s: State, r: Request)
    requires Inv(c, s) && Fresh(c, s.store.blocks, r.block) && N.Switches(c, s, r)
    ensures N.NextChain(c, s, r) == Kept(c, s, r.block) + Attached(c, s, r.block)
  {
    hide Tree, ExtsOk, EpochsOk, TipBest, Path, TotalDifficulty, TotalUncles, EpochOf;
    hide Marked, Unverified, NumberIndex, HashIndex, Passes, NewBest;
    KeptSplits(c, s, r.block);
  }

  /** The path to a block in the upper part of a path. */
  lemma PathThrough(c: Consensus, blocks: map<Hash, Block>, h: Hash, kept: seq<Block>, a: seq<Block>, n: nat)
    requires Tree(c, blocks) && h in blocks && Path(c, blocks, h) == kept + a && n < |a|
    ensures a[n].hash in blocks && Path(c, blocks, a[n].hash) == kept + a[..n + 1]
  {
    var fork := Path(c, blocks, h);
    assert fork[|kept| + n] == a[n] && a[n] in fork;
    PathPrefix(c, blocks, h, |kept| + n);
    assert fork[..|kept| + n + 1] == kept + a[..n + 1];
  }

  /** The path to attached block `n`. */
  lemma AttachedPath(c: Consensus, s: State, b: Block, n: nat)
    requires Inv(c, s) && Fresh(c, s.store.blocks, b) && n < |Attached(c, s, b)|
    ensures Tree(c, s.store.blocks[b.hash := b])
    ensures var h := Attached(c, s, b)[n].hash;
      && h in s.store.blocks[b.hash := b]
      && Path(c, s.store.blocks[b.hash := b], h) == Kept(c, s, b) + Attached(c, s, b)[..n + 1]
      && (h in s.store.blocks ==> Path(c, s.store.blocks, h) == Kept(c, s, b) + Attached(c, s, b)[..n + 1])
  {
    hide Kept, Attached, ExtsOk, EpochsOk, TipBest, Path, Tree;
    KeptSplits(c, s, b);
    var kept, a := Kept(c, s, b), Attached(c, s, b);
    PathThrough(c, s.store.blocks[b.hash := b], b.hash, kept, a, n);
    if a[n].hash in s.store.blocks { AddKeepsInheritance(c, s.store.blocks, b, a[n].hash); }
  }

  /** The blocks the reorg has to verify all resolve, each on the overlay of those before it. */
  ghost predicate ReorgResolves(c: Consensus, s: State, b: Block)
    requires Inv(c, s) && Fresh(c, s.store.blocks, b)
  {
    var a := Attached(c, s, b);
    forall n :: 0 <= n < |a| && !IsVerified(s.store, a[n].hash) ==> ResolvedAt(Kept(c, s, b), Detached(c, s, b), a, n)
  }

  /** One of them brings a double spend. */
  ghost predicate ReorgSpoils(c: Consensus, s: State, b: Block)
    requires Inv(c, s) && Fresh(c, s.store.blocks, b)
  {
    var a := Attached(c, s, b);
    exists n :: 0 <= n < |a| && !IsVerified(s.store, a[n].hash) && SpoilsAt(Kept(c, s, b), Detached(c, s, b), a, n)
  }

  /** One of them does so across transactions. */
  ghost predicate ReorgBreaks(c: Consensus, s: State, b: Block)
    requires Inv(c, s) && Fresh(c, s.store.blocks, b)
  {
    var a := Attached(c, s, b);
    exists n :: 0 <= n < |a| && !IsVerified(s.store, a[n].hash) && BreaksAt(Kept(c, s, b), Detached(c, s, b), a, n)
  }

  /** The main chain has no double spend, and so has the part a switch keeps. */
  lemma MainIsSound(c: Consensus, s: State, b: Block)
    requires Inv(c, s) && Fresh(c, s.store.blocks, b) && VerifiedSound(c, s)
    ensures SpendsOnce(Entries(MainChain(c, s))) && WellFormed(Entries(Kept(c, s, b) + Detached(c, s, b)))
    ensures SpendsOnce(Entries(Kept(c, s, b)))
  {
    KeptSplits(c, s, b);
    assert SoundAt(c, s, s.tip.hash);
    hide Tree, Path, Kept, Detached, SpendsOnce, WellFormed, Entries;
    EntriesAppend(Kept(c, s, b), Detached(c, s, b));
    SpendsOncePrefix(Entries(Kept(c, s, b)), Entries(Detached(c, s, b)));
    SpendsOnceWellFormed(Entries(MainChain(c, s)));
  }

  /**
   When the main chains so far are sound and verification resolves every block of the reorg on its
   overlay, the chain adopted has no double spend if and only if no block brings one, and is well
   formed if and only if no block brings one across transactions.
   */
  lemma AdoptedChain(c: Consensus, s: State, r: Request)
    requires Inv(c, s) && Fresh(c, s.store.blocks, r.block) && N.Switches(c, s, r)
    requires VerifiedSound(c, s) && ReorgResolves(c, s, r.block)
    ensures SpendsOnce(Entries(N.NextChain(c, s, r))) <==> !ReorgSpoils(c, s, r.block)
    ensures WellFormed(Entries(N.NextChain(c, s, r))) <==> !ReorgBreaks(c, s, r.block)
  {
    hide Tree, ExtsOk, EpochsOk, TipBest, Path, Kept, Attached, Detached, MainChain, VerifiedSound, N.Switches;
    hide SpendsOnce, WellFormed, Entries, ResolvedAt, SpoilsAt, BreaksAt, N.NextChain;
    var b := r.block;
    var kept, d, a := Kept(c, s, b), Detached(c, s, b), Attached(c, s, b);
    var good := set i | 0 <= i < |a| && IsVerified(s.store, a[i].hash);
    NextIsKept(c, s, r);
    MainIsSound(c, s, b);
    forall i | 0 <= i < |a| && i in good
      ensures SpendsOnce(Entries(kept + a[..i + 1])) && WellFormed(Entries(kept + a[..i + 1]))
    {
      VerifiedBlock(c, s, b, i);
      SpendsOnceWellFormed(Entries(kept + a[..i + 1]));
    }
    SpendsOnceWellFormed(Entries(kept));
    BranchSpendsOnce(kept, d, a, good, |a|);
    BranchWellFormed(kept, d, a, good, |a|);
    assert a[..|a|] == a;
  }

  lemma VerifiedBlock(c: Consensus, s: State, b: Block, i: nat)
    requires Inv(c, s) && Fresh(c, s.store.blocks, b) && VerifiedSound(c, s)
    requires i < |Attached(c, s, b)| && IsVerified(s.store, Attached(c, s, b)[i].hash)
    ensures SpendsOnce(Entries(Kept(c, s, b) + Attached(c, s, b)[..i + 1]))
  {
    var h := Attached(c, s, b)[i].hash;
    AttachedPath(c, s, b, i);
    assert SoundAt(c, s, h);
  }

  /** A block on top of the tip has nothing to respend, so only its own aliases can bring a double spend. */
  lemma TipExtension(c: Consensus, s: State, b: Block)
    requires Inv(c, s) && Fresh(c, s.store.blocks, b) && b.parent == s.tip.hash
    ensures ReorgSpoils(c, s, b) <==> !InputsUnaliased(b.transactions)
    ensures ReorgBreaks(c, s, b) <==> !UnaliasedAcross(b.transactions)
  {
    AddedInherits(c, s.store.blocks, b);
    var main, fork := MainChain(c, s), Path(c, s.store.blocks[b.hash := b], b.hash);
    assert fork == main + [b];
    CommonIs(main, fork, |main|);
    var a := Attached(c, s, b);
    assert a == [b];
    assert !IsVerified(s.store, b.hash);
    hide Path, Tree, MainChain, Attached, Detached, Kept, InputsUnaliased, UnaliasedAcross;
    assert Entries(a[..0]) == [] && Spent([]) == {};
    assert !RespendsAt(Kept(c, s, b), Detached(c, s, b), a, 0);
    assert SpoilsAt(Kept(c, s, b), Detached(c, s, b), a, 0) <==> !InputsUnaliased(b.transactions);
    assert BreaksAt(Kept(c, s, b), Detached(c, s, b), a, 0) <==> !UnaliasedAcross(b.transactions);
  }

  // ---------------------------------------------------------------- runs

  /** A request that adopts a chain without double spends keeps every verified path free of them. */
  lemma StepKeepsSound(c: Consensus, s: State, r: Request)
    requires Inv(c, s) && Fresh(c, s.store.blocks, r.block) && VerifiedSound(c, s)
    requires N.Switches(c, s, r) ==> SpendsOnce(Entries(N.NextChain(c, s, r)))
    ensures Inv(c, Step(c, s, r)) && VerifiedSound(c, Step(c, s, r))
  {
    StepKeepsInv(c, s, r);
    forall h ensures SoundAt(c, Step(c, s, r), h) { StepSoundAt(c, s, r, h); }
  }

  lemma StepSoundAt(c: Consensus, s: State, r: Request, h: Hash)
    requires Inv(c, s) && Fresh(c, s.store.blocks, r.block) && VerifiedSound(c, s) && Inv(c, Step(c, s, r))
    requires N.Switches(c, s, r) ==> SpendsOnce(Entries(N.NextChain(c, s, r)))
    ensures SoundAt(c, Step(c, s, r), h)
  {
    hide SpendsOnce, Entries, TotalDifficulty, TotalUncles, EpochOf, NewBest;
    var t := Step(c, s, r);
    assert SoundAt(c, s, h);
    if Accepts(c, s, r) {
      if h in s.store.blocks { AddKeepsInheritance(c, s.store.blocks, r.block, h); }
      if N.Switches(c, s, r) && h in t.store.blocks && IsVerified(t.store, h) && !IsVerified(s.store, h) {
        NewlyVerified(c, s, r, h);
      }
    }
  }

  /** A block verified by the reorg lies on the chain adopted. */
  lemma NewlyVerified(c: Consensus, s: State, r: Request, h: Hash)
    requires Inv(c, s) && Fresh(c, s.store.blocks, r.block) && N.Switches(c, s, r) && Inv(c, Step(c, s, r))
    requires SpendsOnce(Entries(N.NextChain(c, s, r)))
    requires h in Step(c, s, r).store.blocks && IsVerified(Step(c, s, r).store, h) && !IsVerified(s.store, h)
    ensures SpendsOnce(Entries(Path(c, Step(c, s, r).store.blocks, h)))
  {
    hide *;
    var n, kept, a := OnNewBranch(c, s, r, h);
    NextIsKept(c, s, r);
    AttachedPath(c, s, r.block, n);
    BranchPrefix(kept, a, n + 1);
  }

  lemma OnNewBranch(c: Consensus, s: State, r: Request, h: Hash) returns (n: nat, kept: seq<Block>, a: seq<Block>)
    requires Inv(c, s) && Fresh(c, s.store.blocks, r.block) && N.Switches(c, s, r)
    requires IsVerified(Step(c, s, r).store, h) && !IsVerified(s.store, h)
    ensures kept == Kept(c, s, r.block) && a == Attached(c, s, r.block) && n < |a| && a[n].hash == h
    ensures Step(c, s, r).store.blocks == s.store.blocks[r.block.hash := r.block]
  {
    hide Path, Tree, ExtsOk, EpochsOk, TipBest, TotalDifficulty, TotalUncles, EpochOf;
    hide NumberIndex, HashIndex, NewBest, Passes;
    kept, a := Kept(c, s, r.block), Attached(c, s, r.block);
    assert h in Unverified(Stored(c, s.store, r.block), a);
    var x :| x in a && x.hash == h;
    n :| 0 <= n < |a| && a[n] == x;
  }

  /** Every reorg of the run resolves its blocks on their overlays. */
  ghost predicate Resolving(c: Consensus, s: State, rs: seq<Request>)
    requires Inv(c, s) && CanRun(c, s, rs)
    decreases |rs|
  {
    rs == [] ||
    ((N.Switches(c, s, rs[0]) ==> ReorgResolves(c, s, rs[0].block)) &&
     (StepKeepsInv(c, s, rs[0]); Resolving(c, Step(c, s, rs[0]), rs[1..])))
  }

  /** No block of the run brings a double spend. */
  ghost predicate Unspoiled(c: Consensus, s: State, rs: seq<Request>)
    requires Inv(c, s) && CanRun(c, s, rs)
    decreases |rs|
  {
    rs == [] ||
    ((N.Switches(c, s, rs[0]) ==> !ReorgSpoils(c, s, rs[0].block)) &&
     (StepKeepsInv(c, s, rs[0]); Unspoiled(c, Step(c, s, rs[0]), rs[1..])))
  }

  /** Every main chain of the run is free of double spends. */
  ghost predicate AlwaysSpendsOnce(c: Consensus, s: State, rs: seq<Request>)
    requires Inv(c, s) && CanRun(c, s, rs)
    decreases |rs|
  {
    && SpendsOnce(Entries(MainChain(c, s)))
    && (rs == [] || (StepKeepsInv(c, s, rs[0]); AlwaysSpendsOnce(c, Step(c, s, rs[0]), rs[1..])))
  }

  /**
   Over every run whose reorgs resolve on their overlays, the main chains stay free of double spends
   if and only if no block brings one; then every verified path stays free of them, too.
   */
  lemma {:induction false} RunSpendsOnce(c: Consensus, s: State, rs: seq<Request>)
    requires Inv(c, s) && CanRun(c, s, rs) && VerifiedSound(c, s) && Resolving(c, s, rs)
    ensures AlwaysSpendsOnce(c, s, rs) <==> Unspoiled(c, s, rs)
    ensures Unspoiled(c, s, rs) ==> N.Sound(c, s, rs) && VerifiedSound(c, Run(c, s, rs))
    decreases |rs|
  {
    hide VerifiedSound, ReorgResolves, ReorgSpoils, ReorgBreaks, WellFormed, SpendsOnce, Step, N.Switches, Entries, MainChain;
    MainWellFormed(c, s);
    if rs != [] {
      StepKeepsInv(c, s, rs[0]);
      if N.Switches(c, s, rs[0]) { AdoptedChain(c, s, rs[0]); }
      if N.Switches(c, s, rs[0]) && ReorgSpoils(c, s, rs[0].block) {
        assert !SpendsOnce(Entries(MainChain(c, Step(c, s, rs[0]))));
      } else {
        StepKeepsSound(c, s, rs[0]);
        RunSpendsOnce(c, Step(c, s, rs[0]), rs[1..]);
      }
    }
  }

  lemma MainWellFormed(c: Consensus, s: State)
    requires Inv(c, s) && VerifiedSound(c, s)
    ensures SpendsOnce(Entries(MainChain(c, s))) && WellFormed(Entries(MainChain(c, s)))
  {
    assert SoundAt(c, s, s.tip.hash);
    hide SpendsOnce, Entries, WellFormed;
    SpendsOnceWellFormed(Entries(MainChain(c, s)));
  }

  lemma {:induction false} SpendsNothingOnce(es: seq<Entry>)
    requires WellFormed(es) && Spent(es) == {}
    ensures SpendsOnce(es)
    decreases |es|
  {
    if es != [] {
      LastEntry(es);
      SpendsNothingOnce(es[..|es| - 1]);
      assert forall op :: op in es[|es| - 1].tx.inputs ==> op.cell.None?;
    }
  }

  lemma GenesisIsSound(c: Consensus)
    requires c.Valid() && WellFormed(BlockEntries(c.genesis)) && Spent(BlockEntries(c.genesis)) == {}
    ensures Inv(c, Genesis(c)) && VerifiedSound(c, Genesis(c))
    ensures CS.InsertedAll(map[], BlockEntries(c.genesis)) == N.ReplayOf(MainChain(c, Genesis(c)))
  {
    N.GenesisMain(c);
    N.GenesisReplay(BlockEntries(c.genesis));
    SpendsNothingOnce(BlockEntries(c.genesis));
    forall h ensures SoundAt(c, Genesis(c), h) {}
  }

  /** The three conditions on a run, for requests served from genesis on. */
  ghost predicate ResolvingRequests(c: Consensus, rs: seq<Request>)
    requires c.Valid() && Served(c, rs)
  {
    GenesisInv(c);
    Resolving(c, Genesis(c), rs)
  }

  ghost predicate UnspoiledRequests(c: Consensus, rs: seq<Request>)
    requires c.Valid() && Served(c, rs)
  {
    GenesisInv(c);
    Unspoiled(c, Genesis(c), rs)
  }

  ghost predicate ServedSpendingOnce(c: Consensus, rs: seq<Request>)
    requires c.Valid() && Served(c, rs)
  {
    GenesisInv(c);
    AlwaysSpendsOnce(c, Genesis(c), rs)
  }

  /** `m` may be the cell set after the requests, from the one written for genesis on. */
  ghost predicate CellsAfter(c: Consensus, rs: seq<Request>, m: Cells)
    requires c.Valid() && Served(c, rs)
  {
    GenesisInv(c);
    N.CellsRun(c, Genesis(c), CS.InsertedAll(map[], BlockEntries(c.genesis)), rs, m)
  }

  /**
   From genesis on, over every run whose reorgs resolve, the main chains spend every output at most
   once if and only if no block brings a double spend; and then the one possible cell set is the
   replay of the main chain.
   */
  lemma ServedRun(c: Consensus, rs: seq<Request>, m: Cells)
    requires c.Valid() && Served(c, rs) && ResolvingRequests(c, rs)
    requires WellFormed(BlockEntries(c.genesis)) && Spent(BlockEntries(c.genesis)) == {}
    ensures ServedSpendingOnce(c, rs) <==> UnspoiledRequests(c, rs)
    ensures UnspoiledRequests(c, rs) ==> SpendsOnce(Entries(MainChain(c, After(c, rs))))
    ensures UnspoiledRequests(c, rs) ==> (CellsAfter(c, rs, m) <==> m == N.ReplayOf(MainChain(c, After(c, rs))))
  {
    hide VerifiedSound, SpendsOnce, WellFormed, Entries, N.ReplayOf, N.CellsRun, MainChain;
    hide Resolving, Unspoiled, AlwaysSpendsOnce;
    GenesisIsSound(c);
    RunSpendsOnce(c, Genesis(c), rs);
    if UnspoiledRequests(c, rs) {
      MainWellFormed(c, After(c, rs));
      N.RunReplays(c, Genesis(c), rs, m);
    }
  }
}
