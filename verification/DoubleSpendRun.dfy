/**
 A run of five blocks in which verification lets a double spend through. The main chain holds a heavy
 block; three lighter ones arrive on a side branch, and the last of them wins. Every block resolves on
 its overlay, and the third spends again what the second has spent.
 */
module DoubleSpendRun {
  import opened CkbTypes
  import opened BlockTree
  import opened ForkChoice
  import opened CellSets
  import opened CellReplay
  import opened ChainSoundness
  import opened ReorgSoundness
  import N = Node
  import O = CellOverlay
  import R = Resolution
  import X = SequentialExecution

  /** A block of one transaction. */
  function OneTx(hash: Hash, parent: Hash, number: nat, difficulty: nat, tx: Transaction): Block {
    Block(hash, parent, number, 0, difficulty, 0, [tx])
  }

  function G(): Block { OneTx(101, 0, 0, 1, O.OneOutput(1, [])) }
  function Heavy(): Block { OneTx(109, 101, 1, 10, O.OneOutput(9, [])) }
  function First(): Block { OneTx(102, 101, 1, 1, O.OneOutput(2, [O.FirstOutput(1)])) }
  function Second(): Block { OneTx(103, 102, 2, 1, O.OneOutput(3, [O.FirstOutput(2)])) }
  function Third(): Block { OneTx(104, 103, 3, 20, O.OneOutput(4, [O.FirstOutput(2)])) }

  ghost function C(): Consensus {
    Consensus(G(), EpochExt(0, 0, 0, 1000, 1), (e: EpochExt, b: Block) => None)
  }

  function Ask(b: Block): Request {
    Request(b, true, true, (x: Block) => Valid([]))
  }

  // ---------------------------------------------------------------- steps of the run

  /** What the example needs to know of a state. */
  ghost predicate Stage(s: State, blocks: map<Hash, Block>, tip: Block, total: nat, verified: set<Hash>) {
    && Inv(C(), s)
    && s.store.blocks == blocks && s.tip == tip && s.totalDifficulty == total
    && forall h :: IsVerified(s.store, h) <==> h in verified
  }

  /** A block too light to win is stored, unverified. */
  lemma SideStep(s: State, b: Block, verified: set<Hash>)
    requires Stage(s, s.store.blocks, s.tip, s.totalDifficulty, verified) && Fresh(C(), s.store.blocks, b)
    requires TotalDifficulty(C(), s.store.blocks, b.parent) + b.difficulty < s.totalDifficulty
    ensures !N.Switches(C(), s, Ask(b))
    ensures Stage(Step(C(), s, Ask(b)), s.store.blocks[b.hash := b], s.tip, s.totalDifficulty, verified)
  {
    StepKeepsInv(C(), s, Ask(b));
    hide Tree, ExtsOk, EpochsOk, TipOk, TipBest, TotalDifficulty, TotalUncles, EpochOf;
    var t := Step(C(), s, Ask(b));
    assert t == s.(store := Stored(C(), s.store, b));
    assert b.hash !in verified by { hide Stored; VerifiedIsStored(s, b.hash); }
  }

  lemma VerifiedIsStored(s: State, h: Hash)
    requires Inv(C(), s)
    ensures IsVerified(s.store, h) ==> h in s.store.blocks
  {
  }

  lemma TipShape(s: State, b: Block)
    requires Inv(C(), s) && Fresh(C(), s.store.blocks, b) && b.parent == s.tip.hash
    ensures Attached(C(), s, b) == [b] && Detached(C(), s, b) == [] && Kept(C(), s, b) == MainChain(C(), s)
    ensures N.Switches(C(), s, Ask(b))
  {
    AddedInherits(C(), s.store.blocks, b);
    hide ExtsOk, EpochsOk, TipBest, TotalUncles, EpochOf;
    var main, fork := MainChain(C(), s), Path(C(), s.store.blocks[b.hash := b], b.hash);
    assert fork == main + [b];
    CommonIs(main, fork, |main|);
    hide Tree, Path;
    assert Attached(C(), s, b) == [b] && Detached(C(), s, b) == [];
    assert main[..|main|] == main;
  }

  /** The fields of the state after a block on top of the tip. */
  lemma TipFields(s: State, b: Block)
    requires Inv(C(), s) && Fresh(C(), s.store.blocks, b) && b.parent == s.tip.hash
    ensures var t, st := Step(C(), s, Ask(b)), Stored(C(), s.store, b);
      && t.store.blocks == s.store.blocks[b.hash := b] && t.tip == b
      && t.totalDifficulty == s.totalDifficulty + b.difficulty
      && t.store.exts == Marked(st, {b.hash}, Ask(b))
  {
    TipShape(s, b);
    AddedInherits(C(), s.store.blocks, b);
    hide Tree, ExtsOk, EpochsOk, TipBest, TotalUncles, EpochOf, Path, TotalDifficulty, Passes, Marked, Unverified, NewBest;
    var st := Stored(C(), s.store, b);
    assert Step(C(), s, Ask(b)) == Switched(C(), s, Ask(b));
    OnlyUnverified(st, b);
    assert Unverified(st, Attached(C(), s, b)) == {b.hash};
  }

  /** A block on top of the tip wins and is verified. */
  lemma TipStep(s: State, b: Block, verified: set<Hash>)
    requires Stage(s, s.store.blocks, s.tip, s.totalDifficulty, verified) && Fresh(C(), s.store.blocks, b)
    requires b.parent == s.tip.hash
    ensures Stage(Step(C(), s, Ask(b)), s.store.blocks[b.hash := b], b, s.totalDifficulty + b.difficulty, verified + {b.hash})
  {
    StoredKeys(s, b);
    hide Tree, ExtsOk, EpochsOk, TipOk, TipBest, TotalUncles, EpochOf, TotalDifficulty, Marked, Step, Inv, C, Ask;
    StepKeepsInv(C(), s, Ask(b));
    TipFields(s, b);
    MarkedChanges(Stored(C(), s.store, b), {b.hash}, Ask(b));
  }

  lemma OnlyUnverified(st: Store, b: Block)
    requires b.hash in st.exts && st.exts[b.hash].verified == None
    ensures Unverified(st, [b]) == {b.hash}
  {
    assert b in [b];
  }

  lemma StoredKeys(s: State, b: Block)
    requires Inv(C(), s) && Fresh(C(), s.store.blocks, b)
    ensures var st := Stored(C(), s.store, b); st.exts.Keys == st.blocks.Keys && b.hash in st.blocks
  {
  }

  function B0(): map<Hash, Block> { map[101 := G()] }
  function B1(): map<Hash, Block> { B0()[109 := Heavy()] }
  function B2(): map<Hash, Block> { B1()[102 := First()] }
  function B3(): map<Hash, Block> { B2()[103 := Second()] }

  lemma Start()
    ensures C().Valid() && Stage(Genesis(C()), B0(), G(), 1, {101})
  {
    GenesisInv(C());
  }

  lemma HeavyWins(s: State)
    requires Stage(s, B0(), G(), 1, {101})
    ensures Inv(C(), s)
    ensures Fresh(C(), s.store.blocks, Heavy()) && Stage(Step(C(), s, Ask(Heavy())), B1(), Heavy(), 11, {101, 109})
    ensures Attached(C(), s, Heavy()) == [Heavy()] && Detached(C(), s, Heavy()) == [] && Kept(C(), s, Heavy()) == [G()]
  {
    assert MainChain(C(), s) == [G()];
    hide Tree, ExtsOk, EpochsOk, TipBest, Path, Attached, Detached, Kept, MainChain, Step;
    TipShape(s, Heavy());
    TipStep(s, Heavy(), {101});
    assert {101} + {109} == {101, 109};
  }

  lemma FirstIsStored(s: State)
    requires Stage(s, B1(), Heavy(), 11, {101, 109})
    ensures Inv(C(), s)
    ensures Fresh(C(), s.store.blocks, First()) && !N.Switches(C(), s, Ask(First()))
    ensures Stage(Step(C(), s, Ask(First())), B2(), Heavy(), 11, {101, 109})
  {
    assert TotalDifficulty(C(), B1(), 101) == 1;
    SideStep(s, First(), {101, 109});
  }

  lemma SecondIsStored(s: State)
    requires Stage(s, B2(), Heavy(), 11, {101, 109})
    ensures Inv(C(), s)
    ensures Fresh(C(), s.store.blocks, Second()) && !N.Switches(C(), s, Ask(Second()))
    ensures Stage(Step(C(), s, Ask(Second())), B3(), Heavy(), 11, {101, 109})
  {
    assert TotalDifficulty(C(), B2(), 101) == 1;
    assert TotalDifficulty(C(), B2(), 102) == 2;
    SideStep(s, Second(), {101, 109});
  }

  /** The two paths when the third block arrives. */
  lemma Paths()
    requires Tree(C(), B3())
    ensures Path(C(), B3(), 109) == [G(), Heavy()] && Path(C(), B3(), 103) == [G(), First(), Second()]
    ensures TotalDifficulty(C(), B3(), 103) == 3
  {
    assert Path(C(), B3(), 101) == [G()] && TotalDifficulty(C(), B3(), 101) == 1;
    assert Path(C(), B3(), 102) == [G(), First()] && TotalDifficulty(C(), B3(), 102) == 2;
  }

  lemma ThirdWins(s: State)
    requires Stage(s, B3(), Heavy(), 11, {101, 109})
    ensures Inv(C(), s)
    ensures Fresh(C(), s.store.blocks, Third()) && N.Switches(C(), s, Ask(Third()))
    ensures Kept(C(), s, Third()) == [G()] && Detached(C(), s, Third()) == [Heavy()]
    ensures Attached(C(), s, Third()) == [First(), Second(), Third()]
  {
    Paths();
    AddedInherits(C(), B3(), Third());
    hide Tree, ExtsOk, EpochsOk, TipBest, TotalDifficulty, TotalUncles, EpochOf, Path;
    var main, fork := [G(), Heavy()], [G(), First(), Second(), Third()];
    assert Path(C(), B3()[104 := Third()], 104) == fork;
    assert main[..1] == [G()] == fork[..1];
    CommonIs(main, fork, 1);
  }

  // ---------------------------------------------------------------- what its blocks resolve on

  lemma BranchEntries()
    ensures Entries([G()]) == O.CommonPart() && Entries([Heavy()]) == O.OldBranch() && Entries([]) == []
    ensures Entries([First()]) == O.NewBranch()[..1] && Entries([First(), Second()]) == O.NewBranch()
  {
    assert [G()][..0] == [] && [Heavy()][..0] == [] && [First()][..0] == [] && [First(), Second()][..1] == [First()];
    assert BlockEntries(G()) == O.CommonPart() && BlockEntries(Heavy()) == O.OldBranch();
    assert BlockEntries(First()) == O.NewBranch()[..1] && BlockEntries(Second()) == O.NewBranch()[1..];
    assert O.NewBranch()[..1] + O.NewBranch()[1..] == O.NewBranch();
  }

  /** A block that spends one output, live in the overlay, is resolved by the provider over it. */
  lemma ResolvesOnOverlay(o: O.Overlay, b: Block, hash: Hash, from: Hash)
    requires b.transactions == [O.OneOutput(hash, [O.FirstOutput(from)])] && from !in {hash, R.ISSUING_DAO_HASH}
    requires O.LiveIn(o, CellOutPoint(from, 0))
    ensures exists base, headers, rs :: Provides(base, o) && R.BlockResolves(b, base, headers, rs)
  {
    var base := OverlayProvider(o, c => CellOutput(1, Script(0, 0), None));
    OneSpendResolves(b, hash, from, base, X.AnyHeader());
    var rs :| R.BlockResolves(b, base, X.AnyHeader(), rs);
    assert Provides(base, o) && R.BlockResolves(b, base, X.AnyHeader(), rs);
  }

  /** A block that spends nothing is resolved by any provider. */
  lemma ResolvesWithoutInputs(o: O.Overlay, b: Block, hash: Hash)
    requires b.transactions == [O.OneOutput(hash, [])]
    ensures exists base, headers, rs :: Provides(base, o) && R.BlockResolves(b, base, headers, rs)
  {
    var base := OverlayProvider(o, c => CellOutput(1, Script(0, 0), None));
    var rs := [R.ResolvedTransaction([], [])];
    assert R.Points(b.transactions[0]) == [];
    assert R.ResolvesAt(b, base, X.AnyHeader(), 0, rs[0]);
    assert Provides(base, o) && R.BlockResolves(b, base, X.AnyHeader(), rs);
  }

  lemma NewOneSpend(es: seq<Entry>, b: Block, hash: Hash, from: Hash)
    requires b.transactions == [O.OneOutput(hash, [O.FirstOutput(from)])] && R.ISSUING_DAO_HASH !in {from, hash}
    requires hash !in HashesOf(es)
    ensures NewTransactions(es, b)
  {
    forall q | q in b.transactions[0].inputs ensures q == O.FirstOutput(from) {}
  }

  /** An output that a well-formed new branch has made and not spent looks live in the overlay. */
  lemma LooksLive(common: seq<Entry>, detached: seq<Entry>, attached: seq<Entry>, e: Entry)
    requires WellFormed(common + detached) && WellFormed(common + attached)
    requires e in common + attached && |e.tx.outputs| > 0 && CellOutPoint(e.tx.hash, 0) !in Spent(common + attached)
    ensures O.LiveIn(ReorgOverlay(common, detached, attached), CellOutPoint(e.tx.hash, 0))
  {
    var c := CellOutPoint(e.tx.hash, 0);
    ReplayHolds(common + attached);
    assert Live(Replay(common + attached), c);
    hide Replay, WellFormed, O.OverlayOf, O.LiveIn;
    O.OverlayLiveness(common, detached, attached, c);
  }

  ghost function Branch(): seq<Block> { [First(), Second(), Third()] }

  lemma FirstResolves()
    ensures ResolvedAt([G()], [Heavy()], Branch(), 0)
  {
    BranchEntries();
    O.BranchesWellFormed();
    CommonAlone();
    var c, o := O.CommonPart(), O.OldBranch();
    assert Branch()[..0] == [] && c + [] == c;
    assert c[0].tx.hash == 1 && |c[0].tx.outputs| == 1;
    hide WellFormed, Spent, HashesOf, Entries, O.CommonPart, O.OldBranch;
    NewOneSpend(c, First(), 2, 1);
    LooksLive(c, o, [], c[0]);
    hide O.LiveIn, O.OverlayOf, ReorgOverlay, NewTransactions, Provides, R.BlockResolves;
    ResolvesOnOverlay(ReorgOverlay(c, o, []), First(), 2, 1);
  }

  lemma CommonAlone()
    ensures var c := O.CommonPart(); |c| == 1 && c[0] in c && WellFormed(c) && Spent(c) == {} && HashesOf(c) == {1}
  {
    var c := O.CommonPart();
    assert c[0] in c;
  }

  lemma SecondResolves()
    ensures ResolvedAt([G()], [Heavy()], Branch(), 1)
  {
    BranchEntries();
    O.BranchesWellFormed();
    var c, n := O.CommonPart(), O.NewBranch()[..1];
    assert Branch()[..1] == [First()];
    FirstPart();
    NewOneSpend(c + n, Second(), 3, 2);
    assert n[0] in c + n;
    LooksLive(c, O.OldBranch(), n, n[0]);
    hide O.LiveIn, O.OverlayOf, ReorgOverlay, NewTransactions, Provides, R.BlockResolves;
    ResolvesOnOverlay(ReorgOverlay(c, O.OldBranch(), n), Second(), 3, 2);
  }

  lemma FirstPart()
    ensures var es := O.CommonPart() + O.NewBranch()[..1];
      WellFormed(es) && HashesOf(es) == {1, 2} && CellOutPoint(2, 0) !in Spent(es)
  {
    O.BranchesWellFormed();
    var c, n := O.CommonPart(), O.NewBranch();
    assert (c + n)[..2] == c + n[..1];
    var es := c + n[..1];
    assert es == [c[0], n[0]];
    forall e | e in es ensures e == c[0] || e == n[0] {}
    assert c[0] in es && n[0] in es;
  }

  lemma ThirdResolves()
    ensures ResolvedAt([G()], [Heavy()], Branch(), 2) && RespendsAt([G()], [Heavy()], Branch(), 2)
  {
    var c, o, n := O.CommonPart(), O.OldBranch(), O.NewBranch();
    BranchEntries();
    assert Branch()[..2] == [First(), Second()];
    hide O.LiveIn, O.OverlayOf, ReorgOverlay, NewTransactions, Provides, R.BlockResolves, Respends, Entries, WellFormed;
    ThirdIsSecondSpend();
    ThirdLooksLive();
    ResolvesOnOverlay(ReorgOverlay(c, o, n), Third(), 4, 2);
  }

  lemma ThirdLooksLive()
    ensures O.LiveIn(ReorgOverlay(O.CommonPart(), O.OldBranch(), O.NewBranch()), CellOutPoint(2, 0))
  {
    hide O.LiveIn, O.OverlayOf;
    O.OverlayMissesSpend();
  }

  lemma ThirdIsSecondSpend()
    ensures NewTransactions(O.CommonPart() + O.NewBranch(), Third())
    ensures Respends(O.CommonPart() + O.OldBranch(), O.NewBranch(), Third())
  {
    SecondSpendRespends();
    assert Third().transactions == SecondSpend().transactions;
    hide HashesOf, Spent, O.CommonPart, O.OldBranch, O.NewBranch, R.IsIssuingDao;
  }

  lemma HeavyResolves()
    ensures ResolvedAt([G()], [], [Heavy()], 0)
  {
    BranchEntries();
    assert [Heavy()][..0] == [] && O.CommonPart() + [] == O.CommonPart();
    assert NewTransactions(O.CommonPart(), Heavy()) by {
      forall e | e in O.CommonPart() ensures e.tx.hash == 1 {}
    }
    hide O.LiveIn, O.OverlayOf, ReorgOverlay, NewTransactions, Provides, R.BlockResolves;
    ResolvesWithoutInputs(ReorgOverlay(O.CommonPart(), [], []), Heavy(), 9);
  }

  // ---------------------------------------------------------------- the run

  ghost function Asks(): seq<Request> { [Ask(Heavy()), Ask(First()), Ask(Second()), Ask(Third())] }

  /** When the third block arrives, the premises of `AdoptedChain` hold and its conclusion is the failing one. */
  lemma ThirdSpoils(s: State)
    requires Stage(s, B3(), Heavy(), 11, {101, 109})
    ensures Inv(C(), s)
    ensures Fresh(C(), s.store.blocks, Third()) && N.Switches(C(), s, Ask(Third()))
    ensures ReorgResolves(C(), s, Third()) && ReorgSpoils(C(), s, Third())
  {
    NotVerified(s);
    hide *;
    ThirdWins(s);
    FirstResolves();
    SecondResolves();
    ThirdResolves();
    ReorgIs(s, Third(), [G()], [Heavy()], Branch());
  }

  lemma NotVerified(s: State)
    requires Stage(s, B3(), Heavy(), 11, {101, 109})
    ensures |Branch()| == 3 && !IsVerified(s.store, Branch()[2].hash) && Branch() == [First(), Second(), Third()]
  {
  }

  /** The conditions on a reorg of three blocks, the last of which respends. */
  lemma ReorgIs(s: State, b: Block, kept: seq<Block>, d: seq<Block>, a: seq<Block>)
    requires Inv(C(), s) && Fresh(C(), s.store.blocks, b) && |a| == 3
    requires Kept(C(), s, b) == kept && Detached(C(), s, b) == d && Attached(C(), s, b) == a
    requires ResolvedAt(kept, d, a, 0) && ResolvedAt(kept, d, a, 1) && ResolvedAt(kept, d, a, 2)
    requires !IsVerified(s.store, a[2].hash) && RespendsAt(kept, d, a, 2)
    ensures ReorgResolves(C(), s, b) && ReorgSpoils(C(), s, b)
  {
    hide ExtsOk, EpochsOk, TipBest, Path, Kept, Attached, Detached, ResolvedAt, RespendsAt, InputsUnaliased, C;
    assert SpoilsAt(kept, d, a, 2);
  }

  lemma HeavyIsVetted(s: State)
    requires Stage(s, B0(), G(), 1, {101})
    ensures Inv(C(), s)
    ensures Fresh(C(), s.store.blocks, Heavy()) && ReorgResolves(C(), s, Heavy())
  {
    HeavyWins(s);
    HeavyResolves();
    hide Inv, Kept, Attached, Detached, ResolvedAt;
  }

  /** From state `s` the requests can be made, every reorg resolves, and one of them spoils. */
  ghost predicate Fails(s: State, rs: seq<Request>) {
    Inv(C(), s) && CanRun(C(), s, rs) && Resolving(C(), s, rs) && !Unspoiled(C(), s, rs)
  }

  lemma FailsLater(s: State, r: Request, rs: seq<Request>)
    requires Inv(C(), s) && Fresh(C(), s.store.blocks, r.block) && Fails(Step(C(), s, r), rs)
    requires N.Switches(C(), s, r) ==> ReorgResolves(C(), s, r.block)
    ensures Fails(s, [r] + rs)
  {
    hide Inv, Fresh, Step, ReorgResolves, ReorgSpoils, N.Switches, C;
    assert ([r] + rs)[1..] == rs;
  }

  lemma FailsNow(s: State, r: Request)
    requires Inv(C(), s) && Fresh(C(), s.store.blocks, r.block) && N.Switches(C(), s, r)
    requires ReorgResolves(C(), s, r.block) && ReorgSpoils(C(), s, r.block)
    ensures Fails(s, [r])
  {
    hide Inv, Fresh, Step, ReorgResolves, ReorgSpoils, N.Switches, C;
    StepKeepsInv(C(), s, r);
    var t, rs := Step(C(), s, r), [r];
    assert CanRun(C(), t, []) && Resolving(C(), t, []);
    assert rs[0] == r && rs[1..] == [];
    assert CanRun(C(), s, rs);
    assert Resolving(C(), s, rs);
    assert !Unspoiled(C(), s, rs);
  }

  lemma RunFails()
    ensures C().Valid() && Fails(Genesis(C()), Asks())
  {
    assert Asks() == [Ask(Heavy())] + ([Ask(First())] + ([Ask(Second())] + [Ask(Third())]));
    hide *;
    Start();
    FromGenesis(Genesis(C()));
  }

  lemma FromGenesis(s: State)
    requires Stage(s, B0(), G(), 1, {101})
    ensures Fails(s, [Ask(Heavy())] + ([Ask(First())] + ([Ask(Second())] + [Ask(Third())])))
  {
    var r := Ask(Heavy());
    assert r.block == Heavy();
    hide *;
    HeavyWins(s);
    HeavyIsVetted(s);
    FromHeavy(Step(C(), s, r));
    FailsLater(s, r, [Ask(First())] + ([Ask(Second())] + [Ask(Third())]));
  }

  lemma FromHeavy(s: State)
    requires Stage(s, B1(), Heavy(), 11, {101, 109})
    ensures Fails(s, [Ask(First())] + ([Ask(Second())] + [Ask(Third())]))
  {
    var r := Ask(First());
    assert r.block == First();
    hide *;
    FirstIsStored(s);
    FromFirst(Step(C(), s, r));
    FailsLater(s, r, [Ask(Second())] + [Ask(Third())]);
  }

  lemma FromFirst(s: State)
    requires Stage(s, B2(), Heavy(), 11, {101, 109})
    ensures Fails(s, [Ask(Second())] + [Ask(Third())])
  {
    var r, last := Ask(Second()), Ask(Third());
    assert r.block == Second() && last.block == Third();
    hide *;
    SecondIsStored(s);
    var t := Step(C(), s, r);
    ThirdSpoils(t);
    FailsNow(t, last);
    FailsLater(s, r, [last]);
  }

  /**
   The blocks can be served from genesis on, all their reorgs resolve, and a main chain of the run
   spends a cell twice. So the condition of `ServedRun` is one that runs do fail.
   */
  lemma DoubleSpendAdopted()
    ensures C().Valid() && Served(C(), Asks()) && ResolvingRequests(C(), Asks())
    ensures !UnspoiledRequests(C(), Asks()) && !ServedSpendingOnce(C(), Asks())
  {
    RunFails();
    GenesisFacts();
    hide Genesis, CanRun, Resolving, Unspoiled, AlwaysSpendsOnce, WellFormed, Spent, BlockEntries, Asks, C;
    ServedRun(C(), Asks(), map[]);
  }

  lemma GenesisFacts()
    ensures WellFormed(BlockEntries(C().genesis)) && Spent(BlockEntries(C().genesis)) == {}
  {
    BranchEntries();
    assert BlockEntries(G()) == O.CommonPart();
  }
}
