/** The ordered writes of a store batch, and what a whole batch does to the store on commit. */
module StoreBatch {
  import opened CkbTypes
  import opened BlockTree
  import opened ForkChoice

  datatype Write =
    | InsertBlock(block: Block)
    | InsertBlockExt(hash: Hash, ext: BlockExt)
    | InsertTipHeader(hash: Hash)
    | InsertCurrentEpochExt(epoch: EpochExt)
    | InsertBlockEpochIndex(hash: Hash, key: Hash)
    | InsertEpochExt(key: Hash, epoch: EpochExt)
    | AttachBlock(block: Block)
    | DetachBlock(block: Block)

  function Apply(s: Store, w: Write): Store {
    match w
    case InsertBlock(b) => s.(blocks := s.blocks[b.hash := b])
    case InsertBlockExt(h, e) => s.(exts := s.exts[h := e])
    case InsertTipHeader(h) => s.(tipHeader := h)
    case InsertCurrentEpochExt(e) => s.(currentEpoch := e)
    case InsertBlockEpochIndex(h, k) => s.(blockEpochIndex := s.blockEpochIndex[h := k])
    case InsertEpochExt(k, e) => s.(epochs := s.epochs[k := e])
    case AttachBlock(b) => s.(index := s.index[b.number := b.hash], numbers := s.numbers[b.hash := b.number])
    case DetachBlock(b) => s.(index := s.index - {b.number}, numbers := s.numbers - {b.hash})
  }

  function Commit(s: Store, ws: seq<Write>): Store {
    if ws == [] then s else Apply(Commit(s, ws[..|ws| - 1]), ws[|ws| - 1])
  }

  function Detaches(bs: seq<Block>): seq<Write> {
    seq(|bs|, i requires 0 <= i < |bs| => DetachBlock(bs[i]))
  }

  function Attaches(bs: seq<Block>): seq<Write> {
    seq(|bs|, i requires 0 <= i < |bs| => AttachBlock(bs[i]))
  }

  function ExtWrites(bs: seq<Block>, es: seq<BlockExt>): seq<Write>
    requires |bs| == |es|
  {
    seq(|bs|, i requires 0 <= i < |bs| => InsertBlockExt(bs[i].hash, es[i]))
  }

  lemma {:induction false} CommitAppend(s: Store, a: seq<Write>, b: seq<Write>)
    ensures Commit(s, a + b) == Commit(Commit(s, a), b)
    decreases |b|
  {
    if b == [] {
      assert a + b == a;
    } else {
      CommitAppend(s, a, b[..|b| - 1]);
      assert (a + b)[..|a + b| - 1] == a + b[..|b| - 1];
    }
  }

  ghost function Numbers(bs: seq<Block>): set<nat> { set b | b in bs :: b.number }

  ghost function Hashes(bs: seq<Block>): set<Hash> { set b | b in bs :: b.hash }

  lemma LastIn(bs: seq<Block>)
    requires bs != []
    ensures Numbers(bs) == Numbers(bs[..|bs| - 1]) + {bs[|bs| - 1].number}
    ensures Hashes(bs) == Hashes(bs[..|bs| - 1]) + {bs[|bs| - 1].hash}
  {
  }

  /** Detaching blocks removes exactly their numbers and hashes, in whatever order they come. */
  lemma {:induction false} DetachAll(s: Store, bs: seq<Block>)
    ensures Commit(s, Detaches(bs))
         == s.(index := s.index - Numbers(bs), numbers := s.numbers - Hashes(bs))
    decreases |bs|
  {
    if bs == [] {
      assert s.index - Numbers(bs) == s.index && s.numbers - Hashes(bs) == s.numbers;
    } else {
      var front := bs[..|bs| - 1];
      DetachAll(s, front);
      LastIn(bs);
      assert Detaches(bs)[..|bs| - 1] == Detaches(front);
      var last := bs[|bs| - 1];
      assert (s.index - Numbers(front)) - {last.number} == s.index - Numbers(bs);
      assert (s.numbers - Hashes(front)) - {last.hash} == s.numbers - Hashes(bs);
    }
  }

  /** No two of the blocks share a number or a hash. */
  ghost predicate Keyed(bs: seq<Block>) {
    forall x, y :: x in bs && y in bs && (x.number == y.number || x.hash == y.hash) ==> x == y
  }

  ghost function Filed(m: map<nat, Hash>, bs: seq<Block>): map<nat, Hash> {
    if bs == [] then m else Filed(m, bs[..|bs| - 1])[bs[|bs| - 1].number := bs[|bs| - 1].hash]
  }

  ghost function Named(m: map<Hash, nat>, bs: seq<Block>): map<Hash, nat> {
    if bs == [] then m else Named(m, bs[..|bs| - 1])[bs[|bs| - 1].hash := bs[|bs| - 1].number]
  }

  lemma {:induction false} AttachAll(s: Store, bs: seq<Block>)
    ensures Commit(s, Attaches(bs)) == s.(index := Filed(s.index, bs), numbers := Named(s.numbers, bs))
    decreases |bs|
  {
    if bs != [] {
      AttachAll(s, bs[..|bs| - 1]);
      assert Attaches(bs)[..|bs| - 1] == Attaches(bs[..|bs| - 1]);
    }
  }

  /** Attaching such blocks files each under its number and under its hash. */
  lemma {:induction false} FiledAt(m: map<nat, Hash>, q: map<Hash, nat>, bs: seq<Block>, b: Block)
    requires Keyed(bs) && b in bs
    ensures b.number in Filed(m, bs) && Filed(m, bs)[b.number] == b.hash
    ensures b.hash in Named(q, bs) && Named(q, bs)[b.hash] == b.number
    decreases |bs|
  {
    var front, last := bs[..|bs| - 1], bs[|bs| - 1];
    if b != last {
      var i :| 0 <= i < |bs| && bs[i] == b;
      assert front[i] == b;
      assert forall x :: x in front ==> x in bs;
      FiledAt(m, q, front, b);
    }
  }

  /** It leaves every other number and hash alone. */
  lemma {:induction false} FiledElse(m: map<nat, Hash>, q: map<Hash, nat>, bs: seq<Block>)
    ensures forall n :: n !in Numbers(bs) ==>
              (n in Filed(m, bs) <==> n in m) && (n in m ==> Filed(m, bs)[n] == m[n])
    ensures forall h :: h !in Hashes(bs) ==>
              (h in Named(q, bs) <==> h in q) && (h in q ==> Named(q, bs)[h] == q[h])
    decreases |bs|
  {
    if bs != [] {
      FiledElse(m, q, bs[..|bs| - 1]);
      LastIn(bs);
    }
  }

  ghost function Rewritten(m: map<Hash, BlockExt>, bs: seq<Block>, es: seq<BlockExt>): map<Hash, BlockExt>
    requires |bs| == |es|
  {
    if bs == [] then m
    else Rewritten(m, bs[..|bs| - 1], es[..|bs| - 1])[bs[|bs| - 1].hash := es[|bs| - 1]]
  }

  lemma {:induction false} WriteExts(s: Store, bs: seq<Block>, es: seq<BlockExt>)
    requires |bs| == |es|
    ensures Commit(s, ExtWrites(bs, es)) == s.(exts := Rewritten(s.exts, bs, es))
    decreases |bs|
  {
    if bs != [] {
      WriteExts(s, bs[..|bs| - 1], es[..|bs| - 1]);
      assert ExtWrites(bs, es)[..|bs| - 1] == ExtWrites(bs[..|bs| - 1], es[..|bs| - 1]);
    }
  }

  /** Rewriting the exts of distinct blocks sets each of them. */
  lemma {:induction false} RewrittenAt(m: map<Hash, BlockExt>, bs: seq<Block>, es: seq<BlockExt>, i: nat)
    requires |bs| == |es| && i < |bs|
    requires forall j :: i < j < |bs| ==> bs[j].hash != bs[i].hash
    ensures bs[i].hash in Rewritten(m, bs, es) && Rewritten(m, bs, es)[bs[i].hash] == es[i]
    decreases |bs|
  {
    if i < |bs| - 1 { RewrittenAt(m, bs[..|bs| - 1], es[..|bs| - 1], i); }
  }

  /** It leaves every other ext alone. */
  lemma {:induction false} RewrittenElse(m: map<Hash, BlockExt>, bs: seq<Block>, es: seq<BlockExt>)
    requires |bs| == |es|
    ensures forall h :: h !in Hashes(bs) ==>
              (h in Rewritten(m, bs, es) <==> h in m) && (h in m ==> Rewritten(m, bs, es)[h] == m[h])
    decreases |bs|
  {
    if bs != [] {
      RewrittenElse(m, bs[..|bs| - 1], es[..|bs| - 1]);
      LastIn(bs);
    }
  }

  /** A path: block `n` has number `n`, and a hash names one block. */
  ghost predicate PathLike(p: seq<Block>) {
    && (forall i :: 0 <= i < |p| ==> p[i].number == i)
    && (forall x, y :: x in p && y in p && x.hash == y.hash ==> x == y)
  }

  lemma PathIsPathLike(c: Consensus, blocks: map<Hash, Block>, h: Hash)
    requires Tree(c, blocks) && h in blocks
    ensures PathLike(Path(c, blocks, h))
  {
  }

  lemma InSuffix(p: seq<Block>, k: nat, b: Block)
    requires PathLike(p) && k <= |p|
    ensures b in p[k..] <==> b in p && b.number >= k
    ensures b in p ==> b.number < |p| && p[b.number] == b
  {
  }

  lemma HashIndexAtPath(p: seq<Block>, b: Block)
    requires PathLike(p) && b in p
    ensures b.hash in HashIndex(p) && HashIndex(p)[b.hash] == b.number
  {
  }

  /**
   Detaching what the main chain has above the fork point and attaching what the new path has
   there turns the index of the one into the index of the other.
   */
  lemma Reindex(s: Store, main: seq<Block>, fork: seq<Block>, k: nat, detached: seq<Block>)
    requires PathLike(main) && PathLike(fork)
    requires k <= |main| && k <= |fork| && main[..k] == fork[..k]
    requires s.index == NumberIndex(main) && s.numbers == HashIndex(main)
    requires forall b :: b in detached <==> b in main[k..]
    ensures Commit(Commit(s, Detaches(detached)), Attaches(fork[k..]))
         == s.(index := NumberIndex(fork), numbers := HashIndex(fork))
  {
    var d := Commit(s, Detaches(detached));
    var t := Commit(d, Attaches(fork[k..]));
    DetachAll(s, detached);
    forall b ensures b in fork[k..] <==> b in fork && b.number >= k { InSuffix(fork, k, b); }
    forall b ensures b in main[k..] <==> b in main && b.number >= k { InSuffix(main, k, b); }
    forall b | b in fork ensures fork[b.number] == b { InSuffix(fork, k, b); }
    AttachAll(d, fork[k..]);
    forall b | b in fork[k..]
      ensures b.number in t.index && t.index[b.number] == b.hash && b.hash in t.numbers && t.numbers[b.hash] == b.number
    {
      FiledAt(d.index, d.numbers, fork[k..], b);
    }
    FiledElse(d.index, d.numbers, fork[k..]);
    ReindexNumbers(main, fork, k, detached, d.index, t.index);
    ReindexHashes(main, fork, k, detached, d.numbers, t.numbers);
  }

  /** The blocks of the two paths below the fork point are the same. */
  lemma SharedBelow(main: seq<Block>, fork: seq<Block>, k: nat, b: Block)
    requires PathLike(main) && PathLike(fork)
    requires k <= |main| && k <= |fork| && main[..k] == fork[..k] && b.number < k
    ensures b in main <==> b in fork
  {
  }

  lemma ReindexNumbers(
    main: seq<Block>, fork: seq<Block>, k: nat, detached: seq<Block>, d: map<nat, Hash>, t: map<nat, Hash>)
    requires PathLike(main) && PathLike(fork)
    requires k <= |main| && k <= |fork| && main[..k] == fork[..k]
    requires forall b :: b in detached <==> b in main && b.number >= k
    requires d == NumberIndex(main) - Numbers(detached)
    requires forall b :: b in fork[k..] <==> b in fork && b.number >= k
    requires forall b :: b in fork[k..] ==> b.number in t && t[b.number] == b.hash
    requires forall n :: n !in Numbers(fork[k..]) ==> (n in t <==> n in d) && (n in d ==> t[n] == d[n])
    ensures t == NumberIndex(fork)
  {
    forall n | 0 <= n < |fork| ensures n in t && t[n] == fork[n].hash {
      if n < k {
        PrefixAt(main, fork, k, n);
        assert n in d;
      } else {
        assert fork[n] in fork[k..];
      }
    }
    forall n | n in t ensures 0 <= n < |fork| {
      assert k <= n < |main| ==> main[n] in detached;
    }
  }

  /** The hashes of the new index name the blocks of the new path, and map to their numbers. */
  lemma ReindexedAt(
    main: seq<Block>, fork: seq<Block>, k: nat, detached: seq<Block>, d: map<Hash, nat>, t: map<Hash, nat>, b: Block)
    requires PathLike(main) && PathLike(fork) && b in fork
    requires k <= |main| && k <= |fork| && main[..k] == fork[..k]
    requires forall b :: b in detached <==> b in main && b.number >= k
    requires d == HashIndex(main) - Hashes(detached)
    requires forall b :: b in fork[k..] <==> b in fork && b.number >= k
    requires forall b :: b in fork[k..] ==> b.hash in t && t[b.hash] == b.number
    requires forall h :: h !in Hashes(fork[k..]) ==> (h in t <==> h in d) && (h in d ==> t[h] == d[h])
    ensures b.hash in t && t[b.hash] == b.number
  {
    if b.number < k {
      SharedBelow(main, fork, k, b);
      HashIndexAtPath(main, b);
      assert b.hash !in Hashes(detached);
      assert b.hash !in Hashes(fork[k..]);
    }
  }

  lemma ReindexedOnly(
    main: seq<Block>, fork: seq<Block>, k: nat, detached: seq<Block>, d: map<Hash, nat>, t: map<Hash, nat>, h: Hash)
    requires PathLike(main) && PathLike(fork) && h in t
    requires k <= |main| && k <= |fork| && main[..k] == fork[..k]
    requires forall b :: b in detached <==> b in main && b.number >= k
    requires d == HashIndex(main) - Hashes(detached)
    requires forall b :: b in fork[k..] <==> b in fork && b.number >= k
    requires forall h :: h !in Hashes(fork[k..]) ==> (h in t <==> h in d)
    ensures exists b :: b in fork && b.hash == h
  {
    if h !in Hashes(fork[k..]) {
      var b :| b in main && b.hash == h;
      assert b.number < k;
      SharedBelow(main, fork, k, b);
    } else {
      var b :| b in fork[k..] && b.hash == h;
      assert b in fork;
    }
  }

  lemma ReindexHashes(
    main: seq<Block>, fork: seq<Block>, k: nat, detached: seq<Block>, d: map<Hash, nat>, t: map<Hash, nat>)
    requires PathLike(main) && PathLike(fork)
    requires k <= |main| && k <= |fork| && main[..k] == fork[..k]
    requires forall b :: b in detached <==> b in main && b.number >= k
    requires d == HashIndex(main) - Hashes(detached)
    requires forall b :: b in fork[k..] <==> b in fork && b.number >= k
    requires forall b :: b in fork[k..] ==> b.hash in t && t[b.hash] == b.number
    requires forall h :: h !in Hashes(fork[k..]) ==> (h in t <==> h in d) && (h in d ==> t[h] == d[h])
    ensures t == HashIndex(fork)
  {
    hide HashIndex, Hashes, PathLike;
    forall h | h in t ensures exists b :: b in fork && b.hash == h { ReindexedOnly(main, fork, k, detached, d, t, h); }
    forall b | b in fork ensures b.hash in t && t[b.hash] == b.number {
      ReindexedAt(main, fork, k, detached, d, t, b);
    }
    IsHashIndex(fork, t);
  }

  lemma IsHashIndex(fork: seq<Block>, t: map<Hash, nat>)
    requires PathLike(fork)
    requires forall b :: b in fork ==> b.hash in t && t[b.hash] == b.number
    requires forall h :: h in t ==> exists b :: b in fork && b.hash == h
    ensures t == HashIndex(fork)
  {
    forall h | h in HashIndex(fork) ensures h in t && t[h] == HashIndex(fork)[h] {
      var b :| b in fork && b.hash == h;
      HashIndexAtPath(fork, b);
    }
    assert t.Keys == HashIndex(fork).Keys;
  }
}
