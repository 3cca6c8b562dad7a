/**
 Admission of peers. Inbound peers that are not reserved may be evicted to make room: three rounds
 of sorting protect some of them, and a random member of the largest remaining network group goes.
 */
module PeerRegistry {
  import opened CkbTypes

  type SessionId = nat
  type PeerId = nat

  const EVICTION_PROTECT_PEERS := 8
  const U64_MAX: nat := 0xffff_ffff_ffff_ffff

  datatype Peer = Peer(
    sessionId: SessionId,
    peerId: PeerId,
    inbound: bool,
    isReserved: bool,
    networkGroup: nat,
    ping: Option<nat>,
    lastMessage: Option<nat>,
    connectedTime: nat)

  datatype PeerError =
    | SessionExists(session: SessionId)
    | PeerIdExists(peerId: PeerId)
    | NonReserved
    | Banned
    | ReachMaxInboundLimit
    | ReachMaxOutboundLimit

  datatype Result = Ok(evicted: Option<Peer>) | Err(error: PeerError)

  // ---------------------------------------------------------------- sorting and dropping

  ghost predicate Descending(list: seq<Peer>, key: Peer -> nat) {
    forall i, j :: 0 <= i < j < |list| ==> key(list[i]) >= key(list[j])
  }

  /** `rest` is `list` without `n` of its members of lowest key; a list of at most `n` stays whole. */
  ghost predicate Dropped(list: seq<Peer>, n: nat, key: Peer -> nat, rest: seq<Peer>, gone: seq<Peer>) {
    && multiset(list) == multiset(rest) + multiset(gone)
    && |gone| == (if |list| > n then n else 0)
    && forall a, b :: a in rest && b in gone ==> key(b) <= key(a)
  }

  ghost predicate Keeps(list: seq<Peer>, n: nat, key: Peer -> nat, rest: seq<Peer>) {
    exists gone :: Dropped(list, n, key, rest, gone)
  }

  lemma InsertSorted(r: seq<Peer>, k: nat, x: Peer, key: Peer -> nat)
    requires k <= |r| && Descending(r, key)
    requires forall j :: 0 <= j < k ==> key(r[j]) >= key(x)
    requires k < |r| ==> key(x) >= key(r[k])
    ensures Descending(r[..k] + [x] + r[k..], key)
  {
  }

  lemma InsertKeeps(r: seq<Peer>, k: nat, x: Peer)
    requires k <= |r|
    ensures multiset(r[..k] + [x] + r[k..]) == multiset(r) + multiset{x}
  {
    assert r == r[..k] + r[k..];
  }

  /** Stable insertion from the left: equal keys keep their order. */
  method SortBy(list: seq<Peer>, key: Peer -> nat) returns (r: seq<Peer>)
    ensures multiset(r) == multiset(list) && Descending(r, key)
  {
    r := [];
    for i := 0 to |list|
      invariant multiset(r) == multiset(list[..i]) && Descending(r, key)
    {
      var k := PlaceFor(r, list[i], key);
      InsertSorted(r, k, list[i], key);
      InsertKeeps(r, k, list[i]);
      assert list[..i + 1] == list[..i] + [list[i]];
      r := r[..k] + [list[i]] + r[k..];
    }
    assert list[..|list|] == list;
  }

  method PlaceFor(r: seq<Peer>, x: Peer, key: Peer -> nat) returns (k: nat)
    ensures k <= |r| && forall j :: 0 <= j < k ==> key(r[j]) >= key(x)
    ensures k < |r| ==> key(x) > key(r[k])
  {
    k := 0;
    while k < |r| && key(r[k]) >= key(x)
      invariant k <= |r| && forall j :: 0 <= j < k ==> key(r[j]) >= key(x)
    {
      k := k + 1;
    }
  }

  method SortThenDrop(list: seq<Peer>, n: nat, key: Peer -> nat) returns (rest: seq<Peer>, ghost gone: seq<Peer>)
    ensures Dropped(list, n, key, rest, gone)
    ensures Keeps(list, n, key, rest)
  {
    var sorted := SortBy(list, key);
    assert |multiset(sorted)| == |multiset(list)|;
    if |sorted| > n {
      var m := |sorted| - n;
      rest, gone := sorted[..m], sorted[m..];
      assert sorted == sorted[..m] + sorted[m..];
      forall a, b | a in rest && b in gone ensures key(b) <= key(a) {
        var i :| 0 <= i < m && sorted[i] == a;
        var j :| 0 <= j < n && gone[j] == b;
        assert sorted[m + j] == b;
      }
    } else {
      rest, gone := sorted, [];
    }
    assert Dropped(list, n, key, rest, gone);
  }

  // ---------------------------------------------------------------- eviction

  function PingKey(p: Peer): nat { if p.ping.Some? then p.ping.value else U64_MAX }
  function MessageKey(p: Peer): nat { if p.lastMessage.Some? then p.lastMessage.value else U64_MAX }
  function ConnectedKey(p: Peer): nat { p.connectedTime }

  predicate IsCandidate(p: Peer) {
    p.inbound && !p.isReserved
  }

  function InGroup(list: seq<Peer>, group: nat): (r: seq<Peer>)
    ensures forall p :: p in r <==> p in list && p.networkGroup == group
  {
    if list == [] then []
    else
      var n := |list| - 1;
      assert list == list[..n] + [list[n]];
      InGroup(list[..n], group) + if list[n].networkGroup == group then [list[n]] else []
  }

  /** A group holds each of its peers as often as the list does. */
  lemma {:induction false} GroupCounts(list: seq<Peer>, group: nat, p: Peer)
    ensures multiset(InGroup(list, group))[p] == if p.networkGroup == group then multiset(list)[p] else 0
    decreases |list|
  {
    if list != [] {
      var n := |list| - 1;
      assert list == list[..n] + [list[n]];
      GroupCounts(list[..n], group, p);
    }
  }

  /** The lists left after each protection round, and those each round protected. */
  datatype Rounds = Rounds(
    candidates: seq<Peer>,
    fast: seq<Peer>, slow: seq<Peer>,
    talking: seq<Peer>, silent: seq<Peer>,
    oldest: seq<Peer>, young: seq<Peer>)

  /** The victim came out of these rounds, from a largest network group of those left. */
  ghost predicate Evicts(r: Rounds, victim: Peer) {
    && Dropped(r.candidates, EVICTION_PROTECT_PEERS, PingKey, r.slow, r.fast)
    && Dropped(r.slow, EVICTION_PROTECT_PEERS, MessageKey, r.silent, r.talking)
    && Dropped(r.silent, |r.silent| / 2, ConnectedKey, r.young, r.oldest)
    && victim in r.young
    && forall g :: |InGroup(r.young, g)| <= |InGroup(r.young, victim.networkGroup)|
  }

  method GroupPeers(list: seq<Peer>) returns (groups: map<nat, seq<Peer>>)
    ensures forall g :: InGroup(list, g) == if g in groups then groups[g] else []
  {
    groups := map[];
    for i := 0 to |list|
      invariant forall g :: InGroup(list[..i], g) == if g in groups then groups[g] else []
    {
      assert list[..i + 1][..i] == list[..i];
      var g := list[i].networkGroup;
      groups := groups[g := (if g in groups then groups[g] else []) + [list[i]]];
    }
    assert list[..|list|] == list;
  }

  /** The longest of the lists, whatever the iteration order. */
  method Longest(groups: map<nat, seq<Peer>>) returns (chosen: Option<nat>)
    ensures chosen.None? <==> groups == map[]
    ensures chosen.Some? ==> chosen.value in groups
    ensures chosen.Some? ==> forall g :: g in groups ==> |groups[g]| <= |groups[chosen.value]|
  {
    chosen := None;
    var left := groups.Keys;
    while left != {}
      invariant left <= groups.Keys && (chosen.Some? ==> chosen.value in groups)
      invariant chosen.None? ==> left == groups.Keys
      invariant chosen.Some? ==> forall g :: g in groups && g !in left ==> |groups[g]| <= |groups[chosen.value]|
      decreases |left|
    {
      var g :| g in left;
      if chosen.None? || |groups[g]| >= |groups[chosen.value]| { chosen := Some(g); }
      left := left - {g};
    }
  }

  method LargestGroup(list: seq<Peer>) returns (group: seq<Peer>)
    ensures list != [] ==> group != []
    ensures forall p :: p in group ==> p in list && group == InGroup(list, p.networkGroup)
    ensures forall g :: |InGroup(list, g)| <= |group|
  {
    hide InGroup;
    var groups := GroupPeers(list);
    var chosen := Longest(groups);
    group := if chosen.Some? then groups[chosen.value] else [];
    assert chosen.Some? ==> group == InGroup(list, chosen.value);
    if list != [] { assert list[0] in InGroup(list, list[0].networkGroup); }
  }

  // ---------------------------------------------------------------- what eviction protects

  ghost predicate DistinctSessions(list: seq<Peer>) {
    forall p, q :: p in list && q in list && p.sessionId == q.sessionId ==> p == q
  }

  ghost function Sessions(list: seq<Peer>): set<SessionId> {
    set p | p in list :: p.sessionId
  }

  /** No peer occurs twice, and different peers have different sessions. */
  ghost predicate NoRepeats(list: seq<Peer>) {
    DistinctSessions(list) && forall p :: multiset(list)[p] <= 1
  }

  lemma {:induction false} SessionCount(list: seq<Peer>)
    requires NoRepeats(list)
    ensures |Sessions(list)| == |list|
    decreases |list|
  {
    if list != [] {
      var n := |list| - 1;
      var front, p := list[..n], list[n];
      assert list == front + [p];
      assert multiset(list) == multiset(front) + multiset{p};
      forall q ensures multiset(front)[q] <= 1 { assert multiset(list)[q] <= 1; }
      assert p !in front by { assert multiset(list)[p] == multiset(front)[p] + 1; }
      SessionCount(front);
      assert Sessions(list) == Sessions(front) + {p.sessionId};
    }
  }

  lemma DroppedParts(list: seq<Peer>, n: nat, key: Peer -> nat, rest: seq<Peer>, gone: seq<Peer>)
    requires Dropped(list, n, key, rest, gone)
    ensures forall p :: p in list <==> p in rest || p in gone
    ensures |list| == |rest| + |gone|
    ensures NoRepeats(list) ==> NoRepeats(rest) && NoRepeats(gone) && forall p :: !(p in rest && p in gone)
  {
    forall p ensures p in list <==> p in rest || p in gone {
      assert p in list <==> p in multiset(list);
      assert p in rest <==> p in multiset(rest);
      assert p in gone <==> p in multiset(gone);
    }
    assert |multiset(list)| == |multiset(rest)| + |multiset(gone)|;
    if NoRepeats(list) {
      forall p
        ensures multiset(rest)[p] <= 1 && multiset(gone)[p] <= 1
        ensures !(p in rest && p in gone)
      {
        assert multiset(list)[p] == multiset(rest)[p] + multiset(gone)[p] <= 1;
        assert p in rest ==> multiset(rest)[p] >= 1;
        assert p in gone ==> multiset(gone)[p] >= 1;
      }
    }
  }

  /** The victim is a candidate; with more than eight candidates, eight others have no higher ping. */
  lemma VictimPing(r: Rounds, victim: Peer)
    requires NoRepeats(r.candidates) && Evicts(r, victim)
    ensures victim in r.candidates
    ensures |r.candidates| > 8 ==>
      && |Sessions(r.fast)| == 8 && victim.sessionId !in Sessions(r.fast)
      && forall p :: p in r.fast ==>
           && p in r.candidates
           && (if p.ping.Some? then p.ping.value else U64_MAX) <= (if victim.ping.Some? then victim.ping.value else U64_MAX)
  {
    RoundsParts(r);
    if |r.candidates| > 8 {
      SessionCount(r.fast);
      assert victim in r.slow;
      assert DistinctSessions(r.candidates);
    }
  }

  /** With more than sixteen, eight more have spoken no longer ago. */
  lemma VictimMessage(r: Rounds, victim: Peer)
    requires NoRepeats(r.candidates) && Evicts(r, victim) && |r.candidates| > 16
    ensures |Sessions(r.fast + r.talking)| == 16
    ensures victim.sessionId !in Sessions(r.fast + r.talking)
    ensures forall p :: p in r.talking ==>
      && p in r.candidates
      && (if p.lastMessage.Some? then p.lastMessage.value else U64_MAX)
           <= (if victim.lastMessage.Some? then victim.lastMessage.value else U64_MAX)
  {
    RoundsParts(r);
    var both := r.fast + r.talking;
    assert NoRepeats(both) by {
      forall p ensures multiset(both)[p] <= 1 {
        assert multiset(both) == multiset(r.fast) + multiset(r.talking);
        assert multiset(r.candidates)[p] == multiset(r.fast)[p] + multiset(r.talking)[p] + multiset(r.silent)[p];
      }
    }
    SessionCount(both);
    assert victim in r.silent;
  }

  /** Of the peers left by the first two rounds, half (rounded down) were connected no later than the victim. */
  lemma VictimAge(r: Rounds, victim: Peer)
    requires NoRepeats(r.candidates) && Evicts(r, victim)
    ensures |Sessions(r.oldest)| == |r.silent| / 2 && victim.sessionId !in Sessions(r.oldest)
    ensures forall p :: p in r.oldest ==> p in r.silent && p.connectedTime <= victim.connectedTime
  {
    RoundsParts(r);
    SessionCount(r.oldest);
  }

  lemma RoundsParts(r: Rounds)
    requires NoRepeats(r.candidates)
    requires Dropped(r.candidates, EVICTION_PROTECT_PEERS, PingKey, r.slow, r.fast)
    requires Dropped(r.slow, EVICTION_PROTECT_PEERS, MessageKey, r.silent, r.talking)
    requires Dropped(r.silent, |r.silent| / 2, ConnectedKey, r.young, r.oldest)
    ensures forall p :: p in r.candidates <==> p in r.slow || p in r.fast
    ensures forall p :: p in r.slow <==> p in r.silent || p in r.talking
    ensures forall p :: p in r.silent <==> p in r.young || p in r.oldest
    ensures forall p :: !(p in r.slow && p in r.fast)
    ensures forall p :: !(p in r.silent && p in r.talking)
    ensures forall p :: !(p in r.young && p in r.oldest)
    ensures NoRepeats(r.fast) && NoRepeats(r.talking) && NoRepeats(r.oldest)
    ensures |r.candidates| == |r.slow| + |r.fast| && |r.slow| == |r.silent| + |r.talking|
    ensures |r.candidates| > 0 ==> |r.young| > 0
    ensures |r.silent| > 0 ==> |r.oldest| == |r.silent| / 2
    ensures |r.silent| == 0 ==> |r.oldest| == 0
  {
    DroppedParts(r.candidates, EVICTION_PROTECT_PEERS, PingKey, r.slow, r.fast);
    DroppedParts(r.slow, EVICTION_PROTECT_PEERS, MessageKey, r.silent, r.talking);
    DroppedParts(r.silent, |r.silent| / 2, ConnectedKey, r.young, r.oldest);
  }

  // ---------------------------------------------------------------- the registry

  ghost function InboundOf(peers: map<SessionId, Peer>): (r: set<SessionId>)
    ensures forall s :: s in r <==> s in peers && !peers[s].isReserved && peers[s].inbound
  {
    set s | s in peers && !peers[s].isReserved && peers[s].inbound
  }

  ghost function OutboundOf(peers: map<SessionId, Peer>): (r: set<SessionId>)
    ensures forall s :: s in r <==> s in peers && !peers[s].isReserved && !peers[s].inbound
  {
    set s | s in peers && !peers[s].isReserved && !peers[s].inbound
  }

  /** Each key is its peer's session id. */
  ghost predicate OwnKeys(peers: map<SessionId, Peer>) {
    forall s :: s in peers ==> peers[s].sessionId == s
  }

  /** Peer ids are pairwise distinct. */
  ghost predicate OwnIds(peers: map<SessionId, Peer>) {
    forall s, t :: s in peers && t in peers && peers[s].peerId == peers[t].peerId ==> s == t
  }

  lemma AddedIds(peers: map<SessionId, Peer>, p: Peer)
    requires OwnKeys(peers) && OwnIds(peers) && !HasPeerId(peers, p.peerId)
    ensures OwnKeys(peers[p.sessionId := p]) && OwnIds(peers[p.sessionId := p])
  {
  }

  /** `list` holds the eviction candidates of `peers`, each once, in some order. */
  ghost predicate ListsCandidates(peers: map<SessionId, Peer>, list: seq<Peer>) {
    && NoRepeats(list)
    && forall p :: p in list <==> p.sessionId in peers && peers[p.sessionId] == p && p.inbound && !p.isReserved
  }

  class Registry {
    var peers: map<SessionId, Peer>
    const maxInbound: nat
    const maxOutbound: nat
    const reservedOnly: bool
    const reservedPeers: set<PeerId>

    ghost predicate Valid()
      reads this
    {
      && OwnKeys(peers)
      && OwnIds(peers)
      && (forall s :: s in peers ==> (peers[s].isReserved <==> peers[s].peerId in reservedPeers))
      && |InboundOf(peers)| <= maxInbound
      && |OutboundOf(peers)| <= maxOutbound
    }

    constructor (maxInbound: nat, maxOutbound: nat, reservedOnly: bool, reservedPeers: set<PeerId>)
      ensures Valid() && peers == map[] && this.maxInbound == maxInbound && this.maxOutbound == maxOutbound
      ensures this.reservedOnly == reservedOnly && this.reservedPeers == reservedPeers
    {
      peers := map[];
      this.maxInbound, this.maxOutbound := maxInbound, maxOutbound;
      this.reservedOnly, this.reservedPeers := reservedOnly, reservedPeers;
      new;
      assert InboundOf(peers) == {} && OutboundOf(peers) == {};
    }

    /** The counts of unreserved peers, whatever the iteration order. */
    method ConnectionStatus() returns (inbound: nat, outbound: nat)
      ensures inbound == |InboundOf(peers)| && outbound == |OutboundOf(peers)|
    {
      inbound, outbound := 0, 0;
      var left := peers.Keys;
      ghost var ins, outs := InboundOf(peers), OutboundOf(peers);
      assert ins - left == {} && outs - left == {};
      while left != {}
        invariant left <= peers.Keys
        invariant inbound == |ins - left| && outbound == |outs - left|
        decreases |left|
      {
        var s :| s in left;
        CountOne(ins, left, s);
        CountOne(outs, left, s);
        left := left - {s};
        if !peers[s].isReserved {
          if !peers[s].inbound { outbound := outbound + 1; } else { inbound := inbound + 1; }
        }
      }
      assert ins - left == ins && outs - left == outs;
    }

    method Candidates() returns (list: seq<Peer>)
      requires Valid()
      ensures ListsCandidates(peers, list)
    {
      list := [];
      var left := peers.Keys;
      while left != {}
        invariant left <= peers.Keys && NoRepeats(list)
        invariant forall p :: p in list <==>
          p.sessionId in peers && p.sessionId !in left && peers[p.sessionId] == p && IsCandidate(p)
        decreases |left|
      {
        var s :| s in left;
        left := left - {s};
        if IsCandidate(peers[s]) {
          assert peers[s] !in list;
          list := list + [peers[s]];
        }
      }
    }

    /** A victim is found exactly when there is an unreserved inbound peer. */
    method TryEvictInboundPeer() returns (victim: Option<SessionId>, ghost rounds: Rounds)
      requires Valid()
      ensures ListsCandidates(peers, rounds.candidates)
      ensures victim.Some? <==> InboundOf(peers) != {}
      ensures victim.Some? ==> victim.value in InboundOf(peers) && Evicts(rounds, peers[victim.value])
    {
      var candidates := Candidates();
      var slow, fast := SortThenDrop(candidates, EVICTION_PROTECT_PEERS, PingKey);
      var silent, talking := SortThenDrop(slow, EVICTION_PROTECT_PEERS, MessageKey);
      var young, oldest := SortThenDrop(silent, |silent| / 2, ConnectedKey);
      rounds := Rounds(candidates, fast, slow, talking, silent, oldest, young);
      RoundsParts(rounds);
      var group := LargestGroup(young);
      assert candidates != [] <==> InboundOf(peers) != {} by {
        if candidates != [] { assert candidates[0].sessionId in InboundOf(peers); }
        if s :| s in InboundOf(peers) { assert peers[s] in candidates; }
      }
      if group == [] {
        return None, rounds;
      }
      var i :| 0 <= i < |group|;
      assert group[i] in candidates;
      victim := Some(group[i].sessionId);
    }

    method GetKeyByPeerId(peerId: PeerId) returns (r: Option<SessionId>)
      requires Valid()
      ensures r.Some? ==> r.value in peers && peers[r.value].peerId == peerId
      ensures r.None? ==> forall s :: s in peers ==> peers[s].peerId != peerId
    {
      r := None;
      var left := peers.Keys;
      while left != {}
        invariant left <= peers.Keys
        invariant forall s :: s in peers && s !in left ==> peers[s].peerId != peerId
        decreases |left|
      {
        var s :| s in left;
        if peers[s].peerId == peerId { return Some(peers[s].sessionId); }
        left := left - {s};
      }
    }

    /** The whole answer of an admission, and the registry it leaves. */
    method AcceptPeer(peerId: PeerId, group: nat, session: SessionId, inbound: bool, banned: bool, now: nat)
      returns (r: Result, ghost rounds: Rounds)
      requires Valid()
      modifies this
      ensures Valid()
      ensures r.Err? ==> peers == old(peers)
      ensures
        var known := exists s :: s in old(peers) && old(peers)[s].peerId == peerId;
        var judged := session !in old(peers) && !known && peerId !in reservedPeers;
        && (r == Err(SessionExists(session)) <==> session in old(peers))
        && (r == Err(PeerIdExists(peerId)) <==> session !in old(peers) && known)
        && (r == Err(NonReserved) <==> judged && reservedOnly)
        && (r == Err(Banned) <==> judged && !reservedOnly && banned)
        && (r == Err(ReachMaxInboundLimit) <==> judged && !reservedOnly && !banned && inbound && maxInbound == 0)
        && (r == Err(ReachMaxOutboundLimit) <==>
              judged && !reservedOnly && !banned && !inbound && |OutboundOf(old(peers))| == maxOutbound)
        && (r.Err? ==> r.error in {SessionExists(session), PeerIdExists(peerId), NonReserved, Banned,
                                   ReachMaxInboundLimit, ReachMaxOutboundLimit})
      ensures r.Ok? ==>
        var kept := if r.evicted.Some? then old(peers) - {r.evicted.value.sessionId} else old(peers);
        peers == kept[session := Peer(session, peerId, inbound, peerId in reservedPeers, group, None, None, now)]
      ensures r.Ok? ==>
        (r.evicted.Some? <==> peerId !in reservedPeers && inbound && |InboundOf(old(peers))| == maxInbound)
      ensures r.Ok? && r.evicted.Some? ==>
        && ListsCandidates(old(peers), rounds.candidates) && Evicts(rounds, r.evicted.value)
    {
      hide ListsCandidates, Evicts, InboundOf, OutboundOf;
      rounds := Rounds([], [], [], [], [], [], []);
      if session in peers { return Err(SessionExists(session)), rounds; }
      var key := GetKeyByPeerId(peerId);
      if key.Some? { return Err(PeerIdExists(peerId)), rounds; }
      var isReserved := peerId in reservedPeers;
      var evicted: Option<Peer> := None;
      if !isReserved {
        if reservedOnly { return Err(NonReserved), rounds; }
        if banned { return Err(Banned), rounds; }
        var full;
        full, evicted, rounds := MakeRoom(inbound);
        if full { return Err(if inbound then ReachMaxInboundLimit else ReachMaxOutboundLimit), rounds; }
      }
      Admit(Peer(session, peerId, inbound, isReserved, group, None, None, now));
      r := Ok(evicted);
    }

    /** The limits for a peer that is not reserved: at the inbound limit a victim has to go. */
    method MakeRoom(inbound: bool) returns (full: bool, evicted: Option<Peer>, ghost rounds: Rounds)
      requires Valid()
      modifies this
      ensures Valid()
      ensures full <==> if inbound then maxInbound == 0 else |OutboundOf(old(peers))| == maxOutbound
      ensures evicted.None? ==> peers == old(peers)
      ensures evicted.Some? ==> peers == old(peers) - {evicted.value.sessionId}
      ensures full ==> evicted.None?
      ensures !full ==> (evicted.Some? <==> inbound && |InboundOf(old(peers))| == maxInbound)
      ensures !full ==> if inbound then |InboundOf(peers)| < maxInbound else |OutboundOf(peers)| < maxOutbound
      ensures evicted.Some? ==> ListsCandidates(old(peers), rounds.candidates) && Evicts(rounds, evicted.value)
    {
      hide ListsCandidates, Evicts;
      rounds, evicted := Rounds([], [], [], [], [], [], []), None;
      var ins, outs := ConnectionStatus();
      if inbound {
        if ins >= maxInbound {
          var victim;
          victim, rounds := TryEvictInboundPeer();
          if victim.None? { return true, None, rounds; }
          RemovedCounts(peers, victim.value);
          evicted := RemovePeer(victim.value);
        }
      } else if outs >= maxOutbound {
        return true, None, rounds;
      }
      full := false;
    }

    method Admit(peer: Peer)
      requires Valid() && peer.sessionId !in peers && !HasPeerId(peers, peer.peerId)
      requires peer.isReserved <==> peer.peerId in reservedPeers
      requires !peer.isReserved && peer.inbound ==> |InboundOf(peers)| < maxInbound
      requires !peer.isReserved && !peer.inbound ==> |OutboundOf(peers)| < maxOutbound
      modifies this
      ensures Valid() && peers == old(peers)[peer.sessionId := peer]
    {
      AddedCounts(peers, peer);
      AddedIds(peers, peer);
      assert peer.sessionId !in InboundOf(peers) && peer.sessionId !in OutboundOf(peers);
      hide InboundOf, OutboundOf, OwnKeys, OwnIds, HasPeerId;
      peers := peers[peer.sessionId := peer];
    }

    method RemovePeer(session: SessionId) returns (r: Option<Peer>)
      requires Valid()
      modifies this
      ensures Valid() && peers == old(peers) - {session}
      ensures r == if session in old(peers) then Some(old(peers)[session]) else None
    {
      r := if session in peers then Some(peers[session]) else None;
      RemovedCounts(peers, session);
      peers := peers - {session};
    }

    method RemovePeerByPeerId(peerId: PeerId) returns (r: Option<Peer>)
      requires Valid()
      modifies this
      ensures Valid() && forall s :: s in peers ==> peers[s].peerId != peerId
      ensures r.None? ==> peers == old(peers)
      ensures r.Some? ==> peers == old(peers) - {r.value.sessionId}
      ensures r.Some? ==> r.value.peerId == peerId
      ensures r.Some? ==> r.value.sessionId in old(peers) && old(peers)[r.value.sessionId] == r.value
    {
      var session := GetKeyByPeerId(peerId);
      if session.None? { return None; }
      r := RemovePeer(session.value);
    }
  }

  ghost predicate HasPeerId(peers: map<SessionId, Peer>, peerId: PeerId) {
    exists s :: s in peers && peers[s].peerId == peerId
  }

  lemma AddedCounts(peers: map<SessionId, Peer>, p: Peer)
    requires p.sessionId !in peers
    ensures var after := peers[p.sessionId := p];
      && InboundOf(after) == (if IsCandidate(p) then InboundOf(peers) + {p.sessionId} else InboundOf(peers))
      && OutboundOf(after) == if !p.isReserved && !p.inbound then OutboundOf(peers) + {p.sessionId} else OutboundOf(peers)
  {
  }

  lemma CountOne(all: set<SessionId>, left: set<SessionId>, s: SessionId)
    requires s in left
    ensures |all - (left - {s})| == |all - left| + if s in all then 1 else 0
  {
    assert all - (left - {s}) == (all - left) + if s in all then {s} else {};
  }

  lemma RemovedCounts(peers: map<SessionId, Peer>, session: SessionId)
    ensures InboundOf(peers - {session}) == InboundOf(peers) - {session}
    ensures OutboundOf(peers - {session}) == OutboundOf(peers) - {session}
  {
  }
}
