/**
 Verification of a Cuckoo Cycle proof. Edge `i` of the proof joins upper node `us[i]` and lower
 node `vs[i]`; the hash that places them is arbitrary. The walk is shown to terminate, to fail its
 lookups in one case only, and to accept exactly the proofs whose edges form one single cycle.
 */
module CuckooCycle {

  datatype Verdict = Accepted | Rejected | Panicked

  /** The edges that end in node `x`, on one side of the graph. */
  function Ends(ks: seq<nat>, x: nat): set<nat> {
    set i | 0 <= i < |ks| && ks[i] == x
  }

  /** Every node that occurs on this side has exactly two edges. */
  ghost predicate Paired(ks: seq<nat>) {
    forall i :: 0 <= i < |ks| ==> |Ends(ks, ks[i])| == 2
  }

  /** The other edge at the same node. */
  ghost function Mate(ks: seq<nat>, i: nat): (j: nat)
    requires Paired(ks) && i < |ks|
    ensures j < |ks| && j != i && ks[j] == ks[i]
  {
    var s := Ends(ks, ks[i]);
    assert i in s && |s - {i}| == 1;
    var j :| j in s - {i};
    j
  }

  lemma MateEnds(ks: seq<nat>, i: nat)
    requires Paired(ks) && i < |ks|
    ensures Ends(ks, ks[i]) == {i, Mate(ks, i)}
  {
    var s, j := Ends(ks, ks[i]), Mate(ks, i);
    assert i in s && j in s && |s| == 2;
    assert |s - {i} - {j}| == 0;
  }

  lemma MateUnique(ks: seq<nat>, i: nat, j: nat)
    requires Paired(ks) && i < |ks| && j < |ks|
    ensures i != j && ks[i] == ks[j] ==> Mate(ks, i) == j && Mate(ks, j) == i
  {
    MateEnds(ks, i);
    MateEnds(ks, j);
    if ks[i] == ks[j] { assert j in Ends(ks, ks[i]) && i in Ends(ks, ks[j]); }
  }

  lemma MateMate(ks: seq<nat>, i: nat)
    requires Paired(ks) && i < |ks|
    ensures Mate(ks, Mate(ks, i)) == i
  {
    MateUnique(ks, i, Mate(ks, i));
  }

  /** `p` lists all edges of one cycle: neighbours share an upper and a lower node in turn. */
  ghost predicate IsCycle(us: seq<nat>, vs: seq<nat>, p: seq<nat>) {
    && |us| == |vs| == |p| >= 4
    && |p| % 2 == 0
    && (forall k :: 0 <= k < |p| ==> p[k] < |p|)
    && (forall j, k :: 0 <= j < k < |p| ==> p[j] != p[k])
    && (forall k :: 0 <= k < |p| ==> Shares(us, vs, p, k))
    && (forall j, k :: 0 <= j < k < |p| && us[p[j]] == us[p[k]] ==> j % 2 == 0 && k == j + 1)
    && (forall j, k :: 0 <= j < k < |p| && vs[p[j]] == vs[p[k]] ==> (j % 2 == 1 && k == j + 1) || (j == 0 && k == |p| - 1))
  }

  ghost predicate Shares(us: seq<nat>, vs: seq<nat>, p: seq<nat>, k: nat)
    requires |us| == |vs| == |p| && k < |p| && |p| % 2 == 0
    requires forall k :: 0 <= k < |p| ==> p[k] < |p|
  {
    if k % 2 == 0 then us[p[k]] == us[p[k + 1]]
    else vs[p[k]] == vs[p[if k + 1 == |p| then 0 else k + 1]]
  }

  ghost predicate SingleCycle(us: seq<nat>, vs: seq<nat>) {
    exists p :: IsCycle(us, vs, p)
  }

  // ---------------------------------------------------------------- the adjacency lists

  /** The list stored under node `x`: the far ends of its edges, in proof order. */
  function Listed(ks: seq<nat>, far: seq<nat>, x: nat): seq<nat>
    requires |ks| == |far|
  {
    if ks == [] then []
    else Listed(ks[..|ks| - 1], far[..|ks| - 1], x) + if ks[|ks| - 1] == x then [far[|ks| - 1]] else []
  }

  lemma {:induction false} ListedLength(ks: seq<nat>, far: seq<nat>, x: nat)
    requires |ks| == |far|
    ensures |Listed(ks, far, x)| == |Ends(ks, x)|
    decreases |ks|
  {
    if ks != [] {
      var n := |ks| - 1;
      ListedLength(ks[..n], far[..n], x);
      assert Ends(ks, x) == Ends(ks[..n], x) + if ks[n] == x then {n} else {};
      assert n !in Ends(ks[..n], x);
    } else {
      assert Ends(ks, x) == {};
    }
  }

  lemma {:induction false} ListedHas(ks: seq<nat>, far: seq<nat>, x: nat, y: nat)
    requires |ks| == |far|
    ensures y in Listed(ks, far, x) <==> exists i :: i in Ends(ks, x) && far[i] == y
    decreases |ks|
  {
    if ks != [] {
      var n := |ks| - 1;
      ListedHas(ks[..n], far[..n], x, y);
      if i :| i in Ends(ks, x) && far[i] == y && i < n {
        assert i in Ends(ks[..n], x) && far[..n][i] == y;
      }
      if i :| i in Ends(ks[..n], x) && far[..n][i] == y {
        assert i in Ends(ks, x) && far[i] == y;
      }
      if ks[n] == x && far[n] == y { assert n in Ends(ks, x); }
    }
  }

  /** `iter().find(|v| v != x)`. */
  function FindOther(list: seq<nat>, x: nat): (r: seq<nat>)
    ensures |r| <= 1
    ensures r == [] ==> forall y :: y in list ==> y == x
    ensures r != [] ==> r[0] in list && r[0] != x
  {
    if list == [] then []
    else if list[0] != x then [list[0]]
    else
      assert list == [list[0]] + list[1..];
      FindOther(list[1..], x)
  }

  /** On a paired side the lookup finds the far end of the mate, unless both edges end in the same node. */
  lemma FindMate(ks: seq<nat>, far: seq<nat>, i: nat)
    requires |ks| == |far| && Paired(ks) && i < |ks|
    ensures var m := far[Mate(ks, i)];
      FindOther(Listed(ks, far, ks[i]), far[i]) == if m == far[i] then [] else [m]
  {
    var m := far[Mate(ks, i)];
    var list := Listed(ks, far, ks[i]);
    forall y ensures y in list <==> y == far[i] || y == m {
      ListedHas(ks, far, ks[i], y);
      MateEnds(ks, i);
      assert i in Ends(ks, ks[i]) && Mate(ks, i) in Ends(ks, ks[i]);
    }
    var r := FindOther(list, far[i]);
    if m != far[i] { assert m in list; }
  }

  // ---------------------------------------------------------------- the walk

  /** Both sides are paired: the edges form disjoint closed walks. */
  ghost predicate Regular(us: seq<nat>, vs: seq<nat>) {
    |us| == |vs| && Paired(us) && Paired(vs)
  }

  /** No other edge joins the same two nodes as edge `i`. */
  ghost predicate NoTwin(us: seq<nat>, vs: seq<nat>, i: nat)
    requires |us| == |vs| && i < |us|
  {
    forall j :: 0 <= j < |us| && j != i ==> us[j] != us[i] || vs[j] != vs[i]
  }

  /** Two edges further: across the upper node, then across the lower node. */
  ghost function Hop(us: seq<nat>, vs: seq<nat>, i: nat): (j: nat)
    requires Regular(us, vs) && i < |us|
    ensures j < |us|
  {
    Mate(vs, Mate(us, i))
  }

  /** From an edge without twin both lookups succeed, and the next edge has no twin either. */
  lemma HopStep(us: seq<nat>, vs: seq<nat>, i: nat)
    requires Regular(us, vs) && i < |us| && NoTwin(us, vs, i)
    ensures var m, j := Mate(us, i), Hop(us, vs, i);
      && vs[m] != vs[i]
      && us[j] != us[m] == us[i]
      && vs[j] == vs[m]
      && NoTwin(us, vs, j)
  {
    var m, j := Mate(us, i), Hop(us, vs, i);
    MateMate(us, i);
    if us[j] == us[m] { MateUnique(us, m, j); }
    forall t | 0 <= t < |us| && t != j && us[t] == us[j] ensures vs[t] != vs[j] {
      if vs[t] == vs[j] { MateUnique(vs, j, t); MateMate(vs, m); }
    }
  }

  /** The step can be undone, so a walk that meets an edge again came from the same edge. */
  lemma HopInjective(us: seq<nat>, vs: seq<nat>, i: nat, j: nat)
    requires Regular(us, vs) && i < |us| && j < |us|
    ensures Hop(us, vs, i) == Hop(us, vs, j) ==> i == j
  {
    MateMate(vs, Mate(us, i));
    MateMate(vs, Mate(us, j));
    MateMate(us, i);
    MateMate(us, j);
  }

  /** The walk so far: `c` holds every other edge, from edge 0 on, and no upper node was met twice. */
  ghost predicate Walk(us: seq<nat>, vs: seq<nat>, c: seq<nat>) {
    && Regular(us, vs)
    && |c| > 0 && c[0] == 0
    && (forall k :: 0 <= k < |c| ==> c[k] < |us| && NoTwin(us, vs, c[k]))
    && (forall k :: 0 < k < |c| ==> Stepped(us, vs, c, k))
    && (forall j, k :: 0 <= j < k < |c| ==> us[c[j]] != us[c[k]])
  }

  ghost predicate Stepped(us: seq<nat>, vs: seq<nat>, c: seq<nat>, k: nat)
    requires Regular(us, vs) && 0 < k < |c| && c[k - 1] < |us|
  {
    c[k] == Hop(us, vs, c[k - 1])
  }

  /** One more step either closes the walk at edge 0 itself or reaches a new upper node. */
  lemma WalkOn(us: seq<nat>, vs: seq<nat>, c: seq<nat>)
    requires Walk(us, vs, c)
    ensures var j := Hop(us, vs, c[|c| - 1]);
      if us[j] == us[0] then j == 0 else Walk(us, vs, c + [j])
  {
    hide Hop, NoTwin, Paired;
    var j := Hop(us, vs, c[|c| - 1]);
    var d := c + [j];
    HopStep(us, vs, c[|c| - 1]);
    forall k | 0 <= k < |c| ensures us[c[k]] == us[j] ==> k == 0 && j == 0 {
      MeetsStart(us, vs, c, k);
    }
    if us[j] != us[0] {
      forall k | 0 < k < |d| ensures Stepped(us, vs, d, k) {
        assert k < |c| ==> Stepped(us, vs, c, k);
      }
    }
  }

  lemma MeetsStart(us: seq<nat>, vs: seq<nat>, c: seq<nat>, k: nat)
    requires Walk(us, vs, c) && k < |c|
    ensures us[c[k]] == us[Hop(us, vs, c[|c| - 1])] ==> k == 0 && Hop(us, vs, c[|c| - 1]) == 0
  {
    hide NoTwin, Paired;
    var n := |c| - 1;
    var j := Hop(us, vs, c[n]);
    HopStep(us, vs, c[n]);
    if k > 0 { HopInjective(us, vs, c[n], c[k - 1]); assert Stepped(us, vs, c, k); }
    if k < n { assert Stepped(us, vs, c, k + 1); }
    MateUnique(us, c[k], j);
    MateMate(vs, Mate(us, c[n]));
  }

  /** The edges at the upper nodes met so far. */
  ghost function Covered(us: seq<nat>, c: seq<nat>): set<nat>
    requires forall k :: 0 <= k < |c| ==> c[k] < |us|
  {
    set i | 0 <= i < |us| && exists k :: 0 <= k < |c| && us[c[k]] == us[i]
  }

  lemma {:induction false} CoveredSize(us: seq<nat>, vs: seq<nat>, c: seq<nat>)
    requires Walk(us, vs, c)
    ensures |Covered(us, c)| == 2 * |c| <= |us|
    decreases |c|
  {
    hide Paired, NoTwin, Hop;
    var n := |c| - 1;
    if n > 0 {
      var front := c[..n];
      forall k | 0 < k < n ensures Stepped(us, vs, front, k) { assert Stepped(us, vs, c, k); }
      CoveredSize(us, vs, front);
      CoveredAdd(us, vs, c);
    } else {
      MateEnds(us, 0);
      assert Covered(us, c) == Ends(us, us[0]) by { assert us[c[0]] == us[0]; }
    }
    Below(|us|, Covered(us, c));
  }

  lemma CoveredAdd(us: seq<nat>, vs: seq<nat>, c: seq<nat>)
    requires Walk(us, vs, c)
    ensures |Covered(us, c)| == |Covered(us, c[..|c| - 1])| + 2
  {
    hide Paired, NoTwin, Hop, Stepped;
    var n := |c| - 1;
    var before, ends := Covered(us, c[..n]), Ends(us, us[c[n]]);
    MateEnds(us, c[n]);
    forall i | 0 <= i < |us| ensures i in Covered(us, c) <==> i in before || i in ends {
      if k :| 0 <= k < n && us[c[k]] == us[i] { assert us[c[..n][k]] == us[i]; }
    }
    assert Covered(us, c) == before + ends;
    assert before !! ends;
  }

  /** A set of numbers below `n` has at most `n` members, and has `n` only when it holds them all. */
  lemma {:induction false} Below(n: nat, s: set<nat>)
    requires forall i :: i in s ==> i < n
    ensures |s| <= n
    ensures |s| == n <==> forall i :: 0 <= i < n ==> i in s
  {
    if n == 0 {
      assert s == {};
    } else {
      var t := s - {n - 1};
      Below(n - 1, t);
      assert s == if n - 1 in s then t + {n - 1} else t;
    }
  }

  /** When the walk has closed, the edges it covers are cut off from all others. */
  lemma CoveredClosed(us: seq<nat>, vs: seq<nat>, c: seq<nat>, i: nat)
    requires Walk(us, vs, c) && Hop(us, vs, c[|c| - 1]) == 0 && i in Covered(us, c)
    ensures Mate(us, i) in Covered(us, c) && Mate(vs, i) in Covered(us, c)
  {
    var k :| 0 <= k < |c| && us[c[k]] == us[i];
    if i == c[k] {
      var b := if k == 0 then |c| - 1 else k - 1;
      MateMate(vs, Mate(us, c[b]));
      if k > 0 { assert Stepped(us, vs, c, k); }
      assert us[Mate(vs, i)] == us[c[b]];
    } else {
      MateUnique(us, c[k], i);
      if k < |c| - 1 { assert Stepped(us, vs, c, k + 1); }
      assert Mate(vs, i) == c[if k == |c| - 1 then 0 else k + 1];
    }
  }

  /** The edges in the order the walk passes them. */
  ghost function Tour(us: seq<nat>, c: seq<nat>): (p: seq<nat>)
    requires Paired(us) && forall k :: 0 <= k < |c| ==> c[k] < |us|
    ensures |p| == 2 * |c|
  {
    seq(2 * |c|, k requires 0 <= k < 2 * |c| => if k % 2 == 0 then c[k / 2] else Mate(us, c[k / 2]))
  }

  /** The two neighbours of position `a` on a cycle of `n` edges: across the upper and the lower node. */
  function Across(a: nat, n: nat, upper: bool): (b: nat)
    requires a < n && n % 2 == 0
    ensures b < n && b != a
  {
    if upper then (if a % 2 == 0 then a + 1 else a - 1)
    else if a % 2 == 1 then (if a + 1 == n then 0 else a + 1)
    else if a == 0 then n - 1 else a - 1
  }

  /** The lower-node partner of an edge of the tour is its neighbour in the tour. */
  lemma TourLower(us: seq<nat>, vs: seq<nat>, c: seq<nat>, k: nat)
    requires Walk(us, vs, c) && Hop(us, vs, c[|c| - 1]) == 0 && k < 2 * |c|
    ensures var p := Tour(us, c); Mate(vs, p[k]) == p[Across(k, |p|, false)]
  {
    hide NoTwin, Paired;
    var h := k / 2;
    if k % 2 == 1 {
      if h < |c| - 1 { assert Stepped(us, vs, c, h + 1); }
      assert Mate(vs, Tour(us, c)[k]) == Hop(us, vs, c[h]);
    } else {
      var b := if h == 0 then |c| - 1 else h - 1;
      if h > 0 { assert Stepped(us, vs, c, h); }
      MateMate(vs, Mate(us, c[b]));
    }
  }

  lemma TourUpper(us: seq<nat>, vs: seq<nat>, c: seq<nat>, j: nat, k: nat)
    requires Walk(us, vs, c) && j < 2 * |c| && k < 2 * |c|
    ensures var p := Tour(us, c); us[p[j]] == us[p[k]] <==> j / 2 == k / 2
    ensures var p := Tour(us, c); p[j] == p[k] ==> j == k
  {
  }

  lemma TourNeighbours(us: seq<nat>, vs: seq<nat>, c: seq<nat>, j: nat, k: nat)
    requires Walk(us, vs, c) && Hop(us, vs, c[|c| - 1]) == 0 && j < k < 2 * |c|
    ensures var p := Tour(us, c);
      vs[p[j]] == vs[p[k]] ==> (j % 2 == 1 && k == j + 1) || (j == 0 && k == |p| - 1)
  {
    var p := Tour(us, c);
    TourUpper(us, vs, c, j, k);
    TourUpper(us, vs, c, Across(j, |p|, false), k);
    TourLower(us, vs, c, j);
    hide NoTwin, Paired, Stepped, Hop, Tour;
    MateUnique(vs, p[j], p[k]);
  }

  /** A closed walk that covers as many edges as there are is a single cycle. */
  lemma WalkIsCycle(us: seq<nat>, vs: seq<nat>, c: seq<nat>)
    requires Walk(us, vs, c) && Hop(us, vs, c[|c| - 1]) == 0 && 2 * |c| == |us|
    ensures IsCycle(us, vs, Tour(us, c))
  {
    hide NoTwin, Paired, Stepped, Hop;
    var p := Tour(us, c);
    HopStep(us, vs, c[|c| - 1]);
    assert |c| >= 2;
    forall j, k | 0 <= j < k < |p|
      ensures p[j] != p[k]
      ensures us[p[j]] == us[p[k]] ==> j % 2 == 0 && k == j + 1
      ensures vs[p[j]] == vs[p[k]] ==> (j % 2 == 1 && k == j + 1) || (j == 0 && k == |p| - 1)
    {
      TourUpper(us, vs, c, j, k);
      TourNeighbours(us, vs, c, j, k);
    }
    forall k | 0 <= k < |p| ensures Shares(us, vs, p, k) {
      if k % 2 == 0 {
        TourUpper(us, vs, c, k, k + 1);
      } else {
        TourLower(us, vs, c, k);
      }
    }
  }

  // ---------------------------------------------------------------- from a cycle back to the walk

  /** Every edge lies on the cycle. */
  lemma OnCycle(us: seq<nat>, vs: seq<nat>, p: seq<nat>, i: nat) returns (a: nat)
    requires IsCycle(us, vs, p) && i < |p|
    ensures a < |p| && p[a] == i
  {
    var s := set k | 0 <= k < |p| :: p[k];
    Distinct(p, |p|);
    Below(|p|, s);
    assert i in s;
    a :| a < |p| && p[a] == i;
  }

  lemma {:induction false} Distinct(p: seq<nat>, n: nat)
    requires n <= |p| && forall j, k :: 0 <= j < k < |p| ==> p[j] != p[k]
    ensures |set k | 0 <= k < n :: p[k]| == n
  {
    var s := set k | 0 <= k < n :: p[k];
    if n > 0 {
      var t := set k | 0 <= k < n - 1 :: p[k];
      Distinct(p, n - 1);
      assert s == t + {p[n - 1]} && p[n - 1] !in t;
    } else {
      assert s == {};
    }
  }

  lemma CycleEnds(us: seq<nat>, vs: seq<nat>, p: seq<nat>, a: nat)
    requires IsCycle(us, vs, p) && a < |p|
    ensures Ends(us, us[p[a]]) == {p[a], p[Across(a, |p|, true)]}
    ensures Ends(vs, vs[p[a]]) == {p[a], p[Across(a, |p|, false)]}
  {
    var n := |p|;
    var b, d := Across(a, n, true), Across(a, n, false);
    assert Shares(us, vs, p, if a % 2 == 0 then a else b);
    assert Shares(us, vs, p, if a % 2 == 1 then a else d);
    forall i | i in Ends(us, us[p[a]]) ensures i == p[a] || i == p[b] {
      var k := OnCycle(us, vs, p, i);
    }
    forall i | i in Ends(vs, vs[p[a]]) ensures i == p[a] || i == p[d] {
      var k := OnCycle(us, vs, p, i);
    }
  }

  /** The edges of a single cycle pass the degree checks and hold no twin. */
  lemma CycleIsRegular(us: seq<nat>, vs: seq<nat>, p: seq<nat>)
    requires IsCycle(us, vs, p)
    ensures Regular(us, vs) && NoTwin(us, vs, 0)
  {
    forall i | 0 <= i < |us| ensures |Ends(us, us[i])| == 2 && |Ends(vs, vs[i])| == 2 {
      var a := OnCycle(us, vs, p, i);
      CycleEnds(us, vs, p, a);
    }
    var z := OnCycle(us, vs, p, 0);
    forall t | 0 < t < |us| && us[t] == us[0] ensures vs[t] != vs[0] {
      var k := OnCycle(us, vs, p, t);
    }
  }

  /** A set closed under both mates contains with an edge of the cycle the next one, too. */
  lemma SpreadNext(us: seq<nat>, vs: seq<nat>, p: seq<nat>, s: set<nat>, a: nat)
    requires IsCycle(us, vs, p) && Regular(us, vs) && a < |p| && p[a] in s
    requires forall i :: i in s ==> i < |us| && Mate(us, i) in s && Mate(vs, i) in s
    ensures p[if a + 1 == |p| then 0 else a + 1] in s
  {
    assert |p| % 2 == 0 && |us| == |vs|;
    hide IsCycle, Paired;
    var i := p[a];
    CycleEnds(us, vs, p, a);
    MateEnds(us, i);
    MateEnds(vs, i);
    assert p[Across(a, |p|, a % 2 == 0)] in {i, Mate(if a % 2 == 0 then us else vs, i)};
  }

  lemma {:induction false} SpreadUp(us: seq<nat>, vs: seq<nat>, p: seq<nat>, s: set<nat>, a: nat, b: nat)
    requires IsCycle(us, vs, p) && Regular(us, vs) && a <= b < |p| && p[a] in s
    requires forall i :: i in s ==> i < |us| && Mate(us, i) in s && Mate(vs, i) in s
    ensures p[b] in s
  {
    hide IsCycle, Paired;
    if a < b {
      SpreadUp(us, vs, p, s, a, b - 1);
      SpreadNext(us, vs, p, s, b - 1);
    }
  }

  /** On a single cycle the closed walk has passed every edge. */
  lemma CycleIsWalk(us: seq<nat>, vs: seq<nat>, p: seq<nat>, c: seq<nat>)
    requires IsCycle(us, vs, p)
    requires Walk(us, vs, c) && Hop(us, vs, c[|c| - 1]) == 0
    ensures 2 * |c| == |us|
  {
    assert |p| == |us| && c[0] == 0;
    hide IsCycle, Paired, NoTwin, Stepped, Hop;
    var s := Covered(us, c);
    var a := OnCycle(us, vs, p, 0);
    assert 0 in s by { assert us[c[0]] == us[0]; }
    CoveredSize(us, vs, c);
    Below(|us|, s);
    forall i | i in s ensures i < |us| && Mate(us, i) in s && Mate(vs, i) in s { CoveredClosed(us, vs, c, i); }
    hide *;
    SpreadUp(us, vs, p, s, a, |p| - 1);
    SpreadNext(us, vs, p, s, |p| - 1);
    forall i | 0 <= i < |us| ensures i in s {
      var b := OnCycle(us, vs, p, i);
      SpreadUp(us, vs, p, s, 0, b);
    }
  }

  // ---------------------------------------------------------------- the verifier

  predicate Increasing(proof: seq<nat>) {
    forall i, j :: 0 <= i < j < |proof| ==> proof[i] < proof[j]
  }

  function Uppers(proof: seq<nat>, edge: nat -> (nat, nat)): (us: seq<nat>)
    ensures |us| == |proof|
  {
    seq(|proof|, i requires 0 <= i < |proof| => edge(proof[i]).0)
  }

  function Lowers(proof: seq<nat>, edge: nat -> (nat, nat)): (vs: seq<nat>)
    ensures |vs| == |proof|
  {
    seq(|proof|, i requires 0 <= i < |proof| => edge(proof[i]).1)
  }

  /** The strictly increasing test on neighbouring nonces. */
  method IsMonotonous(proof: seq<nat>) returns (ok: bool)
    ensures ok <==> Increasing(proof)
  {
    var i := 1;
    while i < |proof|
      invariant 1 <= i && (|proof| > 0 ==> i <= |proof|)
      invariant forall j, k :: 0 <= j < k < i && k < |proof| ==> proof[j] < proof[k]
    {
      if proof[i - 1] >= proof[i] { return false; }
      i := i + 1;
    }
    return true;
  }

  /** The adjacency lists of one side. */
  method Adjacency(ks: seq<nat>, far: seq<nat>) returns (lists: map<nat, seq<nat>>)
    requires |ks| == |far|
    ensures forall x :: x in lists <==> x in ks
    ensures forall x :: x in lists ==> lists[x] == Listed(ks, far, x)
  {
    lists := map[];
    for i := 0 to |ks|
      invariant forall x :: x in lists <==> x in ks[..i]
      invariant forall x :: Listed(ks[..i], far[..i], x) == if x in lists then lists[x] else []
    {
      assert ks[..i + 1][..i] == ks[..i] && far[..i + 1][..i] == far[..i];
      var u := ks[i];
      lists := lists[u := (if u in lists then lists[u] else []) + [far[i]]];
    }
    assert ks[..|ks|] == ks && far[..|ks|] == far;
  }

  lemma DegreesPaired(ks: seq<nat>, far: seq<nat>, lists: map<nat, seq<nat>>)
    requires |ks| == |far|
    requires forall x :: x in lists <==> x in ks
    requires forall x :: x in lists ==> lists[x] == Listed(ks, far, x)
    ensures (forall x :: x in lists ==> |lists[x]| == 2) <==> Paired(ks)
  {
    forall x ensures |Listed(ks, far, x)| == |Ends(ks, x)| { ListedLength(ks, far, x); }
    forall i | 0 <= i < |ks| ensures ks[i] in lists {}
  }

  /** The graph part of the verification. */
  method Follow(us: seq<nat>, vs: seq<nat>) returns (r: Verdict)
    requires |us| == |vs| > 0
    ensures r == Accepted <==> SingleCycle(us, vs)
    ensures r == Panicked <==> Regular(us, vs) && !NoTwin(us, vs, 0)
  {
    var fromUpper := Adjacency(us, vs);
    var fromLower := Adjacency(vs, us);
    DegreesPaired(us, vs, fromUpper);
    DegreesPaired(vs, us, fromLower);
    forall p | IsCycle(us, vs, p) ensures Regular(us, vs) && NoTwin(us, vs, 0) { CycleIsRegular(us, vs, p); }
    if exists x :: x in fromUpper && |fromUpper[x]| != 2 { return Rejected; }
    if exists x :: x in fromLower && |fromLower[x]| != 2 { return Rejected; }
    r := WalkAround(us, vs, fromUpper, fromLower);
  }

  /** The walk from the first edge back to its upper node. */
  method WalkAround(us: seq<nat>, vs: seq<nat>, fromUpper: map<nat, seq<nat>>, fromLower: map<nat, seq<nat>>)
    returns (r: Verdict)
    requires Regular(us, vs) && |us| > 0
    requires forall x :: x in us ==> x in fromUpper && fromUpper[x] == Listed(us, vs, x)
    requires forall x :: x in vs ==> x in fromLower && fromLower[x] == Listed(vs, us, x)
    ensures r == Panicked <==> !NoTwin(us, vs, 0)
    ensures NoTwin(us, vs, 0) ==> (r == Accepted <==> SingleCycle(us, vs))
  {
    hide Paired, NoTwin, Hop, IsCycle, Stepped, Listed;
    var length := 0;
    var cur := (us[0], vs[0]);
    var start := cur.0;
    ghost var c: seq<nat> := [0];
    while true
      invariant |c| > 0 && length == 2 * (|c| - 1)
      invariant if NoTwin(us, vs, 0) then Walk(us, vs, c) else c == [0]
      invariant cur == (us[c[|c| - 1]], vs[c[|c| - 1]])
      decreases |us| - 2 * |c|
    {
      ghost var i := c[|c| - 1];
      FirstLookup(us, vs, i);
      var nextLower := FindOther(fromUpper[cur.0], cur.1);
      if nextLower == [] {
        return Panicked;
      }
      HopStep(us, vs, i);
      SecondLookup(us, vs, i);
      WalkOn(us, vs, c);
      var nextUpper := FindOther(fromLower[nextLower[0]], cur.0);
      if nextUpper == [] {
        return Panicked;
      }
      cur := (nextUpper[0], nextLower[0]);
      length := length + 2;
      if start == cur.0 {
        break;
      }
      c := c + [Hop(us, vs, i)];
      CoveredSize(us, vs, c);
    }
    if length == |us| { WalkIsCycle(us, vs, c); }
    forall p | IsCycle(us, vs, p) ensures length == |us| { CycleIsWalk(us, vs, p, c); }
    r := if length == |us| then Accepted else Rejected;
  }

  /** The first lookup fails exactly on an edge that has a twin. */
  lemma FirstLookup(us: seq<nat>, vs: seq<nat>, i: nat)
    requires Regular(us, vs) && i < |us|
    ensures FindOther(Listed(us, vs, us[i]), vs[i]) == if NoTwin(us, vs, i) then [vs[Mate(us, i)]] else []
  {
    FindMate(us, vs, i);
    if t :| 0 <= t < |us| && t != i && us[t] == us[i] && vs[t] == vs[i] { MateUnique(us, i, t); }
  }

  /** After it the second lookup never fails. */
  lemma SecondLookup(us: seq<nat>, vs: seq<nat>, i: nat)
    requires Regular(us, vs) && i < |us| && NoTwin(us, vs, i)
    ensures FindOther(Listed(vs, us, vs[Mate(us, i)]), us[i]) == [us[Hop(us, vs, i)]]
  {
    HopStep(us, vs, i);
    FindMate(vs, us, Mate(us, i));
  }

  /** Nonces 0 to 3 of a hash that pairs neighbours: all degrees are two, and the first edge occurs twice. */
  lemma RepeatedEdge()
    ensures var proof: seq<nat>, edge := [0, 1, 2, 3], (n: nat) => (n / 2, n / 2);
      && Increasing(proof)
      && Regular(Uppers(proof, edge), Lowers(proof, edge))
      && edge(proof[1]) == edge(proof[0])
  {
    var proof: seq<nat>, edge := [0, 1, 2, 3], (n: nat) => (n / 2, n / 2);
    var ks: seq<nat> := [0, 0, 1, 1];
    assert Uppers(proof, edge) == ks && Lowers(proof, edge) == ks;
    hide Uppers, Lowers, Paired;
    TwoPairs();
  }

  lemma TwoPairs()
    ensures Paired([0, 0, 1, 1])
  {
    var ks: seq<nat> := [0, 0, 1, 1];
    assert Ends(ks, 0) == {0, 1} && Ends(ks, 1) == {2, 3};
  }

  /**
   The verification of a proof of work. It accepts exactly the increasing nonce lists within the
   mask whose edges form one cycle through all of them. It fails a lookup exactly when a proof
   with even degrees repeats the edge of its first nonce.
   */
  method Verify(cycleLength: nat, edgeMask: nat, proof: seq<nat>, edge: nat -> (nat, nat)) returns (r: Verdict)
    requires cycleLength > 0
    ensures r == Accepted <==>
      && |proof| == cycleLength && (forall i, j :: 0 <= i < j < |proof| ==> proof[i] < proof[j])
      && (forall i :: 0 <= i < |proof| ==> proof[i] <= edgeMask)
      && SingleCycle(Uppers(proof, edge), Lowers(proof, edge))
    ensures r == Panicked <==>
      && |proof| == cycleLength && (forall i, j :: 0 <= i < j < |proof| ==> proof[i] < proof[j])
      && (forall i :: 0 <= i < |proof| ==> proof[i] <= edgeMask)
      && Regular(Uppers(proof, edge), Lowers(proof, edge))
      && exists j :: 0 < j < |proof| && edge(proof[j]) == edge(proof[0])
  {
    if |proof| != cycleLength { return Rejected; }
    if proof[cycleLength - 1] > edgeMask { return Rejected; }
    var monotonous := IsMonotonous(proof);
    if !monotonous { return Rejected; }
    var us, vs := Uppers(proof, edge), Lowers(proof, edge);
    r := Follow(us, vs);
    assert NoTwin(us, vs, 0) <==> forall j :: 0 < j < |proof| ==> edge(proof[j]) != edge(proof[0]) by {
      forall j | 0 <= j < |us| ensures (us[j], vs[j]) == edge(proof[j]) {}
    }
  }
}
