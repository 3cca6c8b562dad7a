/**
 Script groups of a resolved transaction and the accounting of their cycles. How a group runs is an
 arbitrary function; the maps of groups are visited in an arbitrary order.
 */
module ScriptGroups {
  import opened CkbTypes
  import opened Resolution

  const U64_MAX: nat := 0xffff_ffff_ffff_ffff

  type Cycle = c: nat | c <= U64_MAX

  datatype ScriptGroup = ScriptGroup(script: Script, inputIndices: seq<nat>, outputIndices: seq<nat>)

  /** How a group's run ends: with its cycles, or failed. */
  type Runner = ScriptGroup -> Option<Cycle>

  datatype ScriptError = InvalidIssuingDaoInput | NoScript | GroupFailed | ExceededMaximumCycles

  datatype Outcome = Passed(cycles: Cycle) | Failed(error: ScriptError)

  type Groups = map<Hash, ScriptGroup>

  // ---------------------------------------------------------------- who belongs where

  /** The lock of input `i`, if its cell was resolved. */
  function LockOf(inputs: seq<Resolved>, i: nat): Option<Script>
    requires i < |inputs|
  {
    if inputs[i].cell.Cell? then Some(inputs[i].cell.meta.output.lock) else None
  }

  function InputType(inputs: seq<Resolved>, i: nat): Option<Script>
    requires i < |inputs|
  {
    if inputs[i].cell.Cell? then inputs[i].cell.meta.output.typeScript else None
  }

  function LocksOf(inputs: seq<Resolved>): (r: seq<Option<Script>>)
    ensures |r| == |inputs|
  {
    seq(|inputs|, i requires 0 <= i < |inputs| => LockOf(inputs, i))
  }

  function TypesIn(inputs: seq<Resolved>): (r: seq<Option<Script>>)
    ensures |r| == |inputs|
  {
    seq(|inputs|, i requires 0 <= i < |inputs| => InputType(inputs, i))
  }

  function TypesOut(outputs: seq<CellOutput>): (r: seq<Option<Script>>)
    ensures |r| == |outputs|
  {
    seq(|outputs|, i requires 0 <= i < |outputs| => outputs[i].typeScript)
  }

  /** The positions that carry a script of this hash, ascending. */
  function Members(scripts: seq<Option<Script>>, h: Hash): (r: seq<nat>)
    ensures forall i: nat :: i in r <==> i < |scripts| && scripts[i].Some? && scripts[i].value.hash == h
    ensures forall a :: 0 <= a < |r| ==> r[a] < |scripts|
    ensures forall a, b :: 0 <= a < b < |r| ==> r[a] < r[b]
  {
    if scripts == [] then []
    else
      var n := |scripts| - 1;
      Members(scripts[..n], h) + if scripts[n].Some? && scripts[n].value.hash == h then [n] else []
  }

  /** The first script of this hash. */
  ghost predicate FirstOf(scripts: seq<Option<Script>>, h: Hash, s: Script) {
    Members(scripts, h) != [] && scripts[Members(scripts, h)[0]] == Some(s)
  }

  /** `groups` are the groups of `ins` and `outs`: one per script hash, with all its positions and its first script. */
  ghost predicate GroupsBy(groups: Groups, ins: seq<Option<Script>>, outs: seq<Option<Script>>) {
    forall h :: GroupAt(groups, ins, outs, h)
  }

  ghost predicate GroupAt(groups: Groups, ins: seq<Option<Script>>, outs: seq<Option<Script>>, h: Hash) {
    if h in groups then
      && groups[h].inputIndices == Members(ins, h) && groups[h].outputIndices == Members(outs, h)
      && (if Members(ins, h) != [] then FirstOf(ins, h, groups[h].script) else FirstOf(outs, h, groups[h].script))
    else Members(ins, h) == [] && Members(outs, h) == []
  }

  // ---------------------------------------------------------------- building the groups

  function Entry(groups: Groups, s: Script): ScriptGroup {
    if s.hash in groups then groups[s.hash] else ScriptGroup(s, [], [])
  }

  /** One more input in its group. */
  function AddInput(groups: Groups, i: nat, s: Option<Script>): Groups {
    if s.None? then groups
    else var g := Entry(groups, s.value); groups[s.value.hash := g.(inputIndices := g.inputIndices + [i])]
  }

  function AddOutput(groups: Groups, i: nat, s: Option<Script>): Groups {
    if s.None? then groups
    else var g := Entry(groups, s.value); groups[s.value.hash := g.(outputIndices := g.outputIndices + [i])]
  }

  /** One more script changes one member list. */
  lemma MembersNext(scripts: seq<Option<Script>>, i: nat, h: Hash)
    requires i < |scripts|
    ensures var here := scripts[i].Some? && scripts[i].value.hash == h;
      Members(scripts[..i + 1], h) == Members(scripts[..i], h) + if here then [i] else []
    ensures forall s :: FirstOf(scripts[..i], h, s) ==> FirstOf(scripts[..i + 1], h, s)
    ensures scripts[i].Some? && Members(scripts[..i], h) == [] && scripts[i].value.hash == h ==>
      FirstOf(scripts[..i + 1], h, scripts[i].value)
  {
    assert scripts[..i + 1][..i] == scripts[..i];
    var m, n := Members(scripts[..i], h), Members(scripts[..i + 1], h);
    if m != [] { assert n[0] == m[0] && scripts[..i + 1][m[0]] == scripts[..i][m[0]]; }
  }

  lemma AddInputGroups(groups: Groups, ins: seq<Option<Script>>, i: nat)
    requires i < |ins| && GroupsBy(groups, ins[..i], [])
    ensures GroupsBy(AddInput(groups, i, ins[i]), ins[..i + 1], [])
  {
    hide FirstOf, Members;
    var after, more := AddInput(groups, i, ins[i]), ins[..i + 1];
    forall h ensures GroupAt(after, more, [], h) {
      assert GroupAt(groups, ins[..i], [], h);
      MembersNext(ins, i, h);
      NoMembers(h);
    }
  }

  lemma NoMembers(h: Hash)
    ensures Members([], h) == [] && forall s :: !FirstOf([], h, s)
  {
  }

  lemma AddOutputGroups(groups: Groups, ins: seq<Option<Script>>, outs: seq<Option<Script>>, i: nat)
    requires i < |outs| && GroupsBy(groups, ins, outs[..i])
    ensures GroupsBy(AddOutput(groups, i, outs[i]), ins, outs[..i + 1])
  {
    hide FirstOf, Members;
    var after, more := AddOutput(groups, i, outs[i]), outs[..i + 1];
    forall h ensures GroupAt(after, ins, more, h) {
      assert GroupAt(groups, ins, outs[..i], h);
      MembersNext(outs, i, h);
    }
  }

  /** The grouping loops over resolved inputs and outputs. */
  method BuildGroups(inputs: seq<Resolved>, outputs: seq<CellOutput>) returns (lockGroups: Groups, typeGroups: Groups)
    ensures GroupsBy(lockGroups, LocksOf(inputs), [])
    ensures GroupsBy(typeGroups, TypesIn(inputs), TypesOut(outputs))
    // Lock groups, from the cells: each resolved input is in the group of its lock hash and in no other.
    ensures forall i :: 0 <= i < |inputs| && inputs[i].cell.Cell? ==>
      var h := inputs[i].cell.meta.output.lock.hash; h in lockGroups && i in lockGroups[h].inputIndices
    ensures forall h, a :: h in lockGroups && 0 <= a < |lockGroups[h].inputIndices| ==>
      var i := lockGroups[h].inputIndices[a];
      i < |inputs| && inputs[i].cell.Cell? && inputs[i].cell.meta.output.lock.hash == h
    ensures forall h :: h in lockGroups ==>
      && lockGroups[h].outputIndices == [] && lockGroups[h].inputIndices != []
      && lockGroups[h].script == inputs[lockGroups[h].inputIndices[0]].cell.meta.output.lock
    // Type groups, from the cells and the outputs.
    ensures forall i :: 0 <= i < |inputs| && inputs[i].cell.Cell? && inputs[i].cell.meta.output.typeScript.Some? ==>
      var h := inputs[i].cell.meta.output.typeScript.value.hash; h in typeGroups && i in typeGroups[h].inputIndices
    ensures forall h, a :: h in typeGroups && 0 <= a < |typeGroups[h].inputIndices| ==>
      var i := typeGroups[h].inputIndices[a];
      && i < |inputs| && inputs[i].cell.Cell?
      && inputs[i].cell.meta.output.typeScript.Some? && inputs[i].cell.meta.output.typeScript.value.hash == h
    ensures forall i :: 0 <= i < |outputs| && outputs[i].typeScript.Some? ==>
      var h := outputs[i].typeScript.value.hash; h in typeGroups && i in typeGroups[h].outputIndices
    ensures forall h, a :: h in typeGroups && 0 <= a < |typeGroups[h].outputIndices| ==>
      var i := typeGroups[h].outputIndices[a];
      i < |outputs| && outputs[i].typeScript.Some? && outputs[i].typeScript.value.hash == h
    ensures forall h :: h in typeGroups ==>
      var g := typeGroups[h];
      if g.inputIndices != [] then inputs[g.inputIndices[0]].cell.meta.output.typeScript == Some(g.script)
      else g.outputIndices != [] && outputs[g.outputIndices[0]].typeScript == Some(g.script)
  {
    lockGroups, typeGroups := CollectGroups(inputs, outputs);
    hide GroupsBy, LocksOf, TypesIn, TypesOut;
    LockGroupsAre(lockGroups, inputs);
    TypeGroupsAre(typeGroups, inputs, outputs);
  }

  /** The loops themselves. */
  method CollectGroups(inputs: seq<Resolved>, outputs: seq<CellOutput>) returns (lockGroups: Groups, typeGroups: Groups)
    ensures GroupsBy(lockGroups, LocksOf(inputs), [])
    ensures GroupsBy(typeGroups, TypesIn(inputs), TypesOut(outputs))
  {
    lockGroups, typeGroups := map[], map[];
    ghost var locks, ins, outs := LocksOf(inputs), TypesIn(inputs), TypesOut(outputs);
    hide LocksOf, TypesIn, TypesOut, GroupsBy, AddInput, AddOutput;
    NoGroups();
    for i := 0 to |inputs|
      invariant GroupsBy(lockGroups, locks[..i], []) && GroupsBy(typeGroups, ins[..i], [])
    {
      AddInputGroups(lockGroups, locks, i);
      AddInputGroups(typeGroups, ins, i);
      ScriptsAt(inputs, i);
      lockGroups := AddInput(lockGroups, i, LockOf(inputs, i));
      typeGroups := AddInput(typeGroups, i, InputType(inputs, i));
    }
    assert locks[..|inputs|] == locks && ins[..|inputs|] == ins && outs[..0] == [];
    for i := 0 to |outputs|
      invariant GroupsBy(typeGroups, ins, outs[..i])
    {
      AddOutputGroups(typeGroups, ins, outs, i);
      OutputScript(outputs, i);
      typeGroups := AddOutput(typeGroups, i, outputs[i].typeScript);
    }
    assert outs[..|outputs|] == outs;
  }

  lemma NoGroups()
    ensures GroupsBy(map[], [], [])
  {
  }

  lemma ScriptsAt(inputs: seq<Resolved>, i: nat)
    requires i < |inputs|
    ensures LocksOf(inputs)[i] == LockOf(inputs, i) && TypesIn(inputs)[i] == InputType(inputs, i)
  {
  }

  lemma OutputScript(outputs: seq<CellOutput>, i: nat)
    requires i < |outputs|
    ensures TypesOut(outputs)[i] == outputs[i].typeScript
  {
  }

  /** What groups by script say about one hash, position by position. */
  lemma GroupIs(groups: Groups, ins: seq<Option<Script>>, outs: seq<Option<Script>>, h: Hash)
    requires GroupsBy(groups, ins, outs)
    ensures forall i: nat :: (h in groups && i in groups[h].inputIndices) <==>
      i < |ins| && ins[i].Some? && ins[i].value.hash == h
    ensures forall i: nat :: (h in groups && i in groups[h].outputIndices) <==>
      i < |outs| && outs[i].Some? && outs[i].value.hash == h
    ensures h in groups ==>
      var g := groups[h];
      if g.inputIndices != [] then g.inputIndices[0] < |ins| && ins[g.inputIndices[0]] == Some(g.script)
      else g.outputIndices != [] && g.outputIndices[0] < |outs| && outs[g.outputIndices[0]] == Some(g.script)
    ensures h in groups ==> forall a :: 0 <= a < |groups[h].inputIndices| ==>
      var i := groups[h].inputIndices[a]; i < |ins| && ins[i].Some? && ins[i].value.hash == h
    ensures h in groups ==> forall a :: 0 <= a < |groups[h].outputIndices| ==>
      var i := groups[h].outputIndices[a]; i < |outs| && outs[i].Some? && outs[i].value.hash == h
    ensures h in groups && outs == [] ==> groups[h].outputIndices == []
  {
    NoMembers(h);
    assert GroupAt(groups, ins, outs, h);
  }

  lemma LockGroupsAre(groups: Groups, inputs: seq<Resolved>)
    requires GroupsBy(groups, LocksOf(inputs), [])
    ensures forall i :: 0 <= i < |inputs| && inputs[i].cell.Cell? ==>
      var h := inputs[i].cell.meta.output.lock.hash; h in groups && i in groups[h].inputIndices
    ensures forall h, a :: h in groups && 0 <= a < |groups[h].inputIndices| ==>
      var i := groups[h].inputIndices[a];
      i < |inputs| && inputs[i].cell.Cell? && inputs[i].cell.meta.output.lock.hash == h
    ensures forall h :: h in groups ==>
      && groups[h].outputIndices == [] && groups[h].inputIndices != []
      && groups[h].script == inputs[groups[h].inputIndices[0]].cell.meta.output.lock
  {
    var locks := LocksOf(inputs);
    forall i | 0 <= i < |inputs|
      ensures locks[i] == if inputs[i].cell.Cell? then Some(inputs[i].cell.meta.output.lock) else None
    {
      ScriptsAt(inputs, i);
    }
    hide GroupsBy, LocksOf;
    forall i | 0 <= i < |inputs| && inputs[i].cell.Cell?
      ensures var h := inputs[i].cell.meta.output.lock.hash; h in groups && i in groups[h].inputIndices
    {
      GroupIs(groups, locks, [], inputs[i].cell.meta.output.lock.hash);
    }
    forall h | h in groups
      ensures groups[h].outputIndices == [] && groups[h].inputIndices != []
      ensures forall a :: 0 <= a < |groups[h].inputIndices| ==>
        var i := groups[h].inputIndices[a];
        i < |inputs| && inputs[i].cell.Cell? && inputs[i].cell.meta.output.lock.hash == h
      ensures groups[h].script == inputs[groups[h].inputIndices[0]].cell.meta.output.lock
    {
      GroupIs(groups, locks, [], h);
    }
  }

  lemma TypeGroupsAre(groups: Groups, inputs: seq<Resolved>, outputs: seq<CellOutput>)
    requires GroupsBy(groups, TypesIn(inputs), TypesOut(outputs))
    ensures forall i :: 0 <= i < |inputs| && inputs[i].cell.Cell? && inputs[i].cell.meta.output.typeScript.Some? ==>
      var h := inputs[i].cell.meta.output.typeScript.value.hash; h in groups && i in groups[h].inputIndices
    ensures forall h, a :: h in groups && 0 <= a < |groups[h].inputIndices| ==>
      var i := groups[h].inputIndices[a];
      && i < |inputs| && inputs[i].cell.Cell?
      && inputs[i].cell.meta.output.typeScript.Some? && inputs[i].cell.meta.output.typeScript.value.hash == h
    ensures forall i :: 0 <= i < |outputs| && outputs[i].typeScript.Some? ==>
      var h := outputs[i].typeScript.value.hash; h in groups && i in groups[h].outputIndices
    ensures forall h, a :: h in groups && 0 <= a < |groups[h].outputIndices| ==>
      var i := groups[h].outputIndices[a];
      i < |outputs| && outputs[i].typeScript.Some? && outputs[i].typeScript.value.hash == h
    ensures forall h :: h in groups ==>
      var g := groups[h];
      if g.inputIndices != [] then inputs[g.inputIndices[0]].cell.meta.output.typeScript == Some(g.script)
      else g.outputIndices != [] && outputs[g.outputIndices[0]].typeScript == Some(g.script)
  {
    var ins, outs := TypesIn(inputs), TypesOut(outputs);
    forall i | 0 <= i < |inputs|
      ensures ins[i] == if inputs[i].cell.Cell? then inputs[i].cell.meta.output.typeScript else None
    {
      ScriptsAt(inputs, i);
    }
    forall i | 0 <= i < |outputs| ensures outs[i] == outputs[i].typeScript { OutputScript(outputs, i); }
    hide GroupsBy, TypesIn, TypesOut;
    forall i | 0 <= i < |inputs| && inputs[i].cell.Cell? && inputs[i].cell.meta.output.typeScript.Some?
      ensures var h := inputs[i].cell.meta.output.typeScript.value.hash; h in groups && i in groups[h].inputIndices
    {
      GroupIs(groups, ins, outs, ins[i].value.hash);
    }
    forall i | 0 <= i < |outputs| && outputs[i].typeScript.Some?
      ensures var h := outputs[i].typeScript.value.hash; h in groups && i in groups[h].outputIndices
    {
      GroupIs(groups, ins, outs, outs[i].value.hash);
    }
    forall h | h in groups
      ensures forall a :: 0 <= a < |groups[h].inputIndices| ==>
        var i := groups[h].inputIndices[a];
        && i < |inputs| && inputs[i].cell.Cell?
        && inputs[i].cell.meta.output.typeScript.Some? && inputs[i].cell.meta.output.typeScript.value.hash == h
      ensures forall a :: 0 <= a < |groups[h].outputIndices| ==>
        var i := groups[h].outputIndices[a];
        i < |outputs| && outputs[i].typeScript.Some? && outputs[i].typeScript.value.hash == h
      ensures var g := groups[h];
        if g.inputIndices != [] then inputs[g.inputIndices[0]].cell.meta.output.typeScript == Some(g.script)
        else g.outputIndices != [] && outputs[g.outputIndices[0]].typeScript == Some(g.script)
    {
      GroupIs(groups, ins, outs, h);
    }
  }

  /** Every input with a resolved cell is in exactly one lock group, the one of its lock hash, and there once. */
  lemma LockPartition(groups: Groups, inputs: seq<Resolved>, i: nat, h: Hash)
    requires GroupsBy(groups, LocksOf(inputs), []) && i < |inputs|
    ensures (h in groups && i in groups[h].inputIndices) <==>
      inputs[i].cell.Cell? && inputs[i].cell.meta.output.lock.hash == h
    ensures h in groups ==> groups[h].script.hash == h && groups[h].outputIndices == []
    ensures h in groups ==> multiset(groups[h].inputIndices)[i] <= 1
  {
    assert GroupAt(groups, LocksOf(inputs), [], h);
    var m := Members(LocksOf(inputs), h);
    NoMembers(h);
    ScriptsAt(inputs, i);
    if h in groups {
      Once(m, i);
      assert m[0] in m;
    }
  }

  lemma {:induction false} Once(m: seq<nat>, i: nat)
    requires forall a, b :: 0 <= a < b < |m| ==> m[a] < m[b]
    ensures multiset(m)[i] <= 1
    decreases |m|
  {
    if m != [] {
      var n := |m| - 1;
      assert m == m[..n] + [m[n]];
      Once(m[..n], i);
    }
  }

  // ---------------------------------------------------------------- cycles

  /** The groups of both kinds, keyed by kind and hash. */
  datatype GroupKey = GroupKey(lock: bool, hash: Hash)

  ghost function Keys(locks: Groups, types: Groups): set<GroupKey> {
    Named(true, locks.Keys) + Named(false, types.Keys)
  }

  ghost function Named(lock: bool, hashes: set<Hash>): set<GroupKey> {
    set h | h in hashes :: GroupKey(lock, h)
  }

  ghost function GroupOf(locks: Groups, types: Groups, k: GroupKey): ScriptGroup
    requires k in Keys(locks, types)
  {
    if k.lock then locks[k.hash] else types[k.hash]
  }

  ghost function Total(locks: Groups, types: Groups, run: Runner, keys: set<GroupKey>): nat
    requires keys <= Keys(locks, types)
  {
    if keys == {} then 0
    else
      var k :| k in keys;
      CostOf(run, GroupOf(locks, types, k)) + Total(locks, types, run, keys - {k})
  }

  ghost function CostOf(run: Runner, g: ScriptGroup): nat {
    if run(g).Some? then run(g).value else 0
  }

  /** The sum may be taken apart at any key. */
  lemma {:induction false} TotalAt(locks: Groups, types: Groups, run: Runner, keys: set<GroupKey>, k: GroupKey)
    requires keys <= Keys(locks, types) && k in keys
    ensures Total(locks, types, run, keys) == CostOf(run, GroupOf(locks, types, k)) + Total(locks, types, run, keys - {k})
    decreases |keys|
  {
    var first :| first in keys && Total(locks, types, run, keys) ==
      CostOf(run, GroupOf(locks, types, first)) + Total(locks, types, run, keys - {first});
    if first != k {
      TotalAt(locks, types, run, keys - {first}, k);
      TotalAt(locks, types, run, keys - {k}, first);
      assert keys - {first} - {k} == keys - {k} - {first};
    }
  }

  /** The sum depends only on the groups of the keys. */
  lemma {:induction false} TotalSame(
    locks: Groups, types: Groups, locks': Groups, types': Groups, run: Runner, keys: set<GroupKey>)
    requires keys <= Keys(locks, types) && keys <= Keys(locks', types')
    requires forall k :: k in keys ==> GroupOf(locks, types, k) == GroupOf(locks', types', k)
    ensures Total(locks, types, run, keys) == Total(locks', types', run, keys)
    decreases |keys|
  {
    if keys != {} {
      var k :| k in keys;
      TotalAt(locks, types, run, keys, k);
      TotalAt(locks', types', run, keys, k);
      TotalSame(locks, types, locks', types', run, keys - {k});
    }
  }

  /** What the total is: nothing for no groups, and for every group more its own cycles. */
  lemma TotalCounts(locks: Groups, types: Groups, run: Runner, h: Hash, g: ScriptGroup)
    requires run(g).Some?
    ensures locks == map[] && types == map[] ==> Total(locks, types, run, Keys(locks, types)) == 0
    ensures h !in locks ==>
      Total(locks[h := g], types, run, Keys(locks[h := g], types)) == Total(locks, types, run, Keys(locks, types)) + run(g).value
    ensures h !in types ==>
      Total(locks, types[h := g], run, Keys(locks, types[h := g])) == Total(locks, types, run, Keys(locks, types)) + run(g).value
  {
    hide Total;
    if locks == map[] && types == map[] { NoKeys(locks, types, run); }
    if h !in locks { OneMoreKey(locks, types, locks[h := g], types, run, GroupKey(true, h), g); }
    if h !in types { OneMoreKey(locks, types, locks, types[h := g], run, GroupKey(false, h), g); }
  }

  lemma NoKeys(locks: Groups, types: Groups, run: Runner)
    requires locks == map[] && types == map[]
    ensures Total(locks, types, run, Keys(locks, types)) == 0
  {
    assert Keys(locks, types) == {};
  }

  lemma OneMoreKey(
    locks: Groups, types: Groups, locks': Groups, types': Groups, run: Runner, k: GroupKey, g: ScriptGroup)
    requires k !in Keys(locks, types)
    requires if k.lock then locks' == locks[k.hash := g] && types' == types else locks' == locks && types' == types[k.hash := g]
    requires run(g).Some?
    ensures Total(locks', types', run, Keys(locks', types')) == Total(locks, types, run, Keys(locks, types)) + run(g).value
  {
    assert Keys(locks', types') == Keys(locks, types) + {k};
    TotalAt(locks', types', run, Keys(locks', types'), k);
    assert Keys(locks', types') - {k} == Keys(locks, types);
    TotalSame(locks', types', locks, types, run, Keys(locks, types));
  }

  ghost predicate AllSucceed(locks: Groups, types: Groups, run: Runner) {
    forall k :: k in Keys(locks, types) ==> run(GroupOf(locks, types, k)).Some?
  }

  lemma {:induction false} TotalGrows(
    locks: Groups, types: Groups, run: Runner, part: set<GroupKey>, keys: set<GroupKey>)
    requires part <= keys <= Keys(locks, types)
    ensures Total(locks, types, run, part) <= Total(locks, types, run, keys)
    decreases |keys|
  {
    if part != keys {
      var k :| k in keys && k !in part;
      TotalAt(locks, types, run, keys, k);
      TotalGrows(locks, types, run, part, keys - {k});
    }
  }

  /** The verdict and the cycles do not depend on the order in which the groups are visited. */
  method Verify(
    inputs: seq<Resolved>, locks: Groups, types: Groups, validDao: bool, run: Runner, maxCycles: Cycle)
    returns (r: Outcome)
    ensures r.Passed? <==>
      && (forall i :: 0 <= i < |inputs| ==> inputs[i].cell.Cell? || (inputs[i].cell.IssuingDaoInput? && validDao))
      && (forall h :: h in locks ==> run(locks[h]).Some?) && (forall h :: h in types ==> run(types[h]).Some?)
      && Total(locks, types, run, Keys(locks, types)) <= maxCycles
    ensures r.Passed? ==> r.cycles == Total(locks, types, run, Keys(locks, types))
    ensures (r.Failed? && r.error in {InvalidIssuingDaoInput, NoScript}) <==>
      !forall i :: 0 <= i < |inputs| ==> inputs[i].cell.Cell? || (inputs[i].cell.IssuingDaoInput? && validDao)
    ensures r == Failed(InvalidIssuingDaoInput) ==> exists i ::
      && 0 <= i < |inputs| && inputs[i].cell.IssuingDaoInput? && !validDao
      && forall j :: 0 <= j < i ==> inputs[j].cell.Cell?
    ensures r == Failed(NoScript) ==> exists i ::
      && 0 <= i < |inputs| && inputs[i].cell.Null?
      && forall j :: 0 <= j < i ==> inputs[j].cell.Cell? || (inputs[j].cell.IssuingDaoInput? && validDao)
    ensures r == Failed(GroupFailed) ==>
      (exists h :: h in locks && run(locks[h]).None?) || (exists h :: h in types && run(types[h]).None?)
    ensures r == Failed(ExceededMaximumCycles) ==> Total(locks, types, run, Keys(locks, types)) > maxCycles
  {
    SuccessIs(locks, types, run);
    hide *;
    var bad := CheckInputs(inputs, validDao);
    if bad.Some? { return Failed(bad.value); }
    ghost var done;
    NothingRun(locks, types, run, maxCycles);
    r, done := RunGroups(locks, types, true, run, maxCycles, 0, {});
    if r.Failed? { return; }
    OnlyLocks(locks.Keys);
    r, done := RunGroups(locks, types, false, run, maxCycles, r.cycles, done);
    if r.Passed? { AllRun(locks, types, run, maxCycles, done, r.cycles); }
  }

  /** The first loop: every input is resolved, or an issuing-DAO input of a valid withdrawal. */
  method CheckInputs(inputs: seq<Resolved>, validDao: bool) returns (error: Option<ScriptError>)
    ensures error.None? <==>
      forall i :: 0 <= i < |inputs| ==> inputs[i].cell.Cell? || (inputs[i].cell.IssuingDaoInput? && validDao)
    ensures error.Some? ==> error.value in {InvalidIssuingDaoInput, NoScript}
    ensures error == Some(InvalidIssuingDaoInput) ==> exists i ::
      && 0 <= i < |inputs| && inputs[i].cell.IssuingDaoInput? && !validDao
      && forall j :: 0 <= j < i ==> inputs[j].cell.Cell?
    ensures error == Some(NoScript) ==> exists i ::
      && 0 <= i < |inputs| && inputs[i].cell.Null?
      && forall j :: 0 <= j < i ==> inputs[j].cell.Cell? || (inputs[j].cell.IssuingDaoInput? && validDao)
  {
    for i := 0 to |inputs|
      invariant forall j :: 0 <= j < i ==> inputs[j].cell.Cell? || (inputs[j].cell.IssuingDaoInput? && validDao)
    {
      if inputs[i].cell.IssuingDaoInput? {
        if !validDao { return Some(InvalidIssuingDaoInput); }
      } else if !inputs[i].cell.Cell? {
        return Some(NoScript);
      }
    }
    error := None;
  }

  lemma NothingRun(locks: Groups, types: Groups, run: Runner, maxCycles: Cycle)
    ensures Progress(locks, types, run, maxCycles, {}, 0)
  {
  }

  lemma OnlyLocks(hashes: set<Hash>)
    ensures forall k :: k in {} + Named(true, hashes) ==> k.lock
  {
  }

  lemma AllRun(locks: Groups, types: Groups, run: Runner, maxCycles: Cycle, done: set<GroupKey>, cycles: Cycle)
    requires Progress(locks, types, run, maxCycles, done, cycles)
    requires done == {} + Named(true, locks.Keys) + Named(false, types.Keys)
    ensures AllSucceed(locks, types, run) && cycles == Total(locks, types, run, Keys(locks, types)) <= maxCycles
  {
    assert done == Keys(locks, types);
  }

  lemma SuccessIs(locks: Groups, types: Groups, run: Runner)
    ensures AllSucceed(locks, types, run) <==>
      (forall h :: h in locks ==> run(locks[h]).Some?) && (forall h :: h in types ==> run(types[h]).Some?)
  {
    if AllSucceed(locks, types, run) {
      forall h | h in locks ensures run(locks[h]).Some? { assert GroupKey(true, h) in Keys(locks, types); }
      forall h | h in types ensures run(types[h]).Some? { assert GroupKey(false, h) in Keys(locks, types); }
    }
  }

  /** The groups run so far all succeeded, and their cycles are within the limit. */
  ghost predicate Progress(
    locks: Groups, types: Groups, run: Runner, maxCycles: Cycle, done: set<GroupKey>, cycles: Cycle) {
    && done <= Keys(locks, types)
    && cycles == Total(locks, types, run, done) <= maxCycles
    && forall k :: k in done ==> run(GroupOf(locks, types, k)).Some?
  }

  lemma ProgressNext(
    locks: Groups, types: Groups, run: Runner, maxCycles: Cycle, done: set<GroupKey>, cycles: Cycle, k: GroupKey)
    requires Progress(locks, types, run, maxCycles, done, cycles) && k in Keys(locks, types) && k !in done
    ensures var c := run(GroupOf(locks, types, k));
      && (c.None? ==> !AllSucceed(locks, types, run))
      && (c.Some? && cycles + c.value > maxCycles ==> Total(locks, types, run, Keys(locks, types)) > maxCycles)
      && (c.Some? && cycles + c.value <= maxCycles ==> Progress(locks, types, run, maxCycles, done + {k}, cycles + c.value))
  {
    TotalAt(locks, types, run, done + {k}, k);
    assert done + {k} - {k} == done;
    TotalGrows(locks, types, run, done + {k}, Keys(locks, types));
  }

  /** All groups of one kind, in some order. */
  method RunGroups(
    locks: Groups, types: Groups, lock: bool, run: Runner, maxCycles: Cycle,
    start: Cycle, ghost before: set<GroupKey>)
    returns (r: Outcome, ghost done: set<GroupKey>)
    requires Progress(locks, types, run, maxCycles, before, start)
    requires forall k :: k in before ==> k.lock != lock
    ensures r.Passed? ==> Progress(locks, types, run, maxCycles, done, r.cycles)
    ensures r.Passed? ==> done == before + Named(lock, (if lock then locks else types).Keys)
    ensures r.Failed? ==> r.error in {GroupFailed, ExceededMaximumCycles}
    ensures r == Failed(GroupFailed) ==> !AllSucceed(locks, types, run)
    ensures r == Failed(ExceededMaximumCycles) ==> Total(locks, types, run, Keys(locks, types)) > maxCycles
  {
    hide Progress, Total, AllSucceed;
    var groups := if lock then locks else types;
    var left := groups.Keys;
    var cycles: Cycle := start;
    done := before;
    assert done == before + Named(lock, groups.Keys - left);
    while left != {}
      invariant left <= groups.Keys && Progress(locks, types, run, maxCycles, done, cycles)
      invariant done == before + Named(lock, groups.Keys - left)
      decreases |left|
    {
      var h :| h in left;
      ghost var k := GroupKey(lock, h);
      assert k in Keys(locks, types) && GroupOf(locks, types, k) == groups[h] && k !in done;
      ProgressNext(locks, types, run, maxCycles, done, cycles, k);
      NamedNext(lock, groups.Keys, left, h);
      left := left - {h};
      var cycle := run(groups[h]);
      if cycle.None? { return Failed(GroupFailed), done; }
      if cycles + cycle.value > U64_MAX { return Failed(ExceededMaximumCycles), done; }
      if cycles + cycle.value > maxCycles { return Failed(ExceededMaximumCycles), done; }
      cycles, done := cycles + cycle.value, done + {k};
    }
    assert groups.Keys - left == groups.Keys;
    r := Passed(cycles);
  }

  lemma NamedNext(lock: bool, all: set<Hash>, left: set<Hash>, h: Hash)
    requires h in left && left <= all
    ensures Named(lock, all - (left - {h})) == Named(lock, all - left) + {GroupKey(lock, h)}
  {
  }
}
