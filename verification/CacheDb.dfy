/**
 The write-through cache in front of the key-value store: per cached column a least-recently-used
 cache that is refreshed by reads and rewritten by committed batches.
 */
module CacheDb {
  import opened CkbTypes

  type Col = nat
  type Bytes = seq<bv8>

  datatype Op = Insert(col: Col, key: Bytes, value: Bytes) | Delete(col: Col, key: Bytes)

  datatype Answer = Value(value: Option<Bytes>) | ColumnNotFound

  type Table = map<Col, map<Bytes, Bytes>>

  // ---------------------------------------------------------------- the plain store

  function Written(t: Table, op: Op): Table {
    if op.col !in t then t
    else if op.Insert? then t[op.col := t[op.col][op.key := op.value]]
    else t[op.col := t[op.col] - {op.key}]
  }

  function WrittenAll(t: Table, ops: seq<Op>): Table {
    if ops == [] then t else Written(WrittenAll(t, ops[..|ops| - 1]), ops[|ops| - 1])
  }

  /** After a batch the last operation on a key of an existing column decides what is there. */
  lemma {:induction false} LastDecides(t: Table, ops: seq<Op>, i: nat)
    requires i < |ops| && forall j :: i < j < |ops| ==> ops[j].col != ops[i].col || ops[j].key != ops[i].key
    ensures WrittenAll(t, ops).Keys == t.Keys
    ensures ops[i].col in t ==>
      var column := WrittenAll(t, ops)[ops[i].col];
      if ops[i].Insert? then ops[i].key in column && column[ops[i].key] == ops[i].value else ops[i].key !in column
    decreases |ops|
  {
    var n := |ops| - 1;
    if i < n {
      assert ops[..n][i] == ops[i];
      LastDecides(t, ops[..n], i);
    } else {
      ColumnsStay(t, ops[..n]);
    }
  }

  lemma {:induction false} ColumnsStay(t: Table, ops: seq<Op>)
    ensures WrittenAll(t, ops).Keys == t.Keys
    decreases |ops|
  {
    if ops != [] { ColumnsStay(t, ops[..|ops| - 1]); }
  }

  /** A key without any operation is as before. */
  lemma {:induction false} OthersStay(t: Table, ops: seq<Op>, col: Col, key: Bytes)
    requires col in t && forall i :: 0 <= i < |ops| ==> ops[i].col != col || ops[i].key != key
    ensures WrittenAll(t, ops).Keys == t.Keys
    ensures key in WrittenAll(t, ops)[col] <==> key in t[col]
    ensures key in t[col] ==> WrittenAll(t, ops)[col][key] == t[col][key]
    decreases |ops|
  {
    if ops != [] {
      var n := |ops| - 1;
      forall i | 0 <= i < n ensures ops[..n][i] == ops[i] {}
      OthersStay(t, ops[..n], col, key);
    }
  }

  function Slice(data: Bytes, start: nat, end: nat): Option<Bytes> {
    if start <= end <= |data| then Some(data[start..end]) else None
  }

  function PlainRead(t: Table, col: Col, key: Bytes): Answer {
    if col !in t then ColumnNotFound else Value(if key in t[col] then Some(t[col][key]) else None)
  }

  function PlainPartialRead(t: Table, col: Col, key: Bytes, start: nat, end: nat): Answer {
    if col !in t then ColumnNotFound
    else Value(if key in t[col] then Slice(t[col][key], start, end) else None)
  }

  // ---------------------------------------------------------------- one LRU cache

  /** Entries from the least to the most recently used. */
  datatype Lru = Lru(capacity: nat, entries: seq<(Bytes, Bytes)>)
  {
    ghost predicate Valid() {
      && |entries| <= capacity
      && Distinct(entries)
    }

    ghost predicate Holds(key: Bytes, value: Bytes) {
      (key, value) in entries
    }

    predicate Has(key: Bytes) {
      exists i :: 0 <= i < |entries| && entries[i].0 == key
    }

    function Get(key: Bytes): (r: Option<Bytes>)
      requires Valid()
      ensures r.Some? <==> Has(key)
      ensures r.Some? ==> Holds(key, r.value)
    {
      Find(entries, key)
    }

    function Remove(key: Bytes): (c: Lru)
      requires Valid()
      ensures c.Valid() && c.capacity == capacity
      ensures forall k, v :: c.Holds(k, v) <==> Holds(k, v) && k != key
      ensures |c.entries| < |entries| || !Has(key)
    {
      Lru(capacity, Without(entries, key))
    }

    /** The key moves to the most recent end; the oldest entry goes when the capacity is exceeded. */
    function Put(key: Bytes, value: Bytes): (c: Lru)
      requires Valid()
      ensures c.Valid() && c.capacity == capacity
      ensures forall k, v :: c.Holds(k, v) ==> (k == key && v == value) || (k != key && Holds(k, v))
      ensures capacity > 0 ==> c.Holds(key, value)
    {
      var es := Renewed(entries, key, value);
      var c := Lru(capacity, if |es| > capacity then es[1..] else es);
      assert forall i :: 0 <= i < |c.entries| ==> c.entries[i] in es;
      assert capacity > 0 ==> c.entries[|c.entries| - 1] == (key, value);
      c
    }

    /** A hit makes the key the most recent one and changes no entry. */
    function Refresh(key: Bytes): (c: Lru)
      requires Valid()
      ensures c.Valid() && c.capacity == capacity
      ensures forall k, v :: c.Holds(k, v) <==> Holds(k, v)
    {
      var hit := Get(key);
      if hit.None? then this
      else
        assert forall v :: Holds(key, v) ==> v == hit.value;
        Lru(capacity, Renewed(entries, key, hit.value))
    }
  }

  ghost predicate Distinct(es: seq<(Bytes, Bytes)>) {
    forall i, j :: 0 <= i < j < |es| ==> es[i].0 != es[j].0
  }

  /** The list with the key's entry replaced by one at the recent end. */
  function Renewed(es: seq<(Bytes, Bytes)>, key: Bytes, value: Bytes): (r: seq<(Bytes, Bytes)>)
    requires Distinct(es)
    ensures Distinct(r) && |r| > 0 && r[|r| - 1] == (key, value)
    ensures |r| <= |es| + 1 && ((exists i :: 0 <= i < |es| && es[i].0 == key) ==> |r| <= |es|)
    ensures forall e :: e in r <==> (e in es && e.0 != key) || e == (key, value)
  {
    Without(es, key) + [(key, value)]
  }

  function Find(es: seq<(Bytes, Bytes)>, key: Bytes): (r: Option<Bytes>)
    ensures r.Some? <==> exists i :: 0 <= i < |es| && es[i].0 == key
    ensures r.Some? ==> (key, r.value) in es
  {
    if es == [] then None
    else if es[|es| - 1].0 == key then Some(es[|es| - 1].1)
    else Find(es[..|es| - 1], key)
  }

  function Without(es: seq<(Bytes, Bytes)>, key: Bytes): (r: seq<(Bytes, Bytes)>)
    ensures |r| <= |es|
    ensures forall e :: e in r <==> e in es && e.0 != key
    ensures (exists i :: 0 <= i < |es| && es[i].0 == key) ==> |r| < |es|
    ensures Distinct(es) ==> Distinct(r)
  {
    if es == [] then []
    else
      var n := |es| - 1;
      assert es == es[..n] + [es[n]];
      Without(es[..n], key) + if es[n].0 == key then [] else [es[n]]
  }

  lemma {:induction false} WithoutNone(es: seq<(Bytes, Bytes)>, key: Bytes)
    requires forall i :: 0 <= i < |es| ==> es[i].0 != key
    ensures Without(es, key) == es
    decreases |es|
  {
    if es != [] { WithoutNone(es[..|es| - 1], key); }
  }

  /** A new key goes to the recent end, at the cost of the least recently used entry when the cache is full. */
  lemma EvictsOldest(cache: Lru, key: Bytes, value: Bytes)
    requires cache.Valid() && forall i :: 0 <= i < |cache.entries| ==> cache.entries[i].0 != key
    ensures |cache.entries| < cache.capacity ==> cache.Put(key, value).entries == cache.entries + [(key, value)]
    ensures |cache.entries| == cache.capacity > 0 ==> cache.Put(key, value).entries == cache.entries[1..] + [(key, value)]
  {
    WithoutNone(cache.entries, key);
  }

  /** A hit moves its entry to the recent end. */
  lemma HitIsRecent(cache: Lru, i: nat)
    requires cache.Valid() && i < |cache.entries|
    ensures var es := cache.Refresh(cache.entries[i].0).entries; es != [] && es[|es| - 1] == cache.entries[i]
  {
    var key, value := cache.entries[i].0, cache.Get(cache.entries[i].0).value;
    var j :| 0 <= j < |cache.entries| && cache.entries[j] == (key, value);
  }

  // ---------------------------------------------------------------- the caches of all columns

  type Caches = map<Col, Lru>

  function Opened(cols: map<Col, nat>): Caches {
    map col | col in cols :: Lru(cols[col], [])
  }

  ghost predicate AllValid(caches: Caches) {
    forall col :: col in caches ==> caches[col].Valid()
  }

  function Cached(caches: Caches, op: Op): (r: Caches)
    requires AllValid(caches)
    ensures AllValid(r) && r.Keys == caches.Keys
    ensures forall col :: col in caches ==> r[col].capacity == caches[col].capacity
  {
    if op.col !in caches then caches
    else caches[op.col := if op.Insert? then caches[op.col].Put(op.key, op.value) else caches[op.col].Remove(op.key)]
  }

  function CachedAll(caches: Caches, ops: seq<Op>): (r: Caches)
    requires AllValid(caches)
    ensures AllValid(r) && r.Keys == caches.Keys
    ensures forall col :: col in caches ==> r[col].capacity == caches[col].capacity
  {
    if ops == [] then caches else Cached(CachedAll(caches, ops[..|ops| - 1]), ops[|ops| - 1])
  }

  function Touched(caches: Caches, col: Col, key: Bytes): (r: Caches)
    requires AllValid(caches)
    ensures AllValid(r) && r.Keys == caches.Keys
    ensures forall c :: c in caches ==> r[c].capacity == caches[c].capacity
    ensures forall c, k, v :: c in caches ==> (r[c].Holds(k, v) <==> caches[c].Holds(k, v))
  {
    if col in caches then caches[col := caches[col].Refresh(key)] else caches
  }

  /** What the cached columns say, they say of the store. */
  ghost predicate Coherent(t: Table, caches: Caches) {
    && AllValid(caches)
    && forall col, k, v :: col in caches && caches[col].Holds(k, v) ==> col in t && k in t[col] && t[col][k] == v
  }

  /** Every column whose cache can hold something is a column of the store. */
  ghost predicate ColumnsExist(t: Table, caches: Caches) {
    forall col :: col in caches && caches[col].capacity > 0 ==> col in t
  }

  lemma WriteCoherent(t: Table, caches: Caches, op: Op)
    requires Coherent(t, caches) && ColumnsExist(t, caches)
    ensures Coherent(Written(t, op), Cached(caches, op)) && ColumnsExist(Written(t, op), Cached(caches, op))
  {
    var u, after := Written(t, op), Cached(caches, op);
    forall col, k, v | col in after && after[col].Holds(k, v) ensures col in u && k in u[col] && u[col][k] == v {
      if col != op.col {
        assert caches[col].Holds(k, v);
      } else {
        assert after[col].capacity > 0;
        assert (op.Insert? && k == op.key) || caches[col].Holds(k, v);
      }
    }
  }

  /** A whole batch keeps the caches coherent although the store takes it first. */
  lemma {:induction false} BatchCoherent(t: Table, caches: Caches, ops: seq<Op>)
    requires Coherent(t, caches) && ColumnsExist(t, caches)
    ensures Coherent(WrittenAll(t, ops), CachedAll(caches, ops)) && ColumnsExist(WrittenAll(t, ops), CachedAll(caches, ops))
    decreases |ops|
  {
    if ops != [] {
      var front := ops[..|ops| - 1];
      BatchCoherent(t, caches, front);
      WriteCoherent(WrittenAll(t, front), CachedAll(caches, front), ops[|ops| - 1]);
    }
  }

  // ---------------------------------------------------------------- calls and runs

  datatype Call =
    | Commit(ops: seq<Op>)
    | Read(col: Col, key: Bytes)
    | PartialRead(col: Col, key: Bytes, start: nat, end: nat)

  function PlainAnswer(t: Table, call: Call): Answer {
    match call
    case Commit(_) => Value(None)
    case Read(col, key) => PlainRead(t, col, key)
    case PartialRead(col, key, start, end) => PlainPartialRead(t, col, key, start, end)
  }

  function TableAfter(t: Table, calls: seq<Call>): Table {
    if calls == [] then t
    else
      var before, call := TableAfter(t, calls[..|calls| - 1]), calls[|calls| - 1];
      if call.Commit? then WrittenAll(before, call.ops) else before
  }

  /** The answer of the cached store: a hit is served from the cache, a miss by the store. */
  function CachedAnswer(t: Table, caches: Caches, call: Call): Answer
    requires AllValid(caches)
  {
    if call.Commit? || call.col !in caches then PlainAnswer(t, call)
    else
      var hit := caches[call.col].Get(call.key);
      if hit.None? then PlainAnswer(t, call)
      else if call.Read? then Value(hit)
      else Value(Slice(hit.value, call.start, call.end))
  }

  function CachesAfter(caches: Caches, calls: seq<Call>): (r: Caches)
    requires AllValid(caches)
    ensures AllValid(r)
  {
    if calls == [] then caches
    else
      var before, call := CachesAfter(caches, calls[..|calls| - 1]), calls[|calls| - 1];
      if call.Commit? then CachedAll(before, call.ops) else Touched(before, call.col, call.key)
  }

  lemma {:induction false} RunCoherent(t: Table, caches: Caches, calls: seq<Call>)
    requires Coherent(t, caches) && ColumnsExist(t, caches)
    ensures var u, after := TableAfter(t, calls), CachesAfter(caches, calls); Coherent(u, after) && ColumnsExist(u, after)
    decreases |calls|
  {
    if calls != [] {
      var front, call := calls[..|calls| - 1], calls[|calls| - 1];
      RunCoherent(t, caches, front);
      if call.Commit? { BatchCoherent(TableAfter(t, front), CachesAfter(caches, front), call.ops); }
    }
  }

  lemma CoherentAnswers(t: Table, caches: Caches, call: Call)
    requires Coherent(t, caches)
    ensures CachedAnswer(t, caches, call) == PlainAnswer(t, call)
  {
  }

  /** After every run every call is answered as by the plain store. */
  ghost predicate Transparent(t: Table, cols: map<Col, nat>) {
    forall calls, call :: AnswersAgree(t, cols, calls, call)
  }

  ghost predicate AnswersAgree(t: Table, cols: map<Col, nat>, calls: seq<Call>, call: Call) {
    var u := TableAfter(t, calls);
    CachedAnswer(u, CachesAfter(Opened(cols), calls), call) == PlainAnswer(u, call)
  }

  /** The cache is transparent if and only if every cached column of positive capacity exists in the store. */
  lemma TransparentExactly(t: Table, cols: map<Col, nat>)
    ensures Transparent(t, cols) <==> forall col :: col in cols && cols[col] > 0 ==> col in t
  {
    var caches := Opened(cols);
    if forall col :: col in cols && cols[col] > 0 ==> col in t {
      assert Coherent(t, caches) by {
        forall col | col in caches ensures caches[col].entries == [] {}
      }
      assert ColumnsExist(t, caches);
      forall calls, call ensures AnswersAgree(t, cols, calls, call) {
        RunCoherent(t, caches, calls);
        CoherentAnswers(TableAfter(t, calls), CachesAfter(caches, calls), call);
      }
    } else {
      var col :| col in cols && cols[col] > 0 && col !in t;
      StaleColumn(t, cols, col);
    }
  }

  lemma AfterOneWrite(t: Table, caches: Caches, op: Op)
    requires AllValid(caches)
    ensures TableAfter(t, [Commit([op])]) == Written(t, op) && CachesAfter(caches, [Commit([op])]) == Cached(caches, op)
  {
    hide Written, Cached;
    var calls, ops := [Commit([op])], [op];
    assert calls[..0] == [] && ops[..0] == [];
    assert WrittenAll(t, ops) == Written(WrittenAll(t, []), op);
    assert CachedAll(caches, ops) == Cached(CachedAll(caches, []), op);
    assert TableAfter(t, calls) == WrittenAll(TableAfter(t, []), ops);
    assert CachesAfter(caches, calls) == CachedAll(CachesAfter(caches, []), ops);
  }

  /** A value written to a column the store does not have is found in the cache and not in the store. */
  lemma StaleColumn(t: Table, cols: map<Col, nat>, col: Col)
    requires col in cols && cols[col] > 0 && col !in t
    ensures !AnswersAgree(t, cols, [Commit([Insert(col, [], [])])], Read(col, []))
  {
    var op, caches := Insert(col, [], []), Opened(cols);
    AfterOneWrite(t, caches, op);
    hide TableAfter, CachesAfter, Lru.Put, Lru.Get, Lru.Has;
    PutHas(caches[col], [], []);
    assert Cached(caches, op)[col].Has([]);
  }

  lemma PutHas(cache: Lru, key: Bytes, value: Bytes)
    requires cache.Valid() && cache.capacity > 0
    ensures cache.Put(key, value).Has(key)
  {
  }

  // ---------------------------------------------------------------- the stores as objects

  /** The operations on cached columns. */
  function OnCached(cached: set<Col>, ops: seq<Op>): seq<Op> {
    if ops == [] then []
    else OnCached(cached, ops[..|ops| - 1]) + if ops[|ops| - 1].col in cached then [ops[|ops| - 1]] else []
  }

  lemma {:induction false} OnCachedSame(caches: Caches, ops: seq<Op>)
    requires AllValid(caches)
    ensures CachedAll(caches, OnCached(caches.Keys, ops)) == CachedAll(caches, ops)
    decreases |ops|
  {
    if ops != [] {
      var n := |ops| - 1;
      OnCachedSame(caches, ops[..n]);
      var kept := OnCached(caches.Keys, ops[..n]);
      if ops[n].col in caches { assert (kept + [ops[n]])[..|kept|] == kept; }
      else { assert kept + [] == kept; }
    }
  }

  class MemoryDb {
    var table: Table

    constructor (cols: nat)
      ensures forall col: nat :: col in table <==> col < cols
      ensures forall col :: col in table ==> table[col] == map[]
    {
      table := map[];
      new;
      for col := 0 to cols
        invariant forall c: nat :: c in table <==> c < col
        invariant forall c :: c in table ==> table[c] == map[]
      {
        table := table[col := map[]];
      }
    }

    method Commit(ops: seq<Op>)
      modifies this
      ensures table == WrittenAll(old(table), ops)
      ensures table.Keys == old(table).Keys
      ensures forall i ::
        && 0 <= i < |ops| && ops[i].col in old(table)
        && (forall j :: i < j < |ops| ==> ops[j].col != ops[i].col || ops[j].key != ops[i].key) ==>
          var column := table[ops[i].col];
          if ops[i].Insert? then ops[i].key in column && column[ops[i].key] == ops[i].value else ops[i].key !in column
      ensures forall col, key ::
        && col in old(table)
        && (forall i :: 0 <= i < |ops| ==> ops[i].col != col || ops[i].key != key) ==>
          && (key in table[col] <==> key in old(table)[col])
          && (key in table[col] ==> table[col][key] == old(table)[col][key])
    {
      for i := 0 to |ops|
        invariant table == WrittenAll(old(table), ops[..i])
      {
        assert ops[..i + 1][..i] == ops[..i];
        if ops[i].col in table {
          var column := table[ops[i].col];
          match ops[i] {
            case Insert(col, key, value) => table := table[col := column[key := value]];
            case Delete(col, key) => table := table[col := column - {key}];
          }
        }
      }
      assert ops[..|ops|] == ops;
      hide WrittenAll;
      ColumnsStay(old(table), ops);
      forall i |
        && 0 <= i < |ops| && ops[i].col in old(table)
        && (forall j :: i < j < |ops| ==> ops[j].col != ops[i].col || ops[j].key != ops[i].key)
        ensures var column := table[ops[i].col];
          if ops[i].Insert? then ops[i].key in column && column[ops[i].key] == ops[i].value else ops[i].key !in column
      {
        LastDecides(old(table), ops, i);
      }
      forall col, key |
        && col in old(table)
        && (forall i :: 0 <= i < |ops| ==> ops[i].col != col || ops[i].key != key)
        ensures key in table[col] <==> key in old(table)[col]
        ensures key in table[col] ==> table[col][key] == old(table)[col][key]
      {
        OthersStay(old(table), ops, col, key);
      }
    }
  }

  /** A batch writes to the store and remembers the operations on cached columns. */
  class Batch {
    const cached: set<Col>
    var inner: seq<Op>
    var operations: seq<Op>

    ghost predicate Valid()
      reads this
    {
      operations == OnCached(cached, inner)
    }

    constructor (cached: set<Col>)
      ensures Valid() && this.cached == cached && inner == []
    {
      this.cached := cached;
      inner, operations := [], [];
    }

    method Add(op: Op)
      requires Valid()
      modifies this
      ensures Valid() && inner == old(inner) + [op]
      ensures operations == old(operations) + if op.col in cached then [op] else []
    {
      assert (inner + [op])[..|inner|] == inner;
      inner := inner + [op];
      if op.col in cached { operations := operations + [op]; }
    }
  }

  class Store {
    const db: MemoryDb
    var cache: Caches

    ghost predicate Valid()
      reads this, db
    {
      Coherent(db.table, cache) && ColumnsExist(db.table, cache)
    }

    constructor (db: MemoryDb, cols: map<Col, nat>)
      requires forall col :: col in cols && cols[col] > 0 ==> col in db.table
      ensures Valid() && this.db == db && cache == Opened(cols)
    {
      this.db := db;
      cache := map col | col in cols :: Lru(cols[col], []);
    }

    /** The cache lookup shared by the reads: a hit becomes the most recent entry. */
    method GetRefresh(col: Col, key: Bytes) returns (hit: Option<Bytes>)
      requires Valid()
      modifies this
      ensures Valid() && cache == Touched(old(cache), col, key)
      ensures hit.Some? ==> col in db.table && key in db.table[col] && db.table[col][key] == hit.value
    {
      hit := None;
      if col in cache {
        hit := cache[col].Get(key);
        assert hit.Some? ==> cache[col].Holds(key, hit.value);
        cache := cache[col := cache[col].Refresh(key)];
      }
    }

    method Read(col: Col, key: Bytes) returns (r: Answer)
      requires Valid()
      modifies this
      ensures Valid() && r == PlainRead(db.table, col, key)
      ensures col !in db.table ==> r == ColumnNotFound
      ensures col in db.table && key in db.table[col] ==> r == Value(Some(db.table[col][key]))
      ensures col in db.table && key !in db.table[col] ==> r == Value(None)
      ensures cache == Touched(old(cache), col, key)
    {
      hide Coherent, ColumnsExist, Touched;
      var hit := GetRefresh(col, key);
      if hit.Some? { return Value(hit); }
      r := PlainRead(db.table, col, key);
    }

    method PartialRead(col: Col, key: Bytes, start: nat, end: nat) returns (r: Answer)
      requires Valid()
      modifies this
      ensures Valid() && r == PlainPartialRead(db.table, col, key, start, end)
      ensures col !in db.table ==> r == ColumnNotFound
      ensures col in db.table && key in db.table[col] && start <= end <= |db.table[col][key]| ==>
        r == Value(Some(db.table[col][key][start..end]))
      ensures col in db.table && !(key in db.table[col] && start <= end <= |db.table[col][key]|) ==> r == Value(None)
      ensures cache == Touched(old(cache), col, key)
    {
      hide Coherent, ColumnsExist, Touched;
      var hit := GetRefresh(col, key);
      if hit.Some? { return Value(Slice(hit.value, start, end)); }
      r := PlainPartialRead(db.table, col, key, start, end);
    }

    /** One operation reaches the cache of its column, if that column is cached. */
    method Follow(op: Op)
      requires AllValid(cache)
      modifies this
      ensures cache == Cached(old(cache), op)
    {
      if op.col in cache {
        match op {
          case Insert(col, key, value) => cache := cache[col := cache[col].Put(key, value)];
          case Delete(col, key) => cache := cache[col := cache[col].Remove(key)];
        }
      }
    }

    /** The store takes the batch first; then the caches follow, operation by operation. */
    method Commit(batch: Batch)
      requires Valid() && batch.Valid() && batch.cached == cache.Keys
      modifies this, db
      ensures Valid() && db.table == WrittenAll(old(db.table), batch.inner)
      ensures cache == CachedAll(old(cache), batch.inner)
    {
      BatchCoherent(db.table, cache, batch.inner);
      OnCachedSame(cache, batch.inner);
      db.Commit(batch.inner);
      FollowAll(batch.operations);
    }

    method FollowAll(ops: seq<Op>)
      requires AllValid(cache)
      modifies this
      ensures cache == CachedAll(old(cache), ops)
    {
      hide Cached, AllValid;
      for i := 0 to |ops|
        invariant cache == CachedAll(old(cache), ops[..i])
      {
        assert ops[..i + 1][..i] == ops[..i];
        Follow(ops[i]);
      }
      assert ops[..|ops|] == ops;
    }
  }
}
