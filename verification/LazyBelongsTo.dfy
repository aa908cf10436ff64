/**
 * Belongs-to associations of app/models/helper_lazy.go: the parent row a foreign key names,
 * resolved one by one on first read or for a whole list by one id query.
 */
module LazyBelongsTo {
  import opened Wrappers
  import opened Int64

  datatype Row = Row(id: int, data: int)

  /** The target table; `id` is its primary key. */
  datatype Target = Target(rows: seq<Row>) {
    predicate Valid() {
      && (forall i :: 0 <= i < |rows| ==> IsInt64(rows[i].id))
      && (forall i, j :: 0 <= i < j < |rows| ==> rows[i].id != rows[j].id)
    }
  }

  function FindById(rows: seq<Row>, id: int): Option<Row> {
    if rows == [] then None
    else if rows[0].id == id then Some(rows[0])
    else FindById(rows[1..], id)
  }

  function FindByIds(rows: seq<Row>, ids: seq<nat>): seq<Row> {
    if rows == [] then []
    else if exists i :: 0 <= i < |ids| && rows[0].id == ids[i] then [rows[0]] + FindByIds(rows[1..], ids)
    else FindByIds(rows[1..], ids)
  }

  class Querier {
    const table: Target
    const batching: bool
    const lazyFails: nat -> bool
    const batchFails: nat -> bool
    var lazyCalls: nat
    var batchCalls: nat

    constructor (table: Target, batching: bool, lazyFails: nat -> bool, batchFails: nat -> bool)
      ensures this.table == table && this.batching == batching
      ensures this.lazyFails == lazyFails && this.batchFails == batchFails
      ensures lazyCalls == 0 && batchCalls == 0
    {
      this.table := table;
      this.batching := batching;
      this.lazyFails := lazyFails;
      this.batchFails := batchFails;
      lazyCalls := 0;
      batchCalls := 0;
    }

    method ById(id: int) returns (row: Option<Row>)
      modifies this`lazyCalls
      ensures lazyCalls == old(lazyCalls) + 1
      ensures row == if lazyFails(old(lazyCalls)) then None else FindById(table.rows, id)
    {
      row := if lazyFails(lazyCalls) then None else FindById(table.rows, id);
      lazyCalls := lazyCalls + 1;
    }

    method ByIds(ids: seq<nat>) returns (rows: seq<Row>, failed: bool)
      modifies this`batchCalls
      ensures batchCalls == old(batchCalls) + 1 && failed == batchFails(old(batchCalls))
      ensures !failed ==> rows == FindByIds(table.rows, ids)
      ensures table.Valid() && !failed ==> forall r :: r in rows <==>
        r in table.rows && exists i :: 0 <= i < |ids| && r.id == ids[i]
    {
      if table.Valid() { FoundByIds(table.rows, ids); }
      failed := batchFails(batchCalls);
      rows := if failed then [] else FindByIds(table.rows, ids);
      batchCalls := batchCalls + 1;
    }
  }

  /** A model object with a foreign key, a nil pointer being `None`, and a nullable cache. */
  class Child {
    const fk: Option<int>
    var cache: Option<Row>

    constructor (fk: Option<int>)
      ensures this.fk == fk && cache == None
    {
      this.fk := fk;
      cache := None;
    }

    method LazyBelongsTo(q: Querier) returns (parent: Option<Row>)
      modifies this`cache, q`lazyCalls
      ensures var failed := q.lazyFails(old(q.lazyCalls));
        && parent == (if Queries(fk, old(cache)) && failed then None else Read(q.table, fk, old(cache)))
        && cache == parent
        && q.lazyCalls == old(q.lazyCalls) + if Queries(fk, old(cache)) then 1 else 0
      ensures old(cache) != None ==> parent == cache == old(cache) && q.lazyCalls == old(q.lazyCalls)
    {
      if cache == None {
        var result := ResolveBelongsTo(q, fk);
        if result.Some? {
          cache := result;
        }
      }
      return cache;
    }
  }

  method ResolveBelongsTo(q: Querier, fk: Option<int>) returns (parent: Option<Row>)
    modifies q`lazyCalls
    ensures var failed := q.lazyFails(old(q.lazyCalls));
      && parent == (if Queries(fk, None) && failed then None else Read(q.table, fk, None))
      && q.lazyCalls == old(q.lazyCalls) + if Queries(fk, None) then 1 else 0
    ensures fk == None || fk == Some(0) ==> parent == None && q.lazyCalls == old(q.lazyCalls)
    ensures fk != None && fk != Some(0) ==> q.lazyCalls == old(q.lazyCalls) + 1
    ensures fk != None && fk != Some(0) && !q.lazyFails(old(q.lazyCalls)) ==>
      if parent.Some? then parent.value in q.table.rows && parent.value.id == fk.value
      else forall r :: r in q.table.rows ==> r.id != fk.value
  {
    if fk.None? || fk.value == 0 {
      return None;
    }
    FoundById(q.table.rows, fk.value);
    parent := q.ById(fk.value);
  }

  predicate Queries(fk: Option<int>, cache: Option<Row>) {
    cache.None? && fk.Some? && fk.value != 0
  }

  /** What reading the association returns, from the cache or by a query that succeeds. */
  function Read(t: Target, fk: Option<int>, cache: Option<Row>): Option<Row> {
    if cache.Some? then cache
    else if fk.None? || fk.value == 0 then None
    else FindById(t.rows, fk.value)
  }

  /** The cache a batch load leaves; a failed query and a missing row leave it nil. */
  function CacheAfterEager(t: Target, fk: Option<int>, cache: Option<Row>, failed: bool): Option<Row>
    requires fk.Some? ==> IsInt64(fk.value)
  {
    if !Queries(fk, cache) || failed then cache else FindById(t.rows, ToUint64(fk.value))
  }

  // ─── The batch loader ───────────────────────────────────────────────────────

  ghost predicate GoodItems(items: seq<Child>) {
    forall c :: c in items && c.fk.Some? ==> IsInt64(c.fk.value)
  }

  ghost predicate Grouped(items: seq<Child>, groups: map<nat, seq<Child>>)
    requires GoodItems(items)
    reads items
  {
    && (forall c :: c in items && Queries(c.fk, c.cache) ==>
      ToUint64(c.fk.value) in groups && c in groups[ToUint64(c.fk.value)])
    && (forall id, c :: id in groups && c in groups[id] ==>
      c in items && Queries(c.fk, c.cache) && ToUint64(c.fk.value) == id)
    && (forall id :: id in groups ==> groups[id] != [])
  }

  method GroupItems(items: seq<Child>) returns (groups: map<nat, seq<Child>>)
    requires GoodItems(items)
    ensures Grouped(items, groups)
  {
    groups := map[];
    for i := 0 to |items|
      invariant Grouped(items[..i], groups)
    {
      var c := items[i];
      assert items[..i + 1] == items[..i] + [c];
      if c.cache.None? && c.fk.Some? {
        var id := ToUint64(c.fk.value);
        if id != 0 {
          groups := groups[id := (if id in groups then groups[id] else []) + [c]];
        }
      }
    }
    assert items[..|items|] == items;
  }

  method MapKeys(groups: map<nat, seq<Child>>) returns (ids: seq<nat>)
    ensures forall id :: id in ids <==> id in groups
  {
    ids := [];
    var pending := groups.Keys;
    while pending != {}
      invariant pending <= groups.Keys
      invariant forall id :: id in ids <==> id in groups && id !in pending
      decreases pending
    {
      var id :| id in pending;
      ids := ids + [id];
      pending := pending - {id};
    }
  }

  /** Rows by id; ids are unique, so no row hides another. */
  method IndexRows(rows: seq<Row>) returns (byId: map<nat, Row>)
    requires Target(rows).Valid()
    ensures forall i :: 0 <= i < |rows| ==> ToUint64(rows[i].id) in byId && byId[ToUint64(rows[i].id)] == rows[i]
    ensures forall id :: id in byId ==> byId[id] in rows && IsInt64(byId[id].id) && ToUint64(byId[id].id) == id
  {
    byId := map[];
    for i := 0 to |rows|
      invariant forall j :: 0 <= j < i ==> ToUint64(rows[j].id) in byId && byId[ToUint64(rows[j].id)] == rows[j]
      invariant forall id :: id in byId ==> byId[id] in rows && IsInt64(byId[id].id) && ToUint64(byId[id].id) == id
    {
      byId := byId[ToUint64(rows[i].id) := rows[i]];
    }
  }

  method SetCaches(targets: seq<Child>, row: Option<Row>)
    modifies set c | c in targets :: c`cache
    ensures forall c :: c in targets ==> c.cache == row
  {
    for j := 0 to |targets|
      invariant forall c :: c in targets[..j] ==> c.cache == row
    {
      var target := targets[j];
      assert target in targets;
      target.cache := row;
    }
  }

  function Lookup(byId: map<nat, Row>, id: nat): Option<Row> {
    if id in byId then Some(byId[id]) else None
  }

  method Distribute(items: seq<Child>, groups: map<nat, seq<Child>>, byId: map<nat, Row>)
    requires GoodItems(items) && Grouped(items, groups)
    modifies set c | c in items :: c`cache
    ensures forall c :: c in items && old(Queries(c.fk, c.cache)) ==> c.cache == Lookup(byId, ToUint64(c.fk.value))
    ensures forall c :: c in items && !old(Queries(c.fk, c.cache)) ==> c.cache == old(c.cache)
  {
    ghost var served := set c | c in items && Queries(c.fk, c.cache);
    var pending := groups.Keys;
    while pending != {}
      invariant pending <= groups.Keys
      invariant forall c :: c in items && (c !in served || ToUint64(c.fk.value) in pending) ==> c.cache == old(c.cache)
      invariant forall c :: c in served && ToUint64(c.fk.value) !in pending ==>
        c.cache == Lookup(byId, ToUint64(c.fk.value))
      decreases pending
    {
      var id :| id in pending;
      assert forall c :: c in groups[id] <==> c in served && ToUint64(c.fk.value) == id;
      SetCaches(groups[id], Lookup(byId, id));
      pending := pending - {id};
    }
  }

  method EagerBelongsTo(q: Querier, items: seq<Child>)
    requires q.table.Valid() && GoodItems(items)
    modifies q`batchCalls, set c | c in items :: c`cache
    ensures forall c :: c in items ==> c.cache == old(
      CacheAfterEager(q.table, c.fk, c.cache, !q.batching || q.batchFails(q.batchCalls)))
    ensures q.batchCalls <= old(q.batchCalls) + 1
    ensures q.batchCalls == old(q.batchCalls) <==>
      !q.batching || forall c :: c in items ==> !old(Queries(c.fk, c.cache))
  {
    if !q.batching {
      return;
    }
    var groups := GroupItems(items);
    if |groups| == 0 {
      return;
    }
    var ids := MapKeys(groups);
    var someId :| someId in groups;
    assert groups[someId][0] in items && Queries(groups[someId][0].fk, groups[someId][0].cache);
    hide FindByIds, FindById;
    var rows, failed := q.ByIds(ids);
    if failed {
      return;
    }
    FoundByIds(q.table.rows, ids);
    var byId := IndexRows(rows);
    forall c | c in items && Queries(c.fk, c.cache)
      ensures Lookup(byId, ToUint64(c.fk.value)) == FindById(q.table.rows, ToUint64(c.fk.value))
    {
      IndexedIsFound(q.table.rows, ids, rows, byId, ToUint64(c.fk.value));
    }
    Distribute(items, groups, byId);
  }

  lemma {:induction false} FoundById(rows: seq<Row>, id: int)
    ensures var r := FindById(rows, id); r.Some? ==> r.value in rows && r.value.id == id
    ensures FindById(rows, id).None? ==> forall r :: r in rows ==> r.id != id
  {
    if rows != [] && rows[0].id != id {
      FoundById(rows[1..], id);
    }
  }

  lemma {:induction false} FoundByIds(rows: seq<Row>, ids: seq<nat>)
    requires Target(rows).Valid()
    ensures Target(FindByIds(rows, ids)).Valid()
    ensures forall r :: r in FindByIds(rows, ids) <==> r in rows && exists i :: 0 <= i < |ids| && r.id == ids[i]
  {
    if rows != [] {
      assert forall i :: 0 <= i < |rows[1..]| ==> rows[1..][i] == rows[i + 1];
      FoundByIds(rows[1..], ids);
    }
  }

  lemma IndexedIsFound(table: seq<Row>, ids: seq<nat>, rows: seq<Row>, byId: map<nat, Row>, id: nat)
    requires Target(table).Valid() && id in ids
    requires forall r :: r in rows <==> r in table && exists i :: 0 <= i < |ids| && r.id == ids[i]
    requires Target(rows).Valid()
    requires forall i :: 0 <= i < |rows| ==> ToUint64(rows[i].id) in byId && byId[ToUint64(rows[i].id)] == rows[i]
    requires forall k :: k in byId ==> byId[k] in rows && IsInt64(byId[k].id) && ToUint64(byId[k].id) == k
    ensures Lookup(byId, id) == FindById(table, id)
  {
    if id in byId {
      assert byId[id] in table && byId[id].id == id;
    }
    FoundById(table, id);
    var found := FindById(table, id);
    if found.Some? {
      assert found.value in rows;
    }
  }

  // ─── Eager loading agrees with lazy loading ─────────────────────────────────

  /**
   * Whether or not the batch query succeeds, every object reads the parent it would have
   * read lazily: what the batch cannot find stays nil and is resolved on the next read.
   */
  lemma {:induction false} EagerAgrees(t: Target, fk: Option<int>, cache: Option<Row>, failed: bool)
    requires t.Valid() && (fk.Some? ==> IsInt64(fk.value))
    ensures Read(t, fk, CacheAfterEager(t, fk, cache, failed)) == Read(t, fk, cache)
    ensures cache.Some? ==> CacheAfterEager(t, fk, cache, failed) == cache
  {
    if Queries(fk, cache) && !failed && fk.value < 0 {
      FoundById(t.rows, ToUint64(fk.value));
    }
  }

  /** After a successful batch load only dangling and negative keys query again. */
  lemma LaterQueries(t: Target, fk: Option<int>, cache: Option<Row>)
    requires t.Valid() && (fk.Some? ==> IsInt64(fk.value))
    ensures Queries(fk, CacheAfterEager(t, fk, cache, false)) <==>
      Queries(fk, cache) && (fk.value < 0 || forall r :: r in t.rows ==> r.id != fk.value)
  {
    if Queries(fk, cache) {
      FoundById(t.rows, ToUint64(fk.value));
    }
  }
}
