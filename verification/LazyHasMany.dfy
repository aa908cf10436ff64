/**
 * Has-many associations of app/models/helper_lazy.go: one query per object on first read,
 * against one IN query for a whole list regrouped into per-object caches.
 */
module LazyHasMany {
  import opened Wrappers
  import opened Sequences

  /** A child row; its foreign key may be NULL. */
  datatype Child<K> = Child(id: int, fk: Option<K>)

  /**
   * The child table and the equality its column uses. A database compares by the column's
   * collation, which on strings may be coarser than the Go equality that groups rows.
   */
  datatype Table<!K> = Table(rows: seq<Child<K>>, same: (K, K) -> bool)

  ghost predicate Reflexive<K(!new)>(t: Table<K>) { forall k :: t.same(k, k) }

  /** `fk = key` in the database. */
  function Equals<K>(same: (K, K) -> bool, key: K): Child<K> -> bool {
    (c: Child<K>) => c.fk.Some? && same(c.fk.value, key)
  }

  /** `fk IN keys` in the database. */
  function In<K>(same: (K, K) -> bool, keys: seq<K>): Child<K> -> bool {
    (c: Child<K>) => c.fk.Some? && exists i :: 0 <= i < |keys| && same(c.fk.value, keys[i])
  }

  /** The Go equality the batch loader groups by. */
  function HasKey<K(==, !new)>(key: K): Child<K> -> bool {
    (c: Child<K>) => c.fk == Some(key)
  }

  /** The registered querier of the child type; calls fail by call number. */
  class Querier<K(==, !new)> {
    const table: Table<K>
    const batching: bool
    const lazyFails: nat -> bool
    const batchFails: nat -> bool
    var lazyCalls: nat
    var batchCalls: nat

    constructor (table: Table<K>, batching: bool, lazyFails: nat -> bool, batchFails: nat -> bool)
      ensures this.table == table && this.batching == batching
      ensures this.lazyFails == lazyFails && this.batchFails == batchFails
      ensures lazyCalls == 0 && batchCalls == 0
    {
      this.table := table;
      this.batching := batching;
      this.lazyFails := lazyFails;
      this.batchFails := batchFails;
      lazyCalls := 0;
      batchCalls := 0;
    }

    method FindHasMany(key: K) returns (rows: seq<Child<K>>, failed: bool)
      modifies this`lazyCalls
      ensures lazyCalls == old(lazyCalls) + 1 && failed == lazyFails(old(lazyCalls))
      ensures rows == if failed then [] else Keep(Equals(table.same, key), table.rows)
      ensures !failed ==> forall c :: c in rows <==>
        c in table.rows && c.fk.Some? && table.same(c.fk.value, key)
    {
      KeepIn(Equals(table.same, key), table.rows);
      failed := lazyFails(lazyCalls);
      rows := if failed then [] else Keep(Equals(table.same, key), table.rows);
      lazyCalls := lazyCalls + 1;
    }

    method FindHasManyIn(keys: seq<K>) returns (rows: seq<Child<K>>, failed: bool)
      modifies this`batchCalls
      ensures batchCalls == old(batchCalls) + 1 && failed == batchFails(old(batchCalls))
      ensures rows == if failed then [] else Keep(In(table.same, keys), table.rows)
      ensures !failed ==> forall c :: c in rows <==>
        c in table.rows && c.fk.Some? && exists i :: 0 <= i < |keys| && table.same(c.fk.value, keys[i])
    {
      KeepIn(In(table.same, keys), table.rows);
      failed := batchFails(batchCalls);
      rows := if failed then [] else Keep(In(table.same, keys), table.rows);
      batchCalls := batchCalls + 1;
    }
  }

  /** A model object: its reference field, a nil pointer being `None`, and its nullable cache. */
  class Parent<K(==, !new)> {
    var ref: Option<K>
    var cache: Option<seq<Child<K>>>

    constructor (ref: Option<K>)
      ensures this.ref == ref && cache == None
    {
      this.ref := ref;
      cache := None;
    }

    /** The association as read: cached, or one query whose failure caches nothing. */
    method LazyHasMany(q: Querier<K>) returns (children: seq<Child<K>>)
      modifies this`cache, q`lazyCalls
      ensures var failed := q.lazyFails(old(q.lazyCalls));
        && children == Read(q.table, ref, old(cache), failed)
        && cache == CacheAfterRead(q.table, ref, old(cache), failed)
        && q.lazyCalls == old(q.lazyCalls) + if Queries(ref, old(cache)) then 1 else 0
      ensures old(cache) != None ==> Some(children) == cache == old(cache) && q.lazyCalls == old(q.lazyCalls)
      ensures old(cache) == None && ref == None ==>
        children == [] && cache == Some([]) && q.lazyCalls == old(q.lazyCalls)
      ensures old(cache) == None && ref != None ==>
        && q.lazyCalls == old(q.lazyCalls) + 1
        && if q.lazyFails(old(q.lazyCalls)) then children == [] && cache == None
           else
             && cache == Some(children)
             && forall c :: c in children <==> c in q.table.rows && c.fk != None && q.table.same(c.fk.value, ref.value)
    {
      if cache == None {
        if ref == None {
          cache := Some([]);
        } else {
          var results, failed := q.FindHasMany(ref.value);
          if failed {
            return [];
          }
          cache := Some(results);
        }
      }
      return cache.value;
    }
  }

  // ─── Reading, as functions of the object ────────────────────────────────────

  /** A read asks the database exactly when nothing is cached and the reference is not nil. */
  predicate Queries<K>(ref: Option<K>, cache: Option<seq<Child<K>>>) {
    cache.None? && ref.Some?
  }

  function Read<K(==, !new)>(t: Table<K>, ref: Option<K>, cache: Option<seq<Child<K>>>, failed: bool): seq<Child<K>> {
    if cache.Some? then cache.value
    else if ref.None? || failed then []
    else Keep(Equals(t.same, ref.value), t.rows)
  }

  function CacheAfterRead<K(==, !new)>(t: Table<K>, ref: Option<K>, cache: Option<seq<Child<K>>>,
      failed: bool): Option<seq<Child<K>>>
  {
    if Queries(ref, cache) && failed then None else Some(Read(t, ref, cache, failed))
  }

  /** A read that succeeds is remembered: the next one returns the same and asks nothing. */
  lemma ReadIsRemembered<K(!new)>(t: Table<K>, ref: Option<K>, cache: Option<seq<Child<K>>>, failed: bool)
    ensures var after := CacheAfterRead(t, ref, cache, false);
      && !Queries(ref, after) && Read(t, ref, after, failed) == Read(t, ref, cache, false)
      && CacheAfterRead(t, ref, after, failed) == after
    ensures Queries(ref, cache) ==>
      CacheAfterRead(t, ref, cache, true) == cache && Read(t, ref, cache, true) == []
    ensures Queries(ref, cache) <==> cache == None && ref != None
  {
  }

  /** The objects a batch load serves: nothing cached, and a reference that is neither nil nor zero. */
  predicate Batched<K(==, !new)>(zero: K, ref: Option<K>, cache: Option<seq<Child<K>>>) {
    cache.None? && ref.Some? && ref.value != zero
  }

  /** The cache a batch load leaves in an object, when its query fails or succeeds. */
  function CacheAfterEager<K(==, !new)>(t: Table<K>, zero: K, ref: Option<K>, cache: Option<seq<Child<K>>>,
      failed: bool): Option<seq<Child<K>>>
  {
    if !Batched(zero, ref, cache) then cache
    else Some(if failed then [] else Keep(HasKey(ref.value), t.rows))
  }

  // ─── The batch loader ───────────────────────────────────────────────────────

  ghost predicate Grouped<K(!new)>(zero: K, items: seq<Parent<K>>, groups: map<K, seq<Parent<K>>>, keys: seq<K>)
    reads items
  {
    && (forall p :: p in items && Batched(zero, p.ref, p.cache) ==> p.ref.value in groups && p in groups[p.ref.value])
    && (forall k, p :: k in groups && p in groups[k] ==>
      p in items && Batched(zero, p.ref, p.cache) && p.ref == Some(k))
    && (forall k :: k in groups <==> k in keys)
    && (forall i, j :: 0 <= i < j < |keys| ==> keys[i] != keys[j])
    && (forall k :: k in groups ==> groups[k] != [])
  }

  /** Collects the objects to serve under their reference values, in order of appearance. */
  method GroupItems<K(==, !new)>(zero: K, items: seq<Parent<K>>) returns (groups: map<K, seq<Parent<K>>>, keys: seq<K>)
    ensures Grouped(zero, items, groups, keys)
  {
    groups, keys := map[], [];
    for i := 0 to |items|
      invariant Grouped(zero, items[..i], groups, keys)
    {
      var p := items[i];
      assert items[..i + 1] == items[..i] + [p];
      if Batched(zero, p.ref, p.cache) {
        var key := p.ref.value;
        if key !in groups {
          keys := keys + [key];
          groups := groups[key := []];
        }
        groups := groups[key := groups[key] + [p]];
      }
    }
    assert items[..|items|] == items;
  }

  /** Regroups the rows of the IN query by foreign key; rows with a NULL key are dropped. */
  method GroupRows<K(==, !new)>(rows: seq<Child<K>>) returns (groups: map<K, seq<Child<K>>>)
    ensures forall k :: (if k in groups then groups[k] else []) == Keep(HasKey(k), rows)
  {
    groups := map[];
    for i := 0 to |rows|
      invariant forall k :: (if k in groups then groups[k] else []) == Keep(HasKey(k), rows[..i])
    {
      var c := rows[i];
      ghost var before := groups;
      if c.fk.Some? {
        var key := c.fk.value;
        if key !in groups {
          groups := groups[key := []];
        }
        groups := groups[key := groups[key] + [c]];
      }
      assert rows[..i + 1] == rows[..i] + [c];
      forall k
        ensures (if k in groups then groups[k] else []) == Keep(HasKey(k), rows[..i + 1])
      {
        KeepSnoc(HasKey(k), rows[..i], c);
        assert (if k in before then before[k] else []) == Keep(HasKey(k), rows[..i]);
      }
    }
    assert rows[..|rows|] == rows;
  }

  method SetCaches<K(==, !new)>(targets: seq<Parent<K>>, group: seq<Child<K>>)
    modifies set p | p in targets :: p`cache
    ensures forall p :: p in targets ==> p.cache == Some(group)
  {
    for j := 0 to |targets|
      invariant forall p :: p in targets[..j] ==> p.cache == Some(group)
    {
      var target := targets[j];
      assert target in targets;
      target.cache := Some(group);
    }
  }

  /** Hands each group of rows to the objects collected under its key; the others keep their caches. */
  method Distribute<K(==, !new)>(zero: K, items: seq<Parent<K>>, groups: map<K, seq<Parent<K>>>,
      ghost keys: seq<K>, byKey: map<K, seq<Child<K>>>)
    requires Grouped(zero, items, groups, keys)
    modifies set p | p in items :: p`cache
    ensures forall p :: p in items && old(Batched(zero, p.ref, p.cache)) ==>
      p.cache == Some(if p.ref.value in byKey then byKey[p.ref.value] else [])
    ensures forall p :: p in items && !old(Batched(zero, p.ref, p.cache)) ==> p.cache == old(p.cache)
  {
    ghost var served := set p | p in items && Batched(zero, p.ref, p.cache);
    var pending := groups.Keys;
    while pending != {}
      invariant pending <= groups.Keys
      invariant forall p :: p in items && (p !in served || p.ref.value in pending) ==> p.cache == old(p.cache)
      invariant forall p :: p in served && p.ref.value !in pending ==>
        p.cache == Some(if p.ref.value in byKey then byKey[p.ref.value] else [])
      decreases pending
    {
      var key :| key in pending;
      assert forall p :: p in groups[key] <==> p in served && p.ref == Some(key);
      SetCaches(groups[key], if key in byKey then byKey[key] else []);
      pending := pending - {key};
    }
  }

  /**
   * One IN query at most. A failed query is logged and falls through, so every object that
   * was to be served caches an empty slice.
   */
  method EagerHasMany<K(==, !new)>(q: Querier<K>, zero: K, items: seq<Parent<K>>)
    requires Reflexive(q.table)
    modifies q`batchCalls, set p | p in items :: p`cache
    ensures q.batching ==> forall p :: p in items ==>
      p.cache == old(CacheAfterEager(q.table, zero, p.ref, p.cache, q.batchFails(q.batchCalls)))
    ensures !q.batching ==> forall p :: p in items ==> p.cache == old(p.cache)
    ensures q.batchCalls <= old(q.batchCalls) + 1
    ensures q.batchCalls == old(q.batchCalls) <==>
      !q.batching || forall p :: p in items ==> !old(Batched(zero, p.ref, p.cache))
  {
    if !q.batching {
      return;
    }
    var groups, keys := GroupItems(zero, items);
    if |groups| == 0 {
      return;
    }
    hide Keep, In, HasKey;
    var key :| key in groups;
    assert groups[key][0] in items && Batched(zero, groups[key][0].ref, groups[key][0].cache);
    var rows, failed := q.FindHasManyIn(keys);
    var byKey := GroupRows(rows);
    FetchedGroups(q.table, keys, rows, failed);
    assert Grouped(zero, items, groups, keys);
    Distribute(zero, items, groups, keys, byKey);
  }

  /** Grouping the rows of the IN query finds every row that has the key. */
  lemma {:induction false} KeyWithinRows<K(!new)>(same: (K, K) -> bool, keys: seq<K>, key: K, rows: seq<Child<K>>)
    requires (forall k :: same(k, k)) && key in keys
    ensures Keep(HasKey(key), Keep(In(same, keys), rows)) == Keep(HasKey(key), rows)
  {
    if rows != [] {
      KeyWithinRows(same, keys, key, rows[1..]);
      if rows[0].fk == Some(key) {
        assert In(same, keys)(rows[0]);
      }
    }
  }

  lemma FetchedGroups<K(!new)>(t: Table<K>, keys: seq<K>, rows: seq<Child<K>>, failed: bool)
    requires Reflexive(t) && rows == if failed then [] else Keep(In(t.same, keys), t.rows)
    ensures forall k :: k in keys ==> Keep(HasKey(k), rows) == if failed then [] else Keep(HasKey(k), t.rows)
  {
    forall k | k in keys && !failed
      ensures Keep(HasKey(k), rows) == Keep(HasKey(k), t.rows)
    {
      KeyWithinRows(t.same, keys, k, t.rows);
    }
  }

  // ─── Eager loading agrees with lazy loading ─────────────────────────────────

  /** No row's key equals `key` for the database but not for Go. */
  predicate NoCollation<K(==, !new)>(t: Table<K>, key: K) {
    forall i :: 0 <= i < |t.rows| ==> (Equals(t.same, key)(t.rows[i]) ==> HasKey(key)(t.rows[i]))
  }

  lemma {:induction false} CountWhere<K(!new)>(same: (K, K) -> bool, key: K, rows: seq<Child<K>>)
    requires same(key, key)
    ensures |Keep(HasKey(key), rows)| <= |Keep(Equals(same, key), rows)|
    ensures Keep(HasKey(key), rows) == Keep(Equals(same, key), rows) <==> NoCollation(Table(rows, same), key)
  {
    if rows != [] {
      var rest := rows[1..];
      CountWhere(same, key, rest);
      var exact, matched := Keep(HasKey(key), rows), Keep(Equals(same, key), rows);
      if HasKey(key)(rows[0]) {
        assert exact[1..] == Keep(HasKey(key), rest) && matched[1..] == Keep(Equals(same, key), rest);
      } else if Equals(same, key)(rows[0]) {
        assert |exact| < |matched|;
      }
      assert NoCollation(Table(rows, same), key) <==>
        NoCollation(Table(rest, same), key) && (Equals(same, key)(rows[0]) ==> HasKey(key)(rows[0])) by {
        assert forall i :: 0 <= i < |rest| ==> rest[i] == rows[i + 1];
        assert forall i :: 0 < i < |rows| ==> rows[i] == rest[i - 1];
      }
    }
  }

  lemma AgreesOnTable<K(!new)>(t: Table<K>, zero: K, ref: Option<K>, cache: Option<seq<Child<K>>>)
    requires Reflexive(t)
    ensures AgreeOn(t, zero, ref, cache, false) <==> (Batched(zero, ref, cache) ==> NoCollation(t, ref.value))
  {
    if Batched(zero, ref, cache) {
      CountWhere(t.same, ref.value, t.rows);
    }
  }

  /** Read after a batch load or read without one: the same children. */
  ghost predicate AgreeOn<K(!new)>(
    t: Table<K>, zero: K, ref: Option<K>, cache: Option<seq<Child<K>>>, failed: bool)
  {
    Read(t, ref, CacheAfterEager(t, zero, ref, cache, failed), false) == Read(t, ref, cache, false)
  }

  /** The database tells `key` from every other key, as Go does. */
  ghost predicate Distinguishes<K(!new)>(same: (K, K) -> bool, key: K) {
    forall k :: same(k, key) ==> k == key
  }

  /** A child with the key, and one with another key the database takes for it, are each missed. */
  lemma MissedChild<K(!new)>(same: (K, K) -> bool, zero: K, ref: Option<K>, cache: Option<seq<Child<K>>>,
      failed: bool, k: K)
    requires (forall x :: same(x, x)) && Batched(zero, ref, cache) && same(k, ref.value)
    requires failed || k != ref.value
    ensures !AgreeOn(Table([Child(0, Some(k))], same), zero, ref, cache, failed)
  {
    var c := Child(0, Some(k));
    assert Equals(same, ref.value)(c);
    assert Keep(Equals(same, ref.value), [c]) == [c];
    assert k != ref.value ==> Keep(HasKey(ref.value), [c]) == [];
    assert Table([c], same).rows == [c];
    assert CacheAfterEager(Table([c], same), zero, ref, cache, failed) == Some([]);
  }

  /**
   * Whatever the child rows are, an object reads after a batch load what it would have read
   * lazily, exactly when the batch does not serve it, or the batch succeeded and the database
   * tells the object's reference from every other key as Go does. For integer keys that is
   * always so; for strings it depends on the column's collation.
   */
  lemma EagerAgreesIff<K(!new)>(
    same: (K, K) -> bool, zero: K, ref: Option<K>, cache: Option<seq<Child<K>>>, failed: bool)
    requires forall k :: same(k, k)
    ensures (forall rows :: AgreeOn(Table(rows, same), zero, ref, cache, failed)) <==>
      (Batched(zero, ref, cache) ==> !failed && Distinguishes(same, ref.value))
  {
    if !Batched(zero, ref, cache) {
      hide Equals, HasKey;
    } else if failed {
      MissedChild(same, zero, ref, cache, failed, ref.value);
    } else if !Distinguishes(same, ref.value) {
      var k :| same(k, ref.value) && k != ref.value;
      MissedChild(same, zero, ref, cache, failed, k);
    } else {
      forall rows
        ensures AgreeOn(Table(rows, same), zero, ref, cache, failed)
      {
        AgreesOnTable(Table(rows, same), zero, ref, cache);
      }
    }
  }

  /**
   * A failed batch load is remembered as "no children" and hides the children of every object
   * it served, whatever the column's equality; a failed lazy read is forgotten.
   */
  lemma FailureAgreesIff<K(!new)>(same: (K, K) -> bool, zero: K, ref: Option<K>, cache: Option<seq<Child<K>>>)
    requires forall k :: same(k, k)
    ensures (forall rows :: AgreeOn(Table(rows, same), zero, ref, cache, true)) <==> !Batched(zero, ref, cache)
    ensures CacheAfterRead(Table([], same), ref, None, true) == if ref.Some? then None else Some([])
  {
    EagerAgreesIff(same, zero, ref, cache, true);
  }

  /** After a batch load, failed or not, only an uncached object with a zero reference queries again. */
  lemma LaterQueries<K(!new)>(t: Table<K>, zero: K, ref: Option<K>, cache: Option<seq<Child<K>>>, failed: bool)
    ensures Queries(ref, CacheAfterEager(t, zero, ref, cache, failed)) <==> cache.None? && ref == Some(zero)
  {
  }

  // ─── Where they differ ──────────────────────────────────────────────────────

  function LowerCase(s: string): string {
    seq(|s|, i requires 0 <= i < |s| => if 'A' <= s[i] <= 'Z' then (s[i] as int + 32) as char else s[i])
  }

  /** Two spellings of a key under a case-insensitive collation: lazily a child, eagerly none. */
  lemma CollationMissesChild()
    ensures var t := Table([Child(1, Some("ABC"))], (x, y) => LowerCase(x) == LowerCase(y));
      && Reflexive(t)
      && Read(t, Some("abc"), None, false) == t.rows
      && Read(t, Some("abc"), CacheAfterEager(t, "", Some("abc"), None, false), false) == []
  {
    var same := (x, y) => LowerCase(x) == LowerCase(y);
    var c := Child(1, Some("ABC"));
    assert LowerCase("ABC") == LowerCase("abc");
    assert Equals(same, "abc")(c) && !HasKey("abc")(c) by { assert "ABC"[0] != "abc"[0]; }
    assert Keep(Equals(same, "abc"), [c]) == [c];
    assert Keep(HasKey("abc"), [c]) == [];
  }

  /** One failed batch over an object with one child: the child is hidden from every later read. */
  lemma FailedBatchHidesChild()
    ensures var t := Table([Child(1, Some(7))], (x: int, y: int) => x == y);
      && Read(t, Some(7), None, false) == t.rows
      && CacheAfterEager(t, 0, Some(7), None, true) == Some([])
      && !Queries(Some(7), CacheAfterEager(t, 0, Some(7), None, true))
  {
    var c := Child(1, Some(7));
    assert Keep(Equals((x: int, y: int) => x == y, 7), [c]) == [c];
  }
}
