/**
 * Composite or scoped has-many associations of app/models/helper_lazy.go: children matched
 * on a tuple of keys, narrowed by scope conditions. Key columns hold signed 64-bit ids.
 */
module LazyComposite {
  import opened Wrappers
  import opened Sequences
  import opened Int64
  import opened CompositeKeys

  predicate AllInt64(xs: seq<int>) { forall i :: 0 <= i < |xs| ==> IsInt64(xs[i]) }

  function U64s(xs: seq<int>): (r: seq<nat>)
    requires AllInt64(xs)
    ensures |r| == |xs| && forall i :: 0 <= i < |xs| ==> r[i] == ToUint64(xs[i])
  {
    seq(|xs|, i requires 0 <= i < |xs| => ToUint64(xs[i]))
  }

  /** A grouping key: the joined decimal strings. */
  datatype Key = Key(text: string)

  function KeyFor(values: seq<nat>): Key { Key(JoinKey(values)) }

  datatype Child = Child(id: int, fks: seq<int>)

  /** The child table, its key columns, and the scope ANDed into every query. */
  datatype Table = Table(rows: seq<Child>, width: nat, scope: Child -> bool) {
    predicate Valid() {
      forall i :: 0 <= i < |rows| ==> |rows[i].fks| == width && AllInt64(rows[i].fks)
    }
  }

  /** `fk1 = v1 AND fk2 = v2 ...` with the scope. */
  function Matching(t: Table, values: seq<int>): Child -> bool {
    (c: Child) => c.fks == values && t.scope(c)
  }

  /** `(fk1, fk2, ...) IN keys` with the scope. */
  function MatchingIn(t: Table, keys: seq<seq<nat>>): Child -> bool {
    (c: Child) => (exists i :: 0 <= i < |keys| && c.fks == keys[i]) && t.scope(c)
  }

  /** The key string the batch loader computes for a row. */
  function HasJoinKey(key: Key): Child -> bool {
    (c: Child) => AllInt64(c.fks) && KeyFor(U64s(c.fks)) == key
  }

  class Querier {
    const table: Table
    const batching: bool
    const lazyFails: nat -> bool
    const batchFails: nat -> bool
    var lazyCalls: nat
    var batchCalls: nat

    constructor (table: Table, batching: bool, lazyFails: nat -> bool, batchFails: nat -> bool)
      ensures this.table == table && this.batching == batching
      ensures this.lazyFails == lazyFails && this.batchFails == batchFails
      ensures lazyCalls == 0 && batchCalls == 0
    {
      this.table := table;
      this.batching := batching;
      this.lazyFails := lazyFails;
      this.batchFails := batchFails;
      lazyCalls := 0;
      batchCalls := 0;
    }

    method FindHasManyComposite(values: seq<int>) returns (rows: seq<Child>, failed: bool)
      modifies this`lazyCalls
      ensures lazyCalls == old(lazyCalls) + 1 && failed == lazyFails(old(lazyCalls))
      ensures rows == if failed then [] else Keep(Matching(table, values), table.rows)
      ensures !failed ==> forall c :: c in rows <==> c in table.rows && c.fks == values && table.scope(c)
    {
      KeepIn(Matching(table, values), table.rows);
      failed := lazyFails(lazyCalls);
      rows := if failed then [] else Keep(Matching(table, values), table.rows);
      lazyCalls := lazyCalls + 1;
    }

    method FindHasManyInComposite(keys: seq<seq<nat>>) returns (rows: seq<Child>, failed: bool)
      modifies this`batchCalls
      ensures batchCalls == old(batchCalls) + 1 && failed == batchFails(old(batchCalls))
      ensures rows == if failed then [] else Keep(MatchingIn(table, keys), table.rows)
      ensures !failed ==> forall c :: c in rows <==>
        c in table.rows && table.scope(c) && exists i :: 0 <= i < |keys| && c.fks == keys[i]
    {
      KeepIn(MatchingIn(table, keys), table.rows);
      failed := batchFails(batchCalls);
      rows := if failed then [] else Keep(MatchingIn(table, keys), table.rows);
      batchCalls := batchCalls + 1;
    }
  }

  /** A model object with one reference per key column, a nil pointer being `None`. */
  class Parent {
    const refs: seq<Option<int>>
    var cache: Option<seq<Child>>

    constructor (refs: seq<Option<int>>)
      ensures this.refs == refs && cache == None
    {
      this.refs := refs;
      cache := None;
    }

    method LazyHasMany(q: Querier) returns (children: seq<Child>)
      modifies this`cache, q`lazyCalls
      ensures var failed := q.lazyFails(old(q.lazyCalls));
        && children == (if Queries(refs, old(cache)) && failed then [] else Read(q.table, refs, old(cache)))
        && cache == (if Queries(refs, old(cache)) && failed then None else Some(children))
        && q.lazyCalls == old(q.lazyCalls) + if Queries(refs, old(cache)) then 1 else 0
      ensures old(cache) != None ==> Some(children) == cache == old(cache) && q.lazyCalls == old(q.lazyCalls)
      ensures old(cache) == None && None in refs ==>
        children == [] && cache == Some([]) && q.lazyCalls == old(q.lazyCalls)
      ensures old(cache) == None && None !in refs ==>
        && q.lazyCalls == old(q.lazyCalls) + 1
        && if q.lazyFails(old(q.lazyCalls)) then children == [] && cache == None
           else
             && cache == Some(children)
             && forall c :: c in children <==> c in q.table.rows && q.table.scope(c) && Names(c, refs)
    {
      if cache == None {
        var conditions := BuildFKConditions(refs);
        if conditions.None? {
          cache := Some([]);
        } else {
          var results, failed := q.FindHasManyComposite(conditions.value);
          if failed {
            return [];
          }
          cache := Some(results);
        }
      }
      return cache.value;
    }
  }

  /** Every key column holds the reference that names it. */
  predicate Names(c: Child, refs: seq<Option<int>>) {
    |c.fks| == |refs| && forall i :: 0 <= i < |refs| ==> refs[i] == Some(c.fks[i])
  }

  /** The values the key columns must equal; `None` when any reference is nil. */
  method BuildFKConditions(refs: seq<Option<int>>) returns (conditions: Option<seq<int>>)
    ensures conditions == if NoNil(refs) then Some(Values(refs)) else None
  {
    var values := [];
    for i := 0 to |refs|
      invariant |values| == i && forall j :: 0 <= j < i ==> refs[j].Some? && values[j] == refs[j].value
    {
      if refs[i].None? {
        return None;
      }
      values := values + [refs[i].value];
    }
    assert values == Values(refs);
    return Some(values);
  }

  predicate Queries(refs: seq<Option<int>>, cache: Option<seq<Child>>) {
    cache.None? && NoNil(refs)
  }

  predicate GoodRefs(t: Table, refs: seq<Option<int>>) {
    |refs| == t.width && forall i :: 0 <= i < |refs| && refs[i].Some? ==> IsInt64(refs[i].value)
  }

  predicate NoNil(refs: seq<Option<int>>) { forall i :: 0 <= i < |refs| ==> refs[i].Some? }

  function Values(refs: seq<Option<int>>): (r: seq<int>)
    requires NoNil(refs)
    ensures |r| == |refs| && forall i :: 0 <= i < |refs| ==> r[i] == refs[i].value
  {
    seq(|refs|, i requires 0 <= i < |refs| => refs[i].value)
  }

  /** What reading the association returns, from the cache or by a query that succeeds. */
  function Read(t: Table, refs: seq<Option<int>>, cache: Option<seq<Child>>): seq<Child> {
    if cache.Some? then cache.value
    else if !NoNil(refs) then []
    else Keep(Matching(t, Values(refs)), t.rows)
  }

  /** Served by a batch load: nothing cached, no nil and no zero reference. */
  predicate Batched(refs: seq<Option<int>>, cache: Option<seq<Child>>)
    ensures Batched(refs, cache) ==> cache.None? && NoNil(refs)
    ensures cache.Some? ==> !Batched(refs, cache)
  {
    cache.None? && forall i :: 0 <= i < |refs| ==> refs[i].Some? && refs[i].value != 0
  }

  function CacheAfterEager(t: Table, refs: seq<Option<int>>, cache: Option<seq<Child>>,
      failed: bool): Option<seq<Child>>
    requires GoodRefs(t, refs)
  {
    if !Batched(refs, cache) then cache
    else Some(if failed then [] else Keep(Matching(t, U64s(Values(refs))), t.rows))
  }

  // ─── The batch loader ───────────────────────────────────────────────────────

  function KeyOf(t: Table, refs: seq<Option<int>>): Key
    requires GoodRefs(t, refs) && NoNil(refs)
  {
    KeyFor(U64s(Values(refs)))
  }

  ghost predicate Grouped(t: Table, items: seq<Parent>, groups: map<Key, seq<Parent>>, values: map<Key, seq<nat>>)
    requires forall p :: p in items ==> GoodRefs(t, p.refs)
    reads items
  {
    && (forall p :: p in items && Batched(p.refs, p.cache) ==> InGroup(groups, KeyOf(t, p.refs), p))
    && (forall k, p :: InGroup(groups, k, p) ==> p in items && Batched(p.refs, p.cache) && KeyOf(t, p.refs) == k)
    && groups.Keys == values.Keys && NoneEmpty(groups)
    && (forall k :: k in values ==> |values[k]| == t.width && KeyFor(values[k]) == k)
  }

  predicate InGroup(groups: map<Key, seq<Parent>>, k: Key, older p: Parent) {
    k in groups && p in groups[k]
  }

  predicate NoneEmpty(groups: map<Key, seq<Parent>>) {
    forall k :: k in groups ==> groups[k] != []
  }

  function AddTo(groups: map<Key, seq<Parent>>, key: Key, p: Parent): (r: map<Key, seq<Parent>>)
    ensures r.Keys == groups.Keys + {key}
    ensures NoneEmpty(groups) ==> NoneEmpty(r)
  {
    groups[key := (if key in groups then groups[key] else []) + [p]]
  }

  /** The key values of an object to serve; `None` at the first nil or zero reference. */
  method KeyValues(t: Table, refs: seq<Option<int>>) returns (values: Option<seq<nat>>)
    requires GoodRefs(t, refs)
    ensures values.Some? <==> Batched(refs, None)
    ensures values.Some? ==> values.value == U64s(Values(refs)) && |values.value| == t.width
    ensures values.Some? ==> KeyFor(values.value) == KeyOf(t, refs)
  {
    var vals: seq<nat> := [];
    for i := 0 to |refs|
      invariant |vals| == i
      invariant forall j :: 0 <= j < i ==> refs[j].Some? && refs[j].value != 0 && vals[j] == ToUint64(refs[j].value)
    {
      if refs[i].None? {
        return None;
      }
      var val := ToUint64(refs[i].value);
      if val == 0 {
        return None;
      }
      vals := vals + [val];
    }
    assert vals == U64s(Values(refs));
    return Some(vals);
  }

  method GroupItems(t: Table, items: seq<Parent>) returns (groups: map<Key, seq<Parent>>, values: map<Key, seq<nat>>)
    requires forall p :: p in items ==> GoodRefs(t, p.refs)
    ensures Grouped(t, items, groups, values)
  {
    groups, values := map[], map[];
    for i := 0 to |items|
      invariant Grouped(t, items[..i], groups, values)
    {
      hide *;
      var p := items[i];
      assert items[..i + 1] == items[..i] + [p];
      if p.cache.None? {
        var vals := KeyValues(t, p.refs);
        if vals.Some? {
          var key := KeyFor(vals.value);
          GroupedAdd(t, items[..i], p, groups, values, vals.value);
          groups := AddTo(groups, key, p);
          values := values[key := vals.value];
        } else {
          GroupedSkip(t, items[..i], p, groups, values);
        }
      } else {
        GroupedSkip(t, items[..i], p, groups, values);
      }
    }
    assert items[..|items|] == items;
  }

  lemma GroupedAdd(t: Table, items: seq<Parent>, p: Parent, groups: map<Key, seq<Parent>>,
      values: map<Key, seq<nat>>, vals: seq<nat>)
    requires (forall q :: q in items ==> GoodRefs(t, q.refs)) && GoodRefs(t, p.refs)
    requires Grouped(t, items, groups, values)
    requires Batched(p.refs, p.cache) && |vals| == t.width && KeyFor(vals) == KeyOf(t, p.refs)
    ensures var key := KeyFor(vals);
      Grouped(t, items + [p], AddTo(groups, key, p), values[key := vals])
  {
    hide Batched, KeyOf, KeyFor, GoodRefs;
    var key := KeyFor(vals);
    AddedTo(groups, key, p);
    hide AddTo, InGroup, NoneEmpty;
    assert forall q :: q in items + [p] <==> q in items || q == p;
    forall k, q | InGroup(AddTo(groups, key, p), k, q)
      ensures q in items + [p] && Batched(q.refs, q.cache) && KeyOf(t, q.refs) == k
    {
      assert InGroup(groups, k, q) || (k == key && q == p);
    }
  }

  lemma AddedTo(groups: map<Key, seq<Parent>>, key: Key, p: Parent)
    ensures forall k, q :: InGroup(AddTo(groups, key, p), k, q) <==> InGroup(groups, k, q) || (k == key && q == p)
  {
  }

  lemma GroupedSkip(t: Table, items: seq<Parent>, p: Parent, groups: map<Key, seq<Parent>>, values: map<Key, seq<nat>>)
    requires (forall q :: q in items ==> GoodRefs(t, q.refs)) && GoodRefs(t, p.refs)
    requires Grouped(t, items, groups, values) && !Batched(p.refs, p.cache)
    ensures Grouped(t, items + [p], groups, values)
  {
  }

  method GroupRows(rows: seq<Child>) returns (groups: map<Key, seq<Child>>)
    requires forall c :: c in rows ==> AllInt64(c.fks)
    ensures forall k :: (if k in groups then groups[k] else []) == Keep(HasJoinKey(k), rows)
  {
    hide KeyFor, AllInt64;
    groups := map[];
    for i := 0 to |rows|
      invariant forall k :: (if k in groups then groups[k] else []) == Keep(HasJoinKey(k), rows[..i])
    {
      var c := rows[i];
      ghost var before := groups;
      var key := KeyFor(U64s(c.fks));
      groups := groups[key := (if key in groups then groups[key] else []) + [c]];
      assert rows[..i + 1] == rows[..i] + [c];
      forall k
        ensures (if k in groups then groups[k] else []) == Keep(HasJoinKey(k), rows[..i + 1])
      {
        KeepSnoc(HasJoinKey(k), rows[..i], c);
        assert (if k in before then before[k] else []) == Keep(HasJoinKey(k), rows[..i]);
      }
    }
    assert rows[..|rows|] == rows;
  }

  method SetCaches(targets: seq<Parent>, group: seq<Child>)
    modifies set p | p in targets :: p`cache
    ensures forall p :: p in targets ==> p.cache == Some(group)
  {
    for j := 0 to |targets|
      invariant forall p :: p in targets[..j] ==> p.cache == Some(group)
    {
      var target := targets[j];
      assert target in targets;
      target.cache := Some(group);
    }
  }

  function GroupOf(byKey: map<Key, seq<Child>>, key: Key): seq<Child> {
    if key in byKey then byKey[key] else []
  }

  method Distribute(t: Table, items: seq<Parent>, groups: map<Key, seq<Parent>>,
      ghost values: map<Key, seq<nat>>, byKey: map<Key, seq<Child>>)
    requires forall p :: p in items ==> GoodRefs(t, p.refs)
    requires Grouped(t, items, groups, values)
    modifies set p | p in items :: p`cache
    ensures forall p :: p in items && old(Batched(p.refs, p.cache)) ==>
      p.cache == Some(GroupOf(byKey, KeyOf(t, p.refs)))
    ensures forall p :: p in items && !old(Batched(p.refs, p.cache)) ==> p.cache == old(p.cache)
  {
    ghost var served := set p | p in items && Batched(p.refs, p.cache);
    var pending := groups.Keys;
    while pending != {}
      invariant pending <= groups.Keys
      invariant forall p :: p in items && (p !in served || KeyOf(t, p.refs) in pending) ==> p.cache == old(p.cache)
      invariant forall p :: p in served && KeyOf(t, p.refs) !in pending ==>
        p.cache == Some(GroupOf(byKey, KeyOf(t, p.refs)))
      decreases pending
    {
      var key :| key in pending;
      assert forall p :: p in groups[key] <==> InGroup(groups, key, p);
      assert forall p :: InGroup(groups, key, p) <==> p in served && KeyOf(t, p.refs) == key;
      SetCaches(groups[key], GroupOf(byKey, key));
      pending := pending - {key};
    }
  }

  /** The collected tuples, in whatever order the map yields them. */
  method TupleList(values: map<Key, seq<nat>>) returns (tuples: seq<seq<nat>>)
    ensures forall v :: v in tuples <==> exists k :: k in values && values[k] == v
  {
    tuples := [];
    var pending := values.Keys;
    while pending != {}
      invariant pending <= values.Keys
      invariant forall v :: v in tuples <==> exists k :: k in values && k !in pending && values[k] == v
      decreases pending
    {
      var key :| key in pending;
      ghost var before := tuples;
      tuples := tuples + [values[key]];
      pending := pending - {key};
      assert forall v :: v in tuples <==> v in before || v == values[key];
    }
  }

  lemma SomeServed(t: Table, items: seq<Parent>, groups: map<Key, seq<Parent>>, values: map<Key, seq<nat>>)
    requires forall p :: p in items ==> GoodRefs(t, p.refs)
    requires Grouped(t, items, groups, values) && |groups| > 0
    ensures exists p :: p in items && Batched(p.refs, p.cache)
  {
    var key :| key in groups;
    assert InGroup(groups, key, groups[key][0]);
  }

  /**
   * One tuple-IN query, and none when there is nothing to serve; a failed one leaves empty
   * slices, as in the single-key loader.
   */
  method EagerHasManyComposite(q: Querier, items: seq<Parent>)
    requires q.table.Valid() && forall p :: p in items ==> GoodRefs(q.table, p.refs)
    modifies q`batchCalls, set p | p in items :: p`cache
    ensures q.batching ==> forall p :: p in items ==>
      p.cache == old(CacheAfterEager(q.table, p.refs, p.cache, q.batchFails(q.batchCalls)))
    ensures !q.batching ==> forall p :: p in items ==> p.cache == old(p.cache)
    ensures q.batchCalls <= old(q.batchCalls) + 1
    ensures q.batchCalls == old(q.batchCalls) <==>
      !q.batching || forall p :: p in items ==> !old(Batched(p.refs, p.cache))
  {
    if !q.batching {
      return;
    }
    var groups, values := GroupItems(q.table, items);
    if |groups| == 0 {
      return;
    }
    var tuples := TupleList(values);
    SomeServed(q.table, items, groups, values);
    hide Keep, Matching, MatchingIn, HasJoinKey, KeyFor;
    var rows, failed := q.FindHasManyInComposite(tuples);
    WhereIn(q.table, tuples);
    var byKey := GroupRows(rows);
    forall p | p in items && Batched(p.refs, p.cache)
      ensures Keep(HasJoinKey(KeyOf(q.table, p.refs)), rows) ==
        if failed then [] else Keep(Matching(q.table, U64s(Values(p.refs))), q.table.rows)
    {
      var k := KeyOf(q.table, p.refs);
      JoinKeyInjective(values[k], U64s(Values(p.refs)));
      assert values[k] in tuples;
      FetchedGroup(q.table, tuples, values[k]);
    }
    Distribute(q.table, items, groups, values, byKey);
  }

  lemma WhereIn(t: Table, tuples: seq<seq<nat>>)
    requires t.Valid()
    ensures Keep(MatchingIn(t, tuples), []) == []
    ensures forall c :: c in Keep(MatchingIn(t, tuples), t.rows) ==> AllInt64(c.fks)
  {
    KeepIn(MatchingIn(t, tuples), t.rows);
  }

  /** Grouping the rows of the tuple query by key string finds the rows of each tuple. */
  lemma FetchedGroup(t: Table, tuples: seq<seq<nat>>, values: seq<nat>)
    requires t.Valid() && values in tuples && |values| == t.width
    requires forall v :: v in tuples ==> |v| == t.width
    ensures Keep(HasJoinKey(KeyFor(values)), []) == []
    ensures Keep(HasJoinKey(KeyFor(values)), Keep(MatchingIn(t, tuples), t.rows)) == Keep(Matching(t, values), t.rows)
  {
    var p, q, both := HasJoinKey(KeyFor(values)), MatchingIn(t, tuples), Matching(t, values);
    forall c | c in t.rows
      ensures both(c) <==> p(c) && q(c)
    {
      assert |c.fks| == t.width && AllInt64(c.fks);
      if exists i :: 0 <= i < |tuples| && c.fks == tuples[i] {
        assert U64s(c.fks) == c.fks;
        if p(c) {
          JoinKeyInjective(U64s(c.fks), values);
        }
      }
    }
    KeepKeep(q, p, both, t.rows);
  }

  // ─── Eager loading agrees with lazy loading ─────────────────────────────────

  predicate NoNegative(refs: seq<Option<int>>) {
    forall i :: 0 <= i < |refs| && refs[i].Some? ==> refs[i].value >= 0
  }

  /** The cast turns a negative id into a value no 64-bit column holds, so nothing matches. */
  lemma NegativeMatchesNothing(t: Table, refs: seq<Option<int>>)
    requires t.Valid() && GoodRefs(t, refs) && NoNil(refs) && !NoNegative(refs)
    ensures Keep(Matching(t, U64s(Values(refs))), t.rows) == []
  {
    var p := Matching(t, U64s(Values(refs)));
    var i :| 0 <= i < |refs| && refs[i].value < 0;
    forall c | c in t.rows
      ensures !p(c)
    {
      assert AllInt64(c.fks) && IsInt64(c.fks[i]);
      assert !IsInt64(U64s(Values(refs))[i]);
    }
    KeepNone(p, t.rows);
  }

  /** Read after a batch load or read without one: the same children. */
  ghost predicate AgreeOn(t: Table, refs: seq<Option<int>>, cache: Option<seq<Child>>, failed: bool)
    requires GoodRefs(t, refs)
  {
    Read(t, refs, CacheAfterEager(t, refs, cache, failed)) == Read(t, refs, cache)
  }

  lemma AgreesWhenSame(t: Table, refs: seq<Option<int>>, cache: Option<seq<Child>>)
    requires GoodRefs(t, refs) && (Batched(refs, cache) ==> NoNegative(refs))
    ensures AgreeOn(t, refs, cache, false)
  {
    if Batched(refs, cache) {
      assert U64s(Values(refs)) == Values(refs);
    }
  }

  lemma MissedChild(t: Table, refs: seq<Option<int>>, cache: Option<seq<Child>>, failed: bool)
    requires t.Valid() && GoodRefs(t, refs) && Batched(refs, cache) && (failed || !NoNegative(refs))
    requires t.rows == [Child(0, Values(refs))] && t.scope(t.rows[0])
    ensures !AgreeOn(t, refs, cache, failed)
  {
    assert Keep(Matching(t, Values(refs)), t.rows) == t.rows;
    if !failed {
      NegativeMatchesNothing(t, refs);
    }
  }

  /** References that fit the key columns of a table with `width` of them. */
  predicate RefsFit(width: nat, refs: seq<Option<int>>) { GoodRefs(Table([], width, _ => true), refs) }

  /**
   * Whatever the child rows and the scope are, an object reads after a batch load what it would
   * have read lazily, exactly when the batch does not serve it, or the batch succeeded and none
   * of its ids is negative. Auto-increment ids never are.
   */
  lemma EagerAgreesIff(width: nat, refs: seq<Option<int>>, cache: Option<seq<Child>>, failed: bool)
    requires RefsFit(width, refs)
    ensures (forall t: Table :: t.Valid() && t.width == width ==> AgreeOn(t, refs, cache, failed)) <==>
      (Batched(refs, cache) ==> !failed && NoNegative(refs))
  {
    if Batched(refs, cache) ==> !failed && NoNegative(refs) {
      forall t: Table | t.Valid() && t.width == width
        ensures AgreeOn(t, refs, cache, failed)
      {
        if Batched(refs, cache) {
          AgreesWhenSame(t, refs, cache);
        }
      }
    } else {
      var t := Table([Child(0, Values(refs))], width, _ => true);
      assert t.Valid();
      MissedChild(t, refs, cache, failed);
    }
  }

  /**
   * On a given table, the children a batch load hides are those of an object whose batch
   * failed or which has a negative id, and no others.
   */
  lemma AgreesOnTable(t: Table, refs: seq<Option<int>>, cache: Option<seq<Child>>, failed: bool)
    requires t.Valid() && GoodRefs(t, refs)
    ensures AgreeOn(t, refs, cache, failed) <==>
      (Batched(refs, cache) && (failed || !NoNegative(refs)) ==>
         forall c :: c in t.rows ==> !Matching(t, Values(refs))(c))
  {
    if !Batched(refs, cache) {
    } else if failed || !NoNegative(refs) {
      if !failed { NegativeMatchesNothing(t, refs); }
      KeepIn(Matching(t, Values(refs)), t.rows);
      if forall c :: c in t.rows ==> !Matching(t, Values(refs))(c) {
        KeepNone(Matching(t, Values(refs)), t.rows);
      }
    } else {
      AgreesWhenSame(t, refs, cache);
    }
  }

  /** A negative id in one key column: lazily a child, eagerly none. */
  lemma NegativeMissesChild()
    ensures var t, refs := Table([Child(1, [-1])], 1, _ => true), [Some(-1)];
      && t.Valid() && GoodRefs(t, refs)
      && Read(t, refs, None) == t.rows
      && Read(t, refs, CacheAfterEager(t, refs, None, false)) == []
  {
    var t, refs := Table([Child(1, [-1])], 1, _ => true), [Some(-1)];
    assert refs[0] == Some(-1);
    assert Values(refs) == [-1];
    assert Keep(Matching(t, [-1]), t.rows) == t.rows;
    NegativeMatchesNothing(t, refs);
  }

  /** After a batch load only uncached objects with a zero and no nil reference query again. */
  lemma LaterQueries(t: Table, refs: seq<Option<int>>, cache: Option<seq<Child>>, failed: bool)
    requires GoodRefs(t, refs)
    ensures Queries(refs, CacheAfterEager(t, refs, cache, failed)) <==>
      cache.None? && NoNil(refs) && exists i :: 0 <= i < |refs| && refs[i] == Some(0)
  {
    assert forall i :: 0 <= i < |refs| && refs[i].Some? ==> (refs[i] == Some(0) <==> refs[i].value == 0);
  }
}
