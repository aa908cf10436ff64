/**
 * The order of the rows when one query takes several options, each of which may sort in memory:
 * the passes run in option order, so the keys of the last option come first.
 */
module QueryOrder {
  import opened Sequences
  import opened QueryPlan
  import opened QuerySort
  import opened QueryFind

  // ─── Sorting twice ──────────────────────────────────────────────────────────

  /** `less2` first, `less1` among its equals. */
  ghost predicate Lexicographic<T(!new)>(less1: (T, T) -> bool, less2: (T, T) -> bool, both: (T, T) -> bool) {
    forall a, b :: both(a, b) <==> less2(a, b) || (!less2(b, a) && less1(a, b))
  }

  /** Two kept elements stand in the kept sequence as they do in the whole. */
  lemma {:induction false} KeptPair<T(!new)>(less: (T, T) -> bool, p: T -> bool, ys: seq<T>, i: nat, j: nat)
    requires i < j < |ys| && p(ys[i]) && p(ys[j]) && Sorted(less, Keep(p, ys))
    ensures !less(ys[j], ys[i])
  {
    var rest := Keep(p, ys[1..]);
    if i == 0 {
      KeepIn(p, ys[1..]);
      assert ys[1..][j - 1] == ys[j] && ys[j] in rest;
      var k :| 0 <= k < |rest| && rest[k] == ys[j];
      assert Keep(p, ys)[0] == ys[0] && Keep(p, ys)[k + 1] == ys[j];
    } else {
      assert Sorted(less, rest) by {
        assert p(ys[0]) ==> Keep(p, ys)[1..] == rest;
        assert forall k :: p(ys[0]) && 0 <= k < |rest| ==> rest[k] == Keep(p, ys)[k + 1];
      }
      KeptPair(less, p, ys[1..], i - 1, j - 1);
    }
  }

  lemma SortTwiceSorted<T(!new)>(less1: (T, T) -> bool, less2: (T, T) -> bool, both: (T, T) -> bool, xs: seq<T>)
    requires StrictWeak(less1) && StrictWeak(less2) && Lexicographic(less1, less2, both)
    ensures Sorted(both, StableSort(less2, StableSort(less1, xs)))
  {
    var once := StableSort(less1, xs);
    var ys := StableSort(less2, once);
    SortSorted(less1, xs);
    SortSorted(less2, once);
    forall i, j | 0 <= i < j < |ys|
      ensures !both(ys[j], ys[i])
    {
      var p := SameKey(less2, ys[i]);
      if p(ys[j]) {
        SortIsStable(less2, once);
        assert Keep(p, ys) == Keep(p, once);
        KeepSorted(less1, p, once);
        KeptPair(less1, p, ys, i, j);
      }
    }
  }

  lemma SortTwiceKeeps<T(!new)>(
    less1: (T, T) -> bool, less2: (T, T) -> bool, both: (T, T) -> bool, xs: seq<T>, x: T)
    requires StrictWeak(less1) && StrictWeak(less2) && Lexicographic(less1, less2, both)
    ensures var p := SameKey(both, x); Keep(p, StableSort(less2, StableSort(less1, xs))) == Keep(p, xs)
  {
    var p, p1, p2 := SameKey(both, x), SameKey(less1, x), SameKey(less2, x);
    var once := StableSort(less1, xs);
    assert forall y :: p(y) <==> p1(y) && p2(y);
    SortIsStable(less1, xs);
    SortIsStable(less2, once);
    KeepKeep(p2, p1, p, StableSort(less2, once));
    KeepKeep(p2, p1, p, once);
    KeepKeep(p1, p2, p, once);
    KeepKeep(p1, p2, p, xs);
  }

  /** Sorting stably by one order and then by another is sorting by the second, then the first. */
  lemma SortTwice<T(!new)>(less1: (T, T) -> bool, less2: (T, T) -> bool, both: (T, T) -> bool, xs: seq<T>)
    requires StrictWeak(less1) && StrictWeak(less2) && StrictWeak(both) && Lexicographic(less1, less2, both)
    ensures StableSort(less2, StableSort(less1, xs)) == StableSort(both, xs)
  {
    var ys, zs := StableSort(less2, StableSort(less1, xs)), StableSort(both, xs);
    SortTwiceSorted(less1, less2, both, xs);
    SortIsStable(both, xs);
    forall x
      ensures Keep(SameKey(both, x), ys) == Keep(SameKey(both, x), zs)
    {
      SortTwiceKeeps(less1, less2, both, xs, x);
    }
    StableOrderUnique(both, ys, zs);
  }

  // ─── Sort keys after sort keys ──────────────────────────────────────────────

  lemma {:induction false} CompareConcat<T>(schema: Schema<T>, s: seq<SortField>, t: seq<SortField>, a: T, b: T)
    ensures Compare(schema, s + t, a, b) ==
      if Compare(schema, s, a, b) != 0 then Compare(schema, s, a, b) else Compare(schema, t, a, b)
  {
    if s == [] {
      assert s + t == t;
    } else {
      assert (s + t)[1..] == s[1..] + t;
      CompareConcat(schema, s[1..], t, a, b);
    }
  }

  lemma KeysAreLexicographic<T(!new)>(schema: Schema<T>, s: seq<SortField>, t: seq<SortField>)
    requires Comparators(schema, s) && Comparators(schema, t)
    ensures Comparators(schema, s + t)
    ensures Lexicographic(Less(schema, t), Less(schema, s), Less(schema, s + t))
  {
    forall a, b
      ensures Less(schema, s + t)(a, b) <==>
        Less(schema, s)(a, b) || (!Less(schema, s)(b, a) && Less(schema, t)(a, b))
    {
      PrecedesIsNegative(schema, s + t, a, b);
      PrecedesIsNegative(schema, s, a, b);
      PrecedesIsNegative(schema, s, b, a);
      PrecedesIsNegative(schema, t, a, b);
      hide Precedes;
      CompareConcat(schema, s, t, a, b);
      CompareConsistent(schema, s, a, b, a);
      CompareConsistent(schema, s, b, a, b);
    }
  }

  lemma {:induction false} NothingCompares<T>(schema: Schema<T>, sorts: seq<SortField>, a: T, b: T)
    requires !NeedsMemSort(schema, sorts)
    ensures Compare(schema, sorts, a, b) == 0
  {
    if sorts != [] {
      assert forall i :: 0 <= i < |sorts[1..]| ==> sorts[1..][i] == sorts[i + 1];
      assert !HasComparator(schema, sorts[0]);
      NothingCompares(schema, sorts[1..], a, b);
    }
  }

  lemma UnsortedStays<T(!new)>(schema: Schema<T>, sorts: seq<SortField>, xs: seq<T>)
    requires !NeedsMemSort(schema, sorts)
    ensures Comparators(schema, sorts) && StableSort(Less(schema, sorts), xs) == xs
  {
    LessStrictWeak(schema, sorts);
    forall a, b
      ensures !Less(schema, sorts)(a, b)
    {
      PrecedesIsNegative(schema, sorts, a, b);
      NothingCompares(schema, sorts, a, b);
    }
    if xs != [] {
      EqualKeysStay(Less(schema, sorts), xs[0], xs);
    }
  }

  // ─── The passes of several options ──────────────────────────────────────────

  /** The keys of all options, those of the last option first. */
  function MergedSorts(opts: seq<QueryOption>): seq<SortField> {
    if opts == [] then [] else MergedSorts(opts[1..]) + opts[0].query.sorts
  }

  lemma {:induction false} LaterSortsFirst(x: seq<QueryOption>, y: seq<QueryOption>)
    ensures MergedSorts(x + y) == MergedSorts(y) + MergedSorts(x)
  {
    if x == [] {
      assert x + y == y;
    } else {
      assert (x + y)[1..] == x[1..] + y;
      LaterSortsFirst(x[1..], y);
    }
  }

  ghost predicate SortsPlanned<T>(schema: Schema<T>, opts: seq<QueryOption>) {
    forall i :: 0 <= i < |opts| ==> opts[i].needSort == NeedsMemSort(schema, opts[i].query.sorts)
  }

  lemma MemPassSorts<T(!new)>(schema: Schema<T>, o: QueryOption, items: seq<T>)
    requires o.needSort == NeedsMemSort(schema, o.query.sorts)
    ensures MemPass(schema, o, items) == StableSort(Less(schema, o.query.sorts), Keep(Retaining(schema, o), items))
  {
    if o.needFilter {
      KeepSame(RowFilter(schema, o.query.node), Retaining(schema, o), items);
    } else {
      KeepAll(Retaining(schema, o), items);
    }
    if !o.needSort {
      UnsortedStays(schema, o.query.sorts, Keep(Retaining(schema, o), items));
    }
  }

  lemma {:induction false} MergedConsistent<T(!new)>(schema: Schema<T>, opts: seq<QueryOption>)
    requires SortsPlanned(schema, opts) && SortsConsistent(schema, opts)
    ensures Comparators(schema, MergedSorts(opts))
  {
    if opts != [] {
      var o, later := opts[0], opts[1..];
      assert forall i :: 0 <= i < |later| ==> later[i] == opts[i + 1];
      MergedConsistent(schema, later);
      if !o.needSort { UnsortedStays<T>(schema, o.query.sorts, []); }
      KeysAreLexicographic(schema, MergedSorts(later), o.query.sorts);
    }
  }

  lemma {:induction false} MemPassesSort<T(!new)>(schema: Schema<T>, opts: seq<QueryOption>, items: seq<T>)
    requires SortsPlanned(schema, opts) && SortsConsistent(schema, opts)
    ensures MemPasses(schema, opts, items) ==
      StableSort(Less(schema, MergedSorts(opts)), Keep(MemAll(schema, opts), items))
  {
    if opts == [] {
      KeepAll(MemAll(schema, opts), items);
      UnsortedStays(schema, [], items);
    } else {
      var o, later := opts[0], opts[1..];
      assert forall i :: 0 <= i < |later| ==> later[i] == opts[i + 1];
      MemPassSorts(schema, o, items);
      MemPassesSort(schema, later, MemPass(schema, o, items));
      MergedConsistent(schema, later);
      if !o.needSort { UnsortedStays<T>(schema, o.query.sorts, []); }
      PassThenPasses(schema, o, later, opts, items);
    }
  }

  lemma PassThenPasses<T(!new)>(
    schema: Schema<T>, o: QueryOption, later: seq<QueryOption>, opts: seq<QueryOption>, items: seq<T>)
    requires opts != [] && o == opts[0] && later == opts[1..]
    requires Comparators(schema, MergedSorts(later)) && Comparators(schema, o.query.sorts)
    ensures
      var less1, less2 := Less(schema, o.query.sorts), Less(schema, MergedSorts(later));
      StableSort(less2, Keep(MemAll(schema, later), StableSort(less1, Keep(Retaining(schema, o), items))))
      == StableSort(Less(schema, MergedSorts(opts)), Keep(MemAll(schema, opts), items))
  {
    var less1, less2 := Less(schema, o.query.sorts), Less(schema, MergedSorts(later));
    var both := Less(schema, MergedSorts(opts));
    var here, rest, all := Retaining(schema, o), MemAll(schema, later), MemAll(schema, opts);
    KeysAreLexicographic(schema, MergedSorts(later), o.query.sorts);
    LessStrictWeak(schema, o.query.sorts);
    LessStrictWeak(schema, MergedSorts(later));
    LessStrictWeak(schema, MergedSorts(opts));
    forall x
      ensures all(x) <==> here(x) && rest(x)
    {
      MemAllSplits(schema, opts, x);
    }
    SortKeepsFilter(less1, rest, Keep(here, items));
    KeepKeep(here, rest, all, items);
    SortTwice(less1, less2, both, Keep(all, items));
  }

  /**
   * The rows of a query with several options: what the database returned, less the rows an
   * in-memory filter rejects, in the stable order of all in-memory keys, the last option's first.
   */
  lemma FindOrder<T(!new)>(b: Backend, schema: Schema<T>, db: Database<T>, qs: seq<Query>,
      opts: seq<QueryOption>, table: seq<T>)
    requires PlansOf(b, schema, qs, opts) && SortsConsistent(schema, opts)
    ensures Found(schema, db, opts, table) == StableSort(Less(schema, MergedSorts(opts)),
      Keep(MemAll(schema, opts), db.Select(AllConds(opts), AllDirs(opts), table)))
  {
    assert SortsPlanned(schema, opts) by {
      assert forall i :: 0 <= i < |opts| ==> PlanOf(b, schema, qs[i], opts[i]);
    }
    MemPassesSort(schema, opts, db.Select(AllConds(opts), AllDirs(opts), table));
  }

  /**
   * For exact queries that leave the database no ordering, that is one sequence and no other:
   * the stable order of the matching rows of the table.
   */
  lemma FindExactInOrder<T(!new)>(b: Backend, schema: Schema<T>, db: Database<T>, qs: seq<Query>,
      opts: seq<QueryOption>, table: seq<T>, ys: seq<T>)
    requires Orders(db) && SortsConsistent(schema, opts) && PlansOf(b, schema, qs, opts)
    requires AllDirs(opts) == [] && forall i :: 0 <= i < |qs| ==> ExactQuery(b, schema, qs[i])
    ensures ys == Found(schema, db, opts, table) <==>
      StableOrderOf(Less(schema, MergedSorts(opts)), Keep(MatchesAll(b, schema, db.world, qs), table), ys)
  {
    var less, rows := Less(schema, MergedSorts(opts)), Keep(MatchesAll(b, schema, db.world, qs), table);
    FindOrder(b, schema, db, qs, opts, table);
    KeptIsMatching(b, schema, db, qs, opts, table);
    assert SortsPlanned(schema, opts) by {
      assert forall i :: 0 <= i < |opts| ==> PlanOf(b, schema, qs[i], opts[i]);
    }
    MergedConsistent(schema, opts);
    LessStrictWeak(schema, MergedSorts(opts));
    SortIsStable(less, rows);
    if StableOrderOf(less, rows, ys) {
      StableOrderUnique(less, ys, StableSort(less, rows));
    }
  }

  lemma KeptIsMatching<T(!new)>(b: Backend, schema: Schema<T>, db: Database<T>, qs: seq<Query>,
      opts: seq<QueryOption>, table: seq<T>)
    requires Orders(db) && PlansOf(b, schema, qs, opts)
    requires AllDirs(opts) == [] && forall i :: 0 <= i < |qs| ==> ExactQuery(b, schema, qs[i])
    ensures Keep(MemAll(schema, opts), db.Select(AllConds(opts), AllDirs(opts), table))
         == Keep(MatchesAll(b, schema, db.world, qs), table)
  {
    var accepted, retained := db.Accepting(AllConds(opts)), MemAll(schema, opts);
    var matches := MatchesAll(b, schema, db.world, qs);
    forall x
      ensures matches(x) <==> accepted(x) && retained(x)
    {
      AcceptsAll(db, opts, x);
      forall i | 0 <= i < |qs|
        ensures Survives(schema, db, opts[i], x) <==> Matches(b, schema, db.world, qs[i], x)
      {
        PushdownExact(b, schema, db, qs[i], opts[i], x);
      }
    }
    KeepKeep(accepted, retained, matches, table);
  }
}
