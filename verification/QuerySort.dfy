/** Sorting of query results, app/components/queryfilter/option.go. */
module QuerySort {
  import opened Wrappers
  import opened Sequences
  import opened QueryPlan

  datatype SortField = SortField(field: string, desc: bool)

  datatype SortDir = SortDir(column: string, desc: bool)

  datatype SortError = UnknownSortField(field: string) | NotSortable(field: string)

  // ─── Which side sorts ───────────────────────────────────────────────────────

  predicate Sortable<T>(schema: Schema<T>, s: SortField) {
    s.field in schema && (schema[s.field].sortColumn != "" || schema[s.field].sortFn.Some?)
  }

  ghost predicate FirstUnsortable<T>(sorts: seq<SortField>, schema: Schema<T>, i: int) {
    0 <= i < |sorts| && !Sortable(schema, sorts[i]) && forall j :: 0 <= j < i ==> Sortable(schema, sorts[j])
  }

  method ValidateSorts<T>(sorts: seq<SortField>, schema: Schema<T>) returns (r: Result<(), SortError>)
    ensures r.Ok? <==> forall i :: 0 <= i < |sorts| ==> Sortable(schema, sorts[i])
    ensures r.Ok? <==> forall s :: s in sorts ==>
      s.field in schema && (schema[s.field].sortColumn != "" || schema[s.field].sortFn != None)
    ensures r.Err? ==>
      exists i :: FirstUnsortable(sorts, schema, i) && r.error ==
        if sorts[i].field in schema then NotSortable(sorts[i].field) else UnknownSortField(sorts[i].field)
  {
    for i := 0 to |sorts|
      invariant forall j :: 0 <= j < i ==> Sortable(schema, sorts[j])
    {
      var s := sorts[i];
      assert !Sortable(schema, s) ==> FirstUnsortable(sorts, schema, i);
      if s.field !in schema {
        return Err(UnknownSortField(s.field));
      }
      if schema[s.field].sortColumn == "" && schema[s.field].sortFn.None? {
        return Err(NotSortable(s.field));
      }
    }
    return Ok(());
  }

  predicate HasComparator<T>(schema: Schema<T>, s: SortField) {
    s.field in schema && schema[s.field].sortFn.Some?
  }

  ghost predicate NeedsMemSort<T>(schema: Schema<T>, sorts: seq<SortField>) {
    exists i :: 0 <= i < |sorts| && HasComparator(schema, sorts[i])
  }

  method HasMemSort<T>(sorts: seq<SortField>, schema: Schema<T>) returns (r: bool)
    ensures r == NeedsMemSort(schema, sorts)
    ensures r <==> exists s :: s in sorts && s.field in schema && schema[s.field].sortFn != None
  {
    for i := 0 to |sorts|
      invariant forall j :: 0 <= j < i ==> !HasComparator(schema, sorts[j])
    {
      if HasComparator(schema, sorts[i]) {
        return true;
      }
    }
    return false;
  }

  function OrderColumn<T>(schema: Schema<T>, s: SortField): string {
    if s.field !in schema then ""
    else if schema[s.field].sortColumn != "" then schema[s.field].sortColumn
    else schema[s.field].column
  }

  function OrderBy<T>(schema: Schema<T>, sorts: seq<SortField>): seq<SortDir> {
    if sorts == [] then []
    else
      var col, later := OrderColumn(schema, sorts[0]), OrderBy(schema, sorts[1..]);
      if col == "" then later else [SortDir(col, sorts[0].desc)] + later
  }

  lemma OrderByStep<T>(schema: Schema<T>, sorts: seq<SortField>, i: nat)
    requires i < |sorts|
    ensures var col, later := OrderColumn(schema, sorts[i]), OrderBy(schema, sorts[i + 1..]);
      OrderBy(schema, sorts[i..]) == if col == "" then later else [SortDir(col, sorts[i].desc)] + later
  {
    assert sorts[i..][1..] == sorts[i + 1..];
  }

  /** The database and the in-memory pass never both order the rows. */
  method CollectDBSorts<T>(sorts: seq<SortField>, schema: Schema<T>) returns (dirs: seq<SortDir>)
    ensures NeedsMemSort(schema, sorts) ==> dirs == []
    ensures !NeedsMemSort(schema, sorts) ==> dirs == OrderBy(schema, sorts)
  {
    for i := 0 to |sorts|
      invariant forall j :: 0 <= j < i ==> !HasComparator(schema, sorts[j])
    {
      if HasComparator(schema, sorts[i]) {
        return [];
      }
    }
    dirs := [];
    for i := 0 to |sorts|
      invariant dirs + OrderBy(schema, sorts[i..]) == OrderBy(schema, sorts)
    {
      var s := sorts[i];
      OrderByStep(schema, sorts, i);
      var col := OrderColumn(schema, s);
      if col != "" {
        dirs := dirs + [SortDir(col, s.desc)];
      }
    }
  }

  /** The key's own sort column, and the filter column when it has none. */
  predicate OrdersBy<T>(schema: Schema<T>, s: SortField, col: string) {
    && s.field in schema && col != ""
    && (schema[s.field].sortColumn == col || (schema[s.field].sortColumn == "" && schema[s.field].column == col))
  }

  lemma ColumnOfKey<T>(schema: Schema<T>, s: SortField)
    ensures forall col :: OrdersBy(schema, s, col) <==> col != "" && OrderColumn(schema, s) == col
  {
  }

  /** The keys that take part in the database are those with a column, in their order and direction. */
  lemma {:induction false} OnlyColumnsOrder<T>(schema: Schema<T>, sorts: seq<SortField>)
    ensures var kept, dirs := Keep(s => OrdersBy(schema, s, OrderColumn(schema, s)), sorts), OrderBy(schema, sorts);
      && |dirs| == |kept|
      && (forall i :: 0 <= i < |kept| ==> OrdersBy(schema, kept[i], dirs[i].column) && dirs[i].desc == kept[i].desc)
      && (forall s, col :: s in sorts && OrdersBy(schema, s, col) ==> s in kept)
  {
    forall s
      ensures forall col :: OrdersBy(schema, s, col) <==> col != "" && OrderColumn(schema, s) == col
    {
      ColumnOfKey(schema, s);
    }
    if sorts != [] {
      OnlyColumnsOrder(schema, sorts[1..]);
    }
  }

  /** The key orders rows on the side that sorts: in memory by its comparator, else by its column. */
  ghost predicate TakesPart<T>(schema: Schema<T>, sorts: seq<SortField>, s: SortField) {
    if NeedsMemSort(schema, sorts) then HasComparator(schema, s) else OrderColumn(schema, s) != ""
  }

  /** Every accepted key takes part iff all keys have comparators or none does. */
  lemma EveryKeyTakesPartIff<T>(schema: Schema<T>, sorts: seq<SortField>)
    requires forall s :: s in sorts ==> Sortable(schema, s)
    ensures (forall s :: s in sorts ==> TakesPart(schema, sorts, s)) <==>
      || (forall s :: s in sorts ==> HasComparator(schema, s))
      || (forall s :: s in sorts ==> !HasComparator(schema, s))
  {
    assert NeedsMemSort(schema, sorts) <==> exists s :: s in sorts && HasComparator(schema, s);
  }

  // ─── The comparison ─────────────────────────────────────────────────────────

  /** The key puts `a` before `b`, in its direction. */
  predicate Decides<T>(schema: Schema<T>, s: SortField, a: T, b: T) {
    HasComparator(schema, s) &&
    if s.desc then schema[s.field].sortFn.value(a, b) > 0 else schema[s.field].sortFn.value(a, b) < 0
  }

  /** The key has no comparator or does not tell `a` and `b` apart. */
  predicate Ties<T>(schema: Schema<T>, s: SortField, a: T, b: T) {
    HasComparator(schema, s) ==> schema[s.field].sortFn.value(a, b) == 0
  }

  /** Some key puts `a` before `b`, and every earlier key leaves them together. */
  predicate Precedes<T>(schema: Schema<T>, sorts: seq<SortField>, a: T, b: T) {
    exists k :: 0 <= k < |sorts| && Decides(schema, sorts[k], a, b) &&
      forall j :: 0 <= j < k ==> Ties(schema, sorts[j], a, b)
  }

  method CompareItems<T>(a: T, b: T, sorts: seq<SortField>, schema: Schema<T>) returns (before: bool)
    ensures before <==> Precedes(schema, sorts, a, b)
  {
    for i := 0 to |sorts|
      invariant forall j :: 0 <= j < i ==> Ties(schema, sorts[j], a, b)
    {
      var s := sorts[i];
      if HasComparator(schema, s) {
        var cmp := schema[s.field].sortFn.value(a, b);
        if cmp != 0 {
          assert !Ties(schema, s, a, b);
          if s.desc {
            assert cmp > 0 <==> Decides(schema, s, a, b);
            return cmp > 0;
          }
          assert cmp < 0 <==> Decides(schema, s, a, b);
          return cmp < 0;
        }
      }
    }
    return false;
  }

  function Less<T>(schema: Schema<T>, sorts: seq<SortField>): (T, T) -> bool {
    (a, b) => Precedes(schema, sorts, a, b)
  }

  /** The first key that tells `a` and `b` apart, as a three-way result; keys without a comparator are skipped. */
  function Compare<T>(schema: Schema<T>, sorts: seq<SortField>, a: T, b: T): int {
    if sorts == [] then 0
    else
      var s := sorts[0];
      if !HasComparator(schema, s) then Compare(schema, sorts[1..], a, b)
      else
        var cmp := schema[s.field].sortFn.value(a, b);
        if cmp == 0 then Compare(schema, sorts[1..], a, b) else if s.desc then -cmp else cmp
  }

  lemma PrecedesCons<T>(schema: Schema<T>, sorts: seq<SortField>, a: T, b: T)
    requires sorts != []
    ensures Precedes(schema, sorts, a, b) <==>
      Decides(schema, sorts[0], a, b) || (Ties(schema, sorts[0], a, b) && Precedes(schema, sorts[1..], a, b))
  {
    var later := sorts[1..];
    assert forall j :: 0 <= j < |later| ==> later[j] == sorts[j + 1];
    assert forall j :: 0 < j < |sorts| ==> sorts[j] == later[j - 1];
    hide Decides, Ties;
    if Ties(schema, sorts[0], a, b) && Precedes(schema, later, a, b) {
      var k :| 0 <= k < |later| && Decides(schema, later[k], a, b) &&
        forall j :: 0 <= j < k ==> Ties(schema, later[j], a, b);
      assert Decides(schema, sorts[k + 1], a, b);
    }
    if Precedes(schema, sorts, a, b) && !Decides(schema, sorts[0], a, b) {
      var k :| 0 <= k < |sorts| && Decides(schema, sorts[k], a, b) &&
        forall j :: 0 <= j < k ==> Ties(schema, sorts[j], a, b);
      assert Decides(schema, later[k - 1], a, b);
    }
  }

  lemma {:induction false} PrecedesIsNegative<T>(schema: Schema<T>, sorts: seq<SortField>, a: T, b: T)
    ensures Precedes(schema, sorts, a, b) <==> Compare(schema, sorts, a, b) < 0
  {
    if sorts != [] {
      PrecedesCons(schema, sorts, a, b);
      PrecedesIsNegative(schema, sorts[1..], a, b);
      hide Precedes;
    }
  }

  lemma {:induction false} OnlyComparatorsCompare<T>(schema: Schema<T>, sorts: seq<SortField>, a: T, b: T)
    ensures Compare(schema, sorts, a, b) == Compare(schema, Keep(s => HasComparator(schema, s), sorts), a, b)
  {
    if sorts != [] {
      OnlyComparatorsCompare(schema, sorts[1..], a, b);
      var kept := Keep(s => HasComparator(schema, s), sorts);
      if HasComparator(schema, sorts[0]) {
        assert kept[1..] == Keep(s => HasComparator(schema, s), sorts[1..]);
      }
    }
  }

  /** The keys that take part in memory are those with a comparator, in their order. */
  lemma OnlyComparatorsOrder<T>(schema: Schema<T>, sorts: seq<SortField>, a: T, b: T)
    ensures Precedes(schema, sorts, a, b) <==> Precedes(schema, Keep(s => HasComparator(schema, s), sorts), a, b)
  {
    OnlyComparatorsCompare(schema, sorts, a, b);
    PrecedesIsNegative(schema, sorts, a, b);
    PrecedesIsNegative(schema, Keep(s => HasComparator(schema, s), sorts), a, b);
  }

  /** A consistent three-way comparator: antisymmetric in sign and transitive. */
  ghost predicate Consistent<T(!new)>(cmp: (T, T) -> int) {
    && (forall a, b :: cmp(a, b) < 0 <==> cmp(b, a) > 0)
    && (forall a, b, c :: cmp(a, b) <= 0 && cmp(b, c) <= 0 ==> cmp(a, c) <= 0)
  }

  ghost predicate Comparators<T(!new)>(schema: Schema<T>, sorts: seq<SortField>) {
    forall i :: 0 <= i < |sorts| && HasComparator(schema, sorts[i]) ==>
      Consistent(schema[sorts[i].field].sortFn.value)
  }

  ghost predicate StrictWeak<T(!new)>(less: (T, T) -> bool) {
    && (forall a, b :: less(a, b) ==> !less(b, a))
    && (forall a, b, c :: less(a, c) ==> less(a, b) || less(b, c))
  }

  lemma {:induction false} CompareConsistent<T(!new)>(schema: Schema<T>, sorts: seq<SortField>, a: T, b: T, c: T)
    requires Comparators(schema, sorts)
    ensures Compare(schema, sorts, a, b) < 0 <==> Compare(schema, sorts, b, a) > 0
    ensures Compare(schema, sorts, a, b) <= 0 && Compare(schema, sorts, b, c) <= 0 ==> Compare(schema, sorts, a, c) <= 0
  {
    if sorts != [] {
      var s, later := sorts[0], sorts[1..];
      assert forall i :: 0 <= i < |later| ==> later[i] == sorts[i + 1];
      CompareConsistent(schema, later, a, b, c);
      if HasComparator(schema, s) {
        KeyConsistent(schema[s.field].sortFn.value, a, b, c);
      }
    }
  }

  lemma KeyConsistent<T(!new)>(cmp: (T, T) -> int, a: T, b: T, c: T)
    requires Consistent(cmp)
    ensures cmp(a, b) < 0 <==> cmp(b, a) > 0
    ensures cmp(a, b) > 0 <==> cmp(b, a) < 0
    ensures cmp(a, b) <= 0 && cmp(b, c) <= 0 ==> cmp(a, c) <= 0 && (cmp(a, c) == 0 ==> cmp(a, b) == 0 && cmp(b, c) == 0)
    ensures cmp(a, b) >= 0 && cmp(b, c) >= 0 ==> cmp(a, c) >= 0 && (cmp(a, c) == 0 ==> cmp(a, b) == 0 && cmp(b, c) == 0)
  {
    assert cmp(c, b) <= 0 && cmp(b, a) <= 0 ==> cmp(c, a) <= 0;
    assert cmp(a, b) < 0 <==> cmp(b, a) > 0;
    assert cmp(b, c) < 0 <==> cmp(c, b) > 0;
    assert cmp(a, c) < 0 <==> cmp(c, a) > 0;
    assert cmp(c, a) <= 0 && cmp(a, b) <= 0 ==> cmp(c, b) <= 0;
    assert cmp(b, c) <= 0 && cmp(c, a) <= 0 ==> cmp(b, a) <= 0;
    assert cmp(a, c) <= 0 && cmp(c, b) <= 0 ==> cmp(a, b) <= 0;
    assert cmp(b, a) <= 0 && cmp(a, c) <= 0 ==> cmp(b, c) <= 0;
  }

  /** Any list of ascending and descending keys orders rows strictly and weakly. */
  lemma LessStrictWeak<T(!new)>(schema: Schema<T>, sorts: seq<SortField>)
    requires Comparators(schema, sorts)
    ensures StrictWeak(Less(schema, sorts))
  {
    var less := Less(schema, sorts);
    hide Precedes, Compare, Comparators;
    forall a, b
      ensures less(a, b) <==> Compare(schema, sorts, a, b) < 0
    {
      PrecedesIsNegative(schema, sorts, a, b);
    }
    forall a, b | less(a, b)
      ensures !less(b, a)
    {
      CompareConsistent(schema, sorts, a, b, a);
    }
    forall a, b, c | less(a, c)
      ensures less(a, b) || less(b, c)
    {
      CompareConsistent(schema, sorts, a, b, c);
      CompareConsistent(schema, sorts, b, c, a);
      CompareConsistent(schema, sorts, a, c, b);
      CompareConsistent(schema, sorts, c, b, a);
    }
  }

  // ─── The stable order ───────────────────────────────────────────────────────

  function Insert<T>(less: (T, T) -> bool, x: T, ys: seq<T>): seq<T> {
    if ys == [] || !less(ys[0], x) then [x] + ys else [ys[0]] + Insert(less, x, ys[1..])
  }

  /** What `sort.SliceStable` returns: equal elements keep their order. */
  function StableSort<T>(less: (T, T) -> bool, xs: seq<T>): seq<T> {
    if xs == [] then [] else Insert(less, xs[0], StableSort(less, xs[1..]))
  }

  ghost predicate Sorted<T>(less: (T, T) -> bool, ys: seq<T>) {
    forall i, j :: 0 <= i < j < |ys| ==> !less(ys[j], ys[i])
  }

  /** Dropping rows keeps the others in order, whatever the order is. */
  lemma {:induction false} KeepSorted<T(!new)>(less: (T, T) -> bool, p: T -> bool, xs: seq<T>)
    requires Sorted(less, xs)
    ensures Sorted(less, Keep(p, xs))
  {
    if xs != [] {
      KeepSorted(less, p, xs[1..]);
      KeepIn(p, xs[1..]);
      if p(xs[0]) {
        SortedCons(less, xs[0], Keep(p, xs[1..]));
      }
    }
  }

  /** The elements that sort together with `x`. */
  function SameKey<T>(less: (T, T) -> bool, x: T): T -> bool {
    y => !less(x, y) && !less(y, x)
  }

  /** `ys` is sorted and lists the elements of each key exactly as `xs` does. */
  ghost predicate StableOrderOf<T(!new)>(less: (T, T) -> bool, xs: seq<T>, ys: seq<T>) {
    && Sorted(less, ys)
    && forall x :: Keep(SameKey(less, x), ys) == Keep(SameKey(less, x), xs)
  }

  lemma {:induction false} InsertPermutes<T>(less: (T, T) -> bool, x: T, ys: seq<T>)
    ensures multiset(Insert(less, x, ys)) == multiset([x] + ys)
  {
    if ys != [] && less(ys[0], x) {
      InsertPermutes(less, x, ys[1..]);
      assert ys == [ys[0]] + ys[1..];
    }
  }

  lemma SortedCons<T>(less: (T, T) -> bool, y: T, rest: seq<T>)
    requires Sorted(less, rest) && forall r :: r in rest ==> !less(r, y)
    ensures Sorted(less, [y] + rest)
  {
  }

  /** Nothing in a sorted sequence is below what its first element is not below. */
  lemma AboveFirst<T(!new)>(less: (T, T) -> bool, x: T, ys: seq<T>)
    requires StrictWeak(less) && Sorted(less, ys) && ys != [] && !less(ys[0], x)
    ensures forall y :: y in ys ==> !less(y, x)
  {
    forall j | 0 <= j < |ys|
      ensures !less(ys[j], x)
    {
      if j > 0 { assert !less(ys[j], ys[0]); }
    }
  }

  lemma {:induction false} InsertSorted<T(!new)>(less: (T, T) -> bool, x: T, ys: seq<T>)
    requires StrictWeak(less) && Sorted(less, ys)
    ensures Sorted(less, Insert(less, x, ys))
  {
    if ys != [] && less(ys[0], x) {
      var rest := Insert(less, x, ys[1..]);
      InsertSorted(less, x, ys[1..]);
      InsertPermutes(less, x, ys[1..]);
      forall r | r in rest
        ensures !less(r, ys[0])
      {
        assert r in multiset(rest);
        assert r == x || r in ys[1..];
      }
      SortedCons(less, ys[0], rest);
    } else {
      if ys != [] { AboveFirst(less, x, ys); }
      SortedCons(less, x, ys);
    }
  }

  lemma {:induction false} KeepInsert<T(!new)>(less: (T, T) -> bool, p: T -> bool, x: T, ys: seq<T>)
    requires StrictWeak(less) && Sorted(less, ys)
    ensures Keep(p, Insert(less, x, ys)) == if p(x) then Insert(less, x, Keep(p, ys)) else Keep(p, ys)
  {
    if ys == [] {
    } else if less(ys[0], x) {
      KeepInsert(less, p, x, ys[1..]);
      assert Insert(less, x, ys)[1..] == Insert(less, x, ys[1..]);
      var kept := Keep(p, ys);
      assert p(ys[0]) ==> kept[1..] == Keep(p, ys[1..]);
    } else {
      assert ([x] + ys)[1..] == ys;
      var kept := Keep(p, ys);
      KeepIn(p, ys);
      if kept != [] {
        AboveFirst(less, x, ys);
        assert kept[0] in ys;
      }
    }
  }

  lemma {:induction false} SortSorted<T(!new)>(less: (T, T) -> bool, xs: seq<T>)
    requires StrictWeak(less)
    ensures Sorted(less, StableSort(less, xs)) && multiset(StableSort(less, xs)) == multiset(xs)
  {
    if xs != [] {
      SortSorted(less, xs[1..]);
      InsertSorted(less, xs[0], StableSort(less, xs[1..]));
      InsertPermutes(less, xs[0], StableSort(less, xs[1..]));
      assert xs == [xs[0]] + xs[1..];
    }
  }

  /** Sorting commutes with filtering. */
  lemma {:induction false} SortKeepsFilter<T(!new)>(less: (T, T) -> bool, p: T -> bool, xs: seq<T>)
    requires StrictWeak(less)
    ensures Keep(p, StableSort(less, xs)) == StableSort(less, Keep(p, xs))
  {
    if xs != [] {
      SortKeepsFilter(less, p, xs[1..]);
      SortSorted(less, xs[1..]);
      KeepInsert(less, p, xs[0], StableSort(less, xs[1..]));
      if p(xs[0]) {
        assert Keep(p, xs)[1..] == Keep(p, xs[1..]);
      }
    }
  }

  lemma {:induction false} EqualKeysStay<T(!new)>(less: (T, T) -> bool, x: T, xs: seq<T>)
    requires StrictWeak(less) && forall y :: y in xs ==> SameKey(less, x)(y)
    ensures StableSort(less, xs) == xs
  {
    if xs != [] {
      EqualKeysStay(less, x, xs[1..]);
      if |xs| > 1 {
        assert SameKey(less, x)(xs[1]) && SameKey(less, x)(xs[0]);
        assert !less(xs[1], xs[0]);
      }
      assert xs == [xs[0]] + xs[1..];
    }
  }

  lemma SortIsStable<T(!new)>(less: (T, T) -> bool, xs: seq<T>)
    requires StrictWeak(less)
    ensures StableOrderOf(less, xs, StableSort(less, xs))
  {
    SortSorted(less, xs);
    forall x
      ensures Keep(SameKey(less, x), StableSort(less, xs)) == Keep(SameKey(less, x), xs)
    {
      var p := SameKey(less, x);
      SortKeepsFilter(less, p, xs);
      KeepIn(p, xs);
      EqualKeysStay(less, x, Keep(p, xs));
    }
  }

  /** At most one sequence is a stable order of given rows. */
  lemma {:induction false} StableOrderUnique<T(!new)>(less: (T, T) -> bool, ys: seq<T>, zs: seq<T>)
    requires StrictWeak(less) && Sorted(less, ys) && Sorted(less, zs)
    requires forall x :: Keep(SameKey(less, x), ys) == Keep(SameKey(less, x), zs)
    ensures ys == zs
    decreases |ys| + |zs|
  {
    if ys == [] || zs == [] {
      if ys != [] { FirstHasKey(less, ys); }
      if zs != [] { FirstHasKey(less, zs); }
    } else {
      FirstHasKey(less, ys);
      FirstHasKey(less, zs);
      var y, z := ys[0], zs[0];
      assert y in Keep(SameKey(less, y), zs) by { assert Keep(SameKey(less, y), ys)[0] == y; }
      assert z in Keep(SameKey(less, z), ys) by { assert Keep(SameKey(less, z), zs)[0] == z; }
      KeepIn(SameKey(less, y), zs);
      KeepIn(SameKey(less, z), ys);
      FirstIsLeast(less, ys, z);
      FirstIsLeast(less, zs, y);
      assert SameKey(less, y)(z);
      assert y == Keep(SameKey(less, y), ys)[0] == Keep(SameKey(less, y), zs)[0] == z;
      forall x
        ensures Keep(SameKey(less, x), ys[1..]) == Keep(SameKey(less, x), zs[1..])
      {
        var p := SameKey(less, x);
        assert Keep(p, ys) == Keep(p, zs);
        if p(y) {
          assert Keep(p, ys)[1..] == Keep(p, ys[1..]) && Keep(p, zs)[1..] == Keep(p, zs[1..]);
        }
      }
      StableOrderUnique(less, ys[1..], zs[1..]);
      assert ys == [y] + ys[1..] && zs == [z] + zs[1..];
    }
  }

  lemma FirstHasKey<T(!new)>(less: (T, T) -> bool, ys: seq<T>)
    requires StrictWeak(less) && ys != []
    ensures Keep(SameKey(less, ys[0]), ys) != [] && Keep(SameKey(less, ys[0]), ys)[0] == ys[0]
  {
  }

  lemma FirstIsLeast<T(!new)>(less: (T, T) -> bool, ys: seq<T>, x: T)
    requires Sorted(less, ys) && x in ys && StrictWeak(less)
    ensures !less(x, ys[0])
  {
  }
}
