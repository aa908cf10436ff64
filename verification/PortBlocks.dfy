/** The port-block allocator of evaluate/scripts/worktree-ports.sh. */
module PortBlocks {
  import opened Wrappers

  const MIN_PORT: int := 20000
  const MAX_BASE: int := 60994
  const BLOCK: int := 6

  /** The bases the probe loop goes through, one per attempt. */
  const BASES: int := MAX_BASE - MIN_PORT + 1

  /** The script's variables and files: port files by worktree, each six consecutive ports. */
  datatype PortFiles = PortFiles(bases: map<string, int>) {
    /** `_is_reserved_by_worktree`: some other worktree's file lists the port. */
    predicate Reserved(worktree: string, port: int) {
      exists w :: w in bases && w != worktree && bases[w] <= port < bases[w] + BLOCK
    }
  }

  predicate PortFree(files: PortFiles, listening: set<int>, worktree: string, port: int) {
    port !in listening && !files.Reserved(worktree, port)
  }

  predicate Available(files: PortFiles, listening: set<int>, worktree: string, base: int) {
    forall port :: base <= port < base + BLOCK ==> PortFree(files, listening, worktree, port)
  }

  method BlockIsAvailable(files: PortFiles, listening: set<int>, worktree: string, base: int) returns (ok: bool)
    ensures ok == Available(files, listening, worktree, base)
    ensures ok ==> forall port :: port in listening ==> !(base <= port < base + 6)
    ensures ok ==> forall w :: w in files.bases && w != worktree ==>
      base + 6 <= files.bases[w] || files.bases[w] + 6 <= base
    ensures !ok ==>
      || (exists port :: port in listening && base <= port < base + 6)
      || (exists w :: w in files.bases && w != worktree && base - 6 < files.bases[w] < base + 6)
  {
    for offset := 0 to BLOCK
      invariant forall port :: base <= port < base + offset ==> PortFree(files, listening, worktree, port)
    {
      var port := base + offset;
      if port in listening || files.Reserved(worktree, port) {
        assert !PortFree(files, listening, worktree, port);
        return false;
      }
    }
    assert Available(files, listening, worktree, base);
    forall port | port in listening
      ensures !(base <= port < base + 6)
    {
      assert base <= port < base + 6 ==> PortFree(files, listening, worktree, port);
    }
    forall w | w in files.bases && w != worktree
      ensures Disjoint(base, files.bases[w])
    {
      DisjointFromOthers(files, listening, worktree, base, w);
    }
    return true;
  }

  // ─── Reading the requested base ─────────────────────────────────────────────

  predicate IsDigit(c: char) { '0' <= c <= '9' }

  function DigitValue(c: char): nat
    requires IsDigit(c)
  {
    c as int - '0' as int
  }

  predicate Digits(s: string) { forall i :: 0 <= i < |s| ==> IsDigit(s[i]) }

  predicate Numeric(s: string) { s != "" && Digits(s) }

  function Radix(s: string, radix: nat): nat
    requires Digits(s)
    requires radix == 8 || radix == 10
  {
    if s == "" then 0
    else
      var high := Radix(s[..|s| - 1], radix);
      (if radix == 10 then 10 * high else 8 * high) + DigitValue(s[|s| - 1])
  }

  /** How `[ ... -lt ... ]` reads a numeral. */
  function TestValue(s: string): nat
    requires Numeric(s)
  {
    Radix(s, 10)
  }

  predicate LeadingZero(s: string) { |s| > 1 && s[0] == '0' }

  /** How `$(( ))` reads it: a leading zero makes it octal, and 8 and 9 are then errors. */
  function ArithValue(s: string): Option<nat>
    requires Numeric(s)
  {
    if !LeadingZero(s) then Some(Radix(s, 10))
    else if exists i :: 0 <= i < |s| && s[i] in "89" then None
    else Some(Radix(s, 8))
  }

  predicate InRange(base: int) { MIN_PORT <= base <= MAX_BASE }

  // ─── The probe ──────────────────────────────────────────────────────────────

  /** The candidate of an attempt: counting up from `start`, wrapping once past the largest base. */
  function Candidate(start: int, attempt: int): int {
    if start + attempt > MAX_BASE then MIN_PORT + (start + attempt) - MAX_BASE - 1 else start + attempt
  }

  /** From any start in range the probe visits every base exactly once. */
  lemma ProbeVisitsAll(start: int)
    requires InRange(start)
    ensures forall attempt :: 0 <= attempt < BASES ==> InRange(Candidate(start, attempt))
    ensures forall a, b :: 0 <= a < BASES && 0 <= b < BASES && Candidate(start, a) == Candidate(start, b) ==> a == b
    ensures forall base :: InRange(base) ==> exists attempt :: 0 <= attempt < BASES && Candidate(start, attempt) == base
  {
    forall base | InRange(base)
      ensures exists attempt :: 0 <= attempt < BASES && Candidate(start, attempt) == base
    {
      var attempt := if base >= start then base - start else base + BASES - start;
      assert Candidate(start, attempt) == base;
    }
  }

  /** Probing goes up from the start, one base at a time, and on from 20000 after 60994. */
  lemma ProbeOrder(start: int, attempt: int)
    requires InRange(start) && 0 <= attempt < BASES
    ensures Candidate(start, 0) == start
    ensures attempt + 1 < BASES ==>
      Candidate(start, attempt + 1) ==
        if Candidate(start, attempt) == 60994 then 20000 else Candidate(start, attempt) + 1
  {
  }

  datatype AllocError = InvalidBase | ArithmeticError | NoFreeBlock

  /** What a run of the script answers, and the port files it leaves. */
  datatype Outcome = Outcome(result: Result<int, AllocError>, files: PortFiles)

  /** Attempt `n` finds a free block and no attempt before it does. */
  ghost predicate FirstFree(files: PortFiles, listening: set<int>, worktree: string, start: int, n: int) {
    && 0 <= n < BASES
    && Available(files, listening, worktree, Candidate(start, n))
    && forall m :: 0 <= m < n ==> !Available(files, listening, worktree, Candidate(start, m))
  }

  /** The first free candidate from `start`, if any. */
  method Probe(files: PortFiles, listening: set<int>, worktree: string, start: int) returns (found: Option<int>)
    ensures found.Some? ==>
      exists n :: FirstFree(files, listening, worktree, start, n) && found.value == Candidate(start, n)
    ensures found.None? ==> forall m :: 0 <= m < BASES ==> !Available(files, listening, worktree, Candidate(start, m))
  {
    for attempt := 0 to BASES
      invariant forall m :: 0 <= m < attempt ==> !Available(files, listening, worktree, Candidate(start, m))
    {
      var candidate := start + attempt;
      if candidate > MAX_BASE {
        candidate := MIN_PORT + candidate - MAX_BASE - 1;
      }
      assert candidate == Candidate(start, attempt);
      var ok := BlockIsAvailable(files, listening, worktree, candidate);
      if ok {
        assert FirstFree(files, listening, worktree, start, attempt);
        return Some(candidate);
      }
    }
    return None;
  }

  /**
   * Where probing starts: the requested base as arithmetic reads it when `[ ]` finds it in
   * range, else a hash of the worktree id.
   */
  function Start(requested: string, hash: nat): Option<int>
    requires Numeric(requested)
  {
    if InRange(TestValue(requested)) then ArithValue(requested) else Some(MIN_PORT + hash % BASES)
  }

  /**
   * A request in range is honoured, read as a decimal, or with a leading zero as an octal, in
   * which 8 and 9 are errors; one out of
   * range is replaced by a base in range that depends on the worktree alone.
   */
  lemma StartOf(requested: string, hash: nat)
    requires Numeric(requested)
    ensures 20000 <= Radix(requested, 10) <= 60994 && !(|requested| > 1 && requested[0] == '0') ==>
      Start(requested, hash) == Some(Radix(requested, 10))
    ensures !(20000 <= Radix(requested, 10) <= 60994) ==>
      Start(requested, hash) == Some(20000 + hash % 40995) && InRange(20000 + hash % 40995)
    ensures 20000 <= Radix(requested, 10) <= 60994 && |requested| > 1 && requested[0] == '0' ==>
      Start(requested, hash) == if '8' in requested || '9' in requested then None else Some(Radix(requested, 8))
  {
  }

  /** One run of the script: a worktree that has its file gets it back, whatever it requests. */
  method Allocate(files: PortFiles, listening: set<int>, worktree: string, requested: string, hash: nat)
    returns (o: Outcome)
    ensures worktree in files.bases ==> o == Outcome(Ok(files.bases[worktree]), files)
    ensures worktree !in files.bases && !Numeric(requested) ==> o == Outcome(Err(InvalidBase), files)
    ensures worktree !in files.bases && Numeric(requested) && Start(requested, hash).None? ==>
      o == Outcome(Err(ArithmeticError), files)
    ensures worktree !in files.bases && Numeric(requested) && Start(requested, hash).Some? ==>
      Placed(files, listening, worktree, Start(requested, hash).value, o)
    ensures Takes(files, Alloc(worktree, requested, hash, listening), o.files)
  {
    if worktree in files.bases {
      return Outcome(Ok(files.bases[worktree]), files);
    }
    if !Numeric(requested) {
      return Outcome(Err(InvalidBase), files);
    }
    var start := Start(requested, hash);
    if start.None? {
      return Outcome(Err(ArithmeticError), files);
    }
    var found := Probe(files, listening, worktree, start.value);
    if found.None? {
      return Outcome(Err(NoFreeBlock), files);
    }
    return Outcome(Ok(found.value), PortFiles(files.bases[worktree := found.value]));
  }

  /** The first free candidate is taken and written down; an error changes nothing. */
  ghost predicate Placed(files: PortFiles, listening: set<int>, worktree: string, start: int, o: Outcome) {
    match o.result
    case Ok(base) =>
      && o.files == PortFiles(files.bases[worktree := base])
      && exists n :: FirstFree(files, listening, worktree, start, n) && base == Candidate(start, n)
    case Err(e) =>
      && e == NoFreeBlock && o.files == files
      && forall m :: 0 <= m < BASES ==> !Available(files, listening, worktree, Candidate(start, m))
  }

  /** From a start in range an allocation fails iff no base at all is free. */
  lemma FailsIffFull(files: PortFiles, listening: set<int>, worktree: string, start: int, o: Outcome)
    requires InRange(start) && Placed(files, listening, worktree, start, o)
    ensures o.result.Err? <==> forall base :: InRange(base) ==> !Available(files, listening, worktree, base)
    ensures o.result.Ok? ==> InRange(o.result.value)
  {
    ProbeVisitsAll(start);
  }

  // ─── Sequences of runs ──────────────────────────────────────────────────────

  predicate Disjoint(x: int, y: int) { x + BLOCK <= y || y + BLOCK <= x }

  /** All live blocks are pairwise disjoint. */
  ghost predicate AllDisjoint(files: PortFiles) {
    forall v, w :: v in files.bases && w in files.bases && v != w ==> Disjoint(files.bases[v], files.bases[w])
  }

  ghost predicate AllInRange(files: PortFiles) {
    forall w :: w in files.bases ==> InRange(files.bases[w])
  }

  /** A run of the allocator, with what listened at the time, or the removal of a worktree's files. */
  datatype Action =
    | Alloc(worktree: string, requested: string, hash: nat, listening: set<int>)
    | Clean(worktree: string)

  ghost predicate Takes(s: PortFiles, a: Action, t: PortFiles) {
    match a
    case Clean(w) => t.bases == s.bases - {w}
    case Alloc(w, requested, hash, listening) =>
      if w in s.bases || !Numeric(requested) || Start(requested, hash).None? then t == s
      else exists o :: Placed(s, listening, w, Start(requested, hash).value, o) && t == o.files
  }

  ghost predicate IsHistory(states: seq<PortFiles>, actions: seq<Action>) {
    && |states| == |actions| + 1
    && states[0].bases == map[]
    && forall k, l :: 0 <= k < |actions| && l == k + 1 ==> Takes(states[k], actions[k], states[l])
  }

  /** The request starts a probe within the range of bases. */
  predicate StartsInRange(a: Action) {
    a.Alloc? && Numeric(a.requested) && Start(a.requested, a.hash).Some? ==> InRange(Start(a.requested, a.hash).value)
  }

  lemma FreeIsUnreserved(files: PortFiles, listening: set<int>, worktree: string, base: int, port: int)
    requires Available(files, listening, worktree, base) && base <= port < base + BLOCK
    ensures !files.Reserved(worktree, port)
  {
    assert PortFree(files, listening, worktree, port);
  }

  lemma DisjointFromOthers(files: PortFiles, listening: set<int>, worktree: string, base: int, w: string)
    requires Available(files, listening, worktree, base) && w in files.bases && w != worktree
    ensures Disjoint(base, files.bases[w])
  {
    if !Disjoint(base, files.bases[w]) {
      var shared := if base <= files.bases[w] then files.bases[w] else base;
      assert files.Reserved(worktree, shared);
      FreeIsUnreserved(files, listening, worktree, base, shared);
    }
  }

  lemma PlacedKeeps(s: PortFiles, listening: set<int>, w: string, start: int, o: Outcome)
    requires AllDisjoint(s) && w !in s.bases && Placed(s, listening, w, start, o)
    ensures AllDisjoint(o.files)
    ensures InRange(start) && AllInRange(s) ==> AllInRange(o.files)
  {
    if o.result.Ok? {
      forall v | v in s.bases
        ensures Disjoint(o.result.value, s.bases[v])
      {
        DisjointFromOthers(s, listening, w, o.result.value, v);
      }
      if InRange(start) {
        ProbeVisitsAll(start);
      }
    }
  }

  /**
   * Over any history of non-overlapping runs the live six-port blocks are pairwise disjoint,
   * and within 20000..60999 when every probe started in range.
   */
  lemma {:induction false} BlocksStayDisjoint(states: seq<PortFiles>, actions: seq<Action>)
    requires IsHistory(states, actions)
    ensures AllDisjoint(states[|actions|])
    ensures (forall k :: 0 <= k < |actions| ==> StartsInRange(actions[k])) ==> AllInRange(states[|actions|])
    decreases |actions|
  {
    if actions != [] {
      var n := |actions| - 1;
      var earlier, past := states[..n + 1], actions[..n];
      assert forall k :: 0 <= k <= n ==> earlier[k] == states[k];
      assert forall k :: 0 <= k < n ==> past[k] == actions[k];
      BlocksStayDisjoint(earlier, past);
      var s, t := states[n], states[n + 1];
      assert Takes(s, actions[n], t);
      match actions[n] {
        case Clean(w) =>
        case Alloc(w, requested, hash, listening) =>
          if !(w in s.bases || !Numeric(requested) || Start(requested, hash).None?) {
            var o :| Placed(s, listening, w, Start(requested, hash).value, o) && t == o.files;
            PlacedKeeps(s, listening, w, Start(requested, hash).value, o);
          }
      }
    }
  }

  // ─── Runs that overlap in time ──────────────────────────────────────────────

  lemma SameBlockForBoth(files: PortFiles, listening: set<int>, v: string, w: string, base: int)
    requires v !in files.bases && w !in files.bases
    ensures Available(files, listening, v, base) <==> Available(files, listening, w, base)
  {
    assert forall port :: files.Reserved(v, port) <==> files.Reserved(w, port);
    assert forall port :: PortFree(files, listening, v, port) <==> PortFree(files, listening, w, port);
  }

  /** With another block written down, a base stays free iff the block there does not touch it. */
  lemma StillAvailable(files: PortFiles, listening: set<int>, v: string, w: string, x: int, base: int)
    requires v != w && v !in files.bases
    ensures Available(PortFiles(files.bases[v := x]), listening, w, base) <==>
      Available(files, listening, w, base) && Disjoint(x, base)
  {
    var later := PortFiles(files.bases[v := x]);
    forall port
      ensures later.Reserved(w, port) <==> files.Reserved(w, port) || x <= port < x + BLOCK
    {
      assert later.bases[v] == x;
      assert forall u :: u in files.bases ==> u in later.bases && later.bases[u] == files.bases[u];
    }
    if Available(later, listening, w, base) {
      forall port | base <= port < base + BLOCK
        ensures PortFree(files, listening, w, port) && !(x <= port < x + BLOCK)
      {
        assert PortFree(later, listening, w, port);
      }
      var shared := if base <= x then x else base;
      assert base <= shared < base + BLOCK ==> PortFree(files, listening, w, shared) && !(x <= shared < x + BLOCK);
    } else if Available(files, listening, w, base) && Disjoint(x, base) {
      forall port | base <= port < base + BLOCK
        ensures PortFree(later, listening, w, port)
      {
        assert PortFree(files, listening, w, port);
      }
    }
  }

  /** Writing a block down changes the outcome of another probe iff the block touches that outcome. */
  lemma StillFirst(files: PortFiles, listening: set<int>, v: string, w: string, x: int, start: int, n: int)
    requires v != w && v !in files.bases && FirstFree(files, listening, w, start, n)
    ensures FirstFree(PortFiles(files.bases[v := x]), listening, w, start, n) <==> Disjoint(x, Candidate(start, n))
  {
    hide Available, Disjoint;
    forall m | 0 <= m <= n
      ensures Available(PortFiles(files.bases[v := x]), listening, w, Candidate(start, m)) <==>
        Available(files, listening, w, Candidate(start, m)) && Disjoint(x, Candidate(start, m))
    {
      StillAvailable(files, listening, v, w, x, Candidate(start, m));
    }
  }

  /**
   * Two runs that both probe before either has written its file. All live blocks stay disjoint
   * iff the overlap did not matter: run one after the other, in either order, each would have
   * found the block it did.
   */
  lemma OverlapKeepsDisjointIff(
    files: PortFiles, listenV: set<int>, listenW: set<int>, v: string, w: string,
    startV: int, startW: int, m: int, n: int)
    requires AllDisjoint(files) && v != w && v !in files.bases && w !in files.bases
    requires FirstFree(files, listenV, v, startV, m) && FirstFree(files, listenW, w, startW, n)
    ensures var x, y := Candidate(startV, m), Candidate(startW, n);
      var safe := AllDisjoint(PortFiles(files.bases[v := x][w := y]));
      && (safe <==> FirstFree(PortFiles(files.bases[v := x]), listenW, w, startW, n))
      && (safe <==> FirstFree(PortFiles(files.bases[w := y]), listenV, v, startV, m))
      && (safe <==> Disjoint(x, y))
  {
    var x, y := Candidate(startV, m), Candidate(startW, n);
    StillFirst(files, listenW, v, w, x, startW, n);
    StillFirst(files, listenV, w, v, y, startV, m);
    forall u | u in files.bases
      ensures Disjoint(x, files.bases[u]) && Disjoint(y, files.bases[u])
    {
      DisjointFromOthers(files, listenV, v, x, u);
      DisjointFromOthers(files, listenW, w, y, u);
    }
    var both := PortFiles(files.bases[v := x][w := y]);
    assert both.bases[v] == x && both.bases[w] == y;
    hide FirstFree;
  }

  /**
   * In terms of the requests: when both start in range on a block that is free, the overlap is
   * safe iff those two blocks are disjoint.
   */
  lemma OverlapOfFreeStarts(
    files: PortFiles, listening: set<int>, v: string, w: string, startV: int, startW: int, m: int, n: int)
    requires AllDisjoint(files) && v != w && v !in files.bases && w !in files.bases
    requires InRange(startV) && Available(files, listening, v, startV)
    requires InRange(startW) && Available(files, listening, w, startW)
    requires FirstFree(files, listening, v, startV, m) && FirstFree(files, listening, w, startW, n)
    ensures AllDisjoint(PortFiles(files.bases[v := Candidate(startV, m)][w := Candidate(startW, n)])) <==>
      Disjoint(startV, startW)
  {
    assert Candidate(startV, 0) == startV && Candidate(startW, 0) == startW;
    assert m == 0 && n == 0;
    OverlapKeepsDisjointIff(files, listening, listening, v, w, startV, startW, 0, 0);
    StillFirst(files, listening, v, w, startV, startW, 0);
  }

  /** From the same start with the same ports listening an overlap is never safe: one block for both. */
  lemma SameStartCollides(
    files: PortFiles, listening: set<int>, v: string, w: string, start: int, m: int, n: int)
    requires v != w && v !in files.bases && w !in files.bases
    requires FirstFree(files, listening, v, start, m) && FirstFree(files, listening, w, start, n)
    ensures Candidate(start, m) == Candidate(start, n)
    ensures !AllDisjoint(PortFiles(files.bases[v := Candidate(start, m)][w := Candidate(start, n)]))
  {
    SameBlockForBoth(files, listening, v, w, Candidate(start, m));
    SameBlockForBoth(files, listening, v, w, Candidate(start, n));
    var both := PortFiles(files.bases[v := Candidate(start, m)][w := Candidate(start, n)]);
    assert both.bases[v] == both.bases[w];
  }

  // ─── When a probe leaves the range ──────────────────────────────────────────

  lemma {:induction false} OctalIsSmaller(s: string)
    requires Digits(s)
    ensures Radix(s, 8) <= Radix(s, 10)
  {
    if s != "" {
      OctalIsSmaller(s[..|s| - 1]);
    }
  }

  /**
   * A probe starts outside the range exactly when the request passes the range test in
   * decimal, has a leading zero, and is below 20000 in octal.
   */
  lemma StartsInRangeIff(requested: string, hash: nat)
    requires Numeric(requested) && Start(requested, hash).Some?
    ensures InRange(Start(requested, hash).value) <==>
      !(InRange(TestValue(requested)) && LeadingZero(requested) && Radix(requested, 8) < MIN_PORT)
  {
    OctalIsSmaller(requested);
  }

  lemma RadixSnoc(s: string, c: char)
    requires IsDigit(c) && Digits(s)
    ensures Digits(s + [c])
    ensures Radix(s + [c], 10) == 10 * Radix(s, 10) + DigitValue(c)
    ensures Radix(s + [c], 8) == 8 * Radix(s, 8) + DigitValue(c)
  {
    assert (s + [c])[..|s|] == s;
  }

  lemma ZeroAndTwo()
    ensures Digits("") && Radix("", 8) == Radix("", 10) == 0
    ensures IsDigit('0') && IsDigit('2') && DigitValue('0') == 0 && DigitValue('2') == 2
  {
  }

  lemma Numerals()
    ensures Digits("020000") && Radix("020000", 8) == 8192 && Radix("020000", 10) == 20000
  {
    ZeroAndTwo();
    hide Digits, IsDigit, DigitValue, Radix;
    RadixSnoc("", '0');
    assert "" + ['0'] == "0";
    RadixSnoc("0", '2');
    assert "0" + ['2'] == "02";
    RadixSnoc("02", '0');
    assert "02" + ['0'] == "020";
    RadixSnoc("020", '0');
    assert "020" + ['0'] == "0200";
    RadixSnoc("0200", '0');
    assert "0200" + ['0'] == "02000";
    RadixSnoc("02000", '0');
    assert "02000" + ['0'] == "020000";
  }

  lemma BlockAt8192()
    ensures Placed(PortFiles(map[]), {}, "w", 8192, Outcome(Ok(8192), PortFiles(map["w" := 8192])))
  {
    assert Available(PortFiles(map[]), {}, "w", Candidate(8192, 0));
    assert FirstFree(PortFiles(map[]), {}, "w", 8192, 0);
  }

  /** `020000` passes the range test as 20000, probes from 8192, and gets a block below the range. */
  lemma OctalStart()
    ensures Numeric("020000") && InRange(TestValue("020000")) && Start("020000", 0) == Some(8192)
    ensures Placed(PortFiles(map[]), {}, "w", 8192, Outcome(Ok(8192), PortFiles(map["w" := 8192])))
  {
    Numerals();
    BlockAt8192();
    hide Radix, Digits, Placed;
  }
}
