/**
 * The single-instance lock of app/worker/service.go as a protocol: any number of nodes, one
 * Redis key with an expiry, a clock, and every Redis call a step of its own.
 */
module LeaseProtocol {
  import opened Wrappers

  const LEASE_SECONDS: int := 15

  /** Where a manager is between two of its actions. */
  datatype Pc =
    | Idle          // not acquired, waiting for a tick
    | Won           // SETNX answered 1, SETEX comes next
    | Undo          // that SETEX failed, DEL comes next
    | Starting      // acquired is set, runner.Start comes next
    | UndoStart     // Start failed and acquired is cleared, DEL comes next
    | Holding       // acquired, waiting for a tick
    | Renewing      // GET named this host, SETEX comes next
    | Lost          // acquired is cleared, runner.Shutdown comes next
    | Releasing     // Stop of an acquired manager, GET comes next
    | Deleting      // GET named this host, DEL comes next
    | Ending        // acquired is cleared by Stop, runner.Shutdown comes next
    | Stopped

  /** An action and its answer. An erring call may or may not have been applied. */
  datatype Event =
    | SetNX(ok: bool, won: bool)
    | SetEx(ok: bool)
    | Get(ok: bool, own: bool)
    | Del(ok: bool)
    | StartRunner(ok: bool)
    | StopRunner
    | Stop
    | Crash

  /** The program of one manager: what an event leads to, `None` when it is not its next action. */
  function Local(pc: Pc, e: Event): Option<Pc> {
    match (pc, e)
    case (_, Crash) => Some(Idle)
    case (Idle, SetNX(ok, won)) => Some(if ok && won then Won else Idle)
    case (Idle, Stop) => Some(Stopped)
    case (Won, SetEx(ok)) => Some(if ok then Starting else Undo)
    case (Undo, Del(_)) => Some(Idle)
    case (Starting, StartRunner(ok)) => Some(if ok then Holding else UndoStart)
    case (UndoStart, Del(_)) => Some(Idle)
    case (Holding, Get(ok, own)) => Some(if ok && own then Renewing else Lost)
    case (Holding, Stop) => Some(Releasing)
    case (Renewing, SetEx(ok)) => Some(if ok then Holding else Lost)
    case (Lost, StopRunner) => Some(Idle)
    case (Releasing, Get(ok, own)) => Some(if ok && own then Deleting else Ending)
    case (Deleting, Del(_)) => Some(Ending)
    case (Ending, StopRunner) => Some(Stopped)
    case _ => None
  }

  /** Between winning SETNX and deleting the key or clearing `acquired`. */
  predicate HoldsLock(pc: Pc) {
    pc == Won || pc == Undo || pc == Starting || pc == Holding || pc == Renewing || pc == Releasing || pc == Deleting
  }

  /** The node holds the lock or is still about to delete the key. */
  predicate Exposed(pc: Pc) { HoldsLock(pc) || pc == UndoStart }

  /** The runner was started and has not been shut down. */
  predicate RunnerActive(pc: Pc) {
    pc == Holding || pc == Renewing || pc == Lost || pc == Releasing || pc == Deleting || pc == Ending
  }

  datatype Entry = Entry(host: string, expiry: Option<int>)

  /** A node: its host name, its place, when the lease it wrote last ends, and its runner. */
  datatype Node = Node(host: string, pc: Pc, deadline: Option<int>, running: bool)

  datatype State = State(now: int, key: Option<Entry>, nodes: seq<Node>)

  /** The host a GET would read: an expired key is gone. */
  function Live(s: State): Option<string> {
    if s.key.None? then None
    else if s.key.value.expiry.None? || s.now < s.key.value.expiry.value then Some(s.key.value.host)
    else None
  }

  predicate Init(s: State) {
    s.key.None? && forall i :: 0 <= i < |s.nodes| ==>
      s.nodes[i].pc == Idle && s.nodes[i].deadline.None? && !s.nodes[i].running
  }

  /** The answer a node gets is the truth about the key. */
  predicate Truthful(s: State, host: string, e: Event) {
    match e
    case SetNX(ok, won) => ok ==> (won <==> Live(s).None?)
    case Get(ok, own) => ok ==> (own <==> Live(s) == Some(host))
    case _ => true
  }

  function Written(e: Event, s: State, host: string): Option<Entry> {
    match e
    case SetNX(_, _) => if Live(s).None? then Some(Entry(host, None)) else s.key
    case SetEx(_) => Some(Entry(host, Some(s.now + LEASE_SECONDS)))
    case Del(_) => None
    case _ => s.key
  }

  predicate CanFail(e: Event) { e.SetNX? || e.SetEx? || e.Get? || e.Del? }

  /** The state after node `i` performed `e`. */
  function After(s: State, i: int, e: Event, applied: bool): State
    requires 0 <= i < |s.nodes| && Local(s.nodes[i].pc, e).Some?
  {
    var n := s.nodes[i];
    var m := Node(n.host, Local(n.pc, e).value, Deadline(n, e, s, applied), Running(n, e));
    State(s.now, if applied then Written(e, s, n.host) else s.key, s.nodes[i := m])
  }

  /** Node `i` performs `e`; when the call errs, `applied` says whether Redis executed it. */
  ghost predicate Acts(s: State, t: State, i: int, e: Event, applied: bool) {
    && 0 <= i < |s.nodes|
    && var n := s.nodes[i];
    && Local(n.pc, e).Some?
    && Truthful(s, n.host, e)
    && (CanFail(e) && e.ok ==> applied)
    && t == After(s, i, e, applied)
  }

  function Deadline(n: Node, e: Event, s: State, applied: bool): Option<int> {
    match e
    case SetNX(_, _) => None
    case SetEx(_) => if applied then Some(s.now + LEASE_SECONDS) else n.deadline
    case _ => n.deadline
  }

  function Running(n: Node, e: Event): bool {
    match e
    case StartRunner(ok) => ok
    case StopRunner => false
    case Crash => false
    case _ => n.running
  }

  ghost predicate Elapses(s: State, t: State) {
    t.now > s.now && t.key == s.key && t.nodes == s.nodes
  }

  ghost predicate Step(s: State, t: State) {
    Elapses(s, t) || exists i, e, applied :: Acts(s, t, i, e, applied)
  }

  ghost predicate IsRun(run: seq<State>) {
    && run != []
    && Init(run[0])
    && forall k, l :: 0 <= k && l == k + 1 < |run| ==> Step(run[k], run[l])
  }

  // ─── Mutual exclusion ───────────────────────────────────────────────────────

  /** No exposed node has let the lease it wrote run out. */
  predicate Timely(s: State) {
    forall i :: 0 <= i < |s.nodes| && Exposed(s.nodes[i].pc) && s.nodes[i].deadline.Some? ==>
      s.now < s.nodes[i].deadline.value
  }

  predicate AtMostOneHolder(s: State) {
    forall i, j :: 0 <= i < |s.nodes| && 0 <= j < |s.nodes| ==>
      (HoldsLock(s.nodes[i].pc) && HoldsLock(s.nodes[j].pc) ==> i == j)
  }

  /** One exposed node at most, and the key is the entry it wrote. */
  predicate Inv(s: State) {
    && (forall i, j :: 0 <= i < |s.nodes| && 0 <= j < |s.nodes| ==>
          (Exposed(s.nodes[i].pc) && Exposed(s.nodes[j].pc) ==> i == j))
    && (forall i :: 0 <= i < |s.nodes| && Exposed(s.nodes[i].pc) ==>
          s.key == Some(Entry(s.nodes[i].host, s.nodes[i].deadline)))
  }

  lemma ActorInv(s: State, t: State, i: int, e: Event, applied: bool)
    requires Inv(s) && Acts(s, t, i, e, applied)
    ensures |t.nodes| == |s.nodes| && forall j :: 0 <= j < |s.nodes| && j != i ==> t.nodes[j] == s.nodes[j]
    ensures Exposed(t.nodes[i].pc) ==> t.key == Some(Entry(t.nodes[i].host, t.nodes[i].deadline))
    ensures !Exposed(s.nodes[i].pc) && Live(s).Some? ==> t.key == s.key && !Exposed(t.nodes[i].pc)
  {
  }

  lemma InvStep(s: State, t: State)
    requires Inv(s) && Timely(s) && Step(s, t)
    ensures Inv(t)
  {
    if !Elapses(s, t) {
      var i, e, applied :| Acts(s, t, i, e, applied);
      ActorInv(s, t, i, e, applied);
      hide Acts, Exposed;
      if j :| 0 <= j < |s.nodes| && j != i && Exposed(s.nodes[j].pc) {
        assert Live(s) == Some(s.nodes[j].host);
        assert !Exposed(s.nodes[i].pc);
      }
    }
  }

  lemma InitInv(s: State)
    requires Init(s)
    ensures Inv(s)
  {
  }

  lemma {:induction false} TimelyKeepsInv(run: seq<State>, n: nat)
    requires IsRun(run) && n < |run| && forall k :: 0 <= k < n ==> Timely(run[k])
    ensures forall k :: 0 <= k <= n ==> Inv(run[k])
  {
    if n > 0 {
      TimelyKeepsInv(run, n - 1);
      assert Step(run[n - 1], run[n]);
      InvStep(run[n - 1], run[n]);
    }
  }

  /**
   * Over every interleaving of single Redis calls by any number of nodes, calls that err with
   * or without effect, pauses and crashes included: if no exposed node outlives its lease,
   * at most one node holds the lock. Host names need not be distinct for this.
   */
  lemma MutualExclusion(run: seq<State>)
    requires IsRun(run)
    requires forall k :: 0 <= k < |run| - 1 ==> Timely(run[k])
    ensures AtMostOneHolder(run[|run| - 1]) && Inv(run[|run| - 1])
  {
    TimelyKeepsInv(run, |run| - 1);
  }

  // ─── Exactly when the lock stops excluding ──────────────────────────────────

  /** The lease node `i` wrote last has run out. */
  predicate Expired(s: State, i: int) {
    0 <= i < |s.nodes| && s.nodes[i].deadline.Some? && s.nodes[i].deadline.value <= s.now
  }

  /** Another node than `i`, waiting for its next attempt. */
  predicate Rival(s: State, i: int, j: int) {
    0 <= j < |s.nodes| && j != i && s.nodes[j].pc == Idle
  }

  /** A holder has outlived its lease while another node waits for the lock. */
  ghost predicate Contested(s: State) {
    exists i, j :: Expired(s, i) && Rival(s, i, j) && HoldsLock(s.nodes[i].pc)
  }

  lemma RivalWins(s: State, i: int, j: int) returns (t: State)
    requires Inv(s) && Expired(s, i) && HoldsLock(s.nodes[i].pc) && Rival(s, i, j)
    ensures Step(s, t) && !AtMostOneHolder(t)
  {
    t := After(s, j, SetNX(true, true), true);
    assert s.key == Some(Entry(s.nodes[i].host, s.nodes[i].deadline)) && Live(s).None?;
    assert Acts(s, t, j, SetNX(true, true), true);
    assert HoldsLock(t.nodes[i].pc) && HoldsLock(t.nodes[j].pc);
  }

  /** An unexposed actor becomes exposed, or changes the key, only by SETNX on a key that is gone. */
  lemma ActorWins(s: State, t: State, i: int, e: Event, applied: bool)
    requires Acts(s, t, i, e, applied) && !Exposed(s.nodes[i].pc)
    ensures Exposed(t.nodes[i].pc) || t.key != s.key ==> s.nodes[i].pc == Idle && Live(s).None?
  {
  }

  lemma OutlivedKey(s: State, i: int)
    requires Inv(s) && Live(s).None? && 0 <= i < |s.nodes| && Exposed(s.nodes[i].pc)
    ensures Expired(s, i)
  {
  }

  /** If the invariant breaks, an exposed node has outlived its lease and a waiting one acts. */
  lemma BrokenBy(s: State, t: State, j: int, e: Event, applied: bool) returns (i: int)
    requires Inv(s) && Acts(s, t, j, e, applied) && !Inv(t)
    ensures Expired(s, i) && Exposed(s.nodes[i].pc) && Rival(s, i, j)
  {
    ActorInv(s, t, j, e, applied);
    hide Acts, Exposed, Live, HoldsLock;
    i :| 0 <= i < |s.nodes| && i != j && Exposed(s.nodes[i].pc);
    ActorWins(s, t, j, e, applied);
    OutlivedKey(s, i);
  }

  lemma BrokenByRival(s: State, t: State)
    requires Inv(s) && Step(s, t) && !AtMostOneHolder(t)
    ensures Contested(s)
  {
    TwoHoldersBreakInv(t);
    var j, e, applied :| Acts(s, t, j, e, applied);
    var i := BrokenBy(s, t, j, e, applied);
    ActorInv(s, t, j, e, applied);
    HolderStays(s, t, i, j);
  }

  lemma TwoHoldersBreakInv(t: State)
    requires !AtMostOneHolder(t)
    ensures !Inv(t)
  {
  }

  lemma HolderStays(s: State, t: State, i: int, j: int)
    requires Inv(s) && !AtMostOneHolder(t) && Expired(s, i) && Exposed(s.nodes[i].pc) && Rival(s, i, j)
    requires |t.nodes| == |s.nodes| && forall k :: 0 <= k < |s.nodes| && k != j ==> t.nodes[k] == s.nodes[k]
    ensures HoldsLock(s.nodes[i].pc)
  {
    hide HoldsLock;
    var k, l :| 0 <= k < |t.nodes| && 0 <= l < |t.nodes| && k != l
      && HoldsLock(t.nodes[k].pc) && HoldsLock(t.nodes[l].pc);
    var m := if k == j then l else k;
    assert HoldsLock(s.nodes[m].pc) && Exposed(s.nodes[m].pc);
  }

  /** The next step can make two nodes hold the lock exactly in a contested state. */
  lemma BreakableIff(s: State)
    requires Inv(s)
    ensures (exists t :: Step(s, t) && !AtMostOneHolder(t)) <==> Contested(s)
  {
    if Contested(s) {
      var i, j :| Expired(s, i) && Rival(s, i, j) && HoldsLock(s.nodes[i].pc);
      var t := RivalWins(s, i, j);
    }
    forall t | Step(s, t) && !AtMostOneHolder(t)
      ensures Contested(s)
    {
      BrokenByRival(s, t);
    }
  }

  /**
   * A run on which every lease was kept can go on to break the exclusion exactly when a holder
   * has just outlived its lease and another node waits. Together with `MutualExclusion`: a
   * kept lease is all the lock needs, and nothing less will do.
   */
  lemma ExclusionBreaksIff(run: seq<State>)
    requires IsRun(run) && forall k :: 0 <= k < |run| - 1 ==> Timely(run[k])
    ensures (exists t :: IsRun(run + [t]) && !AtMostOneHolder(t)) <==> Contested(run[|run| - 1])
  {
    var s := run[|run| - 1];
    MutualExclusion(run);
    BreakableIff(s);
    forall t
      ensures IsRun(run + [t]) <==> Step(s, t)
    {
      RunAndStep(run, t);
    }
  }

  lemma RunAndStep(run: seq<State>, t: State)
    requires IsRun(run)
    ensures IsRun(run + [t]) <==> Step(run[|run| - 1], t)
  {
    var longer, n := run + [t], |run|;
    hide Step, Init;
    assert longer[n - 1] == run[n - 1] && longer[n] == t;
    assert forall k :: 0 <= k < n ==> longer[k] == run[k];
  }

  /**
   * On any run at all, two holders can be traced back to a first moment at which an exposed
   * node had outlived its lease while another node waited.
   */
  lemma {:induction false} BrokenRunWasLate(run: seq<State>, n: nat) returns (k: nat, i: int, j: int)
    requires IsRun(run) && n < |run| && !Inv(run[n])
    ensures k < n && Inv(run[k]) && Expired(run[k], i) && Exposed(run[k].nodes[i].pc) && Rival(run[k], i, j)
  {
    InitInv(run[0]);
    assert Step(run[n - 1], run[n]);
    if Inv(run[n - 1]) {
      k := n - 1;
      assert !Elapses(run[k], run[n]);
      hide Inv, Acts, Exposed;
      var e, applied;
      j, e, applied :| Acts(run[k], run[n], j, e, applied);
      i := BrokenBy(run[k], run[n], j, e, applied);
    } else {
      hide *;
      k, i, j := BrokenRunWasLate(run, n - 1);
    }
  }

  // ─── When runners overlap ───────────────────────────────────────────────────

  predicate RunnersMatch(s: State) {
    forall i :: 0 <= i < |s.nodes| ==> (s.nodes[i].running <==> RunnerActive(s.nodes[i].pc))
  }

  predicate AtMostOneRunner(s: State) {
    forall i, j :: 0 <= i < |s.nodes| && 0 <= j < |s.nodes| && s.nodes[i].running && s.nodes[j].running ==> i == j
  }

  /** The node has given up the lock and has not shut its runner down yet. */
  predicate Leaving(pc: Pc) { pc == Lost || pc == Ending }

  lemma RunnersMatchStep(s: State, t: State)
    requires RunnersMatch(s) && Step(s, t)
    ensures RunnersMatch(t)
  {
    if !Elapses(s, t) {
      var i, e, applied :| Acts(s, t, i, e, applied);
    }
  }

  lemma {:induction false} RunnersAlwaysMatch(run: seq<State>, n: nat)
    requires IsRun(run) && n < |run|
    ensures RunnersMatch(run[n])
  {
    if n > 0 {
      RunnersAlwaysMatch(run, n - 1);
      assert Step(run[n - 1], run[n]);
      RunnersMatchStep(run[n - 1], run[n]);
    }
  }

  /** A step makes two runners active iff it starts one while another node is leaving. */
  lemma OverlapIff(s: State, t: State, i: int, e: Event, applied: bool)
    requires Inv(s) && RunnersMatch(s) && AtMostOneRunner(s) && Acts(s, t, i, e, applied)
    ensures !AtMostOneRunner(t) <==>
      e == StartRunner(true) && exists j :: 0 <= j < |s.nodes| && j != i && Leaving(s.nodes[j].pc)
  {
    assert forall j :: 0 <= j < |s.nodes| && j != i ==> t.nodes[j] == s.nodes[j];
    if e == StartRunner(true) {
      assert t.nodes[i].running;
      forall j | 0 <= j < |s.nodes| && j != i
        ensures t.nodes[j].running <==> Leaving(s.nodes[j].pc)
      {
        assert !Exposed(s.nodes[j].pc);
      }
    } else {
      assert t.nodes[i].running ==> s.nodes[i].running;
    }
  }

  /**
   * On every run on which the leases are kept, of two active runners one belongs to a node
   * that has given up the lock and is about to shut it down.
   */
  lemma OverlapIsLeaving(run: seq<State>, i: int, j: int)
    requires IsRun(run) && forall k :: 0 <= k < |run| - 1 ==> Timely(run[k])
    requires var s := run[|run| - 1];
      0 <= i < |s.nodes| && 0 <= j < |s.nodes| && i != j && s.nodes[i].running && s.nodes[j].running
    ensures var s := run[|run| - 1]; Leaving(s.nodes[i].pc) || Leaving(s.nodes[j].pc)
  {
    MutualExclusion(run);
    RunnersAlwaysMatch(run, |run| - 1);
  }

  // ─── When the key is orphaned ───────────────────────────────────────────────

  /** The key has no expiry and no node is going to write or delete it. */
  predicate Orphaned(s: State) {
    s.key.Some? && s.key.value.expiry.None? && forall i :: 0 <= i < |s.nodes| ==> !Exposed(s.nodes[i].pc)
  }

  lemma OrphanedStep(s: State, t: State)
    requires Orphaned(s) && Step(s, t)
    ensures Orphaned(t)
  {
    if !Elapses(s, t) {
      var i, e, applied :| Acts(s, t, i, e, applied);
    }
  }

  /** An orphaned key is never removed: whatever happens later, no node ever holds the lock again. */
  lemma {:induction false} OrphanedForever(run: seq<State>, k: nat, l: nat)
    requires IsRun(run) && k <= l < |run| && Orphaned(run[k])
    ensures Orphaned(run[l]) && forall i :: 0 <= i < |run[l].nodes| ==> !HoldsLock(run[l].nodes[i].pc)
    decreases l
  {
    if k < l {
      OrphanedForever(run, k, l - 1);
      assert Step(run[l - 1], run[l]);
      OrphanedStep(run[l - 1], run[l]);
    }
  }

  /** Past its SETEX, a node that may still write the key has put an expiry on it. */
  predicate HasLease(s: State) {
    forall i :: 0 <= i < |s.nodes| && Exposed(s.nodes[i].pc) && s.nodes[i].deadline.None? ==>
      s.nodes[i].pc == Won || s.nodes[i].pc == Undo
  }

  lemma HasLeaseStep(s: State, t: State)
    requires HasLease(s) && Step(s, t)
    ensures HasLease(t)
  {
    if !Elapses(s, t) {
      var i, e, applied :| Acts(s, t, i, e, applied);
    }
  }

  lemma {:induction false} AlwaysHasLease(run: seq<State>, n: nat)
    requires IsRun(run) && n < |run|
    ensures HasLease(run[n])
  {
    if n > 0 {
      AlwaysHasLease(run, n - 1);
      assert Step(run[n - 1], run[n]);
      HasLeaseStep(run[n - 1], run[n]);
    }
  }

  /**
   * The three ways to leave a key without an expiry behind, no other node being about to write
   * it: a SETNX was applied but its reply lost; a node crashed before its SETEX was applied;
   * that SETEX failed and the DEL that should undo the SETNX was not applied.
   */
  predicate Orphans(s: State, i: int, e: Event, applied: bool) {
    && 0 <= i < |s.nodes|
    && (forall j :: 0 <= j < |s.nodes| && j != i ==> !Exposed(s.nodes[j].pc))
    && var n := s.nodes[i];
    || (e.SetNX? && !e.ok && applied && Live(s).None?)
    || ((n.pc == Won || n.pc == Undo) && n.deadline.None? && (e.Crash? || (e.Del? && !applied)))
  }

  lemma ExposedOrphans(s: State, i: int, e: Event, applied: bool)
    requires 0 <= i < |s.nodes| && Local(s.nodes[i].pc, e).Some?
    requires Inv(s) && HasLease(s) && Exposed(s.nodes[i].pc) && (CanFail(e) && e.ok ==> applied)
    ensures var t := After(s, i, e, applied);
      t.key.Some? && t.key.value.expiry.None? && !Exposed(t.nodes[i].pc) <==>
      (s.nodes[i].pc == Won || s.nodes[i].pc == Undo) && s.nodes[i].deadline.None? && (e.Crash? || (e.Del? && !applied))
  {
    assert s.key == Some(Entry(s.nodes[i].host, s.nodes[i].deadline));
  }

  lemma UnexposedOrphans(s: State, i: int, e: Event, applied: bool)
    requires 0 <= i < |s.nodes| && Local(s.nodes[i].pc, e).Some? && Truthful(s, s.nodes[i].host, e)
    requires !Exposed(s.nodes[i].pc) && (CanFail(e) && e.ok ==> applied)
    requires s.key.Some? ==> s.key.value.expiry.Some?
    ensures var t := After(s, i, e, applied);
      t.key.Some? && t.key.value.expiry.None? && !Exposed(t.nodes[i].pc) <==>
      e.SetNX? && !e.ok && applied && Live(s).None?
  {
  }

  lemma OthersExposed(s: State, t: State, i: int)
    requires 0 <= i < |s.nodes| == |t.nodes| && forall j :: 0 <= j < |s.nodes| && j != i ==> t.nodes[j] == s.nodes[j]
    ensures Orphaned(t) <==>
      && t.key.Some? && t.key.value.expiry.None? && !Exposed(t.nodes[i].pc)
      && forall j :: 0 <= j < |s.nodes| && j != i ==> !Exposed(s.nodes[j].pc)
  {
    hide Exposed;
  }

  /** A step orphans the key exactly in one of these three ways. */
  lemma OrphansIff(s: State, t: State, i: int, e: Event, applied: bool)
    requires Inv(s) && HasLease(s) && !Orphaned(s) && Acts(s, t, i, e, applied)
    ensures Orphaned(t) <==> Orphans(s, i, e, applied)
  {
    OthersExposed(s, t, i);
    OthersExposed(s, s, i);
    if Exposed(s.nodes[i].pc) {
      ExposedOrphans(s, i, e, applied);
    } else {
      if s.key.Some? && s.key.value.expiry.None? {
        assert exists j :: 0 <= j < |s.nodes| && j != i && Exposed(s.nodes[j].pc);
      } else {
        UnexposedOrphans(s, i, e, applied);
      }
    }
  }

  ghost predicate OrphaningStep(s: State, t: State) {
    exists i, e, applied :: Acts(s, t, i, e, applied) && Orphans(s, i, e, applied)
  }

  lemma OrphaningStepIff(s: State, t: State)
    requires Inv(s) && HasLease(s) && !Orphaned(s) && Step(s, t)
    ensures Orphaned(t) <==> OrphaningStep(s, t)
  {
    forall i, e, applied | Acts(s, t, i, e, applied)
      ensures Orphaned(t) <==> Orphans(s, i, e, applied)
    {
      OrphansIff(s, t, i, e, applied);
    }
    assert Elapses(s, t) ==> !Orphaned(t);
  }

  /** One of the first `n` steps of the run orphaned the key. */
  ghost predicate WasOrphaned(run: seq<State>, n: nat)
    requires n < |run|
  {
    exists k, l :: 0 <= k && l == k + 1 <= n && OrphaningStep(run[k], run[l])
  }

  lemma WasOrphanedStep(run: seq<State>, n: nat)
    requires 0 < n < |run|
    ensures WasOrphaned(run, n) <==> WasOrphaned(run, n - 1) || OrphaningStep(run[n - 1], run[n])
  {
    hide OrphaningStep;
  }

  lemma {:induction false} OrphanedUpTo(run: seq<State>, n: nat)
    requires IsRun(run) && n < |run| && forall k :: 0 <= k < n ==> Inv(run[k])
    ensures Orphaned(run[n]) <==> WasOrphaned(run, n)
  {
    if n > 0 {
      OrphanedUpTo(run, n - 1);
      WasOrphanedStep(run, n);
      AlwaysHasLease(run, n - 1);
      assert Step(run[n - 1], run[n]);
      hide *;
      if Orphaned(run[n - 1]) {
        OrphanedStep(run[n - 1], run[n]);
      } else {
        OrphaningStepIff(run[n - 1], run[n]);
      }
    }
  }

  /** On every run on which the leases are kept, the key is orphaned iff some step orphaned it. */
  lemma OrphanedIff(run: seq<State>)
    requires IsRun(run) && forall k :: 0 <= k < |run| - 1 ==> Timely(run[k])
    ensures Orphaned(run[|run| - 1]) <==> WasOrphaned(run, |run| - 1)
  {
    TimelyKeepsInv(run, |run| - 1);
    OrphanedUpTo(run, |run| - 1);
  }

  // ─── Runs that get there ────────────────────────────────────────────────────

  function At(now: int, key: Option<Entry>, a: Pc, ad: Option<int>, ar: bool, b: Pc, bd: Option<int>, br: bool): State {
    State(now, key, [Node("a", a, ad, ar), Node("b", b, bd, br)])
  }

  /** A run and a step of one of its nodes make a longer run. */
  lemma Then(run: seq<State>, t: State, i: int, e: Event, applied: bool) returns (longer: seq<State>)
    requires IsRun(run) && Acts(run[|run| - 1], t, i, e, applied)
    ensures IsRun(longer) && longer[|longer| - 1] == t && longer == run + [t]
  {
    hide Acts;
    longer := run + [t];
    assert Step(run[|run| - 1], t);
  }

  lemma Wait(run: seq<State>, t: State) returns (longer: seq<State>)
    requires IsRun(run) && Elapses(run[|run| - 1], t)
    ensures IsRun(longer) && longer[|longer| - 1] == t && longer == run + [t]
  {
    longer := run + [t];
    assert Step(run[|run| - 1], t);
  }

  /** A start that outlives the lease: two nodes hold the lock. */
  lemma OverrunBreaksExclusion() returns (run: seq<State>)
    ensures IsRun(run) && !AtMostOneHolder(run[|run| - 1])
  {
    var s0 := At(0, None, Idle, None, false, Idle, None, false);
    assert IsRun([s0]);
    hide IsRun;
    run := Then([s0], At(0, Some(Entry("a", None)), Won, None, false, Idle, None, false), 0, SetNX(true, true), true);
    var d := Some(15);
    run := Then(run, At(0, Some(Entry("a", d)), Starting, d, false, Idle, None, false), 0, SetEx(true), true);
    run := Wait(run, At(15, Some(Entry("a", d)), Starting, d, false, Idle, None, false));
    var last := At(15, Some(Entry("b", None)), Starting, d, false, Won, None, false);
    run := Then(run, last, 1, SetNX(true, true), true);
    assert HoldsLock(last.nodes[0].pc) && HoldsLock(last.nodes[1].pc);
  }

  ghost predicate IsTimelyRun(run: seq<State>) {
    IsRun(run) && forall k :: 0 <= k < |run| ==> Timely(run[k])
  }

  lemma ThenTimely(run: seq<State>, t: State, i: int, e: Event) returns (longer: seq<State>)
    requires IsTimelyRun(run) && Acts(run[|run| - 1], t, i, e, true) && Timely(t)
    ensures IsTimelyRun(longer) && longer[|longer| - 1] == t
  {
    longer := Then(run, t, i, e, true);
  }

  lemma WaitTimely(run: seq<State>, t: State) returns (longer: seq<State>)
    requires IsTimelyRun(run) && Elapses(run[|run| - 1], t) && Timely(t)
    ensures IsTimelyRun(longer) && longer[|longer| - 1] == t
  {
    longer := Wait(run, t);
  }

  lemma HoldLock() returns (run: seq<State>)
    ensures IsTimelyRun(run)
    ensures run[|run| - 1] == At(0, Some(Entry("a", Some(15))), Holding, Some(15), true, Idle, None, false)
  {
    var d := Some(15);
    var s0 := At(0, None, Idle, None, false, Idle, None, false);
    assert IsTimelyRun([s0]);
    hide IsTimelyRun, IsRun;
    run := ThenTimely([s0], At(0, Some(Entry("a", None)), Won, None, false, Idle, None, false), 0, SetNX(true, true));
    run := ThenTimely(run, At(0, Some(Entry("a", d)), Starting, d, false, Idle, None, false), 0, SetEx(true));
    run := ThenTimely(run, At(0, Some(Entry("a", d)), Holding, d, true, Idle, None, false), 0, StartRunner(true));
  }

  lemma HoldAndRelease() returns (run: seq<State>)
    ensures IsTimelyRun(run) && run[|run| - 1] == At(0, None, Ending, Some(15), true, Idle, None, false)
  {
    var d := Some(15);
    run := HoldLock();
    hide IsTimelyRun, IsRun;
    run := ThenTimely(run, At(0, Some(Entry("a", d)), Releasing, d, true, Idle, None, false), 0, Stop);
    run := ThenTimely(run, At(0, Some(Entry("a", d)), Deleting, d, true, Idle, None, false), 0, Get(true, true));
    run := ThenTimely(run, At(0, None, Ending, d, true, Idle, None, false), 0, Del(true));
  }

  /**
   * The lock does not exclude runners: `release` deletes the key before `runner.Shutdown`,
   * so even with every lease kept two runners can be active.
   */
  lemma RunnersOverlap() returns (run: seq<State>)
    ensures IsTimelyRun(run)
    ensures var last := run[|run| - 1]; |last.nodes| == 2 && last.nodes[0].running && last.nodes[1].running
  {
    var d := Some(15);
    run := HoldAndRelease();
    hide IsTimelyRun, IsRun;
    run := ThenTimely(run, At(0, Some(Entry("b", None)), Ending, d, true, Won, None, false), 1, SetNX(true, true));
    run := ThenTimely(run, At(0, Some(Entry("b", d)), Ending, d, true, Starting, d, false), 1, SetEx(true));
    run := ThenTimely(run, At(0, Some(Entry("b", d)), Ending, d, true, Holding, d, true), 1, StartRunner(true));
  }

  /**
   * So does `keepAlive`: a GET that errs makes the node leave while its key is still there, and
   * when the key has run out another node starts before the first has shut down.
   */
  lemma LostRunnersOverlap() returns (run: seq<State>)
    ensures IsTimelyRun(run)
    ensures var last := run[|run| - 1];
      |last.nodes| == 2 && last.nodes[0].pc == Lost && last.nodes[0].running && last.nodes[1].running
  {
    var d, f := Some(15), Some(30);
    run := HoldLock();
    hide IsTimelyRun, IsRun;
    run := ThenTimely(run, At(0, Some(Entry("a", d)), Lost, d, true, Idle, None, false), 0, Get(false, true));
    run := WaitTimely(run, At(15, Some(Entry("a", d)), Lost, d, true, Idle, None, false));
    run := ThenTimely(run, At(15, Some(Entry("b", None)), Lost, d, true, Won, None, false), 1, SetNX(true, true));
    run := ThenTimely(run, At(15, Some(Entry("b", f)), Lost, d, true, Starting, f, false), 1, SetEx(true));
    run := ThenTimely(run, At(15, Some(Entry("b", f)), Lost, d, true, Holding, f, true), 1, StartRunner(true));
  }

  /**
   * A lost reply orphans the key: SETNX was applied, its caller saw an error and returned,
   * and the expiry that is a second call was never set.
   */
  lemma LostReplyOrphans() returns (run: seq<State>)
    ensures IsRun(run) && |run| == 2 && Orphaned(run[1])
  {
    var s0 := At(0, None, Idle, None, false, Idle, None, false);
    assert IsRun([s0]);
    hide IsRun;
    run := Then([s0], At(0, Some(Entry("a", None)), Idle, None, false, Idle, None, false), 0, SetNX(false, true), true);
  }

  /** So does a crash between SETNX and SETEX. */
  lemma CrashOrphans() returns (run: seq<State>)
    ensures IsTimelyRun(run) && Orphaned(run[|run| - 1])
  {
    var s0 := At(0, None, Idle, None, false, Idle, None, false);
    assert IsTimelyRun([s0]);
    hide IsTimelyRun, IsRun;
    run := ThenTimely([s0], At(0, Some(Entry("a", None)), Won, None, false, Idle, None, false), 0, SetNX(true, true));
    run := ThenTimely(run, At(0, Some(Entry("a", None)), Idle, None, false, Idle, None, false), 0, Crash);
  }

  /** So does a failed SETEX whose DEL is not applied either. */
  lemma LostDeleteOrphans() returns (run: seq<State>)
    ensures IsRun(run) && Orphaned(run[|run| - 1])
  {
    var s0 := At(0, None, Idle, None, false, Idle, None, false);
    assert IsRun([s0]);
    hide IsRun;
    run := Then([s0], At(0, Some(Entry("a", None)), Won, None, false, Idle, None, false), 0, SetNX(true, true), true);
    run := Then(run, At(0, Some(Entry("a", None)), Undo, None, false, Idle, None, false), 0, SetEx(false), false);
    run := Then(run, At(0, Some(Entry("a", None)), Idle, None, false, Idle, None, false), 0, Del(false), false);
  }

  // ─── Recovery: atomic ticks, arbitrary pauses ───────────────────────────────

  /** Between ticks, where a pause or another node may come in. */
  predicate Resting(pc: Pc) { pc == Idle || pc == Holding || pc == Stopped }

  predicate DistinctHosts(s: State) {
    forall i, j :: 0 <= i < |s.nodes| && 0 <= j < |s.nodes| && s.nodes[i].host == s.nodes[j].host ==> i == j
  }

  predicate OthersAtRest(s: State, i: int) {
    forall j :: 0 <= j < |s.nodes| && j != i ==> Resting(s.nodes[j].pc)
  }

  /** Nothing happens while another node is inside its tick, and no time passes. */
  ghost predicate AtomicStep(s: State, t: State) {
    || (Elapses(s, t) && forall j :: 0 <= j < |s.nodes| ==> Resting(s.nodes[j].pc))
    || exists i, e, applied :: Acts(s, t, i, e, applied) && OthersAtRest(s, i)
  }

  ghost predicate IsAtomicRun(run: seq<State>) {
    && run != []
    && Init(run[0]) && DistinctHosts(run[0])
    && forall k, l :: 0 <= k && l == k + 1 < |run| ==> AtomicStep(run[k], run[l])
  }

  /** About to write: the next Redis call of this node is a SETEX or a DEL. */
  predicate AboutToWrite(pc: Pc) {
    pc == Won || pc == Undo || pc == UndoStart || pc == Renewing || pc == Deleting
  }

  /** A node about to write, or starting its runner, is the one the live key names. */
  predicate WritersOwn(s: State) {
    && DistinctHosts(s)
    && (forall i :: 0 <= i < |s.nodes| && (AboutToWrite(s.nodes[i].pc) || s.nodes[i].pc == Starting) ==>
          Live(s) == Some(s.nodes[i].host))
    && (forall i, j :: 0 <= i < |s.nodes| && 0 <= j < |s.nodes| ==>
          (!Resting(s.nodes[i].pc) && !Resting(s.nodes[j].pc) ==> i == j))
  }

  lemma WritersOwnStep(s: State, t: State)
    requires WritersOwn(s) && AtomicStep(s, t)
    ensures WritersOwn(t)
  {
    if Elapses(s, t) && forall j :: 0 <= j < |s.nodes| ==> Resting(s.nodes[j].pc) {
      hide Live;
    } else {
      var i, e, applied :| Acts(s, t, i, e, applied) && OthersAtRest(s, i);
      ActorOwns(s, t, i, e, applied);
      hide *;
      OthersRest(s, t, i);
    }
  }

  lemma OthersRest(s: State, t: State, i: int)
    requires DistinctHosts(s) && 0 <= i < |s.nodes| == |t.nodes| && t.nodes[i].host == s.nodes[i].host
    requires OthersAtRest(s, i) && forall j :: 0 <= j < |s.nodes| && j != i ==> t.nodes[j] == s.nodes[j]
    requires AboutToWrite(t.nodes[i].pc) || t.nodes[i].pc == Starting ==> Live(t) == Some(t.nodes[i].host)
    ensures WritersOwn(t)
  {
    hide Live;
  }

  lemma ActorOwns(s: State, t: State, i: int, e: Event, applied: bool)
    requires WritersOwn(s) && Acts(s, t, i, e, applied)
    ensures DistinctHosts(s) && 0 <= i < |s.nodes| == |t.nodes| && t.nodes[i].host == s.nodes[i].host
    ensures forall j :: 0 <= j < |s.nodes| && j != i ==> t.nodes[j] == s.nodes[j]
    ensures AboutToWrite(t.nodes[i].pc) || t.nodes[i].pc == Starting ==> Live(t) == Some(t.nodes[i].host)
  {
  }

  lemma {:induction false} AtomicRunsOwn(run: seq<State>)
    requires IsAtomicRun(run)
    ensures WritersOwn(run[|run| - 1])
    decreases |run|
  {
    var n := |run| - 1;
    if n > 0 {
      var before := run[..n];
      assert forall k :: 0 <= k < |before| ==> before[k] == run[k];
      AtomicRunsOwn(before);
      assert AtomicStep(run[n - 1], run[n]);
      WritersOwnStep(run[n - 1], run[n]);
    }
  }

  /**
   * With atomic ticks and distinct hosts, however long nodes pause: no node changes a live
   * key that names another, so a stale holder cannot steal the lock back.
   */
  lemma NoTheft(run: seq<State>, t: State, i: int, e: Event, applied: bool)
    requires IsAtomicRun(run)
    requires var s := run[|run| - 1]; Acts(s, t, i, e, applied) && Live(s).Some? && Live(s) != Some(s.nodes[i].host)
    ensures t.key == run[|run| - 1].key
  {
    AtomicRunsOwn(run);
  }

  /** A step that changes a live key naming another host than the acting node's. */
  ghost predicate Theft(s: State, t: State) {
    exists i, e, applied :: Acts(s, t, i, e, applied) && IsTheft(s, t, i)
  }

  predicate IsTheft(s: State, t: State, i: int) {
    0 <= i < |s.nodes| && Live(s).Some? && Live(s) != Some(s.nodes[i].host) && t.key != s.key
  }

  lemma InvHasNoTheft(s: State, t: State)
    requires Inv(s)
    ensures !Theft(s, t)
  {
    forall i, e, applied | Acts(s, t, i, e, applied)
      ensures !IsTheft(s, t, i)
    {
      if Exposed(s.nodes[i].pc) {
        assert s.key == Some(Entry(s.nodes[i].host, s.nodes[i].deadline));
      } else {
        ActorWins(s, t, i, e, applied);
      }
    }
  }

  /** On every run on which the leases are kept no step changes a live key that names another. */
  lemma NoTheftWhileLeased(run: seq<State>, t: State)
    requires IsRun(run) && forall k :: 0 <= k < |run| - 1 ==> Timely(run[k])
    ensures !Theft(run[|run| - 1], t)
  {
    MutualExclusion(run);
    InvHasNoTheft(run[|run| - 1], t);
  }

  /** On any run at all a theft goes back to a moment at which a lease had been outlived. */
  lemma TheftWasLate(run: seq<State>, t: State) returns (k: nat, i: int, j: int)
    requires IsRun(run) && Theft(run[|run| - 1], t)
    ensures k < |run| - 1 && Inv(run[k])
    ensures Expired(run[k], i) && Exposed(run[k].nodes[i].pc) && Rival(run[k], i, j)
  {
    if Inv(run[|run| - 1]) {
      InvHasNoTheft(run[|run| - 1], t);
    }
    k, i, j := BrokenRunWasLate(run, |run| - 1);
  }

  /** A node paused before a SETEX or a DEL until its lease was over, and another host waits. */
  ghost predicate TheftLooms(s: State) {
    exists i, j :: Expired(s, i) && Rival(s, i, j) && AboutToWrite(s.nodes[i].pc) && s.nodes[i].host != s.nodes[j].host
  }

  lemma LoomingTheft(s: State, i: int, j: int) returns (t: State, u: State)
    requires Inv(s) && Expired(s, i) && Rival(s, i, j) && AboutToWrite(s.nodes[i].pc)
    requires s.nodes[i].host != s.nodes[j].host
    ensures Step(s, t) && Theft(t, u)
  {
    assert Exposed(s.nodes[i].pc) && s.key == Some(Entry(s.nodes[i].host, s.nodes[i].deadline));
    t := After(s, j, SetNX(true, true), true);
    assert Acts(s, t, j, SetNX(true, true), true);
    assert Live(t) == Some(s.nodes[j].host) && t.nodes[i] == s.nodes[i];
    var e := if s.nodes[i].pc == Won || s.nodes[i].pc == Renewing then SetEx(true) else Del(true);
    u := After(t, i, e, true);
    assert Acts(t, u, i, e, true) && IsTheft(t, u, i);
  }

  lemma TheftLoomed(s: State, t: State, u: State)
    requires Inv(s) && Step(s, t) && Theft(t, u)
    ensures TheftLooms(s)
  {
    if Inv(t) { InvHasNoTheft(t, u); }
    assert !Elapses(s, t);
    var j, e, applied :| Acts(s, t, j, e, applied);
    var k := BrokenBy(s, t, j, e, applied);
    var i, f, b :| Acts(t, u, i, f, b) && IsTheft(t, u, i);
    ThiefWrites(t, u, i, f, b);
    ActorInv(s, t, j, e, applied);
    WonByRival(s, t, j, e, applied);
    assert i != j && t.nodes[i] == s.nodes[i] && Exposed(s.nodes[i].pc);
    OutlivedKey(s, i);
    assert Expired(s, i) && Rival(s, i, j) && AboutToWrite(s.nodes[i].pc);
  }

  lemma ThiefWrites(s: State, t: State, i: int, e: Event, applied: bool)
    requires Acts(s, t, i, e, applied) && IsTheft(s, t, i)
    ensures AboutToWrite(s.nodes[i].pc)
  {
  }

  /** When a step breaks the invariant, the key names the node that took it. */
  lemma WonByRival(s: State, t: State, j: int, e: Event, applied: bool)
    requires Inv(s) && Acts(s, t, j, e, applied) && !Inv(t)
    ensures Live(s).None? && Live(t) == Some(s.nodes[j].host) && t.nodes[j].host == s.nodes[j].host
  {
    var i := BrokenBy(s, t, j, e, applied);
    assert s.key == Some(Entry(s.nodes[i].host, s.nodes[i].deadline));
    assert t.key == s.key && !Exposed(t.nodes[j].pc) ==> Inv(t);
  }

  /**
   * At the end of a run on which the leases were kept, a theft can follow the next step exactly
   * when a node about to write has just outlived its lease and another host waits for the lock.
   */
  lemma TheftFollowsIff(run: seq<State>)
    requires IsRun(run) && forall k :: 0 <= k < |run| - 1 ==> Timely(run[k])
    ensures (exists t, u :: IsRun(run + [t]) && Theft(t, u)) <==> TheftLooms(run[|run| - 1])
  {
    var s := run[|run| - 1];
    MutualExclusion(run);
    if TheftLooms(s) {
      var i, j :| Expired(s, i) && Rival(s, i, j) && AboutToWrite(s.nodes[i].pc) && s.nodes[i].host != s.nodes[j].host;
      var t, u := LoomingTheft(s, i, j);
      RunAndStep(run, t);
    }
    forall t, u | IsRun(run + [t]) && Theft(t, u)
      ensures TheftLooms(s)
    {
      RunAndStep(run, t);
      TheftLoomed(s, t, u);
    }
  }

  /** In whatever state, what a thief needs is that its next call is a SETEX or a DEL. */
  lemma TheftIff(s: State, i: int)
    requires 0 <= i < |s.nodes| && Live(s).Some? && Live(s) != Some(s.nodes[i].host)
    ensures (exists t, e, applied :: Acts(s, t, i, e, applied) && t.key != s.key) <==> AboutToWrite(s.nodes[i].pc)
  {
    var pc := s.nodes[i].pc;
    if AboutToWrite(pc) {
      var e := if pc == Won || pc == Renewing then SetEx(true) else Del(true);
      var t := After(s, i, e, true);
      assert Acts(s, t, i, e, true) && t.key != s.key;
    }
  }

  /**
   * Without atomic ticks this happens: `keepAlive` pauses between its GET and its SETEX until
   * the lease is over, another node wins the lock, and the SETEX takes it back.
   */
  lemma PausedRenewalSteals() returns (run: seq<State>, t: State)
    ensures IsRun(run) && IsRun(run + [t])
    ensures Live(run[|run| - 1]) == Some("b") && Live(t) == Some("a")
    ensures Acts(run[|run| - 1], t, 0, SetEx(true), true)
  {
    var d, f := Some(15), Some(30);
    run := HoldLock();
    assert IsRun(run);
    hide IsRun;
    run := Wait(run, At(14, Some(Entry("a", d)), Holding, d, true, Idle, None, false));
    run := Then(run, At(14, Some(Entry("a", d)), Renewing, d, true, Idle, None, false), 0, Get(true, true), true);
    run := Wait(run, At(15, Some(Entry("a", d)), Renewing, d, true, Idle, None, false));
    run := Then(run, At(15, Some(Entry("b", None)), Renewing, d, true, Won, None, false), 1, SetNX(true, true), true);
    run := Then(run, At(15, Some(Entry("b", f)), Renewing, d, true, Starting, f, false), 1, SetEx(true), true);
    t := At(15, Some(Entry("a", f)), Holding, f, true, Starting, f, false);
    var longer := Then(run, t, 0, SetEx(true), true);
  }

  /** A holder the live key does not name. */
  predicate Stale(s: State, i: int) {
    0 <= i < |s.nodes| && s.nodes[i].pc == Holding && Live(s) != Some(s.nodes[i].host)
  }

  lemma StaleStep(s: State, t: State, i: int)
    requires DistinctHosts(s) && Stale(s, i) && Step(s, t)
    ensures DistinctHosts(t) && |t.nodes| == |s.nodes|
    ensures t.nodes[i].pc == Holding ==> Stale(t, i)
    ensures t.nodes[i].pc == Holding || t.nodes[i].pc == Lost || t.nodes[i].pc == Releasing || t.nodes[i].pc == Idle
  {
    if !Elapses(s, t) {
      var j, e, applied :| Acts(s, t, j, e, applied);
    }
  }

  lemma {:induction false} HostsStay(run: seq<State>, k: nat)
    requires IsRun(run) && DistinctHosts(run[0]) && k < |run|
    ensures DistinctHosts(run[k]) && |run[k].nodes| == |run[0].nodes|
  {
    if k > 0 {
      HostsStay(run, k - 1);
      assert Step(run[k - 1], run[k]);
    }
  }

  /**
   * A node that holds `acquired` while the key is gone or names another host steps down at its
   * next tick. Ticks need not be atomic and pauses may be arbitrary: once stale it stays
   * stale, so its first action after that is never a renewal, and the GET of its next tick
   * sends it, whatever the reply, to shut its runner down.
   */
  lemma {:induction false} StaleHolderStepsDown(run: seq<State>, i: int, k: nat, l: nat)
    requires IsRun(run) && DistinctHosts(run[0]) && k <= l < |run|
    requires Stale(run[k], i)
    requires forall m :: k <= m <= l ==> i < |run[m].nodes| && run[m].nodes[i].pc == Holding
    ensures Stale(run[l], i)
    ensures forall t, own, ok, applied :: Acts(run[l], t, i, Get(ok, own), applied) ==>
      && t.nodes[i].pc == Lost && t.key == run[l].key
      && forall u, f, b :: Acts(t, u, i, f, b) ==> u.nodes[i].pc == Idle && !u.nodes[i].running
    decreases l
  {
    if k < l {
      StaleHolderStepsDown(run, i, k, l - 1);
      HostsStay(run, l - 1);
      assert Step(run[l - 1], run[l]);
      StaleStep(run[l - 1], run[l], i);
    }
  }

  /** On any run with distinct hosts, however many nodes hold `acquired`, all but one are stale. */
  lemma OneRightfulHolder(run: seq<State>, i: int, j: int)
    requires IsRun(run) && DistinctHosts(run[0])
    requires var s := run[|run| - 1];
      && 0 <= i < |s.nodes| && s.nodes[i].pc == Holding && !Stale(s, i)
      && 0 <= j < |s.nodes| && s.nodes[j].pc == Holding && !Stale(s, j)
    ensures i == j
  {
    HostsStay(run, |run| - 1);
  }

  // ─── One manager over its whole life ────────────────────────────────────────

  function Replay(pc: Pc, trace: seq<Event>): Option<Pc>
    decreases |trace|
  {
    if trace == [] then Some(pc)
    else
      var n := |trace| - 1;
      var before := Replay(pc, trace[..n]);
      if before.None? then None else Local(before.value, trace[n])
  }

  /** The effective runner calls of a trace: `true` for a Start that succeeded, `false` for a Shutdown. */
  function RunnerCalls(trace: seq<Event>): seq<bool> {
    if trace == [] then []
    else
      var n := |trace| - 1;
      RunnerCalls(trace[..n]) +
        match trace[n]
        case StartRunner(ok) => if ok then [true] else []
        case StopRunner => [false]
        case _ => []
  }

  predicate Alternates(calls: seq<bool>) {
    forall k :: 0 <= k < |calls| ==> calls[k] == (k % 2 == 0)
  }

  predicate NoCrash(trace: seq<Event>) { Crash !in trace }

  /**
   * On every life of a manager, successful Starts and Shutdowns of its runner strictly
   * alternate beginning with a Start, a Start is never issued to an active runner nor a
   * Shutdown to an idle one, and nothing runs once Stop has returned.
   */
  lemma {:induction false} StartsAndShutdownsAlternate(trace: seq<Event>)
    requires NoCrash(trace) && Replay(Idle, trace).Some?
    ensures Alternates(RunnerCalls(trace))
    ensures RunnerActive(Replay(Idle, trace).value) <==> |RunnerCalls(trace)| % 2 == 1
    ensures Replay(Idle, trace) == Some(Stopped) ==> |RunnerCalls(trace)| % 2 == 0
    decreases |trace|
  {
    if trace != [] {
      StartsAndShutdownsAlternate(trace[..|trace| - 1]);
    }
  }
}
