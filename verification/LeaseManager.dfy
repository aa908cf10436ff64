/** `_SingleInstanceManager` of app/worker/service.go, call by call. */
module LeaseManager {
  import opened Wrappers
  import opened LeaseProtocol

  /**
   * The Redis client and the runner as seen by one manager: every answer is chosen by the
   * environment, and every call is recorded.
   */
  class Environment {
    const answers: nat -> bool
    const values: nat -> bool
    var calls: nat
    ghost var trace: seq<Event>

    constructor (answers: nat -> bool, values: nat -> bool)
      ensures this.answers == answers && this.values == values && calls == 0 && trace == []
    {
      this.answers := answers;
      this.values := values;
      calls := 0;
      trace := [];
    }

    method CallSetNX() returns (ok: bool, won: bool)
      modifies this
      ensures trace == old(trace) + [SetNX(ok, won)]
    {
      ok, won := answers(calls), values(calls);
      calls := calls + 1;
      trace := trace + [SetNX(ok, won)];
    }

    method CallSetExpire() returns (ok: bool)
      modifies this
      ensures trace == old(trace) + [SetEx(ok)]
    {
      ok := answers(calls);
      calls := calls + 1;
      trace := trace + [SetEx(ok)];
    }

    method CallGet() returns (ok: bool, own: bool)
      modifies this
      ensures trace == old(trace) + [Get(ok, own)]
    {
      ok, own := answers(calls), values(calls);
      calls := calls + 1;
      trace := trace + [Get(ok, own)];
    }

    method CallDelete() returns (ok: bool)
      modifies this
      ensures trace == old(trace) + [Del(ok)]
    {
      ok := answers(calls);
      calls := calls + 1;
      trace := trace + [Del(ok)];
    }

    method RunnerStart() returns (ok: bool)
      modifies this
      ensures trace == old(trace) + [StartRunner(ok)]
    {
      ok := answers(calls);
      calls := calls + 1;
      trace := trace + [StartRunner(ok)];
    }

    method RunnerShutdown()
      modifies this
      ensures trace == old(trace) + [StopRunner]
    {
      trace := trace + [StopRunner];
    }

    /** The context is cancelled and the manage loop has returned. */
    ghost method MarkStopped()
      modifies this`trace
      ensures trace == old(trace) + [Stop]
    {
      trace := trace + [Stop];
    }
  }

  /** The trace leaves its manager between ticks. */
  ghost predicate AtRest(trace: seq<Event>) {
    Replay(Idle, trace).Some? && Resting(Replay(Idle, trace).value)
  }

  /**
   * `after` continues `before` by `first` and what the protocol makes follow it, up to the
   * next rest and not beyond: given the answers, the protocol leaves no choice in between.
   */
  ghost predicate Tick(before: seq<Event>, after: seq<Event>, first: Event) {
    && |before| < |after| && after[..|before|] == before && after[|before|] == first
    && AtRest(after)
    && forall k :: |before| < k < |after| ==> !AtRest(after[..k])
  }

  /** `n` ticks in a row, each an attempt to win the lock or to keep it. */
  ghost predicate Ticks(before: seq<Event>, after: seq<Event>, n: nat)
    decreases n
  {
    if n == 0 then after == before
    else
      exists mid, first: Event ::
        (first.SetNX? || first.Get?) && Ticks(before, mid, n - 1) && Tick(mid, after, first)
  }

  /** A tick under way that began with `first` and has reached `pc`, without a rest so far. */
  ghost predicate Under(start: seq<Event>, trace: seq<Event>, first: Event, pc: Pc) {
    && |start| < |trace| && trace[..|start|] == start && trace[|start|] == first
    && (forall k :: |start| < k < |trace| ==> !AtRest(trace[..k]))
    && Replay(Idle, trace) == Some(pc) && NoCrash(trace)
  }

  lemma First(start: seq<Event>, from: Pc, first: Event, pc: Pc)
    requires Replay(Idle, start) == Some(from) && NoCrash(start)
    requires Local(from, first) == Some(pc) && first != Crash
    ensures Under(start, start + [first], first, pc)
  {
    assert (start + [first])[..|start|] == start;
  }

  lemma Later(start: seq<Event>, trace: seq<Event>, first: Event, from: Pc, e: Event, pc: Pc)
    requires Under(start, trace, first, from) && !Resting(from)
    requires Local(from, e) == Some(pc) && e != Crash
    ensures Under(start, trace + [e], first, pc)
  {
    var longer := trace + [e];
    assert longer[..|trace|] == trace;
    assert longer[..|start|] == trace[..|start|];
    assert forall k :: 0 <= k <= |trace| ==> longer[..k] == trace[..k];
  }

  lemma Over(start: seq<Event>, trace: seq<Event>, first: Event, pc: Pc)
    requires Under(start, trace, first, pc) && Resting(pc)
    ensures Tick(start, trace, first) && Replay(Idle, trace) == Some(pc) && NoCrash(trace)
  {
  }

  // ─── The calls of one tick, one by one ──────────────────────────────────────

  /** What an attempt to win the lock calls, and whether it leaves the manager acquired. */
  predicate Attempted(calls: seq<Event>, acquired: bool) {
    if acquired then calls == [SetNX(true, true), SetEx(true), StartRunner(true)]
    else
      || (|calls| == 1 && calls[0].SetNX? && calls[0] != SetNX(true, true))
      || (|calls| == 3 && calls[..2] == [SetNX(true, true), SetEx(false)] && calls[2].Del?)
      || (|calls| == 4 && calls[..3] == [SetNX(true, true), SetEx(true), StartRunner(false)] && calls[3].Del?)
  }

  /** What an attempt to keep the lock calls, and whether it leaves the manager acquired. */
  predicate Kept(calls: seq<Event>, acquired: bool) {
    if acquired then calls == [Get(true, true), SetEx(true)]
    else
      || (|calls| == 2 && calls[0].Get? && calls[0] != Get(true, true) && calls[1] == StopRunner)
      || calls == [Get(true, true), SetEx(false), StopRunner]
  }

  /** What Stop calls: nothing unless acquired; the key is deleted only when it names this host. */
  predicate Released(calls: seq<Event>, acquired: bool) {
    if !acquired then calls == [Stop]
    else
      || (|calls| == 3 && calls[0] == Stop && calls[1].Get? && calls[1] != Get(true, true) && calls[2] == StopRunner)
      || (|calls| == 4 && calls[..2] == [Stop, Get(true, true)] && calls[2].Del? && calls[3] == StopRunner)
  }

  /** `n` ticks: whoever holds the lock tries to keep it, whoever does not tries to win it. */
  ghost predicate Managed(before: seq<Event>, was: bool, after: seq<Event>, acquired: bool, n: nat)
    decreases n
  {
    if n == 0 then after == before && acquired == was
    else
      exists mid, held, calls ::
        && Managed(before, was, mid, held, n - 1) && after == mid + calls
        && Ticked(held, calls, acquired)
  }

  predicate Ticked(held: bool, calls: seq<Event>, acquired: bool) {
    if held then Kept(calls, acquired) else Attempted(calls, acquired)
  }

  lemma MoreTicks(before: seq<Event>, was: bool, mid: seq<Event>, held: bool, calls: seq<Event>, acquired: bool, n: nat)
    requires Managed(before, was, mid, held, n)
    requires Ticked(held, calls, acquired)
    ensures Managed(before, was, mid + calls, acquired, n + 1)
  {
    hide Ticked;
  }

  class Manager {
    const env: Environment
    var acquired: bool

    /** What the manager has done so far is a life of the protocol, and has left it at `pc`. */
    ghost predicate IsAt(pc: Pc)
      reads this, env
    {
      Replay(Idle, env.trace) == Some(pc) && NoCrash(env.trace)
    }

    /** Between ticks: acquired exactly when the protocol says so. */
    ghost predicate Valid()
      reads this, env
    {
      IsAt(if acquired then Holding else Idle)
    }

    constructor (env: Environment)
      requires env.trace == []
      ensures this.env == env && !acquired && Valid()
    {
      this.env := env;
      acquired := false;
    }

    method TryAcquire()
      requires Valid() && !acquired
      modifies this, env
      ensures Valid()
      ensures exists first: Event :: first.SetNX? && Tick(old(env.trace), env.trace, first)
      ensures exists calls :: env.trace == old(env.trace) + calls && Attempted(calls, acquired)
    {
      ghost var start := env.trace;
      assert Replay(Idle, start) == Some(Idle) && NoCrash(start);
      hide Replay, AtRest, Under, Tick, NoCrash;
      var ok, won := env.CallSetNX();
      ghost var first := SetNX(ok, won);
      ghost var pc := if ok && won then Won else Idle;
      First(start, Idle, first, pc);
      ghost var calls := [first];
      if ok && won {
        pc, calls := Acquire(start, first);
      }
      Over(start, env.trace, first, pc);
      assert env.trace == start + calls && Attempted(calls, acquired);
    }

    /** What follows winning SETNX. */
    method Acquire(ghost start: seq<Event>, ghost first: Event) returns (ghost pc: Pc, ghost calls: seq<Event>)
      requires Under(start, env.trace, first, Won) && !acquired
      requires first == SetNX(true, true) && env.trace == start + [first]
      modifies this, env
      ensures Under(start, env.trace, first, pc) && pc == if acquired then Holding else Idle
      ensures env.trace == start + calls && Attempted(calls, acquired)
    {
      hide Replay, AtRest, Under;
      ghost var t := env.trace;
      var expireOk := env.CallSetExpire();
      pc := if expireOk then Starting else Undo;
      Later(start, t, first, Won, SetEx(expireOk), pc);
      if !expireOk {
        t := env.trace;
        var deleted := env.CallDelete();
        Later(start, t, first, Undo, Del(deleted), Idle);
        return Idle, [first, SetEx(false), Del(deleted)];
      }
      acquired := true;
      t := env.trace;
      var started := env.RunnerStart();
      pc := if started then Holding else UndoStart;
      Later(start, t, first, Starting, StartRunner(started), pc);
      if !started {
        acquired := false;
        t := env.trace;
        var deleted := env.CallDelete();
        Later(start, t, first, UndoStart, Del(deleted), Idle);
        return Idle, [first, SetEx(true), StartRunner(false), Del(deleted)];
      }
      calls := [first, SetEx(true), StartRunner(true)];
    }

    method KeepAlive()
      requires Valid() && acquired
      modifies this, env
      ensures Valid()
      ensures exists first: Event :: first.Get? && Tick(old(env.trace), env.trace, first)
      ensures exists calls :: env.trace == old(env.trace) + calls && Kept(calls, acquired)
    {
      ghost var start := env.trace;
      assert Replay(Idle, start) == Some(Holding) && NoCrash(start);
      hide Replay, AtRest, Under, Tick, NoCrash;
      var ok, own := env.CallGet();
      ghost var first := Get(ok, own);
      First(start, Holding, first, if ok && own then Renewing else Lost);
      if !ok || !own {
        acquired := false;
        ghost var t := env.trace;
        env.RunnerShutdown();
        Later(start, t, first, Lost, StopRunner, Idle);
        Over(start, env.trace, first, Idle);
        assert env.trace == start + [first, StopRunner] && Kept([first, StopRunner], acquired);
        return;
      }
      ghost var t := env.trace;
      var renewed := env.CallSetExpire();
      Later(start, t, first, Renewing, SetEx(renewed), if renewed then Holding else Lost);
      if !renewed {
        acquired := false;
        t := env.trace;
        env.RunnerShutdown();
        Later(start, t, first, Lost, StopRunner, Idle);
      }
      Over(start, env.trace, first, if renewed then Holding else Idle);
      ghost var calls := [first, SetEx(renewed)] + if renewed then [] else [StopRunner];
      assert env.trace == start + calls && Kept(calls, acquired);
    }

    /** The manage goroutine: one attempt, then a tick at a time until the context is cancelled. */
    method Manage(ticks: nat)
      requires Valid() && !acquired
      modifies this, env
      ensures Valid()
      ensures Ticks(old(env.trace), env.trace, ticks + 1)
      ensures Managed(old(env.trace), false, env.trace, acquired, ticks + 1)
    {
      ghost var start := env.trace;
      assert Ticks(start, start, 0) && Managed(start, false, start, false, 0);
      TryAcquire();
      ghost var calls :| env.trace == start + calls && Attempted(calls, acquired);
      MoreTicks(start, false, start, false, calls, acquired, 0);
      for i := 0 to ticks
        invariant Valid()
        invariant Ticks(start, env.trace, i + 1)
        invariant Managed(start, false, env.trace, acquired, i + 1)
      {
        hide AtRest, Tick, Replay, Kept, Attempted;
        ghost var mid, held := env.trace, acquired;
        if acquired {
          KeepAlive();
        } else {
          TryAcquire();
        }
        calls :| env.trace == mid + calls && Ticked(held, calls, acquired);
        hide Managed;
        MoreTicks(start, false, mid, held, calls, acquired, i + 1);
      }
    }

    /** Stop, once the manage goroutine is done. */
    method Release()
      requires Valid()
      modifies this, env
      ensures IsAt(Stopped) && !acquired
      ensures Tick(old(env.trace), env.trace, Stop)
      ensures exists calls :: env.trace == old(env.trace) + calls && Released(calls, old(acquired))
    {
      ghost var start := env.trace;
      assert Replay(Idle, start) == Some(if acquired then Holding else Idle) && NoCrash(start);
      hide Replay, AtRest, Under, Tick, NoCrash;
      env.MarkStopped();
      First(start, if acquired then Holding else Idle, Stop, if acquired then Releasing else Stopped);
      ghost var calls := [Stop];
      if acquired {
        calls := GiveUp(start);
      } else {
        assert Released(calls, false);
      }
      Over(start, env.trace, Stop, Stopped);
      assert env.trace == start + calls;
    }

    /** Stopping an acquired manager. */
    method GiveUp(ghost start: seq<Event>) returns (ghost calls: seq<Event>)
      requires Under(start, env.trace, Stop, Releasing) && env.trace == start + [Stop]
      modifies this, env
      ensures Under(start, env.trace, Stop, Stopped) && !acquired
      ensures env.trace == start + calls && Released(calls, true)
    {
      hide Replay, AtRest, Under, NoCrash;
      calls := [Stop];
      var ok, own := env.CallGet();
      Later(start, start + calls, Stop, Releasing, Get(ok, own), if ok && own then Deleting else Ending);
      calls := calls + [Get(ok, own)];
      if ok && own {
        assert env.trace == start + calls;
        var deleted := env.CallDelete();
        Later(start, start + calls, Stop, Deleting, Del(deleted), Ending);
        calls := calls + [Del(deleted)];
      }
      assert env.trace == start + calls;
      acquired := false;
      env.RunnerShutdown();
      Later(start, start + calls, Stop, Ending, StopRunner, Stopped);
      calls := calls + [StopRunner];
    }

    /**
     * A whole life, whatever Redis and the runner answer: a life of the protocol, tick by
     * tick, in which Starts and Shutdowns alternate and after which no runner is active.
     */
    method StartManageStop(ticks: nat)
      requires Valid() && !acquired
      modifies this, env
      ensures IsAt(Stopped) && !acquired
      ensures exists managed :: Ticks(old(env.trace), managed, ticks + 1) && Tick(managed, env.trace, Stop)
      ensures exists managed, held, calls ::
        && Managed(old(env.trace), false, managed, held, ticks + 1)
        && env.trace == managed + calls && Released(calls, held)
      ensures Alternates(RunnerCalls(env.trace)) && |RunnerCalls(env.trace)| % 2 == 0
    {
      Manage(ticks);
      Release();
      StartsAndShutdownsAlternate(env.trace);
    }
  }
}
