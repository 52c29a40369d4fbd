/** Lock scopes of cedilla/synchronized.h.

    Every variant expands to one skeleton, `__synchronized_generate`:

        if (__builtin_expect(ACQUIRE == SUCCESS, 1)) switch (1)
          for (<cleanup variable whose handler is UNLOCK>; 0;) case 1:
            BODY
        [else ELSE]

    The lock is a sequential object: the status the host's acquire call
    returns is an input, and the lock records what was done to it. */
module Synchronized {
  import opened ControlFlow

  /** The two threading interfaces: POSIX threads and C11 `<threads.h>`. */
  datatype Api = Pthread | Threads

  /** How the lock is acquired: waiting, one attempt, or waiting up to a
      timeout (an absolute deadline, passed through unchanged). */
  datatype Policy = Blocking | TryOnce | Timed(timeout: int)

  /** One of the six macros `pthread_synchronized`, `pthread_try_synchronized`,
      `pthread_timed_synchronized`, `threads_synchronized`,
      `threads_try_synchronized`, `threads_timed_synchronized`. */
  datatype Variant = Variant(api: Api, policy: Policy)

  /** The call a variant makes to acquire the lock. `Undeclared` is a call to
      a function no header declares. */
  datatype LockCall =
    | PthreadMutexLock
    | PthreadMutexTrylock
    | PthreadMutexTimedlock(timeout: int)
    | MtxLock
    | MtxTrylock
    | MtxTimedlock(timeout: int)
    | Undeclared(name: string, timeout: int)

  /** The value of `thrd_success` in glibc's `<threads.h>`. */
  const ThrdSuccess: int := 0

  /** The status that means "acquired": `0` for pthread, `thrd_success` for C11. */
  function SuccessCode(api: Api): int
  {
    match api
    case Pthread => 0
    case Threads => ThrdSuccess
  }

  predicate Acquired(v: Variant, status: int)
  {
    status == SuccessCode(v.api)
  }

  /** The acquire call of each variant as the header writes it: the C11 timed
      variant calls `mtx_timedock`. */
  function AcquireCallAsWritten(v: Variant): LockCall
  {
    match (v.api, v.policy)
    case (Pthread, Blocking) => PthreadMutexLock
    case (Pthread, TryOnce) => PthreadMutexTrylock
    case (Pthread, Timed(t)) => PthreadMutexTimedlock(t)
    case (Threads, Blocking) => MtxLock
    case (Threads, TryOnce) => MtxTrylock
    case (Threads, Timed(t)) => Undeclared("mtx_timedock", t)
  }

  /** The acquire call of each variant with the C11 timed variant calling
      `mtx_timedlock`, the function the other five variants show is meant. */
  function AcquireCall(v: Variant): LockCall
  {
    match (v.api, v.policy)
    case (Threads, Timed(t)) => MtxTimedlock(t)
    case _ => AcquireCallAsWritten(v)
  }

  predicate Declared(c: LockCall)
  {
    !c.Undeclared?
  }

  /** As written, `threads_timed_synchronized` calls a function that does not
      exist, so no use of it can be compiled and linked. */
  lemma ThreadsTimedAsWrittenUndeclared(t: int)
    ensures !Declared(AcquireCallAsWritten(Variant(Threads, Timed(t))))
    ensures AcquireCallAsWritten(Variant(Threads, Timed(t))).name == "mtx_timedock"
  {
  }

  /** The interface a call belongs to. */
  function CallApi(c: LockCall): Api
  {
    match c
    case PthreadMutexLock | PthreadMutexTrylock | PthreadMutexTimedlock(_) => Pthread
    case _ => Threads
  }

  /** The policy a call implements, with the timeout it is given. */
  function CallPolicy(c: LockCall): Policy
  {
    match c
    case PthreadMutexLock | MtxLock => Blocking
    case PthreadMutexTrylock | MtxTrylock => TryOnce
    case PthreadMutexTimedlock(t) => Timed(t)
    case MtxTimedlock(t) => Timed(t)
    case Undeclared(_, t) => Timed(t)
  }

  /** With the call corrected, every variant makes one declared call of its own
      interface, of the kind its policy names, and the timed variants pass the
      timeout on; the other five variants are exactly as written. */
  lemma AcquireCallMatchesVariant(v: Variant)
    ensures Declared(AcquireCall(v))
    ensures CallApi(AcquireCall(v)) == v.api
    ensures CallPolicy(AcquireCall(v)) == v.policy
    ensures !(v.api == Threads && v.policy.Timed?) ==> AcquireCall(v) == AcquireCallAsWritten(v)
  {
  }

  /** The call a variant makes to release the lock. */
  datatype UnlockCall = PthreadMutexUnlock | MtxUnlock

  /** The release call of each variant: `pthread_mutex_unlock` for the three
      pthread variants, `mtx_unlock` for the three C11 ones. */
  function ReleaseCall(v: Variant): UnlockCall
  {
    match v.api
    case Pthread => PthreadMutexUnlock
    case Threads => MtxUnlock
  }

  /** The interface a release call belongs to. */
  function UnlockApi(c: UnlockCall): Api
  {
    match c
    case PthreadMutexUnlock => Pthread
    case MtxUnlock => Threads
  }

  /** Every variant releases through the same interface it acquires through,
      so a lock is never taken by one interface and released by the other. */
  lemma ReleaseCallMatchesVariant(v: Variant)
    ensures UnlockApi(ReleaseCall(v)) == v.api
    ensures UnlockApi(ReleaseCall(v)) == CallApi(AcquireCall(v))
    ensures UnlockApi(ReleaseCall(v)) == CallApi(AcquireCallAsWritten(v))
  {
  }

  /** What happens on a lock and in the code it guards. */
  datatype Event =
    | Attempt(call: LockCall, status: int)  // one acquire call and the status it returned
    | Unlock(release: UnlockCall)           // `pthread_mutex_unlock` / `mtx_unlock`
    | Body(run: Run)                        // the guarded statement ran
    | Else(run: Run)                        // the `else` statement ran

  /** The events of one lock scope, in order. */
  function SyncTrace(v: Variant, status: int, body: Run, otherwise: Run): seq<Event>
  {
    [Attempt(AcquireCall(v), status)]
    + if Acquired(v, status) then [Body(body), Unlock(ReleaseCall(v))] else [Else(otherwise)]
  }

  /** The exit of a `for (...; 0;)` loop whose body left by `e`: `break` and
      `continue` both end the loop (the condition `0` is false); `return` and
      `goto` go on outwards. */
  function ForExit(e: Exit): (r: Exit)
    ensures r == Normal <==> e == Normal || e == Break || e == Continue
    ensures r != Normal ==> r == e
  {
    if e == Break || e == Continue then Normal else e
  }

  /** How control leaves one lock scope. */
  function SyncExit(v: Variant, status: int, body: Run, otherwise: Run): Exit
  {
    if Acquired(v, status) then ForExit(body.exit) else otherwise.exit
  }

  /** The success status of a call, by its interface. */
  function SuccessCodeOf(c: LockCall): int
  {
    SuccessCode(CallApi(c))
  }

  lemma SuccessCodeOfCall(v: Variant)
    ensures SuccessCodeOf(AcquireCall(v)) == SuccessCode(v.api)
  {
  }

  /** Whether the lock is held after replaying a history from `held`. */
  function HeldAfter(held: bool, h: seq<Event>): bool
  {
    if h == [] then held
    else
      var before := HeldAfter(held, h[..|h| - 1]);
      match h[|h| - 1]
      case Attempt(call, status) => before || status == SuccessCodeOf(call)
      case Unlock(_) => false
      case _ => before
  }

  /** A mutex as a sequential object: whether it is held, and what has been
      done to it and under it. */
  class Mutex {
    var held: bool
    var history: seq<Event>

    /** The held flag is the replay of the history of a mutex created free. */
    ghost predicate Valid()
      reads this
    {
      held == HeldAfter(false, history)
    }

    constructor ()
      ensures Valid()
      ensures !held && history == []
    {
      held := false;
      history := [];
    }

    /** One acquire call that returned `status`; success, judged by the call's
        own interface, holds the lock. */
    method Attempt(call: LockCall, status: int) returns (ok: bool)
      requires Valid()
      modifies this
      ensures Valid()
      ensures ok == (status == SuccessCodeOf(call))
      ensures held == (ok || old(held))
      ensures history == old(history) + [Event.Attempt(call, status)]
    {
      ok := status == SuccessCodeOf(call);
      if ok {
        held := true;
      }
      history := history + [Event.Attempt(call, status)];
      assert history[..|history| - 1] == old(history);
    }

    /** The unlock call. */
    method Release(call: UnlockCall)
      requires Valid()
      modifies this
      ensures Valid()
      ensures !held
      ensures history == old(history) + [Unlock(call)]
    {
      held := false;
      history := history + [Unlock(call)];
      assert history[..|history| - 1] == old(history);
    }

    /** A guarded statement or an `else` statement running. */
    method Observe(e: Event)
      requires Valid()
      requires e.Body? || e.Else?
      modifies this
      ensures Valid()
      ensures held == old(held)
      ensures history == old(history) + [e]
    {
      history := history + [e];
      assert history[..|history| - 1] == old(history);
    }
  }

  /** One lock scope with variant `v`, whose acquire call returns `status`,
      guarding `body`, with `otherwise` as its `else` statement (the empty
      statement when there is none). */
  method SynchronizedBlock(m: Mutex, v: Variant, status: int, body: Run, otherwise: Run)
    returns (e: Exit)
    requires m.Valid()
    modifies m
    ensures m.Valid()
    ensures m.history == old(m.history) + SyncTrace(v, status, body, otherwise)
    ensures e == SyncExit(v, status, body, otherwise)
    ensures m.held == (if Acquired(v, status) then false else old(m.held))
  {
    SuccessCodeOfCall(v);
    var ok := m.Attempt(AcquireCall(v), status);
    if ok {
      // `switch (1)` jumps to `case 1` inside the `for`, past its declaration
      m.Observe(Body(body));
      e := ForExit(body.exit);
      // the cleanup variable leaves scope however the `for` is left
      m.Release(ReleaseCall(v));
    } else {
      m.Observe(Else(otherwise));
      e := otherwise.exit;
    }
  }

  /** The number of unlock calls in a history. */
  function Unlocks(h: seq<Event>): nat
  {
    if h == [] then 0 else Unlocks(h[..|h| - 1]) + (if h[|h| - 1].Unlock? then 1 else 0)
  }

  /** The number of acquire calls in a history. */
  function Attempts(h: seq<Event>): nat
  {
    if h == [] then 0 else Attempts(h[..|h| - 1]) + (if h[|h| - 1].Attempt? then 1 else 0)
  }

  lemma {:induction false} CountsAppend(h: seq<Event>, g: seq<Event>)
    ensures Unlocks(h + g) == Unlocks(h) + Unlocks(g)
    ensures Attempts(h + g) == Attempts(h) + Attempts(g)
  {
    if g != [] {
      assert (h + g)[..|h + g| - 1] == h + g[..|g| - 1];
      CountsAppend(h, g[..|g| - 1]);
    } else {
      assert h + g == h;
    }
  }

  /** Every lock scope makes exactly one acquire call, and unlocks exactly once
      if that call succeeded and never otherwise, whatever way the body is
      left. */
  lemma ReleaseExactlyOnce(v: Variant, status: int, body: Run, otherwise: Run)
    ensures Attempts(SyncTrace(v, status, body, otherwise)) == 1
    ensures Unlocks(SyncTrace(v, status, body, otherwise)) == if Acquired(v, status) then 1 else 0
  {
    var t := SyncTrace(v, status, body, otherwise);
    var tail := if Acquired(v, status) then [Body(body), Unlock(ReleaseCall(v))] else [Else(otherwise)];
    CountsAppend([Attempt(AcquireCall(v), status)], tail);
    if Acquired(v, status) {
      CountsAppend([Body(body)], [Unlock(ReleaseCall(v))]);
    }
  }

  /** The body runs exactly when the acquire call reported success, and then
      strictly after it and strictly before the unlock; on failure the `else`
      statement runs instead and nothing is unlocked. */
  lemma BodyOnlyUnderLock(v: Variant, status: int, body: Run, otherwise: Run)
    ensures var t := SyncTrace(v, status, body, otherwise);
      && t[0] == Attempt(AcquireCall(v), status)
      && (Body(body) in t <==> Acquired(v, status))
      && (Acquired(v, status) ==> t == [t[0], Body(body), Unlock(ReleaseCall(v))])
      && (!Acquired(v, status) ==> t == [t[0], Else(otherwise)] && forall e :: e in t ==> !e.Unlock?)
  {
  }

  /** A `break` or `continue` in the body ends the lock scope itself (the inner
      `for`), not a loop around it; `return` and `goto` leave it, after the
      unlock. */
  lemma BreakStaysInside(v: Variant, status: int, body: Run, otherwise: Run)
    requires Acquired(v, status)
    ensures body.exit in {Normal, Break, Continue} ==> SyncExit(v, status, body, otherwise) == Normal
    ensures body.exit.Return? || body.exit.Goto? ==> SyncExit(v, status, body, otherwise) == body.exit
  {
  }

  /** A history is exclusive from `held` when no acquire succeeds on a held
      lock and no unlock happens on a free one (the mutex's own guarantee). */
  predicate Exclusive(held: bool, h: seq<Event>)
  {
    forall i :: 0 <= i < |h| ==>
      (h[i].Attempt? && h[i].status == SuccessCodeOf(h[i].call) ==> !HeldAfter(held, h[..i]))
      && (h[i].Unlock? ==> HeldAfter(held, h[..i]))
  }

  /** A lock scope leaves the lock as it found it: if the acquire call cannot
      have succeeded on a held lock, the history it adds is exclusive and the
      lock's held status after it equals the status before. */
  lemma {:induction false} HeldStatusRestored(held: bool, v: Variant, status: int, body: Run, otherwise: Run)
    requires held ==> !Acquired(v, status)
    ensures Exclusive(held, SyncTrace(v, status, body, otherwise))
    ensures HeldAfter(held, SyncTrace(v, status, body, otherwise)) == held
  {
    var t := SyncTrace(v, status, body, otherwise);
    SuccessCodeOfCall(v);
    assert t[..0] == [];
    if Acquired(v, status) {
      assert t[..1] == [t[0]] && t[..2] == [t[0], t[1]] && t[..3] == t;
      assert HeldAfter(held, t[..1]);
      assert HeldAfter(held, t[..2]);
    } else {
      assert t[..1] == [t[0]] && t[..2] == t;
      assert HeldAfter(held, t[..1]) == held;
    }
  }

  /** A scope on a lock that is already held, as a try or timed scope meets
      it: the attempt fails, the `else` statement runs, and the lock is neither
      taken nor released. */
  method ContendedScope(m: Mutex, v: Variant, status: int, body: Run, otherwise: Run)
    returns (e: Exit)
    requires m.Valid()
    requires m.held && !Acquired(v, status)
    modifies m
    ensures m.Valid()
    ensures m.held
    ensures e == otherwise.exit
    ensures m.history == old(m.history) + [Attempt(AcquireCall(v), status), Else(otherwise)]
  {
    e := SynchronizedBlock(m, v, status, body, otherwise);
  }

  /** The generic names: which variant `synchronized`, `try_synchronized` and
      `timed_synchronized(lock, time)` stand for. */
  datatype Alias = SynchronizedAlias | TrySynchronizedAlias | TimedSynchronizedAlias(time: int)

  /** The pthread variants when `CEDILLA_SYNCHRONIZED_USE_PTHREAD` is defined,
      the C11 ones otherwise. */
  function Resolve(usePthread: bool, a: Alias): (v: Variant)
    ensures v.api == Pthread <==> usePthread
    ensures v.policy == Blocking <==> a == SynchronizedAlias
    ensures v.policy == TryOnce <==> a == TrySynchronizedAlias
    ensures a.TimedSynchronizedAlias? ==> v.policy == Timed(a.time)
  {
    var api := if usePthread then Pthread else Threads;
    match a
    case SynchronizedAlias => Variant(api, Blocking)
    case TrySynchronizedAlias => Variant(api, TryOnce)
    case TimedSynchronizedAlias(t) => Variant(api, Timed(t))
  }
}
