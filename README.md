# libcedilla control-flow macros in Dafny

This project models the core of libcedilla, a set of C preprocessor macros.
Each macro becomes an operation on explicit state with explicit outcomes.
The model covers four headers:

- `cedilla/yield.h`: resumable routines. `generate` dispatches on the
  caller-owned `stack->counter`, and each `yield` stores its own label there
  and returns. Module `Yield` models the routine as the `__COUNTER__` value
  `generate` consumed plus the labels of its yields in textual order. Class
  `Stack` holds `counter` and the routine's own variables, and its `Call`
  method dispatches like the `switch` and applies the segment it runs to the
  variables.
  Lemmas prove that labels are distinct, nonzero and increasing. They also
  prove that a fresh state starts at the top, that each call resumes right
  after the yield that suspended it, that successive calls visit the yields
  in order, that the variables carry over between calls as if the segments
  ran one after the other, and that a finished routine keeps its counter.
- `cedilla/synchronized.h`: lock scopes. All six variants share one skeleton,
  an `if` on the acquire status, then `switch (1)` into a `for (cleanup; 0;)`.
  Module `Synchronized` models the lock as a sequential `Mutex` object with a
  `held` flag and a history of events. The acquire status is an input.
  `SynchronizedBlock` is proved against a specification trace. Lemmas about
  that trace prove:
  - the lock is released exactly once on success and never on failure;
  - the body runs only under the lock;
  - `break` and `continue` stay inside the scope;
  - the held status is restored.
- `cedilla/controlflow.h`: `should`/`otherwise`, `do_once`, `run`/`after`,
  `named_block` and the twelve `return_/break_/continue_/goto_if*` macros.
  Each is a function over `Run`, which records the actions a statement
  performed and how control left it (`Exit`). Each function follows its
  macro's expansion into plain C. `return_nonzero` is a method with a local.
  `goto_nonzero` and `test_goto` are methods of `ErrorFrame`, which holds the
  caller's `ret`. `defer` is class `DeferScopes`, a stack of scopes of
  pending cleanups that is drained last-in-first-out when a scope is left.
- `cedilla/valuable.h`: `likely`, `unlikely`, `max`, `min` and `cmp` as
  integer functions.

The model follows the code on these points:

- Yield labels come from the translation unit's shared `__COUNTER__`. They are
  strictly increasing but not dense, because other macros also consume values
  in between. `Yield.CounterLabelsValid` models this.
- A routine that ran off its end keeps its counter at the last yield's label.
  The next call with that state runs the last segment again and finishes
  again. With no yields, the counter stays 0 and the routine runs from the
  top. `Yield.FinishedStaysFinished` states this.
- A counter that matches no label of the routine makes the `switch` skip the
  whole body (`Yield.Resumption.NoCase`).
- The documentation of `likely`/`unlikely` says they return "the value of x".
  The code returns `!!(x)`, which is 0 or 1, and the model follows the code.
- `run A after B` also runs A when B executes `continue`, because `continue`
  goes to the `while (1)`. The documentation names only `break` and `return`
  as the exits that skip A.

## Model

| member | source | states |
|---|---|---|
| `Yield.Stack.Call` | cedilla/yield.h:4-8 | one call: dispatch on the counter, run one segment on the state's variables, then either store the next yield's label and return, or fall off the end with the counter unchanged; with no matching `case` the variables are untouched; the macros themselves touch nothing but the counter |
| `Yield.Dispatch` | cedilla/yield.h:5-8 | the `switch` goes to the top exactly for counter 0, to just after yield k exactly for its label, and nowhere for any other value |
| `Yield.LabelsDistinctNonzero` | cedilla/yield.h:6-8 | the labels of a routine are never 0 and pairwise distinct |
| `Yield.CounterLabelsValid` | cedilla/yield.h:6-8 | labels assigned by `__COUNTER__` exceed the value `generate` consumed and strictly increase in textual order |
| `Yield.DispatchPosition` | cedilla/yield.h:5-8 | the counter of each position (0, or a yield's label) dispatches to exactly that position |
| `Yield.FreshStateStartsAtTop` | cedilla/yield.h:8 | a state with counter 0 runs the routine from `case 0` |
| `Yield.YieldResumesAfterItself` | cedilla/yield.h:4-8 | a yield stores its own label, and the next call with that state resumes right after that yield |
| `Yield.FinishedStaysFinished` | cedilla/yield.h:5-8 | falling off the end does not reset the counter; later calls re-run the last segment and finish again |
| `Yield.CallsVisitInOrder` | cedilla/yield.h:4-8 | successive calls from any position visit the remaining yields in textual order, one per call, then finish on every later call |
| `Yield.FromFreshState` | cedilla/yield.h:4-8 | from a fresh state, call i suspends at yield i + 1 until every yield has been visited |
| `Yield.DataFollowsSegments` | cedilla/yield.h:4-8 | the variables kept in the state across successive calls from any position are exactly what the segments leave when run back to back in textual order, the last one repeated |
| `Yield.ThreeStepScenario` | cedilla/yield.h:4-8 | a three-yield routine driven four times through one `Stack` suspends at yields 1, 2, 3 and then finishes, and its variables record segments 0 to 3 in that order |
| `Synchronized.SynchronizedBlock` | cedilla/synchronized.h:16-20 | one lock scope appends exactly the specification trace to the lock's history (the variant's acquire call, then the body and the variant's unlock call, or the `else`), leaves by the specification exit, releases the lock it took, and keeps the held flag equal to the replay of the history |
| `Synchronized.Mutex.Attempt` | cedilla/synchronized.h:16-20 | an acquire call succeeds exactly when its status is its own interface's success code, and a success holds the lock |
| `Synchronized.ReleaseExactlyOnce` | cedilla/synchronized.h:16-20 | one acquire call per scope; one unlock if it succeeded, none otherwise, whichever statement exit (normal end, `break`, `continue`, `return`, `goto`) leaves the body |
| `Synchronized.ReleaseCallMatchesVariant` | cedilla/synchronized.h:34-111 | each variant unlocks with the function of the interface it acquired through: `pthread_mutex_unlock` for the pthread variants, `mtx_unlock` for the C11 ones |
| `Synchronized.BodyOnlyUnderLock` | cedilla/synchronized.h:18-20 | the body runs iff the acquire reported success, after the acquire and before the unlock; on failure the `else` runs and nothing is unlocked |
| `Synchronized.BreakStaysInside` | cedilla/synchronized.h:18-20 | `break` and `continue` in the body end the scope's own `for`, not a caller's loop; `return` and `goto` propagate |
| `Synchronized.HeldStatusRestored` | cedilla/synchronized.h:16-20 | under mutual exclusion, the history of a scope is exclusive and the held status afterwards equals the status before |
| `Synchronized.ContendedScope` | cedilla/synchronized.h:16-20 | a scope whose acquire fails on a held lock, as a try or timed scope does under contention, takes the `else` branch and leaves the lock held and unreleased |
| `Synchronized.AcquireCallMatchesVariant` | cedilla/synchronized.h:34-111 | each variant makes one declared acquire call of its own interface and policy, passing the timeout to the timed calls |
| `Synchronized.ThreadsTimedAsWrittenUndeclared` | cedilla/synchronized.h:110-111 | as written, the C11 timed variant calls the undeclared `mtx_timedock` |
| `Synchronized.Resolve` | cedilla/synchronized.h:113-121 | the generic names select the pthread variants iff `CEDILLA_SYNCHRONIZED_USE_PTHREAD` is defined, keeping the policy and the timeout |
| `ControlFlow.Should` | cedilla/controlflow.h:10-29 | `should (t) X otherwise Y` runs X exactly when t is nonzero and Y exactly when it is zero |
| `ControlFlow.DoOnce` | cedilla/controlflow.h:31-43 | the block runs once; `break` ends it normally; `continue`, `return` and `goto` pass outwards |
| `ControlFlow.DoOnceBreakLeavesEarly` | cedilla/controlflow.h:36-41 | a `break` in the block skips the rest of it and the statement completes |
| `ControlFlow.RunAfter` | cedilla/controlflow.h:45-60 | B runs first, then A; `break` or `return` in B skips A; only a `continue` in A can make it loop forever |
| `ControlFlow.RunAfterHelloWorld` | cedilla/controlflow.h:53-56 | the documented example prints "Hello " before "world!" |
| `ControlFlow.NamedBlock` | cedilla/controlflow.h:62-82 | skipped on fall-through; entered by `goto`, it behaves as a `do_once` block |
| `ControlFlow.ExitIf` | cedilla/controlflow.h:84-167 | the `_if` forms jump iff the expression is nonzero, the `_if_not` and `_if_fail` forms iff it is zero, by their own keyword |
| `ControlFlow.IfNotIsIfFail` | cedilla/controlflow.h:89-101 | `_if_not` and `_if_fail` jump on the same tests, exactly the ones on which `_if` does not |
| `ControlFlow.ReturnNonzero` | cedilla/controlflow.h:102-110 | returns the expression's value if it is nonzero, and otherwise continues |
| `ControlFlow.ErrorFrame.GotoNonzero` | cedilla/controlflow.h:168-174 | always stores the value in `ret`; jumps iff it is nonzero |
| `ControlFlow.ErrorFrame.TestGoto` | cedilla/controlflow.h:176-184 | a passing test changes nothing; a failing one sets `ret = errnum` and jumps |
| `ControlFlow.DeferScopes.Defer` | cedilla/controlflow.h:195-215 | a `defer` registers its block in the innermost scope without running it |
| `ControlFlow.DeferScopes.Leave` | cedilla/controlflow.h:195-215 | leaving a scope by any statement exit (normal end, `break`, `continue`, `return`, `goto`) runs its cleanups last-registered-first and keeps the exit |
| `ControlFlow.DeferScopes.LeaveAll` | cedilla/controlflow.h:195-215 | a `return` through nested scopes runs every pending cleanup in reverse order of registration |
| `ControlFlow.UnwindReversesRegistration` | cedilla/controlflow.h:195-215 | unwinding the innermost scope and then the rest gives the reverse of all registrations |
| `Valuable.Likely` | cedilla/valuable.h:24 | `likely(x)` is 1 iff x is nonzero and 0 otherwise |
| `Valuable.Unlikely` | cedilla/valuable.h:41 | `unlikely(x)` is 1 iff x is nonzero and 0 otherwise |
| `Valuable.LikelyIdempotent` | cedilla/valuable.h:24-41 | the hints agree in value and hinting twice changes nothing |
| `Valuable.Max` | cedilla/valuable.h:44-53 | at least both operands, one of them, the second on a tie |
| `Valuable.Min` | cedilla/valuable.h:54-63 | at most both operands, one of them, the second on a tie |
| `Valuable.Cmp` | cedilla/valuable.h:64-73 | -1 iff a < b, 1 iff a > b, 0 iff equal |
| `Valuable.CmpAntisymmetric` | cedilla/valuable.h:72 | `cmp(a,b) == -cmp(b,a)` |
| `Valuable.MinPlusMax` | cedilla/valuable.h:52-62 | `min(a,b) + max(a,b) == a + b`, and the two are the pair |
| `Valuable.MaxMinAgreeWithCmp` | cedilla/valuable.h:52-72 | `max` and `min` choose the operand `cmp` ranks higher or lower |

## Findings

| source | as written | input that shows it | evidently intended | confidence | as-written member | corrected member |
|---|---|---|---|---|---|---|
| cedilla/synchronized.h:110-111 | `threads_timed_synchronized` acquires with `mtx_timedock(lock, time)`, a function no header declares | any use, e.g. `threads_timed_synchronized(&m, &ts) body` | `mtx_timedlock(lock, time)`, as the other five variants call their interface's function | high, not executed | `Synchronized.ThreadsTimedAsWrittenUndeclared` | `Synchronized.AcquireCallMatchesVariant` |

The rest of the model uses the corrected `Synchronized.AcquireCall`.

## Left out

- Synchronized.SynchronizedBlock: the `lock` argument is evaluated twice,
  once by the acquire call and again by the cleanup function at scope exit.
  The model takes one `Mutex` for both, so it assumes the two evaluations
  name the same mutex. An argument with a side effect, such as
  `pthread_synchronized(&locks[i++])`, or a body that changes the pointer
  it names would unlock a different mutex, and the model does not show that.
- Non-local exits are not modelled. `longjmp`, `exit()`, `abort()` and
  thread cancellation leave a scope without running GCC cleanups, so the
  unlock of a lock scope and the blocks of `defer` are then skipped. The
  model covers the statement exits: normal end, `break`, `continue`,
  `return` and `goto`.
- ControlFlow.ErrorFrame.GotoNonzero: the assignment `ret = (expr)` converts
  the value to the type of the caller's `ret`, and the test is made on the
  converted value. The model stores and tests the value unchanged. So a
  `long` `1L << 32` assigned to an `int ret` becomes 0 in C and does not
  jump, while the model jumps.
- Valuable.Max, Valuable.Min and Valuable.Cmp: C applies the usual
  arithmetic conversions to the operands of `<` and `>`, and the model
  compares mathematical integers. With mixed signed and unsigned operands
  the results differ: `cmp(-1, 0u)` is 1 in C, because -1 converts to
  `UINT_MAX`, and -1 in the model.
- Real blocking, timeouts and thread interleaving of `pthread_mutex_lock`,
  `mtx_timedlock` and the others are not modelled. The acquire call's status
  is an input. The lock is a sequential object that records events.
  `Synchronized.HeldStatusRestored` assumes the host mutex's own guarantee
  that it is never granted while held.
- Acquisition errors other than contention (an invalid handle, for one) are
  not told apart. The source treats every nonzero status as failure, and so
  does the model.
- A dangling `else` inside the body of a try or timed scope is not modelled.
  When the body is an `if` without `else`, the user's `else` binds to it.
- Statements are modelled by a fixed `Run`: the actions performed and the
  exit taken. A block that behaves differently each time it runs is not
  modelled. So a `continue` in the A of `run A after B` is modelled as looping
  forever.
- The segments of a resumable routine are straight-line code. The model does
  not cover yields inside loops or branches of the routine body, early
  `return`s without a yield, or the values the routine returns at each
  yield. `Yield.Resumption` names the segment that ran instead.
- `goto` targets are not resolved. `NamedBlock` takes whether control came
  by `goto` or by falling through.
- Macro arguments are taken as already-evaluated integers, so the double
  evaluation in `max`, `min` and `cmp` is not modelled. The conversion of a
  wider expression to the `int` local of `return_nonzero` is not modelled
  either.
- `promise` and the compiler hints of `likely`/`unlikely` only instruct the
  compiler. Only the 0/1 value of the hints is modelled.
- The preprocessor mechanics are not modelled: token pasting, GCC nested
  functions and the `cleanup` attribute. Only their behaviour is modelled,
  as explicit labels and a cleanup-on-exit stack.
- `arraysize`, `membersize` and their aliases are compile-time `sizeof`
  arithmetic and are not part of this model.
- `cedilla/twovalue.h` (floating complex packing with a platform-dependent
  carrier type) is not part of this model.
- `cedilla/cdecls.h` (C/C++ linkage wrapping) is not part of this model.
