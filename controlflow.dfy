/** Control-flow statements of cedilla/controlflow.h.

    A statement is modelled by what executing it did: the actions it performed
    in order and the way control left it (`Run`). Each macro is modelled by the
    control flow of its expansion into plain C (`switch`, `while`, `if`,
    `break`, ...), and its documented behaviour is stated about that model. */
module ControlFlow {
  import opened Valuable

  /** How control leaves a statement. */
  datatype Exit = Normal | Break | Continue | Return(value: int) | Goto(target: string)

  /** The effect of executing a statement once: its actions and its exit. */
  datatype Run = Run(trace: seq<string>, exit: Exit)

  /** A straight-line statement: an action, or a jump (`Jump(Normal)` is the
      empty statement). */
  datatype Stmt = Act(name: string) | Jump(to: Exit)

  /** A statement that either completes or never leaves a loop. */
  datatype Completion = Completes(run: Run) | Hangs

  /** The empty statement. */
  const Skip: Run := Run([], Normal)

  /** The names of the actions of a jump-free block. */
  function Names(block: seq<Stmt>): seq<string>
  {
    if block == [] then []
    else if block[0].Act? then [block[0].name] + Names(block[1..])
    else Names(block[1..])
  }

  predicate JumpFree(block: seq<Stmt>)
  {
    forall i :: 0 <= i < |block| ==> block[i].Act? || block[i].to == Normal
  }

  /** Executing a compound statement `{ s1; s2; ... }`: the statements run in
      order until one of them jumps away. */
  function Exec(block: seq<Stmt>): (r: Run)
    ensures JumpFree(block) ==> r == Run(Names(block), Normal)
    ensures |r.trace| <= |block|
  {
    if block == [] then Skip
    else
      match block[0]
      case Act(name) =>
        var rest := Exec(block[1..]);
        Run([name] + rest.trace, rest.exit)
      case Jump(to) =>
        if to == Normal then Exec(block[1..]) else Run([], to)
  }

  /** Nothing after a statement that jumps away is executed: a block whose first
      jump is `j` performs exactly the actions before it and leaves by `j`. */
  lemma {:induction false} ExecStopsAtJump(pre: seq<Stmt>, j: Exit, post: seq<Stmt>)
    requires JumpFree(pre) && j != Normal
    ensures Exec(pre + [Jump(j)] + post) == Run(Names(pre), j)
  {
    if pre == [] {
      assert pre + [Jump(j)] + post == [Jump(j)] + post;
    } else {
      assert (pre + [Jump(j)] + post)[1..] == pre[1..] + [Jump(j)] + post;
      assert JumpFree(pre[1..]) by {
        forall i | 0 <= i < |pre[1..]| ensures pre[1..][i].Act? || pre[1..][i].to == Normal {
          assert pre[1..][i] == pre[i + 1];
        }
      }
      ExecStopsAtJump(pre[1..], j, post);
    }
  }

  /** `should (t) X otherwise Y`: `if likely (t) { X } else Y`. */
  function Should(test: int, x: Run, y: Run): (r: Run)
    ensures test != 0 ==> r == x
    ensures test == 0 ==> r == y
  {
    if Likely(test) != 0 then x else y
  }

  /** The exit of a `switch` statement whose body left by `e`: a `break`
      ends the `switch`, every other jump goes on outwards. */
  function SwitchExit(e: Exit): (r: Exit)
    ensures r == Normal <==> e == Normal || e == Break
    ensures r != Normal ==> r == e
  {
    if e == Break then Normal else e
  }

  /** `do_once BODY`: `switch (1) case 1: BODY`. The body runs once; a `break`
      leaves it early and the statement completes; a `continue`, `return` or
      `goto` is not caught and leaves the enclosing construct. */
  function DoOnce(body: Run): (r: Run)
    ensures r.trace == body.trace
    ensures r.exit == Normal <==> body.exit == Normal || body.exit == Break
    ensures r.exit != Normal ==> r.exit == body.exit
  {
    Run(body.trace, SwitchExit(body.exit))
  }

  /** The example of `do_once`: a `break` in the middle of the block skips the
      rest and the statement completes normally. */
  lemma {:induction false} DoOnceBreakLeavesEarly(pre: seq<Stmt>, post: seq<Stmt>)
    requires JumpFree(pre)
    ensures DoOnce(Exec(pre + [Jump(Break)] + post)) == Run(Names(pre), Normal)
  {
    ExecStopsAtJump(pre, Break, post);
  }

  /** `while (1) if (1) { A; break; }` entered at its top: A runs, then the
      explicit `break` ends the loop. A `break` in A ends it too; a `continue`
      in A starts the next iteration, which runs A again, forever. */
  function LoopRunsFormer(a: Run): (c: Completion)
  {
    match a.exit
    case Normal => Completes(Run(a.trace, Normal))
    case Break => Completes(Run(a.trace, Normal))
    case Continue => Hangs
    case _ => Completes(a)
  }

  /** `run A after B`: `switch (1) while (1) if (1) { A; break; } else case 1: B`.
      The `switch` jumps into the `else` branch, so B runs first; when B
      completes (or `continue`s), the loop comes round and runs A. */
  function RunAfter(a: Run, b: Run): (c: Completion)
    // B and then A, when both complete
    ensures b.exit == Normal && a.exit == Normal ==> c == Completes(Run(b.trace + a.trace, Normal))
    // a `break` or `return` in B: A is not executed
    ensures b.exit == Break ==> c == Completes(Run(b.trace, Normal))
    ensures b.exit.Return? ==> c == Completes(b)
    // the construct loops forever only when A itself `continue`s after B let it run
    ensures c.Hangs? <==> a.exit == Continue && (b.exit == Normal || b.exit == Continue)
    // whatever happens, B's actions come first
    ensures c.Completes? ==> b.trace <= c.run.trace
  {
    match b.exit
    case Normal | Continue =>
      (match LoopRunsFormer(a)
       case Hangs => Hangs
       case Completes(ar) => Completes(Run(b.trace + ar.trace, ar.exit)))
    case Break => Completes(Run(b.trace, Normal))
    case _ => Completes(b)
  }

  /** The example of `run`/`after`: `run printf("world!\n"); after printf("Hello ");`
      prints "Hello " first. */
  lemma RunAfterHelloWorld()
    ensures RunAfter(Exec([Act("world!\n")]), Exec([Act("Hello ")]))
         == Completes(Run(["Hello ", "world!\n"], Normal))
  {
    assert JumpFree([Act("world!\n")]);
    assert JumpFree([Act("Hello ")]);
  }

  /** How control reaches a `named_block`. */
  datatype Entry = FallThrough | GotoName

  /** `named_block(name): BODY`: `if (0) name: switch (1) case 1 BODY`.
      Reached by falling through, the `if (0)` skips it; reached by `goto name`,
      it behaves as a `do_once` block. */
  function NamedBlock(entry: Entry, body: Run): (r: Run)
    ensures entry == FallThrough ==> r == Skip
    ensures entry == GotoName ==> r == DoOnce(body)
  {
    if entry == GotoName then DoOnce(body) else Skip
  }

  /** The statement keyword that ends each conditional-exit macro. */
  datatype Keyword = ReturnKw(value: int) | BreakKw | ContinueKw | GotoKw(target: string)

  /** The jump performed by a keyword statement. */
  function Taken(k: Keyword): (e: Exit)
    ensures e != Normal
  {
    match k
    case ReturnKw(v) => Return(v)
    case BreakKw => Break
    case ContinueKw => Continue
    case GotoKw(l) => Goto(l)
  }

  /** The three test forms: `X_if(expr)`, `X_if_not(expr)`, `X_if_fail(expr)`. */
  datatype Form = If | IfNot | IfFail

  /** The condition each form tests, as the macro writes it: `(expr)`,
      `!(expr)` and `unlikely (!(expr))`. */
  function Condition(form: Form, test: int): int
  {
    match form
    case If => test
    case IfNot => Not(test)
    case IfFail => Unlikely(Not(test))
  }

  /** The twelve macros `return_if`, `return_if_not`, `return_if_fail`,
      `break_if`, ..., `goto_if_fail`: `if (condition) keyword`. */
  function ExitIf(form: Form, test: int, k: Keyword): (r: Exit)
    ensures r != Normal <==> (if form == If then test != 0 else test == 0)
    ensures r != Normal ==> r == Taken(k)
  {
    if Condition(form, test) != 0 then Taken(k) else Normal
  }

  /** `_if_not` and `_if_fail` differ only in the hint: they exit on the same
      tests, and exactly on the tests on which the `_if` form does not. */
  lemma IfNotIsIfFail(test: int, k: Keyword)
    ensures ExitIf(IfNot, test, k) == ExitIf(IfFail, test, k)
    ensures ExitIf(If, test, k) == Normal <==> ExitIf(IfNot, test, k) != Normal
  {
  }

  /** `return_nonzero(expr)`:
      `do { int __res = (expr); return_if_fail (__res == 0) __res; } while (0)`.
      The expression is evaluated once; a non-zero value is returned, zero
      lets execution go on. Nothing outside the local `__res` is touched. */
  method ReturnNonzero(expr: int) returns (e: Exit)
    ensures expr != 0 ==> e == Return(expr)
    ensures expr == 0 ==> e == Normal
  {
    var res := expr;
    e := ExitIf(IfFail, FromBool(res == 0), ReturnKw(res));
  }

  /** The frame of a function using `goto_nonzero` and `test_goto`, which
      assign the function's own variable `ret`. */
  class ErrorFrame {
    var ret: int

    constructor (initial: int)
      ensures ret == initial
    {
      ret := initial;
    }

    /** `goto_nonzero(expr) label`: `if unlikely ((ret = (expr)) != 0) goto label`.
        `ret` receives the value in every case; the jump happens iff it is
        non-zero. */
    method GotoNonzero(expr: int, target: string) returns (e: Exit)
      modifies this
      ensures ret == expr
      ensures e == (if expr != 0 then Goto(target) else Normal)
    {
      ret := expr;
      e := if Unlikely(FromBool(ret != 0)) != 0 then Goto(target) else Normal;
    }

    /** `test_goto(expr, errnum) label`:
        `should (expr) otherwise if (ret = (errnum), 1) goto label`.
        A passing test changes nothing; a failing one stores `errnum` in `ret`
        and jumps. */
    method TestGoto(test: int, errnum: int, target: string) returns (e: Exit)
      modifies this
      ensures test != 0 ==> ret == old(ret) && e == Normal
      ensures test == 0 ==> ret == errnum && e == Goto(target)
    {
      if Likely(test) != 0 {
        e := Normal;
      } else {
        ret := errnum;
        e := Goto(target);
      }
    }
  }

  /** The reverse of a sequence: its last element first. */
  function Reverse<T>(s: seq<T>): (r: seq<T>)
    ensures |r| == |s|
  {
    if s == [] then [] else [s[|s| - 1]] + Reverse(s[..|s| - 1])
  }

  lemma {:induction false} ReverseIndex<T>(s: seq<T>, i: nat)
    requires i < |s|
    ensures Reverse(s)[i] == s[|s| - 1 - i]
  {
    if i > 0 {
      ReverseIndex(s[..|s| - 1], i - 1);
    }
  }

  /** Reversing a concatenation reverses the order of the parts. */
  lemma {:induction false} ReverseAppend<T>(x: seq<T>, y: seq<T>)
    ensures Reverse(x + y) == Reverse(y) + Reverse(x)
  {
    forall i | 0 <= i < |x| + |y|
      ensures Reverse(x + y)[i] == (Reverse(y) + Reverse(x))[i]
    {
      ReverseIndex(x + y, i);
      if i < |y| {
        ReverseIndex(y, i);
      } else {
        ReverseIndex(x, i - |y|);
      }
    }
  }

  /** All the cleanups registered in a stack of scopes, outermost scope first,
      each scope in registration order. */
  function Flatten<T>(scopes: seq<seq<T>>): (r: seq<T>)
  {
    if scopes == [] then [] else Flatten(scopes[..|scopes| - 1]) + scopes[|scopes| - 1]
  }

  /** The nested scopes of a function that use `defer`. Each `defer` declares
      a variable whose GCC `cleanup` handler is the deferred block; the handler
      runs when the variable leaves scope, and variables leave scope in
      reverse order of declaration. */
  class DeferScopes {
    /** The cleanups still pending, per open scope, innermost scope last. */
    var scopes: seq<seq<string>>
    /** The cleanups executed so far, in execution order. */
    var ran: seq<string>

    constructor ()
      ensures scopes == [] && ran == []
    {
      scopes := [];
      ran := [];
    }

    /** Entering a block `{`. */
    method Enter()
      modifies this
      ensures scopes == old(scopes) + [[]] && ran == old(ran)
    {
      scopes := scopes + [[]];
    }

    /** `defer BLOCK` in the innermost open scope: the block is registered, not
        run. */
    method Defer(cleanup: string)
      requires |scopes| > 0
      modifies this
      ensures |scopes| == |old(scopes)|
      ensures scopes[..|scopes| - 1] == old(scopes)[..|scopes| - 1]
      ensures scopes[|scopes| - 1] == old(scopes)[|scopes| - 1] + [cleanup]
      ensures ran == old(ran)
      ensures Flatten(scopes) == Flatten(old(scopes)) + [cleanup]
    {
      var top := |scopes| - 1;
      scopes := scopes[..top] + [scopes[top] + [cleanup]];
      assert scopes[..top] == old(scopes)[..top];
    }

    /** Leaving the innermost scope by `exit` (falling off its end, `break`,
        `continue`, `return` or `goto` out of it): its cleanups run, last
        registered first, whatever the exit, and control goes on by `exit`. */
    method Leave(exit: Exit) returns (e: Exit)
      requires |scopes| > 0
      modifies this
      ensures e == exit
      ensures scopes == old(scopes)[..|old(scopes)| - 1]
      ensures ran == old(ran) + Reverse(old(scopes)[|old(scopes)| - 1])
    {
      var top := |scopes| - 1;
      var pending := scopes[top];
      var i := |pending|;
      while i > 0
        invariant 0 <= i <= |pending|
        invariant scopes == old(scopes)
        invariant ran == old(ran) + Reverse(pending[i..])
      {
        i := i - 1;
        assert pending[i..][1..] == pending[i + 1..];
        assert Reverse(pending[i..]) == Reverse(pending[i + 1..]) + [pending[i]] by {
          ReverseAppend([pending[i]], pending[i + 1..]);
          assert [pending[i]] + pending[i + 1..] == pending[i..];
        }
        ran := ran + [pending[i]];
      }
      assert pending[0..] == pending;
      scopes := scopes[..top];
      e := exit;
    }

    /** Leaving every open scope at once, as a `return` from the function
        does: every pending cleanup runs, in reverse order of registration
        across all scopes, and the function still returns `value`. */
    method LeaveAll(value: int) returns (e: Exit)
      modifies this
      ensures e == Return(value)
      ensures scopes == []
      ensures ran == old(ran) + Reverse(Flatten(old(scopes)))
    {
      e := Return(value);
      while |scopes| > 0
        invariant ran + Reverse(Flatten(scopes)) == old(ran) + Reverse(Flatten(old(scopes)))
        invariant e == Return(value)
        decreases |scopes|
      {
        UnwindReversesRegistration(scopes);
        e := Leave(e);
      }
    }
  }

  /** Unwinding every open scope, innermost first, runs all pending cleanups in
      exact reverse order of registration, across scopes as within one. */
  lemma {:induction false} UnwindReversesRegistration(scopes: seq<seq<string>>)
    requires |scopes| > 0
    ensures Reverse(Flatten(scopes))
         == Reverse(scopes[|scopes| - 1]) + Reverse(Flatten(scopes[..|scopes| - 1]))
  {
    ReverseAppend(Flatten(scopes[..|scopes| - 1]), scopes[|scopes| - 1]);
  }
}
