/** Resumable routines of cedilla/yield.h.

    `generate` is `switch (__COUNTER__, stack->counter) case 0:` and each
    `yield` is `if (stack->counter = N, 0) { case N:; } else return`, where N
    is the next value of the preprocessor's `__COUNTER__`. A routine is
    modelled by the value `generate` consumed and the labels of its yields in
    textual order. Its code is cut by the yields into segments: segment 0 runs
    from the top to the first yield, segment k from yield k to yield k + 1
    (counting yields from 1), and the last one from the last yield to the end
    of the routine. The segments are straight-line code; what segment k does
    to the routine's own variables is the function `step(k, _)`. */
module Yield {

  /** A routine: `entry` is the `__COUNTER__` value consumed by `generate`,
      `labels[k]` the label of yield k + 1, and `step(k, d)` the variables
      segment k leaves when it starts from `d`. */
  datatype Routine = Routine(entry: nat, labels: seq<int>, step: (nat, seq<int>) -> seq<int>) {

    /** The number of yields. */
    function Yields(): nat
    {
      |labels|
    }

    /** Labels as `__COUNTER__` hands them out: after the one `generate`
        consumed, and strictly increasing in textual order. */
    ghost predicate Valid()
    {
      && (forall k :: 0 <= k < |labels| ==> entry < labels[k])
      && (forall j, k :: 0 <= j < k < |labels| ==> labels[j] < labels[k])
    }
  }

  /** The position of the first occurrence of `x` in `s`, if any. */
  function IndexOf(s: seq<int>, x: int): (i: Option)
    ensures i.Some? ==> i.value < |s| && s[i.value] == x && x !in s[..i.value]
    ensures i.None? <==> x !in s
  {
    if s == [] then None
    else if s[0] == x then Some(0)
    else
      match IndexOf(s[1..], x)
      case None => None
      case Some(j) => assert s[..j + 1] == [s[0]] + s[1..][..j]; Some(j + 1)
  }

  datatype Option = None | Some(value: nat)

  /** The `switch` of `generate`: the segment a call starts, which is the one
      after the `case` whose label equals the counter; none matches when the
      counter is no label of the routine. */
  function Dispatch(r: Routine, counter: int): (k: Option)
    requires r.Valid()
    ensures k == Some(0) <==> counter == 0
    ensures k.Some? && k.value > 0 ==> k.value <= r.Yields() && r.labels[k.value - 1] == counter
    ensures k.None? <==> counter != 0 && counter !in r.labels
  {
    if counter == 0 then Some(0)
    else
      match IndexOf(r.labels, counter)
      case None => None
      case Some(i) => Some(i + 1)
  }

  /** What one call did: ran `segment` and suspended at the yield that ends
      it; ran the last `segment` and fell off the end of the routine; or found
      no `case` for the counter and skipped the routine entirely. */
  datatype Resumption = Suspended(segment: nat) | Finished(segment: nat) | NoCase

  /** The outcome of a call that finds `counter` in the state. */
  function Resume(r: Routine, counter: int): Resumption
    requires r.Valid()
  {
    match Dispatch(r, counter)
    case None => NoCase
    case Some(k) => if k < r.Yields() then Suspended(k) else Finished(k)
  }

  /** The counter a call leaves in the state: the label of the yield it
      suspended at, and otherwise the counter it found. */
  function NextCounter(r: Routine, counter: int): int
    requires r.Valid()
  {
    match Resume(r, counter)
    case Suspended(k) => r.labels[k]
    case _ => counter
  }

  /** The variables a call leaves: those of the segment it runs, and the ones
      it found when no `case` matches. */
  function Effect(r: Routine, counter: int, data: seq<int>): seq<int>
    requires r.Valid()
  {
    match Dispatch(r, counter)
    case None => data
    case Some(k) => r.step(k, data)
  }

  /** The caller-owned state the routine is given as `stack`: the `counter`
      member the macros use, and the routine's own variables that must survive
      a suspension, which only the segments change. */
  class Stack {
    var counter: int
    var data: seq<int>

    /** A fresh state: the counter starts at 0. */
    constructor (data: seq<int>)
      ensures counter == 0 && this.data == data
    {
      counter := 0;
      this.data := data;
    }

    /** One call of the routine `r` with this state. */
    method Call(r: Routine) returns (res: Resumption)
      requires r.Valid()
      modifies this
      ensures res == Resume(r, old(counter))
      ensures counter == NextCounter(r, old(counter))
      ensures data == Effect(r, old(counter), old(data))
    {
      match Dispatch(r, counter)
      case None =>
        // no `case` matches: the `switch` skips its whole body
        res := NoCase;
      case Some(k) =>
        // segment k runs ...
        data := r.step(k, data);
        if k < r.Yields() {
          // ... up to yield k + 1, which stores its own label and returns
          counter := r.labels[k];
          res := Suspended(k);
        } else {
          // ... up to the end of the routine; the counter is left alone
          res := Finished(k);
        }
    }
  }

  /** The counter that leads to segment `p`: 0 for the top, the label of
      yield p otherwise. */
  function Position(r: Routine, p: nat): int
    requires p <= r.Yields()
  {
    if p == 0 then 0 else r.labels[p - 1]
  }

  /** Labels are never 0 and pairwise distinct, so each `case` is the
      only one with its value. */
  lemma LabelsDistinctNonzero(r: Routine)
    requires r.Valid()
    ensures forall k :: 0 <= k < r.Yields() ==> r.labels[k] != 0
    ensures forall j, k :: 0 <= j < r.Yields() && 0 <= k < r.Yields() && j != k ==> r.labels[j] != r.labels[k]
  {
  }

  /** The counter of position p dispatches to segment p: 0 to the top, the
      label of a yield to the code right after that yield. */
  lemma DispatchPosition(r: Routine, p: nat)
    requires r.Valid() && p <= r.Yields()
    ensures Dispatch(r, Position(r, p)) == Some(p)
  {
    if p > 0 {
      var c := Position(r, p);
      assert r.labels[p - 1] == c;
      assert c in r.labels;
      LabelsDistinctNonzero(r);
      assert IndexOf(r.labels, c) == Some(p - 1);
    }
  }

  /** A fresh state runs the routine from the top, the `case 0` of `generate`. */
  lemma FreshStateStartsAtTop(r: Routine)
    requires r.Valid()
    ensures Resume(r, 0) == (if r.Yields() > 0 then Suspended(0) else Finished(0))
    ensures NextCounter(r, 0) == (if r.Yields() > 0 then r.labels[0] else 0)
  {
  }

  /** Executing yield k + 1 stores its own label, and the next call with that
      state skips everything before the yield and resumes right after it. */
  lemma {:induction false} YieldResumesAfterItself(r: Routine, k: nat)
    requires r.Valid() && k < r.Yields()
    ensures Resume(r, Position(r, k)) == Suspended(k)
    ensures NextCounter(r, Position(r, k)) == r.labels[k]
    ensures Dispatch(r, r.labels[k]) == Some(k + 1)
  {
    DispatchPosition(r, k);
    DispatchPosition(r, k + 1);
  }

  /** Falling off the end does not reset the counter: the state stays at the
      last yield executed (at 0 without yields), so every later call runs the
      last segment again and finishes again. */
  lemma {:induction false} FinishedStaysFinished(r: Routine)
    requires r.Valid()
    ensures Resume(r, Position(r, r.Yields())) == Finished(r.Yields())
    ensures NextCounter(r, Position(r, r.Yields())) == Position(r, r.Yields())
  {
    DispatchPosition(r, r.Yields());
  }

  /** The outcomes of `n` successive calls that thread one state starting at
      `counter`. */
  function Calls(r: Routine, counter: int, n: nat): (out: seq<Resumption>)
    requires r.Valid()
    ensures |out| == n
    decreases n
  {
    if n == 0 then [] else [Resume(r, counter)] + Calls(r, NextCounter(r, counter), n - 1)
  }

  /** The expected outcome of a call that starts at position q: suspension
      at the yield ending segment q, or the end of the routine. */
  function Visit(r: Routine, q: nat): Resumption
  {
    if q < r.Yields() then Suspended(q) else Finished(r.Yields())
  }

  /** Successive calls from position p visit the yields in textual order, one
      per call, then finish on every call after the last yield. */
  lemma {:induction false} CallsVisitInOrder(r: Routine, p: nat, n: nat)
    requires r.Valid() && p <= r.Yields()
    decreases n
    ensures forall i :: 0 <= i < n ==> Calls(r, Position(r, p), n)[i] == Visit(r, p + i)
  {
    if n > 0 {
      var c := Position(r, p);
      var next := if p < r.Yields() then p + 1 else p;
      if p < r.Yields() {
        YieldResumesAfterItself(r, p);
        assert Position(r, p + 1) == r.labels[p];
      } else {
        FinishedStaysFinished(r);
      }
      assert Resume(r, c) == Visit(r, p);
      assert NextCounter(r, c) == Position(r, next);
      CallsVisitInOrder(r, next, n - 1);
      var tail := Calls(r, Position(r, next), n - 1);
      assert Calls(r, c, n) == [Resume(r, c)] + tail;
      forall i | 0 <= i < n
        ensures Calls(r, c, n)[i] == Visit(r, p + i)
      {
        if i > 0 {
          assert Calls(r, c, n)[i] == tail[i - 1] == Visit(r, next + i - 1);
        }
      }
    }
  }

  /** From a fresh state, call i (from 0) runs segment i and suspends at yield
      i + 1, until all yields are visited; call number `Yields()` and every one
      after it run the last segment and finish. */
  lemma FromFreshState(r: Routine, n: nat)
    requires r.Valid()
    ensures forall i :: 0 <= i < n ==>
      Calls(r, 0, n)[i] == (if i < r.Yields() then Suspended(i) else Finished(r.Yields()))
  {
    CallsVisitInOrder(r, 0, n);
    assert Position(r, 0) == 0;
  }

  /** The variables after `n` successive calls that thread one state
      starting at `counter` with variables `data`. */
  function DataAfter(r: Routine, counter: int, n: nat, data: seq<int>): seq<int>
    requires r.Valid()
    decreases n
  {
    if n == 0 then data else DataAfter(r, NextCounter(r, counter), n - 1, Effect(r, counter, data))
  }

  /** The segments `n` successive calls run from position p, as `Visit`
      expects them: p, p + 1, ..., up to the last one, which then repeats. */
  function SegmentOrder(r: Routine, p: nat, n: nat): (ks: seq<nat>)
    decreases n
    ensures |ks| == n
    ensures forall i :: 0 <= i < n ==> ks[i] == if p + i < r.Yields() then p + i else r.Yields()
  {
    if n == 0 then [] else [if p < r.Yields() then p else r.Yields()] + SegmentOrder(r, p + 1, n - 1)
  }

  /** The segment steps `ks` applied one after the other, first to last. */
  function Apply(r: Routine, ks: seq<nat>, data: seq<int>): seq<int>
    decreases |ks|
  {
    if ks == [] then data else Apply(r, ks[1..], r.step(ks[0], data))
  }

  /** The routine's variables survive between calls: successive calls from
      position p leave exactly what running the segments in textual order
      from p, the last one repeated, leaves. */
  lemma {:induction false} DataFollowsSegments(r: Routine, p: nat, n: nat, data: seq<int>)
    requires r.Valid() && p <= r.Yields()
    decreases n
    ensures DataAfter(r, Position(r, p), n, data) == Apply(r, SegmentOrder(r, p, n), data)
  {
    if n > 0 {
      var c := Position(r, p);
      var next := if p < r.Yields() then p + 1 else p;
      DispatchPosition(r, p);
      if p < r.Yields() {
        YieldResumesAfterItself(r, p);
        assert Position(r, p + 1) == r.labels[p];
      } else {
        FinishedStaysFinished(r);
      }
      assert Effect(r, c, data) == r.step(p, data);
      assert NextCounter(r, c) == Position(r, next);
      var ks := SegmentOrder(r, p, n);
      assert ks[0] == p;
      assert ks[1..] == SegmentOrder(r, next, n - 1);
      DataFollowsSegments(r, next, n - 1, r.step(p, data));
    }
  }

  /** A routine with three yields driven four times through one state: three
      suspensions, at yields 1, 2 and 3, and then the end of the routine; each
      segment appends its number to the variables, which are kept between
      calls. */
  method ThreeStepScenario(entry: nat) returns (out: seq<Resumption>, data: seq<int>)
    ensures out == [Suspended(0), Suspended(1), Suspended(2), Finished(3)]
    ensures data == [0, 1, 2, 3]
  {
    var r := Routine(entry, [entry + 1, entry + 2, entry + 3], (k: nat, d: seq<int>) => d + [k]);
    assert r.Valid();
    YieldResumesAfterItself(r, 0);
    YieldResumesAfterItself(r, 1);
    YieldResumesAfterItself(r, 2);
    FinishedStaysFinished(r);
    assert Position(r, 1) == entry + 1 && Position(r, 2) == entry + 2 && Position(r, 3) == entry + 3;
    var s := new Stack([]);
    var a := s.Call(r);
    var b := s.Call(r);
    var c := s.Call(r);
    var d := s.Call(r);
    out := [a, b, c, d];
    data := s.data;
  }

  /** The preprocessor's uses of `__COUNTER__` in one translation unit, in
      textual order: use i receives the value i. */
  datatype Use = Generate | YieldPoint | Other

  /** The labels of the yields from use i up to the next `generate`. */
  function YieldLabels(uses: seq<Use>, i: nat): (ls: seq<int>)
    decreases |uses| - i
    ensures forall k :: 0 <= k < |ls| ==> i <= ls[k] < |uses| && uses[ls[k]] == YieldPoint
  {
    if i >= |uses| || uses[i] == Generate then []
    else if uses[i] == YieldPoint then [i] + YieldLabels(uses, i + 1)
    else YieldLabels(uses, i + 1)
  }

  /** The routine whose `generate` is use g, with segment steps `step`. */
  function RoutineAt(uses: seq<Use>, g: nat, step: (nat, seq<int>) -> seq<int>): Routine
    requires g < |uses| && uses[g] == Generate
  {
    Routine(g, YieldLabels(uses, g + 1), step)
  }

  lemma {:induction false} YieldLabelsIncreasing(uses: seq<Use>, i: nat)
    ensures forall j, k :: 0 <= j < k < |YieldLabels(uses, i)| ==> YieldLabels(uses, i)[j] < YieldLabels(uses, i)[k]
    decreases |uses| - i
  {
    if i < |uses| && uses[i] != Generate {
      YieldLabelsIncreasing(uses, i + 1);
    }
  }

  /** Every routine labelled by `__COUNTER__` is valid: its yields' labels
      are distinct, increase in textual order and exceed the value `generate`
      consumed, so none of them is 0 and none clashes with `case 0`. */
  lemma CounterLabelsValid(uses: seq<Use>, g: nat, step: (nat, seq<int>) -> seq<int>)
    requires g < |uses| && uses[g] == Generate
    ensures RoutineAt(uses, g, step).Valid()
    ensures forall k :: 0 <= k < |RoutineAt(uses, g, step).labels| ==> RoutineAt(uses, g, step).labels[k] > 0
  {
    YieldLabelsIncreasing(uses, g + 1);
  }
}
