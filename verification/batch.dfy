/** The shape of the enrichment loop in filter.js (lines 60-74), apart from
    what it does to one record: a step is applied to every element in order,
    results are buffered, and the first failing step aborts the run, so that
    the single write at the end happens only when every step succeeded. */
module Batch {
  import opened Wrappers

  /** Where and why a run stopped: the position of the offending element and
      the step's error for it. */
  datatype Abort<+E> = Abort(index: nat, error: E)

  /** What a run of `step` over `xs` may produce: either every element's
      result, position by position, or an abort at the first element whose
      step fails, with no results at all. */
  ghost predicate IsRunOutcome<X, Y, E>(step: X -> Result<Y, E>, xs: seq<X>,
                                        r: Result<seq<Y>, Abort<E>>)
  {
    match r
    case Success(out) =>
      && |out| == |xs|
      && forall i :: 0 <= i < |xs| ==> step(xs[i]) == Success(out[i])
    case Failure(Abort(i, e)) =>
      && i < |xs|
      && step(xs[i]) == Failure(e)
      && forall j :: 0 <= j < i ==> step(xs[j]).Success?
  }

  function Run<X, Y, E>(step: X -> Result<Y, E>, xs: seq<X>): (r: Result<seq<Y>, Abort<E>>)
    ensures IsRunOutcome(step, xs, r)
    ensures r.Success? <==> forall i :: 0 <= i < |xs| ==> step(xs[i]).Success?
  {
    if |xs| == 0 then Success([])
    else match step(xs[0])
      case Failure(e) => Failure(Abort(0, e))
      case Success(first) =>
        match Run(step, xs[1..])
        case Failure(Abort(i, e)) => Failure(Abort(i + 1, e))
        case Success(rest) => Success([first] + rest)
  }

  /** A run has exactly one possible outcome. */
  lemma OutcomeUnique<X, Y, E>(step: X -> Result<Y, E>, xs: seq<X>,
                               r1: Result<seq<Y>, Abort<E>>, r2: Result<seq<Y>, Abort<E>>)
    requires IsRunOutcome(step, xs, r1) && IsRunOutcome(step, xs, r2)
    ensures r1 == r2
  {
    if r1.Success? && r2.Success? {
      assert r1.value == r2.value;
    }
  }

  /** Splitting the input, running the parts separately and joining the
      results in order gives the run over the whole input: the second part
      only matters when the first succeeds, and an abort in it is reported
      at its position in the whole input. */
  lemma RunAppend<X, Y, E>(step: X -> Result<Y, E>, xs: seq<X>, ys: seq<X>)
    ensures Run(step, xs).Failure? ==> Run(step, xs + ys) == Run(step, xs)
    ensures Run(step, xs).Success? && Run(step, ys).Failure? ==>
      Run(step, xs + ys) ==
        Failure(Abort(|xs| + Run(step, ys).error.index, Run(step, ys).error.error))
    ensures Run(step, xs).Success? && Run(step, ys).Success? ==>
      Run(step, xs + ys) == Success(Run(step, xs).value + Run(step, ys).value)
  {
    var r1, r2 := Run(step, xs), Run(step, ys);
    if r1.Failure? {
      AbortInFront(step, xs, ys, r1);
      OutcomeUnique(step, xs + ys, r1, Run(step, xs + ys));
    } else if r2.Failure? {
      var r := Failure(Abort(|xs| + r2.error.index, r2.error.error));
      AbortInBack(step, xs, ys, r1.value, r2.error);
      OutcomeUnique(step, xs + ys, r, Run(step, xs + ys));
    } else {
      var r := Success(r1.value + r2.value);
      BothSucceed(step, xs, ys, r1.value, r2.value);
      OutcomeUnique(step, xs + ys, r, Run(step, xs + ys));
    }
  }

  lemma AbortInFront<X, Y, E>(step: X -> Result<Y, E>, xs: seq<X>, ys: seq<X>,
                              r: Result<seq<Y>, Abort<E>>)
    requires r.Failure? && IsRunOutcome(step, xs, r)
    ensures IsRunOutcome(step, xs + ys, r)
  {
    assert forall j :: 0 <= j <= r.error.index ==> (xs + ys)[j] == xs[j];
  }

  lemma AbortInBack<X, Y, E>(step: X -> Result<Y, E>, xs: seq<X>, ys: seq<X>,
                             front: seq<Y>, a: Abort<E>)
    requires IsRunOutcome(step, xs, Success(front)) && IsRunOutcome(step, ys, Failure(a))
    ensures IsRunOutcome(step, xs + ys, Failure(Abort(|xs| + a.index, a.error)))
  {
    var whole := xs + ys;
    assert whole[|xs| + a.index] == ys[a.index];
    forall j | 0 <= j < |xs| + a.index ensures step(whole[j]).Success? {
      if j < |xs| {
        assert whole[j] == xs[j];
      } else {
        assert whole[j] == ys[j - |xs|];
      }
    }
  }

  lemma BothSucceed<X, Y, E>(step: X -> Result<Y, E>, xs: seq<X>, ys: seq<X>,
                             front: seq<Y>, back: seq<Y>)
    requires IsRunOutcome(step, xs, Success(front)) && IsRunOutcome(step, ys, Success(back))
    ensures IsRunOutcome(step, xs + ys, Success(front + back))
  {
    var whole := xs + ys;
    forall j | 0 <= j < |whole| ensures step(whole[j]) == Success((front + back)[j]) {
      if j < |xs| {
        assert whole[j] == xs[j];
      } else {
        assert whole[j] == ys[j - |xs|];
      }
    }
  }

  /** Running one more element: a run that has succeeded so far either
      takes that element's result or aborts at its position. */
  lemma RunExtend<X, Y, E>(step: X -> Result<Y, E>, xs: seq<X>, x: X, done: seq<Y>)
    requires Run(step, xs) == Success(done)
    ensures step(x).Success? ==> Run(step, xs + [x]) == Success(done + [step(x).value])
    ensures step(x).Failure? ==> Run(step, xs + [x]) == Failure(Abort(|xs|, step(x).error))
  {
    match step(x)
    case Success(y) =>
      assert IsRunOutcome(step, [x], Success([y]));
      BothSucceed(step, xs, [x], done, [y]);
      OutcomeUnique(step, xs + [x], Success(done + [y]), Run(step, xs + [x]));
    case Failure(e) =>
      assert IsRunOutcome(step, [x], Failure(Abort(0, e)));
      AbortInBack(step, xs, [x], done, Abort(0, e));
      OutcomeUnique(step, xs + [x], Failure(Abort(|xs|, e)), Run(step, xs + [x]));
  }

  /** One iteration of `RunLoop`, on prefixes of its input. */
  lemma RunPrefixStep<X, Y, E>(step: X -> Result<Y, E>, xs: seq<X>, i: nat, done: seq<Y>)
    requires i < |xs| && Run(step, xs[..i]) == Success(done)
    ensures step(xs[i]).Success? ==> Run(step, xs[..i + 1]) == Success(done + [step(xs[i]).value])
    ensures step(xs[i]).Failure? ==> Run(step, xs) == Failure(Abort(i, step(xs[i]).error))
  {
    var r := Run(step, xs[..i]);
    assert IsRunOutcome(step, xs[..i], r);
    match step(xs[i])
    case Success(y) =>
      OutcomeGrows(step, xs, i, done);
      OutcomeUnique(step, xs[..i + 1], Success(done + [y]), Run(step, xs[..i + 1]));
    case Failure(e) =>
      OutcomeGrows(step, xs, i, done);
      OutcomeUnique(step, xs, Failure(Abort(i, e)), Run(step, xs));
  }

  /** `RunPrefixStep` stated on outcomes alone: the outcome of a successful
      prefix grows by one result, or the element after it is where the
      whole input aborts. */
  lemma OutcomeGrows<X, Y, E>(step: X -> Result<Y, E>, xs: seq<X>, i: nat, done: seq<Y>)
    requires i < |xs| && IsRunOutcome(step, xs[..i], Success(done))
    ensures step(xs[i]).Success? ==>
      IsRunOutcome(step, xs[..i + 1], Success(done + [step(xs[i]).value]))
    ensures step(xs[i]).Failure? ==>
      IsRunOutcome(step, xs, Failure(Abort(i, step(xs[i]).error)))
  {
    forall j | 0 <= j < i
      ensures step(xs[j]) == Success(done[j])
    {
      assert xs[..i][j] == xs[j];
    }
    if step(xs[i]).Success? {
      var grown, out := xs[..i + 1], done + [step(xs[i]).value];
      forall j | 0 <= j < |grown|
        ensures step(grown[j]) == Success(out[j])
      {
        assert grown[j] == xs[j];
      }
    }
  }

  /** An abort in a prefix is the abort of the whole run. */
  lemma AbortInPrefix<X, Y, E>(step: X -> Result<Y, E>, xs: seq<X>, k: nat)
    requires k <= |xs| && Run(step, xs[..k]).Failure?
    ensures Run(step, xs) == Run(step, xs[..k])
  {
    RunAppend(step, xs[..k], xs[k..]);
    assert xs[..k] + xs[k..] == xs;
  }

  /** The loop itself: results are appended to a buffer in input order and
      the buffer is handed out only after the last element; the first
      failing step returns its position and error instead. */
  method RunLoop<X, Y, E>(step: X -> Result<Y, E>, xs: seq<X>) returns (r: Result<seq<Y>, Abort<E>>)
    ensures r == Run(step, xs)
    ensures IsRunOutcome(step, xs, r)
  {
    var buffer: seq<Y> := [];
    var i := 0;
    while i < |xs|
      invariant 0 <= i <= |xs|
      invariant Run(step, xs[..i]) == Success(buffer)
    {
      var result := step(xs[i]);
      RunPrefixStep(step, xs, i, buffer);
      if result.Failure? {
        return Failure(Abort(i, result.error));
      }
      buffer := buffer + [result.value];
      i := i + 1;
    }
    assert xs[..i] == xs;
    return Success(buffer);
  }
}
