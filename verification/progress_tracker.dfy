/**
 * The PDF processor's `ProgressTracker`: a step counter against a fixed total, the percentage
 * each update reports and the estimate of the remaining time. The clock is not read: the
 * seconds elapsed since the tracker was created are given to `GetEta`.
 */
module ProgressTracker {
  import opened Wrappers

  /** Python's `ZeroDivisionError`, the one exception the tracker's arithmetic can raise. */
  datatype ArithmeticError = ZeroDivision

  /** `current / total * 100`, not clamped. */
  function Percentage(current: int, total: int): (r: Result<real, ArithmeticError>)
    ensures total == 0 <==> r.Err?
    ensures r.Ok? ==> r.value * (total as real) == (current as real) * 100.0
  {
    if total == 0 then Err(ZeroDivision)
    else Ok((current as real) / (total as real) * 100.0)
  }

  /** The percentage is 100 exactly when the count reaches the total, and goes past it when
      the count does: nothing caps it. */
  lemma PercentageAtTotal(current: int, total: int)
    requires total > 0
    ensures Percentage(current, total).value == 100.0 <==> current == total
    ensures current > total ==> Percentage(current, total).value > 100.0
    ensures 0 <= current <= total ==> 0.0 <= Percentage(current, total).value <= 100.0
  {
    var p := Percentage(current, total).value;
    var c, t := current as real, total as real;
    assert p * t == c * 100.0;
    if p == 100.0 {
      assert c * 100.0 == t * 100.0;
    }
    if current > total {
      assert p * t > t * 100.0;
    }
  }

  /** The `steps_completed` of `update` when the caller gives none. */
  const DefaultSteps: int := 1

  class ProgressTracker {
    const totalSteps: int
    var currentStep: int

    /** A new tracker has done no step. */
    constructor (totalSteps: int)
      ensures this.totalSteps == totalSteps && currentStep == 0
    {
      this.totalSteps := totalSteps;
      currentStep := 0;
    }

    /** `update(steps_completed)`: the count moves by the given number of steps
        (`DefaultSteps` unless given, and possibly negative) before the percentage is computed, so the count has moved even when a zero
        total makes the division raise. */
    method Update(stepsCompleted: int) returns (r: Result<real, ArithmeticError>)
      modifies this
      ensures currentStep == old(currentStep) + stepsCompleted
      ensures r == Percentage(currentStep, totalSteps)
    {
      currentStep := currentStep + stepsCompleted;
      if totalSteps == 0 {
        return Err(ZeroDivision);
      }
      return Ok((currentStep as real) / (totalSteps as real) * 100.0);
    }

    /** `get_eta` after `elapsed` seconds: no estimate before the first step; otherwise the
        remaining steps at the observed rate, `(total - current) * elapsed / current`, when the
        rate is positive, and no estimate when it is not. No elapsed time with steps done is a
        division by zero. */
    function GetEta(elapsed: real): (r: Result<Option<real>, ArithmeticError>)
      reads this
      ensures currentStep == 0 ==> r == Ok(None)
      ensures currentStep != 0 && elapsed == 0.0 ==> r == Err(ZeroDivision)
      ensures currentStep != 0 && elapsed != 0.0 ==>
        (r.Ok? && (r.value.Some? <==> (currentStep as real) / elapsed > 0.0))
      ensures r.Ok? && r.value.Some? ==>
        r.value.value * (currentStep as real) == ((totalSteps - currentStep) as real) * elapsed
    {
      if currentStep == 0 then Ok(None)
      else if elapsed == 0.0 then Err(ZeroDivision)
      else
        var rate := (currentStep as real) / elapsed;
        var remainingSteps := (totalSteps - currentStep) as real;
        if rate > 0.0 then
          EtaFormula(remainingSteps, currentStep as real, elapsed);
          Ok(Some(remainingSteps / rate))
        else Ok(None)
    }

    /** Once every step is done the estimate is zero seconds. */
    lemma EtaAtEnd(elapsed: real)
      requires currentStep == totalSteps && currentStep != 0 && elapsed != 0.0
      requires (currentStep as real) / elapsed > 0.0
      ensures GetEta(elapsed) == Ok(Some(0.0))
    {
      var r := GetEta(elapsed).value.value;
      assert r * (currentStep as real) == 0.0;
    }
  }

  /** Dividing the remaining steps by the rate `current / elapsed`. */
  lemma EtaFormula(remaining: real, current: real, elapsed: real)
    requires current != 0.0 && elapsed != 0.0 && current / elapsed != 0.0
    ensures (remaining / (current / elapsed)) * current == remaining * elapsed
  {
    var rate := current / elapsed;
    assert rate * elapsed == current;
    var q := remaining / rate;
    assert q * rate == remaining;
    calc {
      q * current;
      q * (rate * elapsed);
      (q * rate) * elapsed;
      remaining * elapsed;
    }
  }

  /** From a new tracker, `total` unit updates report exactly 100 percent at the end. */
  method RunToCompletion(t: ProgressTracker) returns (last: Result<real, ArithmeticError>)
    requires t.currentStep == 0 && t.totalSteps > 0
    modifies t
    ensures t.currentStep == t.totalSteps
    ensures last == Ok(100.0)
  {
    last := Ok(0.0);
    var i := 0;
    while i < t.totalSteps
      invariant 0 <= i <= t.totalSteps && t.currentStep == i
      invariant i > 0 ==> last == Percentage(i, t.totalSteps)
    {
      last := t.Update(DefaultSteps);
      i := i + 1;
    }
    PercentageAtTotal(t.totalSteps, t.totalSteps);
  }
}
