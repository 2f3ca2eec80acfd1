/** The partition arithmetic exactly as the host program evaluates it on an
    LP64 target: `chunkSize * ITERATIONS` and the product with `chunkCount`
    are `size_t` (unsigned 64-bit) and wrap around, and `stepCount` is an
    `int`. */
module AsWritten {
  import opened Machine
  import opened Partition

  /** 2^46: the smallest work-group size whose product with ITERATIONS (2^18)
      reaches 2^64. */
  const WrapChunkSize: nat := 0x4000_0000_0000

  /** The plan as computed in 64-bit arithmetic; `None` when the divisor of the
      `chunkCount` division wraps to zero (a division by zero, undefined in C++). */
  function PlanAsWritten(chunkSize: nat): (r: Option<Plan>)
    requires 1 <= chunkSize < SizeModulus
    ensures r.None? <==> WrapSize(chunkSize * Iterations) == 0
    ensures r.Some? ==> r.value.chunkSize == chunkSize && r.value.iterations == Iterations
    ensures r.Some? ==> r.value.stepCount <= IntegrationSteps && FitsInt(r.value.stepCount)
  {
    var divisor := WrapSize(chunkSize * Iterations);
    if divisor == 0 then None
    else
      var chunkCount := IntegrationSteps / divisor;
      StepCountInRange(divisor);
      var stepCount := ToInt(WrapSize(divisor * chunkCount));
      Some(Plan(IntegrationSteps, Iterations, chunkSize, chunkCount, stepCount))
  }

  /** Whatever the divisor, `divisor * chunkCount` is at most the request, so
      neither the `size_t` product nor the conversion to `int` changes it. */
  lemma StepCountInRange(divisor: nat)
    requires 0 < divisor < SizeModulus
    ensures var product := divisor * (IntegrationSteps / divisor);
      && product <= IntegrationSteps
      && WrapSize(product) == product
      && ToInt(WrapSize(product)) == product
  {
    var product := divisor * (IntegrationSteps / divisor);
    DivFloor(IntegrationSteps, divisor);
    SmallUnchanged(product);
  }

  lemma SmallUnchanged(x: nat)
    requires x <= IntegrationSteps
    ensures WrapSize(x) == x && ToInt(WrapSize(x)) == x
  {
  }

  /** Below 2^46 nothing wraps, and the 64-bit computation is the plan. */
  lemma AsWrittenAgrees(chunkSize: nat)
    requires 1 <= chunkSize < WrapChunkSize
    ensures PlanAsWritten(chunkSize) == Some(MakePlan(IntegrationSteps, Iterations, chunkSize))
  {
    assert chunkSize * Iterations < SizeModulus;
    var p := MakePlan(IntegrationSteps, Iterations, chunkSize);
    assert p.stepCount <= IntegrationSteps;
  }

  /** At 2^46 the divisor `chunkSize * ITERATIONS` wraps to zero. */
  lemma AsWrittenDivisionByZero()
    ensures PlanAsWritten(WrapChunkSize) == None
  {
    assert WrapChunkSize * Iterations == SizeModulus;
  }

  /** At 2^46 + 1 the divisor wraps to 2^18: the program plans 512 chunks and a
      global size of 512, which the local size 2^46 + 1 does not divide. */
  lemma AsWrittenLaunchNotDivisible()
    ensures var r := PlanAsWritten(WrapChunkSize + 1);
      && r.Some?
      && r.value.chunkCount == 512
      && !r.value.WellFormed()
      && Launch(r.value).global == 512
      && Launch(r.value).global % Launch(r.value).local != 0
  {
    assert (WrapChunkSize + 1) * Iterations == SizeModulus + Iterations;
    assert WrapSize((WrapChunkSize + 1) * Iterations) == Iterations;
  }
}
