/** Work partitioning of the pi-approximation host program: from the kernel's
    work-group size (`chunkSize`) and the fixed problem size, the number of
    work-groups (`chunkCount`), the realised number of integration steps
    (`stepCount`) and the NDRange of the launch. */
module Partition {
  import opened Machine

  /** INTEGRATION_STEPS: the requested number of integration steps, 512^3 = 2^27. */
  const IntegrationSteps: nat := 512 * 512 * 512

  /** ITERATIONS: integration steps performed by one work-item, 2^18. */
  const Iterations: nat := 262144

  /** A partition of `requested` steps into `chunkCount` work-groups of
      `chunkSize` work-items, each work-item doing `iterations` steps. */
  datatype Plan = Plan(requested: nat, iterations: nat, chunkSize: nat, chunkCount: nat, stepCount: nat)
  {
    /** Steps covered by one work-group. */
    function ChunkSteps(): (r: nat) {
      chunkSize * iterations
    }

    /** The plan is the truncating partition of `requested`. */
    predicate WellFormed() {
      chunkSize >= 1 && iterations >= 1 &&
      chunkCount == requested / ChunkSteps() &&
      stepCount == chunkCount * ChunkSteps()
    }
  }

  /** Global and local work size of a one-dimensional `clEnqueueNDRangeKernel`. */
  datatype NDRange = NDRange(global: nat, local: nat)

  datatype PlanError = DegeneratePlan

  datatype Result<T> = Ok(value: T) | Err(error: PlanError)

  datatype Option<T> = None | Some(value: T)

  /** chunkCount: the number of whole work-groups that fit in `total` steps
      (truncating division). */
  function ChunkCount(total: nat, iterations: nat, chunkSize: nat): (r: nat)
    requires chunkSize >= 1 && iterations >= 1
    ensures r * (chunkSize * iterations) <= total < (r + 1) * (chunkSize * iterations)
  {
    var q := total / (chunkSize * iterations);
    assert total == q * (chunkSize * iterations) + total % (chunkSize * iterations);
    q
  }

  /** The partition plan; the realised step count is the largest multiple
      of a work-group's steps that does not exceed the request. */
  function MakePlan(total: nat, iterations: nat, chunkSize: nat): (p: Plan)
    requires chunkSize >= 1 && iterations >= 1
    ensures p.WellFormed()
    ensures p.requested == total && p.iterations == iterations && p.chunkSize == chunkSize
    ensures p.stepCount <= total && total - p.stepCount < chunkSize * iterations
    ensures p.stepCount % (chunkSize * iterations) == 0
    ensures p.stepCount / (chunkSize * iterations) == p.chunkCount
    ensures p.chunkCount == 0 <==> total < chunkSize * iterations
    ensures p.stepCount == 0 <==> p.chunkCount == 0
  {
    var n := ChunkCount(total, iterations, chunkSize);
    MulMod(n, chunkSize * iterations);
    Plan(total, iterations, chunkSize, n, chunkSize * iterations * n)
  }

  /** A plan that cannot be launched is reported instead of carried on. */
  function CheckedPlan(total: nat, iterations: nat, chunkSize: nat): (r: Result<Plan>)
    requires chunkSize >= 1 && iterations >= 1
    ensures r.Ok? <==> chunkSize * iterations <= total
    ensures r.Ok? ==> r.value == MakePlan(total, iterations, chunkSize)
    ensures r.Ok? ==> r.value.chunkCount >= 1 && r.value.stepCount >= chunkSize * iterations
  {
    var p := MakePlan(total, iterations, chunkSize);
    if p.chunkCount == 0 then Err(DegeneratePlan) else Ok(p)
  }

  /** stepWidth = 1.0 / stepCount, over the reals. */
  function StepWidth(p: Plan): (w: real)
    requires p.stepCount > 0
    ensures w > 0.0 && w * (p.stepCount as real) == 1.0
  {
    1.0 / (p.stepCount as real)
  }

  /** The launch range: `stepCount / ITERATIONS` work-items (truncating
      division of non-negative values) in groups of `chunkSize`. */
  function Launch(p: Plan): (r: NDRange)
    requires p.iterations >= 1
    ensures r.local == p.chunkSize
    ensures r.global * p.iterations <= p.stepCount < (r.global + 1) * p.iterations
  {
    NDRange(p.stepCount / p.iterations, p.chunkSize)
  }

  /** For a well-formed plan the global size is exact, it is a multiple of the
      local size as `clEnqueueNDRangeKernel` demands when a local size is given,
      and the launch has exactly `chunkCount` work-groups. */
  lemma LaunchDivisible(p: Plan)
    requires p.WellFormed()
    ensures Launch(p).local == p.chunkSize
    ensures Launch(p).global * p.iterations == p.stepCount
    ensures Launch(p).global == p.chunkSize * p.chunkCount
    ensures Launch(p).global % Launch(p).local == 0
    ensures Launch(p).global / Launch(p).local == p.chunkCount
  {
    var g := p.chunkSize * p.chunkCount;
    Regroup(p.chunkCount, p.chunkSize, p.iterations);
    MulMod(g, p.iterations);
    assert Launch(p).global == g;
    MulMod(p.chunkCount, p.chunkSize);
    assert g == p.chunkCount * p.chunkSize;
  }

  lemma Regroup(n: nat, c: nat, i: nat)
    ensures n * (c * i) == (c * n) * i
  {
  }

  /** With the program's constants: `chunkCount` is `512 / chunkSize`, the plan
      is degenerate exactly when `chunkSize > 512`, and `stepCount` never
      exceeds 2^27, so storing it into an `int` cannot overflow. */
  lemma FixedPlan(chunkSize: nat)
    requires chunkSize >= 1
    ensures var p := MakePlan(IntegrationSteps, Iterations, chunkSize);
      && p.chunkCount == 512 / chunkSize
      && (p.chunkCount == 0 <==> chunkSize > 512)
      && p.stepCount <= IntegrationSteps
      && FitsInt(p.stepCount) && ToInt(p.stepCount) == p.stepCount
  {
    var p := MakePlan(IntegrationSteps, Iterations, chunkSize);
    var q, r := 512 / chunkSize, 512 % chunkSize;
    assert 512 == q * chunkSize + r;
    assert IntegrationSteps == q * (chunkSize * Iterations) + r * Iterations;
    assert r * Iterations < chunkSize * Iterations;
    DivModUnique(IntegrationSteps, chunkSize * Iterations, q, r * Iterations);
  }

  /** With the program's constants and a work-group size of at most 512, the
      plan is launchable: its facts in the form the host run states them. */
  lemma FixedLaunch(chunkSize: nat)
    requires 1 <= chunkSize <= 512
    ensures var p := MakePlan(IntegrationSteps, Iterations, chunkSize);
      var l := Launch(p);
      && p.chunkCount == 512 / chunkSize
      && 0 < p.stepCount <= IntegrationSteps && FitsInt(p.stepCount)
      && l.local == chunkSize
      && l.global * Iterations == p.stepCount
      && l.global % l.local == 0
      && l.global / l.local == p.chunkCount
  {
    FixedPlan(chunkSize);
    LaunchDivisible(MakePlan(IntegrationSteps, Iterations, chunkSize));
  }

  /** A work-group size of 256: two chunks, all 2^27 steps realised, and a
      global size of 512 work-items. */
  lemma ChunkSize256()
    ensures var p := MakePlan(IntegrationSteps, Iterations, 256);
      && p.chunkCount == 2
      && p.stepCount == IntegrationSteps
      && Launch(p).global == 512
  {
    FixedPlan(256);
  }
}
