/** The host side of the pi approximation around the kernel launch: plan the
    partition, size the chunk buffers, launch, copy the partials back, time
    the launch and reduce. The OpenCL runtime and the kernel are parameters:
    `chunkSize` is the queried work-group size, `kernelPartial(g)` the value
    the kernel leaves in element `g` of the device buffer, and the two
    timestamps are the profiling values of the launch event. */
module ApproximatePi {
  import opened Machine
  import opened Partition
  import opened Reduction

  datatype Outcome = Outcome(
    plan: Plan,
    launch: NDRange,
    stepWidth: real,
    hChunks: seq<real>,
    execTimeMicroseconds: real,
    pi: real)

  /** `d_timeEnd - d_timeStart` on `unsigned long`: the unique 64-bit value that
      added to the start gives the end, which is the plain difference unless
      the end is before the start. */
  function ElapsedNanoseconds(timeStart: nat, timeEnd: nat): (d: nat)
    requires timeStart < SizeModulus && timeEnd < SizeModulus
    ensures d < SizeModulus && (timeStart + d) % SizeModulus == timeEnd
    ensures timeStart <= timeEnd ==> d == timeEnd - timeStart
    ensures timeEnd < timeStart ==> d > timeEnd
  {
    var d := WrapSize(timeEnd - timeStart);
    assert timeStart + d == timeEnd || timeStart + d == timeEnd + SizeModulus;
    d
  }

  /** Nanoseconds to microseconds, the division taken exactly. */
  function ExecTimeMicroseconds(timeStart: nat, timeEnd: nat): (t: real)
    requires timeStart < SizeModulus && timeEnd < SizeModulus
    ensures t >= 0.0 && t * 1000.0 == ElapsedNanoseconds(timeStart, timeEnd) as real
  {
    ElapsedNanoseconds(timeStart, timeEnd) as real / 1000.0
  }

  /** One run of the host program after the work-group size is known. A plan
      with no chunks is reported as `DegeneratePlan` before the step width or
      the zero-length buffers are computed. */
  method Run(chunkSize: nat, kernelPartial: nat -> real, timeStart: nat, timeEnd: nat)
    returns (r: Result<Outcome>)
    requires chunkSize >= 1
    requires timeStart < SizeModulus && timeEnd < SizeModulus
    ensures r.Err? <==> chunkSize > 512
    ensures r.Ok? ==>
      var o := r.value;
      && o.plan == MakePlan(IntegrationSteps, Iterations, chunkSize)
      && o.plan.chunkCount == 512 / chunkSize
      && 0 < o.plan.stepCount <= IntegrationSteps && FitsInt(o.plan.stepCount)
      && o.launch.local == chunkSize
      && o.launch.global * Iterations == o.plan.stepCount
      && o.launch.global % o.launch.local == 0
      && o.launch.global / o.launch.local == o.plan.chunkCount
      && o.stepWidth == StepWidth(o.plan)
      && |o.hChunks| == o.plan.chunkCount
      && (forall g :: 0 <= g < |o.hChunks| ==> o.hChunks[g] == kernelPartial(g))
      && o.execTimeMicroseconds * 1000.0 == ElapsedNanoseconds(timeStart, timeEnd) as real
      && (timeStart <= timeEnd ==> o.execTimeMicroseconds * 1000.0 == (timeEnd - timeStart) as real)
      && o.pi == Sum(o.hChunks) * o.stepWidth
  {
    var planned := CheckedPlan(IntegrationSteps, Iterations, chunkSize);
    FixedPlan(chunkSize);
    if planned.Err? {
      return Err(planned.error);
    }
    var plan := planned.value;
    assert chunkSize <= 512;
    FixedLaunch(chunkSize);
    var stepWidth := StepWidth(plan);
    // The device buffer d_chunks and the host vector h_chunks both hold
    // chunkCount values; the copy brings the kernel's partials across.
    var dChunks := seq(plan.chunkCount, g requires 0 <= g => kernelPartial(g));
    var launch := Launch(plan);
    var hChunks := dChunks;
    var execTime := ExecTimeMicroseconds(timeStart, timeEnd);
    var pi, visited := Reduce(hChunks, plan.chunkCount, stepWidth);
    return Ok(Outcome(plan, launch, stepWidth, hChunks, execTime, pi));
  }

  /** If work-group `g` leaves the in-order sum of the per-step terms of its
      own `chunkSize * ITERATIONS` consecutive steps, the reduced value is the
      mean of the per-step terms over all `stepCount` realised steps. */
  lemma ReducedValueIsStepMean(p: Plan, f: nat -> real, hChunks: seq<real>)
    requires p.stepCount == p.chunkCount * p.ChunkSteps() && p.stepCount > 0
    requires hChunks == ChunkSums(f, p.ChunkSteps(), p.chunkCount)
    ensures Sum(hChunks) * StepWidth(p) == StepSum(f, 0, p.stepCount) / (p.stepCount as real)
  {
    var n := p.stepCount;
    var total := StepSum(f, 0, n);
    ChunkedSumIsStepSum(f, p.ChunkSteps(), p.chunkCount);
    assert Sum(hChunks) == total;
    assert StepWidth(p) == 1.0 / (n as real);
    ScaleByInverse(total, n as real);
  }

  lemma ScaleByInverse(x: real, n: real)
    requires n > 0.0
    ensures x * (1.0 / n) == x / n
  {
  }
}
