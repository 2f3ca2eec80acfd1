# Pi approximation host logic: partition, launch range and reduction

This project models the host-side logic of the `approximate_pi` program of
OpenCL-Adventures in Dafny. The program integrates numerically on an OpenCL
device. It queries the kernel's work-group size (`chunkSize`). It divides the
requested `INTEGRATION_STEPS = 512^3` steps into work-groups of `chunkSize`
work-items, where each work-item does `ITERATIONS = 262144` steps. It launches
the kernel over an NDRange of `stepCount / ITERATIONS` global and `chunkSize`
local work-items. It copies one partial sum per work-group (`h_chunks`) back
to the host. It sums the partials in index order and scales the total by
`stepWidth = 1 / stepCount`. It also turns the launch event's profiling
timestamps into microseconds.

Modules:

- `Machine` (`machine.dfy`) writes out the fixed-width arithmetic of an LP64
  target. `size_t` and `unsigned long` wrap modulo 2^64, and a conversion to
  `int` is taken modulo 2^32.
- `Partition` (`partition.dfy`) holds the partition plan, the launch range,
  the degenerate-plan check and the step width. The constants are parameters
  in general and fixed in `FixedPlan`.
- `AsWritten` (`as_written.dfy`) evaluates the same plan in 64-bit `size_t`
  arithmetic, exactly as line 53 and 54 compute it.
- `Reduction` (`reduction.dfy`) holds the accumulation loop over the partials,
  the in-order sum that specifies it, and regrouping lemmas.
- `ApproximatePi` (`approximate_pi.dfy`) holds one host run from the queried
  work-group size to the reduced value, plus the elapsed-time computation.

The OpenCL runtime and the kernel are parameters of `ApproximatePi.Run`:

- `chunkSize` is the result of the work-group-size query.
- `kernelPartial(g)` is the value the kernel leaves in element `g` of the
  device buffer.
- `timeStart` and `timeEnd` are the profiling values of the launch event.

Notes on the code's behaviour:

- With a work-group size of 256, the code realises all 2^27 steps. It uses 2
  chunks and a global size of 512 work-items (`Partition.ChunkSize256`).
- With a work-group size above 512, `chunkCount` and `stepCount` are 0. The
  code then computes `1.0 / 0` and asks for zero-length buffers. The model
  reports this case as `DegeneratePlan` before the step width is computed.

## Model

| member | source | states |
|---|---|---|
| Machine.WrapSize | src/approximate_pi/main.cpp:53-54 | The `size_t` (and, at line 78, `unsigned long`) value of an exact result is the unique value below 2^64 congruent to it modulo 2^64. It is the exact result when that is in range, and the result plus 2^64 for a negative result down to -2^64 |
| Machine.ToInt | src/approximate_pi/main.cpp:54 | Storing a `size_t` value into `int` gives the unique value in the 32-bit `int` range congruent to it modulo 2^32. It is the value itself when that is at most `INT_MAX` |
| Partition.ChunkCount | src/approximate_pi/main.cpp:53 | `chunkCount` is the truncating quotient: `chunkCount` groups of `chunkSize * ITERATIONS` steps fit in the total, and one more group does not |
| Partition.MakePlan | src/approximate_pi/main.cpp:53-54 | `stepCount` never exceeds the request, and the discarded remainder is below one group's steps. `stepCount` is an exact multiple of `chunkSize * ITERATIONS` with quotient `chunkCount`. `chunkCount` is 0 exactly when one group exceeds the request, and `stepCount` is 0 exactly when `chunkCount` is |
| Partition.CheckedPlan | src/approximate_pi/main.cpp:53-59 | The plan is reported as degenerate exactly when one group's steps exceed the request. Otherwise it has at least one chunk and a positive step count |
| Partition.StepWidth | src/approximate_pi/main.cpp:55 | With a positive step count, `stepWidth` is positive and `stepWidth * stepCount == 1` |
| Partition.Launch | src/approximate_pi/main.cpp:63 | The local range is `chunkSize`. The global range is the truncating quotient `stepCount / ITERATIONS`: that many work-items' steps fit in `stepCount`, and one more does not |
| Partition.LaunchDivisible | src/approximate_pi/main.cpp:63 | The local range is `chunkSize`. The global range `stepCount / ITERATIONS` is exact and equals `chunkSize * chunkCount`. It is divisible by the local range, as `clEnqueueNDRangeKernel` requires when a local size is given (section 5.8 of the OpenCL 1.2 specification), and the launch has exactly `chunkCount` work-groups |
| Partition.FixedPlan | src/approximate_pi/main.cpp:21-22 | With `INTEGRATION_STEPS = 512^3` and `ITERATIONS = 262144`, `chunkCount == 512 / chunkSize` and the plan is degenerate exactly when `chunkSize > 512`. `stepCount` is at most 2^27, so storing it in an `int` cannot overflow, for every `chunkSize >= 1` |
| Partition.FixedLaunch | src/approximate_pi/main.cpp:53-63 | With the program's constants and `1 <= chunkSize <= 512`: `chunkCount == 512 / chunkSize`, `stepCount` is positive, at most 2^27 and fits in an `int`, and the launch range is exact and divisible, with `chunkCount` groups of `chunkSize` |
| Partition.ChunkSize256 | src/approximate_pi/main.cpp:53-63 | A work-group size of 256 gives 2 chunks, 2^27 realised steps and a global range of 512 |
| AsWritten.PlanAsWritten | src/approximate_pi/main.cpp:53-54 | In 64-bit `size_t` arithmetic the divisor wraps to 0 exactly when `chunkSize * ITERATIONS` is a multiple of 2^64. Otherwise `stepCount` still never exceeds 2^27 and fits in an `int` |
| AsWritten.StepCountInRange | src/approximate_pi/main.cpp:53-54 | For any non-zero 64-bit divisor, `divisor * (INTEGRATION_STEPS / divisor)` is at most 2^27, so neither the `size_t` product nor the conversion to `int` at line 54 changes it |
| AsWritten.AsWrittenAgrees | src/approximate_pi/main.cpp:44-54 | For every work-group size below 2^46, the 64-bit computation equals the unbounded plan |
| AsWritten.AsWrittenDivisionByZero | src/approximate_pi/main.cpp:53 | At work-group size 2^46 the divisor `chunkSize * ITERATIONS` wraps to zero |
| AsWritten.AsWrittenLaunchNotDivisible | src/approximate_pi/main.cpp:53-63 | At work-group size 2^46 + 1 the computation plans 512 chunks and a global range of 512, which the local range does not divide |
| Reduction.Reduce | src/approximate_pi/main.cpp:81-85 | Given a vector of at least `chunkCount` partials, the loop reads indices `0, 1, ..., chunkCount - 1` once each, in ascending order (the recorded read sequence is exactly that), so every read is in bounds. It returns the in-order sum of those `chunkCount` partials multiplied by `stepWidth`, which is the sum of the whole vector when it holds exactly `chunkCount` values |
| Reduction.SumOrderIndependent | src/approximate_pi/main.cpp:82-84 | Over the reals, the bracketing of the fold does not matter: the left fold of the loop equals the sum taken from the front |
| Reduction.SumPermutation | src/approximate_pi/main.cpp:82-84 | Over the reals, any permutation of the partials has the same sum, so the result does not depend on the order in which the chunks are added |
| Reduction.ChunkedSumIsStepSum | src/approximate_pi/main.cpp:82-84 | Summing the per-group partials gives the in-order sum over all `n * width` steps of the launch |
| ApproximatePi.ElapsedNanoseconds | src/approximate_pi/main.cpp:76-78 | `d_timeEnd - d_timeStart` on `unsigned long` is the unique 64-bit value that, added to the start, gives the end. It is the plain difference when the end is not before the start, and it wraps otherwise |
| ApproximatePi.ExecTimeMicroseconds | src/approximate_pi/main.cpp:78 | The execution time is non-negative and equals the elapsed nanoseconds divided by 1000 |
| ApproximatePi.Run | src/approximate_pi/main.cpp:44-85 | A run fails with a degenerate plan exactly when `chunkSize > 512`. Otherwise: the plan is the truncating partition with `512 / chunkSize` chunks; `stepCount` is positive, at most 2^27 and fits in an `int`; the launch range is divisible, with `chunkCount` groups of `chunkSize`; the step width is `StepWidth` of the plan, so `stepWidth * stepCount == 1`; `h_chunks` has exactly `chunkCount` elements, each the kernel's partial for that group; the time is the elapsed nanoseconds over 1000; and the result is the in-order sum of `h_chunks` times `stepWidth` |
| ApproximatePi.ReducedValueIsStepMean | src/approximate_pi/main.cpp:55-85 | Suppose each work-group's partial is the sum of its own `chunkSize * ITERATIONS` consecutive per-step terms. Then the reduced value is the mean of the per-step terms over all `stepCount` realised steps |

## Left out

- Context, device and queue creation, the program build, the kernel functor and the work-group-size query (lines 29-47) are calls into the OpenCL runtime. The query's result is the `chunkSize` parameter.
- Buffer allocation, the launch, `queue.finish()` and `cl::copy` (lines 59-73) are runtime calls. The model represents the device buffer as the `chunkCount` values given by `kernelPartial`, and the copy as handing that sequence over to the host.
- The kernel `approximate_pi.cl` is not part of this model. `ReducedValueIsStepMean` therefore takes the per-group partials as a hypothesis.
- The profiling queries (lines 76-77) are runtime calls. Their results are the `timeStart` and `timeEnd` parameters.
- Integer widths: the model assumes an LP64 target, where `size_t` and `unsigned long` are 64 bits and `int` is 32 bits. On an LLP64 target `unsigned long` is 32 bits, and lines 76-77 would truncate the 64-bit profiling timestamps. That case is not modelled.
- The kernel's per-group output is described by `Reduction.ChunkSums`, which is the hypothesis of `ReducedValueIsStepMean`, not a model of any host line.
- IEEE-754 `double` arithmetic is left out: the sum, `1.0 / stepCount` and the division by `1000.000` are modelled over the reals, so rounding is not captured.
- Console output (lines 87-90) is left out, including the undeclared name `executionTimeMicroseconds` at line 88.
- The `cl::Error` handler (lines 93-95) is left out.
- `LoadProgram` in `include/util.h` is file I/O and is left out.
- The programs `src/vector_add/main.cpp` and `src/vadd/main.cpp` contain only runtime calls and `rand()` fills, so they are left out.
- ApproximatePi.Run: returns `DegeneratePlan` when `chunkSize > 512`. Line 55 would instead compute `1.0 / 0`, and line 59 would request a zero-size buffer. The OpenCL runtime refuses a zero-size buffer with `CL_INVALID_BUFFER_SIZE`, which reaches the handler at lines 93-95 because exceptions are enabled at line 7.
- ApproximatePi.Run: requires `chunkSize >= 1`, because the query never yields 0 and line 53 would then divide by zero. It uses the unbounded plan. The 64-bit evaluation is in `AsWritten`, and it agrees with the unbounded plan below 2^46.

## Findings

| source | as written | input that shows it | evidently intended | confidence | as-written member | corrected member |
|---|---|---|---|---|---|---|
| src/approximate_pi/main.cpp:53 | `chunkSize * ITERATIONS` is computed in 64-bit `size_t` and wraps | `chunkSize = 2^46`: the divisor becomes 0 and the division is undefined | a non-zero divisor `chunkSize * ITERATIONS` for every `chunkSize >= 1` | not executed; low practical impact, because real devices report work-group sizes far below 2^46 | AsWritten.AsWrittenDivisionByZero | Partition.ChunkCount |
| src/approximate_pi/main.cpp:53-63 | the wrapped divisor yields a plan whose global range is not a multiple of the local range | `chunkSize = 2^46 + 1`: 512 chunks, global range 512, local range 2^46 + 1 | a global range that is a multiple of `chunkSize`, with `chunkCount` groups | not executed; low practical impact, for the same reason | AsWritten.AsWrittenLaunchNotDivisible | Partition.LaunchDivisible |
