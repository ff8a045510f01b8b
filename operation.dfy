/**
  The single and strided operations the JIT emits (`jit_compile_unbound_single_ckernel`). The
  native kernel body is an uninterpreted function; memory is a value the scalar-result store updates.
 */
module Operation {
  import opened Wrappers
  import opened Marshal

  /** The native kernel body: what it returns for the arguments it is called with. */
  type Kernel = seq<Arg> -> int

  /** How the result reaches the destination: stored by value, or through a marshalled destination argument. */
  datatype RetPlan = StoreResult | PassDest(dst: ArgPlan)

  /** The emitted code: one plan per input, then the return handling. */
  datatype OpPlan = OpPlan(inputs: seq<ArgPlan>, ret: RetPlan)

  /** One kernel call: the pointers it was made from, what the kernel received, and what was stored at `dst`. */
  datatype Invocation = Invocation(dst: int, srcs: seq<int>, args: seq<Arg>, stored: Option<int>)

  datatype Effect = Effect(call: Invocation, mem: Memory)

  datatype Run = Run(log: seq<Invocation>, mem: Memory)

  /** Every extent the emitted code loads lies inside the kernel-data struct. */
  predicate OpLoadable(op: OpPlan, extra: KernelData) {
    AllLoadable(op.inputs, extra) && (op.ret.PassDest? ==> PlanLoadable(op.ret.dst, extra))
  }

  function StoreAt(mem: Memory, addr: int, v: int): Memory {
    a => if a == addr then v else mem(a)
  }

  /**
    The single operation on destination `dst` and source pointers `srcs`. A scalar result is
    stored at `dst` and nothing else changes; otherwise the destination is marshalled and passed
    as the extra last argument, and nothing is stored by value.
   */
  function SingleOperation(op: OpPlan, kernel: Kernel, dst: int, srcs: seq<int>, extra: KernelData, mem: Memory)
    : (e: Effect)
    requires |srcs| == |op.inputs| && OpLoadable(op, extra)
    ensures e.call.dst == dst && e.call.srcs == srcs
    ensures op.ret.StoreResult? ==>
      && e.call.args == MarshalAll(op.inputs, srcs, mem, extra)
      && e.call.stored == Some(kernel(e.call.args))
      && e.mem(dst) == kernel(e.call.args)
      && forall a :: a != dst ==> e.mem(a) == mem(a)
    ensures op.ret.PassDest? ==>
      && e.call.args == MarshalAll(op.inputs, srcs, mem, extra) + [RunArg(op.ret.dst, dst, mem, extra)]
      && e.call.stored == None
      && e.mem == mem
  {
    var args := MarshalAll(op.inputs, srcs, mem, extra);
    match op.ret
    case StoreResult =>
      var v := kernel(args);
      Effect(Invocation(dst, srcs, args, Some(v)), StoreAt(mem, dst, v))
    case PassDest(p) =>
      Effect(Invocation(dst, srcs, args + [RunArg(p, dst, mem, extra)], None), mem)
  }

  /** `k` strides of `s`, added up one at a time as the loop does (`ScaledIsProduct` gives `k * s`). */
  function Scaled(s: int, k: nat): int {
    if k == 0 then 0 else Scaled(s, k - 1) + s
  }

  lemma {:induction false} ScaledIsProduct(s: int, k: nat)
    ensures Scaled(s, k) == k * s
  {
    if k > 0 {
      ScaledIsProduct(s, k - 1);
    }
  }

  /** Every pointer advanced `k` times by its stride. */
  function Offsets(ptrs: seq<int>, strides: seq<int>, k: nat): seq<int>
    requires |strides| == |ptrs|
  {
    seq(|ptrs|, i requires 0 <= i < |ptrs| => ptrs[i] + Scaled(strides[i], k))
  }

  /** A call of the single-form operation: destination and source pointers and memory in, effect out. */
  type Step = (int, seq<int>, Memory) -> Effect

  /** The single operation as a `Step`. The strided loop only passes it `|op.inputs|` source pointers. */
  function SingleStep(op: OpPlan, kernel: Kernel, extra: KernelData): Step
    requires OpLoadable(op, extra)
  {
    (d: int, ptrs: seq<int>, m: Memory) =>
      if |ptrs| == |op.inputs| then SingleOperation(op, kernel, d, ptrs, extra, m)
      else Effect(Invocation(d, ptrs, [], None), m)
  }

  /**
    The first `k` iterations of a strided loop over `step`: iteration `j` calls it on
    `dst + j * dstStride` and `srcs[i] + j * strides[i]`, against the memory the earlier iterations left.
   */
  function Iterate(step: Step, dst: int, dstStride: int, srcs: seq<int>, strides: seq<int>, k: nat, mem0: Memory): Run
    requires |strides| == |srcs|
    decreases k
  {
    if k == 0 then Run([], mem0)
    else
      var prev := Iterate(step, dst, dstStride, srcs, strides, k - 1, mem0);
      var e := step(dst + Scaled(dstStride, k - 1), Offsets(srcs, strides, k - 1), prev.mem);
      Run(prev.log + [e.call], e.mem)
  }

  /** The first `k` iterations of the strided operation's loop. */
  function StridedRun(op: OpPlan, kernel: Kernel, dst: int, dstStride: int, srcs: seq<int>, strides: seq<int>,
                      k: nat, extra: KernelData, mem0: Memory): Run
    requires |srcs| == |op.inputs| && |strides| == |srcs| && OpLoadable(op, extra)
  {
    Iterate(SingleStep(op, kernel, extra), dst, dstStride, srcs, strides, k, mem0)
  }

  /**
    The strided operation. The source pointers are copied into a local array before the loop, the
    test `counter != 0` comes before the body, and the destination and local source pointers advance
    after the call. The method has no `modifies` clause, so the caller's pointer and stride arrays
    are only read.
   */
  method StridedOperation(op: OpPlan, kernel: Kernel, dst: int, dstStride: int, srcPtrs: array<int>,
                          srcStrides: array<int>, count: nat, extra: KernelData, mem0: Memory)
    returns (log: seq<Invocation>, mem: Memory)
    requires OpLoadable(op, extra)
    requires |op.inputs| <= srcPtrs.Length && |op.inputs| <= srcStrides.Length
    ensures count == 0 ==> log == [] && mem == mem0
    ensures Run(log, mem) == StridedRun(op, kernel, dst, dstStride, srcPtrs[..|op.inputs|],
                                        srcStrides[..|op.inputs|], count, extra, mem0)
  {
    var n := |op.inputs|;
    var local := CopyPointers(srcPtrs, n);
    var strides := srcStrides[..n];
    ghost var srcs := srcPtrs[..n];
    OffsetsZero(srcs, strides);
    var counter: nat := count;
    var d := dst;
    log, mem := [], mem0;
    ghost var k: nat := 0;
    while counter != 0
      invariant k + counter == count
      invariant local.Length == n
      invariant d == dst + Scaled(dstStride, k)
      invariant local[..] == Offsets(srcs, strides, k)
      invariant Run(log, mem) == StridedRun(op, kernel, dst, dstStride, srcs, strides, k, extra, mem0)
      decreases counter
    {
      counter := counter - 1;
      StridedRunNext(op, kernel, dst, dstStride, srcs, strides, k, extra, mem0, log, mem, d, local[..]);
      OffsetsNext(srcs, strides, k);
      log, mem, d := Iteration(op, kernel, extra, local, strides, d, dstStride, log, mem);
      k := k + 1;
    }
  }

  /** One pass of the strided loop's body: the single operation, then every pointer advanced by its stride. */
  method Iteration(op: OpPlan, kernel: Kernel, extra: KernelData, local: array<int>, strides: seq<int>, d: int,
                   dstStride: int, log: seq<Invocation>, mem: Memory)
    returns (log': seq<Invocation>, mem': Memory, d': int)
    requires OpLoadable(op, extra) && local.Length == |strides| == |op.inputs|
    modifies local
    ensures var e := SingleOperation(op, kernel, d, old(local[..]), extra, mem);
      log' == log + [e.call] && mem' == e.mem
    ensures d' == d + dstStride
    ensures local[..] == Advanced(old(local[..]), strides)
  {
    var e := SingleOperation(op, kernel, d, local[..], extra, mem);
    log', mem' := log + [e.call], e.mem;
    d' := d + dstStride;
    AdvancePointers(local, strides);
  }

  /** After `k` iterations, the next one appends the single operation on the pointers advanced `k` times. */
  lemma StridedRunNext(op: OpPlan, kernel: Kernel, dst: int, dstStride: int, srcs: seq<int>, strides: seq<int>,
                       k: nat, extra: KernelData, mem0: Memory, log: seq<Invocation>, mem: Memory, d: int, ptrs: seq<int>)
    requires |srcs| == |op.inputs| && |strides| == |srcs| && OpLoadable(op, extra)
    requires Run(log, mem) == StridedRun(op, kernel, dst, dstStride, srcs, strides, k, extra, mem0)
    requires d == dst + Scaled(dstStride, k) && ptrs == Offsets(srcs, strides, k)
    ensures |ptrs| == |op.inputs|
    ensures var e := SingleOperation(op, kernel, d, ptrs, extra, mem);
      Run(log + [e.call], e.mem) == StridedRun(op, kernel, dst, dstStride, srcs, strides, k + 1, extra, mem0)
  {
    IterateNext(SingleStep(op, kernel, extra), dst, dstStride, srcs, strides, k, mem0);
  }

  /** One more iteration of the loop appends one call, on the pointers advanced `k` times. */
  lemma IterateNext(step: Step, dst: int, dstStride: int, srcs: seq<int>, strides: seq<int>, k: nat, mem0: Memory)
    requires |strides| == |srcs|
    ensures var prev := Iterate(step, dst, dstStride, srcs, strides, k, mem0);
      var e := step(dst + Scaled(dstStride, k), Offsets(srcs, strides, k), prev.mem);
      Iterate(step, dst, dstStride, srcs, strides, k + 1, mem0) == Run(prev.log + [e.call], e.mem)
  {
  }

  /** The loop's local pointer array (`src_ptr_arr_tmp`), seeded from the caller's. */
  method CopyPointers(srcPtrs: array<int>, n: nat) returns (local: array<int>)
    requires n <= srcPtrs.Length
    ensures fresh(local) && local[..] == srcPtrs[..n]
  {
    local := new int[n];
    for i := 0 to n
      invariant forall j :: 0 <= j < i ==> local[j] == srcPtrs[j]
    {
      local[i] := srcPtrs[i];
    }
  }

  lemma OffsetsZero(ptrs: seq<int>, strides: seq<int>)
    requires |strides| == |ptrs|
    ensures Offsets(ptrs, strides, 0) == ptrs
  {
  }

  /** Every pointer advanced once by its stride. */
  function Advanced(ptrs: seq<int>, strides: seq<int>): seq<int>
    requires |strides| == |ptrs|
  {
    seq(|ptrs|, i requires 0 <= i < |ptrs| => ptrs[i] + strides[i])
  }

  /** The loop's pointer increments, applied in place to the local pointer array. */
  method AdvancePointers(local: array<int>, strides: seq<int>)
    requires local.Length == |strides|
    modifies local
    ensures local[..] == Advanced(old(local[..]), strides)
  {
    for i := 0 to local.Length
      invariant forall j :: 0 <= j < i ==> local[j] == old(local[j]) + strides[j]
      invariant forall j :: i <= j < local.Length ==> local[j] == old(local[j])
    {
      local[i] := local[i] + strides[i];
    }
  }

  lemma OffsetsNext(ptrs: seq<int>, strides: seq<int>, k: nat)
    requires |strides| == |ptrs|
    ensures Advanced(Offsets(ptrs, strides, k), strides) == Offsets(ptrs, strides, k + 1)
  {
  }

  lemma OffsetsShift(ptrs: seq<int>, strides: seq<int>, k: nat)
    requires |strides| == |ptrs|
    ensures Offsets(Advanced(ptrs, strides), strides, k) == Offsets(ptrs, strides, k + 1)
  {
    forall i | 0 <= i < |ptrs|
      ensures Offsets(Advanced(ptrs, strides), strides, k)[i] == Offsets(ptrs, strides, k + 1)[i]
    {
      ScaledShift(strides[i], k);
    }
  }

  lemma ScaledShift(s: int, k: nat)
    ensures s + Scaled(s, k) == Scaled(s, k + 1)
  {
  }

  // ---------------------------------------------------------------------------
  // What the strided loop does

  lemma {:induction false} IterateLength(step: Step, dst: int, dstStride: int, srcs: seq<int>, strides: seq<int>,
                                         k: nat, mem0: Memory)
    requires |strides| == |srcs|
    ensures |Iterate(step, dst, dstStride, srcs, strides, k, mem0).log| == k
    decreases k
  {
    if k > 0 {
      IterateLength(step, dst, dstStride, srcs, strides, k - 1, mem0);
    }
  }

  /** Call `j` is made on the pointers advanced `j` times, against the memory the first `j` calls left. */
  lemma {:induction false} IterateCall(step: Step, dst: int, dstStride: int, srcs: seq<int>, strides: seq<int>,
                                       k: nat, mem0: Memory, j: nat)
    requires |strides| == |srcs| && j < k
    ensures |Iterate(step, dst, dstStride, srcs, strides, k, mem0).log| == k
    ensures Iterate(step, dst, dstStride, srcs, strides, k, mem0).log[j]
         == step(dst + Scaled(dstStride, j), Offsets(srcs, strides, j), Iterate(step, dst, dstStride, srcs, strides, j, mem0).mem).call
    decreases k
  {
    IterateLength(step, dst, dstStride, srcs, strides, k, mem0);
    if j < k - 1 {
      IterateCall(step, dst, dstStride, srcs, strides, k - 1, mem0, j);
      IterateLength(step, dst, dstStride, srcs, strides, k - 1, mem0);
    }
  }

  /**
    Reference definition: `k` calls one after another, each on the previous call's pointers
    advanced by their strides.
   */
  function Sequential(step: Step, dst: int, dstStride: int, srcs: seq<int>, strides: seq<int>, k: nat, mem: Memory): Run
    requires |strides| == |srcs|
    decreases k
  {
    if k == 0 then Run([], mem)
    else
      var e := step(dst, srcs, mem);
      var rest := Sequential(step, dst + dstStride, dstStride, Advanced(srcs, strides), strides, k - 1, e.mem);
      Run([e.call] + rest.log, rest.mem)
  }

  /** Peeling the first iteration off the loop leaves the loop on the advanced pointers. */
  lemma {:induction false} IterateShift(step: Step, dst: int, dstStride: int, srcs: seq<int>, strides: seq<int>,
                                        k: nat, mem: Memory)
    requires |strides| == |srcs|
    ensures var e := step(dst, srcs, mem);
      var rest := Iterate(step, dst + dstStride, dstStride, Advanced(srcs, strides), strides, k, e.mem);
      Iterate(step, dst, dstStride, srcs, strides, k + 1, mem) == Run([e.call] + rest.log, rest.mem)
    decreases k
  {
    var e := step(dst, srcs, mem);
    var adv := Advanced(srcs, strides);
    if k == 0 {
      OffsetsZero(srcs, strides);
    } else {
      IterateShift(step, dst, dstStride, srcs, strides, k - 1, mem);
      var a := Iterate(step, dst, dstStride, srcs, strides, k, mem);
      var r := Iterate(step, dst + dstStride, dstStride, adv, strides, k - 1, e.mem);
      OffsetsShift(srcs, strides, k - 1);
      var ea := step(dst + Scaled(dstStride, k), Offsets(srcs, strides, k), a.mem);
      IterateNext(step, dst, dstStride, srcs, strides, k, mem);
      IterateNext(step, dst + dstStride, dstStride, adv, strides, k - 1, e.mem);
      RunCombine(a, r, Iterate(step, dst + dstStride, dstStride, adv, strides, k, e.mem),
                 Iterate(step, dst, dstStride, srcs, strides, k + 1, mem), e.call, ea);
    }
  }

  /** Appending the last call and prepending the first commute. */
  lemma RunCombine(a: Run, r: Run, rest: Run, next: Run, first: Invocation, last: Effect)
    requires a == Run([first] + r.log, r.mem)
    requires rest == Run(r.log + [last.call], last.mem)
    requires next == Run(a.log + [last.call], last.mem)
    ensures next == Run([first] + rest.log, rest.mem)
  {
    assert a.log + [last.call] == [first] + rest.log;
  }

  /** The loop is the reference: `k` calls one after another on ever-advanced pointers. */
  lemma {:induction false} IterateIsSequential(step: Step, dst: int, dstStride: int, srcs: seq<int>, strides: seq<int>,
                                               k: nat, mem: Memory)
    requires |strides| == |srcs|
    ensures Iterate(step, dst, dstStride, srcs, strides, k, mem) == Sequential(step, dst, dstStride, srcs, strides, k, mem)
    decreases k
  {
    if k > 0 {
      var e := step(dst, srcs, mem);
      IterateShift(step, dst, dstStride, srcs, strides, k - 1, mem);
      IterateIsSequential(step, dst + dstStride, dstStride, Advanced(srcs, strides), strides, k - 1, e.mem);
    }
  }

  // ---------------------------------------------------------------------------
  // What the strided operation does

  /** The loop makes exactly `count` kernel calls; none when `count` is zero. */
  lemma StridedCallCount(op: OpPlan, kernel: Kernel, dst: int, dstStride: int, srcs: seq<int>,
                         strides: seq<int>, count: nat, extra: KernelData, mem0: Memory)
    requires |srcs| == |op.inputs| && |strides| == |srcs| && OpLoadable(op, extra)
    ensures |StridedRun(op, kernel, dst, dstStride, srcs, strides, count, extra, mem0).log| == count
  {
    IterateLength(SingleStep(op, kernel, extra), dst, dstStride, srcs, strides, count, mem0);
  }

  /**
    Call `j` of the loop is the single operation on `dst + j * dstStride` and on every source
    pointer advanced `j` times by its stride, against the memory the first `j` calls left.
   */
  lemma StridedPointerProgression(op: OpPlan, kernel: Kernel, dst: int, dstStride: int,
                                  srcs: seq<int>, strides: seq<int>, count: nat,
                                  extra: KernelData, mem0: Memory, j: nat)
    requires |srcs| == |op.inputs| && |strides| == |srcs| && OpLoadable(op, extra)
    requires j < count
    ensures var log := StridedRun(op, kernel, dst, dstStride, srcs, strides, count, extra, mem0).log;
      && |log| == count
      && log[j].dst == dst + j * dstStride
      && |log[j].srcs| == |srcs|
      && (forall i :: 0 <= i < |srcs| ==> log[j].srcs[i] == srcs[i] + j * strides[i])
      && log[j] == SingleOperation(op, kernel, dst + j * dstStride, Offsets(srcs, strides, j), extra,
                                   StridedRun(op, kernel, dst, dstStride, srcs, strides, j, extra, mem0).mem).call
  {
    IterateCall(SingleStep(op, kernel, extra), dst, dstStride, srcs, strides, count, mem0, j);
    ScaledIsProduct(dstStride, j);
    forall i | 0 <= i < |srcs|
      ensures Offsets(srcs, strides, j)[i] == srcs[i] + j * strides[i]
    {
      ScaledIsProduct(strides[i], j);
    }
  }

  /** `k` single operations one after another, each on the previous call's pointers advanced by the strides. */
  function SequentialSingles(op: OpPlan, kernel: Kernel, dst: int, dstStride: int, srcs: seq<int>, strides: seq<int>,
                             k: nat, extra: KernelData, mem: Memory): Run
    requires |srcs| == |op.inputs| && |strides| == |srcs| && OpLoadable(op, extra)
  {
    Sequential(SingleStep(op, kernel, extra), dst, dstStride, srcs, strides, k, mem)
  }

  /** The strided form is `count` sequential single-form calls, each on the previous call's pointers advanced by the strides. */
  lemma StridedIsSequentialSingles(op: OpPlan, kernel: Kernel, dst: int, dstStride: int,
                                   srcs: seq<int>, strides: seq<int>, count: nat,
                                   extra: KernelData, mem0: Memory)
    requires |srcs| == |op.inputs| && |strides| == |srcs| && OpLoadable(op, extra)
    ensures StridedRun(op, kernel, dst, dstStride, srcs, strides, count, extra, mem0)
         == SequentialSingles(op, kernel, dst, dstStride, srcs, strides, count, extra, mem0)
  {
    IterateIsSequential(SingleStep(op, kernel, extra), dst, dstStride, srcs, strides, count, mem0);
  }

  // ---------------------------------------------------------------------------
  // An elementwise scalar kernel

  /**
    `mem` is `mem0` with `output[j] = kernel(input[j])` written for the `k` elements from `dst`,
    reading the inputs from `src` in `mem0`, and nothing else changed.
   */
  ghost predicate ElementwiseMapped(kernel: Kernel, dst: int, src: int, k: nat, mem0: Memory, mem: Memory) {
    && (forall a :: dst <= a < dst + k ==> mem(a) == kernel([ScalarVal(mem0(src + (a - dst)))]))
    && (forall a :: !(dst <= a < dst + k) ==> mem(a) == mem0(a))
  }

  /**
    A kernel with one scalar input and a scalar result, run with unit strides, maps
    `output[j] = kernel(input[j])` over the first `k` elements and writes nowhere else. The source
    run may start at or after the destination (in place included); it may not start inside the
    `k` elements before it, where a later load would see an earlier store.
   */
  lemma {:induction false} ElementwiseScalarRun(op: OpPlan, kernel: Kernel, dst: int, src: int, k: nat,
                                                extra: KernelData, mem0: Memory)
    requires op == OpPlan([LoadScalar], StoreResult)
    requires src >= dst || src <= dst - k
    ensures OpLoadable(op, extra)
    ensures |StridedRun(op, kernel, dst, 1, [src], [1], k, extra, mem0).log| == k
    ensures ElementwiseMapped(kernel, dst, src, k, mem0, StridedRun(op, kernel, dst, 1, [src], [1], k, extra, mem0).mem)
    decreases k
  {
    assert OpLoadable(op, extra);
    StridedCallCount(op, kernel, dst, 1, [src], [1], k, extra, mem0);
    if k > 0 {
      ElementwiseScalarRun(op, kernel, dst, src, k - 1, extra, mem0);
      ElementwiseScalarNext(op, kernel, dst, src, k, extra, mem0);
    } else {
      assert StridedRun(op, kernel, dst, 1, [src], [1], k, extra, mem0).mem == mem0;
    }
  }

  lemma ElementwiseScalarNext(op: OpPlan, kernel: Kernel, dst: int, src: int, k: nat, extra: KernelData, mem0: Memory)
    requires op == OpPlan([LoadScalar], StoreResult) && OpLoadable(op, extra) && k > 0
    requires src >= dst || src <= dst - k
    requires ElementwiseMapped(kernel, dst, src, k - 1, mem0, StridedRun(op, kernel, dst, 1, [src], [1], k - 1, extra, mem0).mem)
    ensures ElementwiseMapped(kernel, dst, src, k, mem0, StridedRun(op, kernel, dst, 1, [src], [1], k, extra, mem0).mem)
  {
    var prev := StridedRun(op, kernel, dst, 1, [src], [1], k - 1, extra, mem0);
    ScaledIsProduct(1, k - 1);
    var ptrs := Offsets([src], [1], k - 1);
    assert ptrs == [src + (k - 1)];
    var e := SingleOperation(op, kernel, dst + (k - 1), ptrs, extra, prev.mem);
    StridedRunNext(op, kernel, dst, 1, [src], [1], k - 1, extra, mem0, prev.log, prev.mem, dst + (k - 1), ptrs);
    assert prev.mem(src + (k - 1)) == mem0(src + (k - 1));
    assert e.call.args == [ScalarVal(mem0(src + (k - 1)))];
    var run := StridedRun(op, kernel, dst, 1, [src], [1], k, extra, mem0);
    assert run.mem == e.mem;
    ElementwiseStep(kernel, dst, src, k, mem0, prev.mem, run.mem, e.call.args);
  }

  /** One more element: the store at `dst + k - 1` extends the mapped range by one. */
  lemma ElementwiseStep(kernel: Kernel, dst: int, src: int, k: nat, mem0: Memory, prev: Memory, next: Memory,
                        args: seq<Arg>)
    requires k > 0 && ElementwiseMapped(kernel, dst, src, k - 1, mem0, prev)
    requires args == [ScalarVal(mem0(src + (k - 1)))]
    requires next(dst + (k - 1)) == kernel(args)
    requires forall a :: a != dst + (k - 1) ==> next(a) == prev(a)
    ensures ElementwiseMapped(kernel, dst, src, k, mem0, next)
  {
  }
}
