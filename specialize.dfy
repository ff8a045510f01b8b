/**
  The specializer (`jit_compile_unbound_single_ckernel`): build the kernel-data layout, generate
  the marshalling of every input and the return handling, and package the single or strided
  operation with the layout its bind routine fills.
 */
module Specialize {
  import opened Wrappers
  import opened Kinds
  import opened KernelDataLayout
  import opened Marshal
  import opened Operation
  import opened Bind

  /** `ExprSingleOperation` or `ExprStridedOperation`. */
  datatype OpTag = SingleOp | StridedOp

  /** The packaged result: the operation's tag and code, and the kernel-data layout its bind routine fills. */
  datatype UnboundKernel = UnboundKernel(tag: OpTag, op: OpPlan, layout: Layout)

  datatype SpecializeError = LayoutFailed(layoutError: LayoutError) | CodegenFailed(codegenError: CodegenError)

  /**
    What specialization produces: the layout first (its errors come first), then the inputs in
    order, then the destination when the result is not a scalar.
   */
  function JitCompile(d: Descriptor, strided: bool): Result<UnboundKernel, SpecializeError>
    requires d.WellFormed()
  {
    match BuildLayout(d.kinds, d.argtypes, d.dshapes)
    case Err(e) => Err(LayoutFailed(e))
    case Ok(l) =>
      LayoutFieldIndices(d.kinds, d.argtypes, d.dshapes);
      var n := d.Arity();
      match PlanInputs(d.kinds, d.dshapes, l.fieldIndex, n)
      case Err(e) => Err(CodegenFailed(e))
      case Ok(inputs) =>
        var tag := if strided then StridedOp else SingleOp;
        if d.kinds[n] == Scalar then Ok(UnboundKernel(tag, OpPlan(inputs, StoreResult), l))
        else
          match PlanArg(d.kinds[n], d.dshapes[n], l.fieldIndex[n])
          case Err(e) => Err(CodegenFailed(e))
          case Ok(p) => Ok(UnboundKernel(tag, OpPlan(inputs, PassDest(p)), l))
  }

  /** The specializer as the source runs it: the layout builder, then the source marshalling loop, then the return kind. */
  method JitCompileUnboundSingleCKernel(d: Descriptor, strided: bool) returns (r: Result<UnboundKernel, SpecializeError>)
    requires d.WellFormed()
    ensures r == JitCompile(d, strided)
  {
    var n := d.Arity();
    var layout := ArgsToKernelDataStruct(d.kinds, d.argtypes, d.dshapes);
    if layout.Err? {
      return Err(LayoutFailed(layout.error));
    }
    var l := layout.value;
    LayoutFieldIndices(d.kinds, d.argtypes, d.dshapes);
    var args := BuildSrcPlans(d.kinds[..n], d.dshapes, d.argtypes, l.fieldIndex);
    assert Min(Min(|d.dshapes|, n), |d.argtypes|) == n;
    PlanInputsPrefix(d.kinds, d.dshapes, l.fieldIndex, n);
    if args.Err? {
      return Err(CodegenFailed(args.error));
    }
    var tag := if strided then StridedOp else SingleOp;
    var kind := d.kinds[n];
    if kind == Scalar {
      return Ok(UnboundKernel(tag, OpPlan(args.value, StoreResult), l));
    }
    var dstPlan := PlanArg(kind, d.dshapes[n], l.fieldIndex[n]);
    if dstPlan.Err? {
      return Err(CodegenFailed(dstPlan.error));
    }
    return Ok(UnboundKernel(tag, OpPlan(args.value, PassDest(dstPlan.value)), l));
  }

  /** Planning the inputs only looks at the first `n` kinds. */
  lemma {:induction false} PlanInputsPrefix(kinds: seq<Kind>, dshapes: seq<DShape>, fieldIndex: seq<Option<nat>>, n: nat)
    requires n <= |kinds| && n <= |dshapes| && n <= |fieldIndex|
    requires forall i :: 0 <= i < n && kinds[i].Array? ==> fieldIndex[i].Some?
    ensures PlanInputs(kinds[..n], dshapes, fieldIndex, n) == PlanInputs(kinds, dshapes, fieldIndex, n)
  {
    PlanInputsAgree(kinds[..n], kinds, dshapes, fieldIndex, n);
  }

  lemma {:induction false} PlanInputsAgree(a: seq<Kind>, b: seq<Kind>, dshapes: seq<DShape>, fieldIndex: seq<Option<nat>>, n: nat)
    requires n <= |a| && n <= |b| && n <= |dshapes| && n <= |fieldIndex|
    requires forall i :: 0 <= i < n ==> a[i] == b[i]
    requires forall i :: 0 <= i < n && a[i].Array? ==> fieldIndex[i].Some?
    ensures PlanInputs(a, dshapes, fieldIndex, n) == PlanInputs(b, dshapes, fieldIndex, n)
  {
    if n > 0 {
      PlanInputsAgree(a, b, dshapes, fieldIndex, n - 1);
    }
  }

  // ---------------------------------------------------------------------------
  // What specialization guarantees

  /**
    A successful specialization carries the builder's layout, one plan per input as the
    marshaller generates it, and a return handling chosen by the return kind: a scalar result is
    stored, anything else is marshalled as the destination argument. It fails with the layout
    error when the layout builder fails, and otherwise exactly when an input, or a non-scalar
    destination, has a dimension the marshaller does not support.
   */
  lemma JitCompileOutcome(d: Descriptor, strided: bool)
    requires d.WellFormed()
    ensures var r := JitCompile(d, strided);
      var layout := BuildLayout(d.kinds, d.argtypes, d.dshapes);
      var n := d.Arity();
      && (layout.Err? ==> r == Err(LayoutFailed(layout.error)))
      && (r.Ok? ==>
            && layout.Ok? && r.value.layout == layout.value
            && r.value.tag == (if strided then StridedOp else SingleOp)
            && |r.value.op.inputs| == n
            && n <= |layout.value.fieldIndex|
            && (d.kinds[n] != Scalar ==> n < |layout.value.fieldIndex|)
            && (forall i :: 0 <= i < n && d.kinds[i].Array? ==> layout.value.fieldIndex[i].Some?)
            && (forall i :: 0 <= i < n ==>
                  r.value.op.inputs[i] == PlanArg(d.kinds[i], d.dshapes[i], layout.value.fieldIndex[i]).value)
            && (d.kinds[n] == Scalar <==> r.value.op.ret == StoreResult)
            && (d.kinds[n] != Scalar ==>
                  d.kinds[n].Array? ==> layout.value.fieldIndex[n].Some?)
            && (d.kinds[n] != Scalar ==>
                  r.value.op.ret == PassDest(PlanArg(d.kinds[n], d.dshapes[n], layout.value.fieldIndex[n]).value)))
      && (layout.Ok? ==>
            (r.Err? <==>
               (exists i :: 0 <= i < n && HasUnsupportedDim(d.kinds[i], d.dshapes[i])) ||
               (d.kinds[n] != Scalar && HasUnsupportedDim(d.kinds[n], d.dshapes[n]))))
  {
    LayoutFieldIndices(d.kinds, d.argtypes, d.dshapes);
    LayoutErrors(d.kinds, d.argtypes, d.dshapes);
  }

  /** An array argument with a dimension that is neither `Fixed` nor `TypeVar`. */
  predicate HasUnsupportedDim(k: Kind, ds: DShape) {
    k.Array? && exists j :: 0 <= j < |ds.dims| && ds.dims[j].Var?
  }

  /**
    The single and the strided specialization of one descriptor agree on everything but their tag.
    This holds by construction: `JitCompile` reads `strided` only to choose the tag.
   */
  lemma BothFormsAgree(d: Descriptor)
    requires d.WellFormed()
    ensures JitCompile(d, true).Ok? <==> JitCompile(d, false).Ok?
    ensures JitCompile(d, true).Ok? ==>
      && JitCompile(d, true).value.tag == StridedOp && JitCompile(d, false).value.tag == SingleOp
      && JitCompile(d, true).value.op == JitCompile(d, false).value.op
      && JitCompile(d, true).value.layout == JitCompile(d, false).value.layout
  {
  }

  /** Every extent the generated code loads lies inside any struct laid out by the specialization's layout. */
  lemma LoadsInBounds(d: Descriptor, strided: bool, extra: KernelData)
    requires d.WellFormed() && JitCompile(d, strided).Ok?
    requires ContentsConform(extra, JitCompile(d, strided).value.layout)
    ensures OpLoadable(JitCompile(d, strided).value.op, extra)
  {
    var u := JitCompile(d, strided).value;
    var l := u.layout;
    var n := d.Arity();
    JitCompileOutcome(d, strided);
    BuiltLayoutConsistent(d.kinds, d.argtypes, d.dshapes);
    forall i | 0 <= i < n
      ensures PlanLoadable(u.op.inputs[i], extra)
    {
      MarshalMeaning(d.kinds[i], d.dshapes[i], l.fieldIndex[i], 0, _ => 0, extra);
    }
    if d.kinds[n] != Scalar {
      MarshalMeaning(d.kinds[n], d.dshapes[n], l.fieldIndex[n], 0, _ => 0, extra);
    }
  }

  /** With only scalar and pointer arguments the layout is the bare header and binding changes nothing. */
  lemma ScalarPointerOnly(d: Descriptor, strided: bool, contents: seq<seq<int>>, dst: DataDescriptor,
                          srcs: seq<DataDescriptor>)
    requires d.WellFormed() && JitCompile(d, strided).Ok?
    requires forall i :: 0 <= i < |d.kinds| ==> d.kinds[i] == Scalar || d.kinds[i] == Pointer
    requires ContentsConform(contents, JitCompile(d, strided).value.layout)
    ensures JitCompile(d, strided).value.layout.fields == [Header(HEADER_SLOTS)]
    ensures IndexConsistent(JitCompile(d, strided).value.layout)
    ensures MatchesShapes(JitCompile(d, strided).value.layout, d.dshapes)
    ensures CanBind(JitCompile(d, strided).value.layout, d.dshapes, srcs)
    ensures BindSpec(JitCompile(d, strided).value.layout, d.dshapes, contents, dst, srcs) == contents
  {
    JitCompileOutcome(d, strided);
    LayoutFieldCount(d.kinds, d.argtypes, d.dshapes);
    BuiltLayoutConsistent(d.kinds, d.argtypes, d.dshapes);
  }

  /**
    Binding, then calling: the view the generated code builds for array operand `i` (an input, or
    the destination when `i` is the arity) has the constant extent for every `Fixed` dimension and
    the extent bound from the operand's data descriptor for every `TypeVar` dimension.
   */
  lemma BoundViewExtents(d: Descriptor, strided: bool, contents: seq<seq<int>>, dst: DataDescriptor,
                         srcs: seq<DataDescriptor>, i: nat, raw: int, mem: Memory)
    requires d.WellFormed() && JitCompile(d, strided).Ok?
    requires ContentsConform(contents, JitCompile(d, strided).value.layout)
    requires CanBind(JitCompile(d, strided).value.layout, d.dshapes, srcs)
    requires |srcs| == d.Arity()
    requires i <= d.Arity() && d.kinds[i].Array?
    requires |Operands(dst, srcs)[i].extents| >= |d.dshapes[i].dims|
    ensures IndexConsistent(JitCompile(d, strided).value.layout)
    ensures MatchesShapes(JitCompile(d, strided).value.layout, d.dshapes)
    ensures var u := JitCompile(d, strided).value;
      var extra := BindSpec(u.layout, d.dshapes, contents, dst, srcs);
      var plan := if i < d.Arity() then u.op.inputs[i] else u.op.ret.dst;
      && ContentsConform(extra, u.layout)
      && (i == d.Arity() ==> u.op.ret.PassDest?)
      && PlanLoadable(plan, extra)
      && var a := RunArg(plan, raw, mem, extra);
         var ext := Operands(dst, srcs)[i].extents;
         var dims := d.dshapes[i].dims;
         && a.ArrayView? && a.data == raw && |a.shape| == |dims|
         && forall j :: 0 <= j < |dims| ==>
              a.shape[j] == (if dims[j].Fixed? then dims[j].n else ext[|ext| - |dims| + j])
  {
    var u := JitCompile(d, strided).value;
    var l := u.layout;
    JitCompileOutcome(d, strided);
    BuiltLayoutConsistent(d.kinds, d.argtypes, d.dshapes);
    assert |l.fields| > 1;
    BoundArrayView(l, d.dshapes, contents, dst, srcs, i, d.kinds[i], raw, mem);
  }

  /** One array operand of a laid-out struct after binding, seen through the view its plan builds. */
  lemma BoundArrayView(l: Layout, dshapes: seq<DShape>, contents: seq<seq<int>>, dst: DataDescriptor,
                       srcs: seq<DataDescriptor>, i: nat, kind: Kind, raw: int, mem: Memory)
    requires IndexConsistent(l) && MatchesShapes(l, dshapes) && ContentsConform(contents, l)
    requires CanBind(l, dshapes, srcs) && |l.fields| > 1
    requires i < BindCount(dshapes, srcs) && i < |l.fieldIndex| && l.fieldIndex[i].Some?
    requires kind.Array? && PlanArg(kind, dshapes[i], l.fieldIndex[i]).Ok?
    requires |Operands(dst, srcs)[i].extents| >= |dshapes[i].dims|
    ensures var extra := BindSpec(l, dshapes, contents, dst, srcs);
      var plan := PlanArg(kind, dshapes[i], l.fieldIndex[i]).value;
      && ContentsConform(extra, l)
      && PlanLoadable(plan, extra)
      && var a := RunArg(plan, raw, mem, extra);
         var ext := Operands(dst, srcs)[i].extents;
         var dims := dshapes[i].dims;
         && a.ArrayView? && a.data == raw && |a.shape| == |dims|
         && forall j :: 0 <= j < |dims| ==>
              a.shape[j] == (if dims[j].Fixed? then dims[j].n else ext[|ext| - |dims| + j])
  {
    var extra := BindSpec(l, dshapes, contents, dst, srcs);
    BindMeaning(l, dshapes, contents, dst, srcs);
    var f := l.fieldIndex[i].value;
    var s := TrailingExtents(Operands(dst, srcs)[i], dshapes[i]);
    assert extra[f] == WriteFront(contents[f], s);
    MarshalMeaning(kind, dshapes[i], l.fieldIndex[i], raw, mem, extra);
  }

  /**
    A kernel of one scalar input and a scalar result specializes to a header-only layout and the
    operation that loads the input and stores the result; run strided with unit strides, it maps
    `output[j] = kernel(input[j])` over the run and writes nowhere else.
   */
  lemma ScalarMapSpecialized(d: Descriptor, strided: bool, kernel: Kernel, dst: int, src: int, count: nat,
                             extra: KernelData, mem0: Memory)
    requires d.WellFormed() && d.kinds == [Scalar, Scalar]
    requires src >= dst || src <= dst - count
    ensures JitCompile(d, strided).Ok?
    ensures JitCompile(d, strided).value.layout.fields == [Header(HEADER_SLOTS)]
    ensures JitCompile(d, strided).value.op == OpPlan([LoadScalar], StoreResult)
    ensures OpLoadable(JitCompile(d, strided).value.op, extra)
    ensures ElementwiseMapped(kernel, dst, src, count, mem0,
                              StridedRun(JitCompile(d, strided).value.op, kernel, dst, 1, [src], [1], count, extra, mem0).mem)
  {
    JitCompileOutcome(d, strided);
    LayoutFieldCount(d.kinds, d.argtypes, d.dshapes);
    ElementwiseScalarRun(OpPlan([LoadScalar], StoreResult), kernel, dst, src, count, extra, mem0);
  }
}
