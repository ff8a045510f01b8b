/**
  The argument marshaller (`build_llvm_arg_ptr`, `build_llvm_src_ptrs`). At JIT time it decides,
  per argument, what code to emit (an `ArgPlan`), raising on dimensions it does not support; at call
  time the emitted code turns a raw pointer into the value the native kernel receives (`RunArg`).
 */
module Marshal {
  import opened Wrappers
  import opened Kinds

  /** Memory as seen by the generated code: an integer at every address. */
  type Memory = int -> int

  /** The kernel-data struct an extra pointer refers to: one integer array per field. */
  type KernelData = seq<seq<int>>

  /** Where the emitted code takes one extent of an array view from. */
  datatype ExtentSource = Const(n: nat) | FromExtra(field: nat, slot: nat)

  /** The code emitted for one argument: load a scalar, pass the pointer, or fill an array view. */
  datatype ArgPlan = LoadScalar | PassPointer | BuildView(extents: seq<ExtentSource>)

  /** What the native kernel receives for one argument. */
  datatype Arg = ScalarVal(v: int) | PointerVal(p: int) | ArrayView(data: int, shape: seq<int>)

  /** `TypeError` on an unsupported dimension type; a kind none of the branches handles. */
  datatype CodegenError = UnsupportedDimension(dim: Dim) | UnsupportedArgKind(kind: Kind)

  // ---------------------------------------------------------------------------
  // JIT time

  function DimSource(d: Dim, field: nat, j: nat): Result<ExtentSource, CodegenError> {
    match d
    case Fixed(n) => Ok(Const(n))
    case TypeVar(_) => Ok(FromExtra(field, j))
    case Var => Err(UnsupportedDimension(d))
  }

  /**
    The extent stores emitted for the first `n` dimensions: the constant for a `Fixed` dimension,
    a load of slot `j` of field `field` for a `TypeVar`; the first other dimension raises.
   */
  function PlanExtents(dims: seq<Dim>, field: nat, n: nat): (r: Result<seq<ExtentSource>, CodegenError>)
    requires n <= |dims|
    ensures r.Ok? <==> forall j :: 0 <= j < n ==> !dims[j].Var?
    ensures r.Ok? ==>
      |r.value| == n &&
      forall j :: 0 <= j < n ==> r.value[j] == (if dims[j].Fixed? then Const(dims[j].n) else FromExtra(field, j))
    ensures r.Err? ==>
      exists j :: 0 <= j < n && dims[j].Var? && (forall j' :: 0 <= j' < j ==> !dims[j'].Var?) &&
        r.error == UnsupportedDimension(dims[j])
  {
    if n == 0 then Ok([])
    else
      match PlanExtents(dims, field, n - 1)
      case Err(e) => Err(e)
      case Ok(prefix) =>
        match DimSource(dims[n - 1], field, n - 1)
        case Err(e) => Err(e)
        case Ok(s) => Ok(prefix + [s])
  }

  /**
    The code emitted for one argument of kind `kind` and datashape `ds` whose extent-array field is
    `field`. A kind that is not scalar, pointer or array is refused (the layout builder raises on
    such kinds before any argument is marshalled).
   */
  function PlanArg(kind: Kind, ds: DShape, field: Option<nat>): (r: Result<ArgPlan, CodegenError>)
    requires kind.Array? ==> field.Some?
    ensures r.Err? <==> kind.Unknown? || (kind.Array? && exists j :: 0 <= j < |ds.dims| && ds.dims[j].Var?)
  {
    match kind
    case Scalar => Ok(LoadScalar)
    case Pointer => Ok(PassPointer)
    case Array(_, _) =>
      (match PlanExtents(ds.dims, field.value, |ds.dims|)
       case Err(e) => Err(e)
       case Ok(ext) => Ok(BuildView(ext)))
    case Unknown(_) => Err(UnsupportedArgKind(kind))
  }

  /** The plans for the first `n` inputs; the first argument that fails stops code generation. */
  function PlanInputs(kinds: seq<Kind>, dshapes: seq<DShape>, fieldIndex: seq<Option<nat>>, n: nat)
    : (r: Result<seq<ArgPlan>, CodegenError>)
    requires n <= |kinds| && n <= |dshapes| && n <= |fieldIndex|
    requires forall i :: 0 <= i < n && kinds[i].Array? ==> fieldIndex[i].Some?
    ensures r.Ok? <==> forall i :: 0 <= i < n ==> PlanArg(kinds[i], dshapes[i], fieldIndex[i]).Ok?
    ensures r.Ok? ==>
      |r.value| == n &&
      forall i :: 0 <= i < n ==> r.value[i] == PlanArg(kinds[i], dshapes[i], fieldIndex[i]).value
    ensures r.Err? ==>
      exists i :: 0 <= i < n && PlanArg(kinds[i], dshapes[i], fieldIndex[i]).Err? &&
        (forall j :: 0 <= j < i ==> PlanArg(kinds[j], dshapes[j], fieldIndex[j]).Ok?) &&
        r.error == PlanArg(kinds[i], dshapes[i], fieldIndex[i]).error
  {
    if n == 0 then Ok([])
    else
      match PlanInputs(kinds, dshapes, fieldIndex, n - 1)
      case Err(e) => Err(e)
      case Ok(prefix) =>
        match PlanArg(kinds[n - 1], dshapes[n - 1], fieldIndex[n - 1])
        case Err(e) => Err(e)
        case Ok(p) => Ok(prefix + [p])
  }

  /**
    `build_llvm_src_ptrs`: marshal every input in order, zipping the datashapes, input kinds and
    argument types (so stopping at the shortest).
   */
  method BuildSrcPlans(inKinds: seq<Kind>, dshapes: seq<DShape>, argtypes: seq<NativeType>, fieldIndex: seq<Option<nat>>)
    returns (r: Result<seq<ArgPlan>, CodegenError>)
    requires Min(Min(|dshapes|, |inKinds|), |argtypes|) <= |fieldIndex|
    requires forall i :: 0 <= i < Min(Min(|dshapes|, |inKinds|), |argtypes|) && inKinds[i].Array? ==> fieldIndex[i].Some?
    ensures r == PlanInputs(inKinds, dshapes, fieldIndex, Min(Min(|dshapes|, |inKinds|), |argtypes|))
  {
    var n := Min(Min(|dshapes|, |inKinds|), |argtypes|);
    var args: seq<ArgPlan> := [];
    var i := 0;
    while i < n
      invariant 0 <= i <= n
      invariant PlanInputs(inKinds, dshapes, fieldIndex, i) == Ok(args)
    {
      var arg := PlanArg(inKinds[i], dshapes[i], fieldIndex[i]);
      if arg.Err? {
        return Err(arg.error);
      }
      args := args + [arg.value];
      i := i + 1;
    }
    return Ok(args);
  }

  // ---------------------------------------------------------------------------
  // Call time

  /** The emitted load of an extent stays inside the kernel-data struct. */
  predicate Loadable(s: ExtentSource, extra: KernelData) {
    s.FromExtra? ==> s.field < |extra| && s.slot < |extra[s.field]|
  }

  predicate PlanLoadable(p: ArgPlan, extra: KernelData) {
    p.BuildView? ==> forall j :: 0 <= j < |p.extents| ==> Loadable(p.extents[j], extra)
  }

  predicate AllLoadable(plans: seq<ArgPlan>, extra: KernelData) {
    forall i :: 0 <= i < |plans| ==> PlanLoadable(plans[i], extra)
  }

  function ExtentValue(s: ExtentSource, extra: KernelData): int
    requires Loadable(s, extra)
  {
    match s
    case Const(n) => n
    case FromExtra(f, j) => extra[f][j]
  }

  /** What the code emitted for plan `p` hands to the kernel, given the raw pointer `raw`. */
  function RunArg(p: ArgPlan, raw: int, mem: Memory, extra: KernelData): Arg
    requires PlanLoadable(p, extra)
  {
    match p
    case LoadScalar => ScalarVal(mem(raw))
    case PassPointer => PointerVal(raw)
    case BuildView(ext) => ArrayView(raw, seq(|ext|, j requires 0 <= j < |ext| => ExtentValue(ext[j], extra)))
  }

  /** The inputs as the kernel receives them: input `i` marshalled from source pointer `ptrs[i]`. */
  function MarshalAll(plans: seq<ArgPlan>, ptrs: seq<int>, mem: Memory, extra: KernelData): seq<Arg>
    requires |ptrs| == |plans| && AllLoadable(plans, extra)
  {
    seq(|plans|, i requires 0 <= i < |plans| => RunArg(plans[i], ptrs[i], mem, extra))
  }

  /**
    Marshalling end to end: a scalar is the value loaded at the pointer, a pointer is passed
    unchanged, and an array becomes a view on the same data whose extent `j` is `n` for a
    `Fixed(n)` dimension and slot `j` of the argument's kernel-data field for a `TypeVar`.
   */
  lemma MarshalMeaning(kind: Kind, ds: DShape, field: Option<nat>, raw: int, mem: Memory, extra: KernelData)
    requires kind.Array? ==> field.Some? && field.value < |extra| && |ds.dims| <= |extra[field.value]|
    requires PlanArg(kind, ds, field).Ok?
    ensures PlanLoadable(PlanArg(kind, ds, field).value, extra)
    ensures var a := RunArg(PlanArg(kind, ds, field).value, raw, mem, extra);
      && (kind == Scalar ==> a == ScalarVal(mem(raw)))
      && (kind == Pointer ==> a == PointerVal(raw))
      && (kind.Array? ==>
            && a.ArrayView? && a.data == raw && |a.shape| == |ds.dims|
            && forall j :: 0 <= j < |ds.dims| ==>
                 a.shape[j] == (if ds.dims[j].Fixed? then ds.dims[j].n else extra[field.value][j]))
  {
  }
}
