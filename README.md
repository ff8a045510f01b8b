# blaze JIT ckernel core in Dafny

This project models the core of blaze's JIT ckernel specializer, `blaze/bkernel/jit_ckernel.py`.
The specializer takes a blaze element kernel and produces two things: an unbound ckernel in
the single form or the strided form, and a bind routine. The blaze element kernel supplies the
native function, one kind and one datashape per argument (inputs first, result last), and the
argument types of its LLVM function. The bind routine fills the per-call kernel-data struct
with the runtime extents of the operands.

The model covers four parts, one module each. A fifth module puts them together.

- `Kinds` (kinds.dfy) holds the descriptor model:
  - argument kinds `Scalar | Pointer | Array(order, elt) | Unknown`;
  - dimensions `Fixed(n) | TypeVar | Var`;
  - datashapes, with `len(dshape) - 1` written as `|dims|`;
  - the `Descriptor` a kernel provides.
- `KernelDataLayout` (layout.dfy) is the layout builder `args_to_kernel_data_struct`.
  - The layout is a header field of three pointer slots, then one extent-array field
    `operand_i` per array argument.
  - It also holds the index map `input_field_indices`, which the source computes but does not
    return; the model exposes it.
  - The builder is a method with a loop, proved equal to a recursive walk.
  - Lemmas state what the walk produces and when it fails.
- `Marshal` (marshal.dfy) is the argument marshaller `build_llvm_arg_ptr` / `build_llvm_src_ptrs`.
  - `PlanArg` is the code emitted at JIT time for one argument. It can fail on an
    unsupported dimension.
  - `RunArg` is the value that code hands to the native kernel at call time.
  - Memory is a value `int -> int`. The kernel-data struct is a sequence of integer arrays.
- `Operation` (operation.dfy) is the single-form and strided-form operations.
  - The native kernel is an uninterpreted function `seq<Arg> -> int`.
  - A call is recorded in an `Invocation` log.
  - The strided operation is a method with the source's count-down loop. It works on a local
    copy of the source-pointer array, which it advances in place.
  - Several results are proved against the strided loop: the call count, the pointer
    progression, and equivalence with `count` single calls.
- `Bind` (bind.dfy) is the bind routine.
  - `BindFunc` writes an array-backed struct in place.
  - It is proved equal to `BindSpec`, and lemmas state what `BindSpec` writes and what it leaves.
- `Specialize` (specialize.dfy) is `jit_compile_unbound_single_ckernel` without the LLVM
  and JIT machinery: layout first, then the inputs, then the return handling and the
  operation tag. Its lemmas connect the parts:
  - every extent load stays inside the struct;
  - an all-scalar/pointer kernel has a header-only layout and a no-op bind;
  - after binding, each view the kernel receives carries the operand's runtime extents.

The source reads several names it never defines or imports: `bek` in the layout builder;
`dshapes`, `i`, `extra_struct` and `input_field_indices` in the marshaller; `k` in the
unsupported-kind message; `Fixed` and `TypeVar` in the marshaller (lines 65 and 75); and
`operator` in the marshaller and in `bind_func` (lines 73 and 263). The model passes the values
in as explicit parameters, and writes the dimension classes as the `Dim` constructors and
`operator.index` as the identity on `nat`.

Facts about the code that the model relies on:

- The code reserves an extent-array field for every C-contiguous array argument, including
  one whose dimensions are all `Fixed`.
- `bind_func` looks up `operand_i` for every zipped operand. It therefore works only when each
  zipped operand is an array argument, or when the layout is header-only. `Bind.CanBind` is
  its precondition.
- `Kinds.Descriptor.WellFormed` takes `bek.argtypes` to hold one type per input and, unless the
  result is a scalar, the destination's type last. The code reads it that way: the inputs' types
  are zipped with `bek.kinds[:-1]` (line 196) and `bek.argtypes[-1]` is the destination's type
  (line 207). Under this reading, `izip(kinds, argtypes)` in the layout builder (line 21) also
  walks a non-scalar destination, which then gets its own `operand_n` field. A descriptor
  with fewer argument types, such as an array-to-array kernel with one type, is not
  `WellFormed`, and the model does not specialize it.

## Model

| member | source | states |
|---|---|---|
| KernelDataLayout.ArgsToKernelDataStruct | blaze/bkernel/jit_ckernel.py:14-39 | the builder's loop, with its early exits on error, computes exactly the walk `BuildLayout` (the lemmas below say what that walk is) |
| KernelDataLayout.LayoutFieldCount | blaze/bkernel/jit_ckernel.py:18-31 | the first field is the 3-slot header; there is one field per array argument; scalar and pointer arguments add none; the layout is header-only iff no walked argument is an array; the index map has one entry per walked argument (izip of kinds and argtypes) |
| KernelDataLayout.LayoutFieldIndices | blaze/bkernel/jit_ckernel.py:25-31 | an entry is `None` exactly for scalar and pointer arguments; each array index is in range and names a field of `len(dshape)-1` extents belonging to that argument; indices strictly increase |
| KernelDataLayout.LayoutErrors | blaze/bkernel/jit_ckernel.py:21-34 | the builder fails iff some walked argument is a non-C-contiguous array or an unknown kind; the error is that of the first such argument (`NotCContiguous` or `UnsupportedKind`); no layout is produced |
| KernelDataLayout.BuiltLayoutConsistent | blaze/bkernel/jit_ckernel.py:25-29 | every recorded index names an `Extents` field labelled with its own argument, and the field length matches that argument's datashape |
| Marshal.PlanExtents | blaze/bkernel/jit_ckernel.py:64-91 | extent `j` is the constant for `Fixed(n)` and a load of slot `j` of the argument's field for `TypeVar`; it fails iff some dimension is `Var`, with the first such dimension as the error |
| Marshal.PlanArg | blaze/bkernel/jit_ckernel.py:41-92 | code generation for one argument fails iff the kind is unknown or it is an array with a `Var` dimension |
| Marshal.PlanInputs | blaze/bkernel/jit_ckernel.py:94-101 | succeeds iff every input's plan does; the result is the inputs' plans in order; otherwise the error of the first failing input |
| Marshal.BuildSrcPlans | blaze/bkernel/jit_ckernel.py:94-101 | the loop over `izip(dshapes, kinds, argtypes)` returns `PlanInputs` over the shortest of the three |
| Marshal.MarshalMeaning | blaze/bkernel/jit_ckernel.py:42-92 | a scalar arrives as the value loaded at its pointer; a pointer arrives unchanged; an array arrives as a view on the same data whose extent `j` is `n` for `Fixed(n)` and `extra[field][j]` for `TypeVar`; every load is in bounds |
| Operation.SingleOperation | blaze/bkernel/jit_ckernel.py:194-208 | a scalar return stores the kernel's result at `dst` and changes no other address; any other return passes the marshalled destination as the extra last argument, stores nothing and leaves memory unchanged |
| Operation.StridedOperation | blaze/bkernel/jit_ckernel.py:148-223 | `count == 0` makes no call and leaves memory unchanged; otherwise the log and final memory are the first `count` loop iterations `StridedRun`; it has no `modifies` clause, so the caller's pointer and stride arrays are only read |
| Operation.CopyPointers | blaze/bkernel/jit_ckernel.py:150-158 | the local pointer array is freshly allocated and holds the caller's first `inarg_count` pointers |
| Operation.AdvancePointers | blaze/bkernel/jit_ckernel.py:214-222 | every local source pointer is advanced in place by its stride |
| Operation.Iteration | blaze/bkernel/jit_ckernel.py:194-222 | one loop body: the single operation on the current pointers, then the destination and every local pointer advanced |
| Operation.ScaledIsProduct | blaze/bkernel/jit_ckernel.py:210-222 | `k` one-stride advances add up to `k * stride` |
| Operation.StridedCallCount | blaze/bkernel/jit_ckernel.py:179-191 | the loop makes exactly `count` kernel calls |
| Operation.StridedPointerProgression | blaze/bkernel/jit_ckernel.py:210-222 | call `j` is made on `dst + j*dst_stride` and `src_i + j*src_stride_i`, against the memory the first `j` calls left |
| Operation.IterateShift | blaze/bkernel/jit_ckernel.py:179-223 | taking the first iteration off the loop leaves the same loop on the pointers advanced once |
| Operation.IterateIsSequential | blaze/bkernel/jit_ckernel.py:179-223 | the loop equals the reference of calls one after another, each on the previous call's pointers advanced |
| Operation.StridedIsSequentialSingles | blaze/bkernel/jit_ckernel.py:179-223 | the strided form gives the same log and memory as `count` sequential single-form calls on pointers advanced by the strides |
| Operation.ElementwiseScalarRun | blaze/bkernel/jit_ckernel.py:179-223 | a one-scalar-input kernel with a scalar result, run on unit strides (one address per element) whose source run starts at or after the destination or at least `count` addresses before it, makes `count` calls, writes `output[j] = kernel(input[j])` at each destination address and leaves every other address as it was |
| Bind.TrailingExtents | blaze/bkernel/jit_ckernel.py:263-264 | `dd.dshape[-len(ds):-1]` is the trailing `min(len(ds)-1, rank)` extents of the data descriptor |
| Bind.WriteShape | blaze/bkernel/jit_ckernel.py:265-267 | `cshape[j] = dim_size` overwrites the first slots in place and keeps the rest |
| Bind.BindUpToMeaning | blaze/bkernel/jit_ckernel.py:260-267 | after binding the first `k` operands, each of their fields holds that operand's trailing extents and every other field is unchanged |
| Bind.BindMeaning | blaze/bkernel/jit_ckernel.py:255-267 | a header-only layout is left unchanged; otherwise operand `i`'s field (sources in order, destination last) gets its trailing runtime extents in its first slots, and all other fields, including the header, are unchanged |
| Bind.BindIdempotent | blaze/bkernel/jit_ckernel.py:260-267 | binding twice with the same descriptors gives the same struct as binding once |
| Bind.BindFunc | blaze/bkernel/jit_ckernel.py:255-267 | the in-place routine leaves the struct's buffers holding `BindSpec` of their old contents |
| Specialize.JitCompileUnboundSingleCKernel | blaze/bkernel/jit_ckernel.py:103-278 | runs the layout builder, then the source marshalling loop, then the return-kind dispatch and the tag choice, with the result `JitCompile` |
| Specialize.JitCompileOutcome | blaze/bkernel/jit_ckernel.py:194-208 | layout errors come first; on success the kernel carries the builder's layout and the inputs' plans; the return is `StoreResult` iff the return kind is scalar, otherwise the destination plan; after a good layout it fails iff an input, or a non-scalar destination, has a `Var` dimension |
| Specialize.BothFormsAgree | blaze/bkernel/jit_ckernel.py:269-272 | the single and strided specializations of one kernel differ only in their tag |
| Specialize.LoadsInBounds | blaze/bkernel/jit_ckernel.py:78-83 | every extent the generated code loads lies inside any struct built to the specialization's layout |
| Specialize.ScalarPointerOnly | blaze/bkernel/jit_ckernel.py:255-258 | with only scalar and pointer arguments the layout is the bare header and binding changes nothing |
| Specialize.BoundViewExtents | blaze/bkernel/jit_ckernel.py:75-88 | after binding, array operand `i`'s view has the `Fixed` constant for each fixed dimension and the operand's runtime extent for each `TypeVar` dimension |
| Specialize.ScalarMapSpecialized | blaze/bkernel/jit_ckernel.py:194-223 | a kernel of kinds `(scalar) -> scalar` specializes without error to a header-only layout and the load-scalar / store-result operation, whose unit-stride strided run is the elementwise map above |

## Left out

- LLVM IR construction (bitcast, gep, alloca, phi), `Function.new`, `module.clone()`, the opt=3 pass managers and the JIT engine (lines 117-127, 234-252). These are calls into llvmpy with no visible semantics.
- ctypes `Structure` creation and `map_llvm_to_ctypes`. The struct is a sequence of integer arrays.
- The ownership tuple `(ee, func_ptr)` and `UnboundCKernelFunction` (lines 274-278). `UnboundKernel` keeps only the tag, the emitted operation and the layout.
- The native kernel body. It is an uninterpreted function of its arguments. Any writes it makes through pointers or views are not modelled, so memory changes only through the scalar-result store.
- Memory and pointer width. Pointers, strides and extents are unbounded integers.
- Element granularity of memory. Each address holds one whole value, and a pointer or stride
  counts in elements. The source's pointers are `i8*` and its strides are byte offsets (line 213),
  while its loads and stores are of typed values (lines 44 and 202). Values that overlap in
  some of their bytes cannot be expressed. `Operation.ElementwiseScalarRun`'s stride `1` and its
  non-overlap bound are in elements; in the source that stride is the element size in bytes.
- What the native kernel reads. `Kernel` is a function of the argument values only: a pointer
  or a view passes its address, not the memory behind it. So a kernel result that depends on
  memory reached through a pointer or view argument is not modelled. Only the scalar inputs,
  which the generated code loads itself, carry memory contents into the call.
- Operation.StridedOperation: `count` is a `nat`. A negative `intp` count, which the generated loop would decrement until it wraps, is not modelled.
- Operation.SingleStep: for a source-pointer list whose length is not the kernel's arity it yields an empty call. The strided loop never passes such a list.
- Marshal.PlanArg: for a kind outside scalar, pointer and array it returns `UnsupportedArgKind`. The source instead falls through and returns `None`. The case cannot be reached, because the layout builder rejects such kinds first.
- Marshal.PlanArg: requires a field index for every array argument. The code looks one up only for `TypeVar` dimensions. The layout builder records one for every array.
- Bind.BindFunc: `operator.index` on the runtime extents is not modelled; extents are `nat`. The `AttributeError` the source raises outside `CanBind` is a precondition instead.
- The source's Python exception types (`ValueError`, `TypeError`, the `NameError` from the undefined `k` in the unsupported-kind message) are modelled as error values of `LayoutError` and `CodegenError`.
