/**
  The argument contract of a blaze element kernel as the JIT core reads it: one kind and one
  datashape per argument (inputs first, the return value last) and the native parameter types of
  the kernel's LLVM function.
 */
module Kinds {

  /** Memory order of an array argument: the first entry of an array kind tuple. */
  datatype Order = CContiguous | FContiguous | Strided

  /** A native (LLVM) value type. The model only passes these around. */
  datatype NativeType = NativeType(name: string)

  /**
    How one argument is passed: a scalar loaded by value, a raw pointer, an array kind tuple
    carrying its memory order and element type, or any other value the front end hands over.
   */
  datatype Kind = Scalar | Pointer | Array(order: Order, elt: NativeType) | Unknown(tag: string)

  /** One dimension of a datashape: fixed at JIT time, a type variable bound per call, or a ragged Var. */
  datatype Dim = Fixed(n: nat) | TypeVar(symbol: string) | Var

  /** A datashape: its dimensions followed by the measure. `len(dshape)` in the source is `|dims| + 1`. */
  datatype DShape = DShape(dims: seq<Dim>, measure: NativeType)

  /** The parts of a BlazeElementKernel the core consumes. */
  datatype Descriptor = Descriptor(kinds: seq<Kind>, dshapes: seq<DShape>, argtypes: seq<NativeType>)
  {
    /**
      A kernel has a return kind, one datashape per kind, and the parameters of its LLVM function:
      one per input, plus a destination pointer unless the result is returned as a scalar.
     */
    predicate WellFormed() {
      && |kinds| >= 1
      && |dshapes| == |kinds|
      && |argtypes| == (if kinds[|kinds| - 1] == Scalar then |kinds| - 1 else |kinds|)
    }

    /** Number of inputs (`inarg_count`). */
    function Arity(): nat
      requires WellFormed()
    {
      |kinds| - 1
    }
  }

  function Min(a: nat, b: nat): nat {
    if a <= b then a else b
  }
}
