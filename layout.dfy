/**
  The kernel-data layout builder (`args_to_kernel_data_struct`): a header of three pointer slots,
  then one extent array `operand_i` per array-kind argument, in argument order.
 */
module KernelDataLayout {
  import opened Wrappers
  import opened Kinds

  /** Pointer slots of the header field `base` (three `i8*` slots, mirroring `JITKernelData`). */
  const HEADER_SLOTS: nat := 3

  /** One struct field: the header, or the extent array `operand_<operand>` of `length` entries. */
  datatype Field = Header(slots: nat) | Extents(operand: nat, length: nat)

  /**
    The struct layout: its fields in order, and for every walked argument the index of its
    extent-array field (`input_field_indices`), `None` for scalar and pointer arguments.
   */
  datatype Layout = Layout(fields: seq<Field>, fieldIndex: seq<Option<nat>>)

  /** `ValueError` for a non C-contiguous array, `TypeError` for an unsupported kind. */
  datatype LayoutError = NotCContiguous | UnsupportedKind(kind: Kind)

  function FieldLength(f: Field): nat {
    match f
    case Header(slots) => slots
    case Extents(_, length) => length
  }

  /** The walk zips kinds with argtypes, so it stops at the shorter of the two. */
  function WalkLength(kinds: seq<Kind>, argtypes: seq<NativeType>): nat {
    Min(|kinds|, |argtypes|)
  }

  /** A kind the builder raises on. */
  predicate Rejected(k: Kind) {
    (k.Array? && k.order != CContiguous) || k.Unknown?
  }

  function KindError(k: Kind): LayoutError
    requires Rejected(k)
  {
    if k.Array? then NotCContiguous else UnsupportedKind(k)
  }

  function Start(): Layout {
    Layout([Header(HEADER_SLOTS)], [])
  }

  /** What argument `i` of kind `k` adds to the layout built so far. */
  function Step(acc: Layout, i: nat, k: Kind, ds: DShape): Result<Layout, LayoutError> {
    match k
    case Array(order, _) =>
      if order != CContiguous then Err(NotCContiguous)
      else Ok(Layout(acc.fields + [Extents(i, |ds.dims|)], acc.fieldIndex + [Some(|acc.fields|)]))
    case Scalar => Ok(Layout(acc.fields, acc.fieldIndex + [None]))
    case Pointer => Ok(Layout(acc.fields, acc.fieldIndex + [None]))
    case Unknown(_) => Err(UnsupportedKind(k))
  }

  /** The walk over arguments `i..n`, starting from the layout `acc` of the first `i`; the first failing argument stops it. */
  function WalkFrom(kinds: seq<Kind>, dshapes: seq<DShape>, n: nat, i: nat, acc: Layout): Result<Layout, LayoutError>
    requires i <= n <= |kinds| && n <= |dshapes|
    decreases n - i
  {
    if i == n then Ok(acc)
    else
      match Step(acc, i, kinds[i], dshapes[i])
      case Err(e) => Err(e)
      case Ok(next) => WalkFrom(kinds, dshapes, n, i + 1, next)
  }

  /** The layout `args_to_kernel_data_struct` builds; `dshapes` is the kernel's datashape list it reads. */
  function BuildLayout(kinds: seq<Kind>, argtypes: seq<NativeType>, dshapes: seq<DShape>): Result<Layout, LayoutError>
    requires |dshapes| == |kinds|
  {
    WalkFrom(kinds, dshapes, WalkLength(kinds, argtypes), 0, Start())
  }

  /** The builder itself: one pass over the arguments, appending fields and field indices. */
  method ArgsToKernelDataStruct(kinds: seq<Kind>, argtypes: seq<NativeType>, dshapes: seq<DShape>)
    returns (r: Result<Layout, LayoutError>)
    requires |dshapes| == |kinds|
    ensures r == BuildLayout(kinds, argtypes, dshapes)
  {
    var fieldIndex: seq<Option<nat>> := [];
    var fields: seq<Field> := [Header(HEADER_SLOTS)];
    var n := WalkLength(kinds, argtypes);
    var i := 0;
    while i < n
      invariant 0 <= i <= n
      invariant WalkFrom(kinds, dshapes, n, i, Layout(fields, fieldIndex)) == BuildLayout(kinds, argtypes, dshapes)
    {
      var k := kinds[i];
      if k.Array? {
        if k.order != CContiguous {
          return Err(NotCContiguous);
        }
        fieldIndex := fieldIndex + [Some(|fields|)];
        fields := fields + [Extents(i, |dshapes[i].dims|)];
      } else if k == Scalar || k == Pointer {
        fieldIndex := fieldIndex + [None];
      } else {
        return Err(UnsupportedKind(k));
      }
      i := i + 1;
    }
    return Ok(Layout(fields, fieldIndex));
  }

  // ---------------------------------------------------------------------------
  // What the layout looks like

  /** Number of array-kind arguments among the first `n`. */
  function ArrayCount(kinds: seq<Kind>, n: nat): nat
    requires n <= |kinds|
  {
    if n == 0 then 0 else ArrayCount(kinds, n - 1) + (if kinds[n - 1].Array? then 1 else 0)
  }

  lemma {:induction false} ArrayCountMonotone(kinds: seq<Kind>, i: nat, j: nat)
    requires i <= j <= |kinds|
    ensures ArrayCount(kinds, i) <= ArrayCount(kinds, j)
    ensures i < j && kinds[i].Array? ==> ArrayCount(kinds, i) < ArrayCount(kinds, j)
    decreases j
  {
    if i < j {
      ArrayCountMonotone(kinds, i, j - 1);
    }
  }

  lemma {:induction false} ArrayCountZero(kinds: seq<Kind>, n: nat)
    requires n <= |kinds|
    ensures ArrayCount(kinds, n) == 0 <==> forall i :: 0 <= i < n ==> !kinds[i].Array?
  {
    if n > 0 {
      ArrayCountZero(kinds, n - 1);
    }
  }

  /**
    `l` is exactly the layout of the first `n` arguments: the header, then one field per array
    argument in argument order, and an index map that is a bijection between array arguments and
    the non-header fields.
   */
  ghost predicate Describes(l: Layout, kinds: seq<Kind>, dshapes: seq<DShape>, n: nat)
    requires n <= |kinds| && n <= |dshapes|
  {
    && |l.fields| == 1 + ArrayCount(kinds, n)
    && l.fields[0] == Header(HEADER_SLOTS)
    && |l.fieldIndex| == n
    && (forall i :: 0 <= i < n ==> (l.fieldIndex[i].Some? <==> kinds[i].Array?))
    && (forall i :: 0 <= i < n && kinds[i].Array? ==>
          var f := 1 + ArrayCount(kinds, i);
          l.fieldIndex[i] == Some(f) && f < |l.fields| && l.fields[f] == Extents(i, |dshapes[i].dims|))
    && (forall f :: 1 <= f < |l.fields| ==>
          l.fields[f].Extents? && l.fields[f].operand < n && l.fieldIndex[l.fields[f].operand] == Some(f))
  }

  lemma StepDescribes(acc: Layout, kinds: seq<Kind>, dshapes: seq<DShape>, i: nat)
    requires i < |kinds| && i < |dshapes|
    requires Describes(acc, kinds, dshapes, i)
    requires Step(acc, i, kinds[i], dshapes[i]).Ok?
    ensures Describes(Step(acc, i, kinds[i], dshapes[i]).value, kinds, dshapes, i + 1)
  {
    if kinds[i].Array? {
      StepDescribesArray(acc, kinds, dshapes, i);
    } else {
      StepDescribesOther(acc, kinds, dshapes, i);
    }
  }

  lemma StepDescribesOther(acc: Layout, kinds: seq<Kind>, dshapes: seq<DShape>, i: nat)
    requires i < |kinds| && i < |dshapes| && !kinds[i].Array?
    requires Describes(acc, kinds, dshapes, i)
    requires Step(acc, i, kinds[i], dshapes[i]).Ok?
    ensures Describes(Step(acc, i, kinds[i], dshapes[i]).value, kinds, dshapes, i + 1)
  {
    var next := Step(acc, i, kinds[i], dshapes[i]).value;
    assert next.fields == acc.fields;
    assert next.fieldIndex == acc.fieldIndex + [None];
    assert ArrayCount(kinds, i + 1) == ArrayCount(kinds, i);
  }

  lemma StepDescribesArray(acc: Layout, kinds: seq<Kind>, dshapes: seq<DShape>, i: nat)
    requires i < |kinds| && i < |dshapes| && kinds[i].Array?
    requires Describes(acc, kinds, dshapes, i)
    requires Step(acc, i, kinds[i], dshapes[i]).Ok?
    ensures Describes(Step(acc, i, kinds[i], dshapes[i]).value, kinds, dshapes, i + 1)
  {
    var next := Step(acc, i, kinds[i], dshapes[i]).value;
    var g := |acc.fields|;
    assert next.fields == acc.fields + [Extents(i, |dshapes[i].dims|)];
    assert next.fieldIndex == acc.fieldIndex + [Some(g)];
    assert ArrayCount(kinds, i + 1) == ArrayCount(kinds, i) + 1;
    forall j | 0 <= j < i + 1
      ensures next.fieldIndex[j].Some? <==> kinds[j].Array?
    {
      if j < i {
        assert next.fieldIndex[j] == acc.fieldIndex[j];
      }
    }
    forall j | 0 <= j < i + 1 && kinds[j].Array?
      ensures var f := 1 + ArrayCount(kinds, j);
        next.fieldIndex[j] == Some(f) && f < |next.fields| && next.fields[f] == Extents(j, |dshapes[j].dims|)
    {
      if j < i {
        var f := 1 + ArrayCount(kinds, j);
        ArrayCountMonotone(kinds, j, i);
        assert f < g;
        assert next.fieldIndex[j] == acc.fieldIndex[j];
        assert next.fields[f] == acc.fields[f];
      }
    }
    forall f | 1 <= f < |next.fields|
      ensures next.fields[f].Extents? && next.fields[f].operand < i + 1 && next.fieldIndex[next.fields[f].operand] == Some(f)
    {
      if f < g {
        assert next.fields[f] == acc.fields[f];
        assert next.fieldIndex[acc.fields[f].operand] == acc.fieldIndex[acc.fields[f].operand];
      }
    }
  }

  lemma {:induction false} WalkFromDescribes(kinds: seq<Kind>, dshapes: seq<DShape>, n: nat, i: nat, acc: Layout)
    requires i <= n <= |kinds| && n <= |dshapes|
    requires Describes(acc, kinds, dshapes, i)
    ensures WalkFrom(kinds, dshapes, n, i, acc).Ok? ==> Describes(WalkFrom(kinds, dshapes, n, i, acc).value, kinds, dshapes, n)
    decreases n - i
  {
    if i < n {
      var s := Step(acc, i, kinds[i], dshapes[i]);
      if s.Ok? {
        StepDescribes(acc, kinds, dshapes, i);
        WalkFromDescribes(kinds, dshapes, n, i + 1, s.value);
      }
    }
  }

  lemma BuildLayoutDescribes(kinds: seq<Kind>, argtypes: seq<NativeType>, dshapes: seq<DShape>)
    requires |dshapes| == |kinds|
    ensures BuildLayout(kinds, argtypes, dshapes).Ok? ==>
      Describes(BuildLayout(kinds, argtypes, dshapes).value, kinds, dshapes, WalkLength(kinds, argtypes))
  {
    WalkFromDescribes(kinds, dshapes, WalkLength(kinds, argtypes), 0, Start());
  }

  /**
    The first field is the three-slot header, there is one more field per array argument, and
    scalar and pointer arguments add none: the layout is the bare header exactly when no walked
    argument is an array.
   */
  lemma LayoutFieldCount(kinds: seq<Kind>, argtypes: seq<NativeType>, dshapes: seq<DShape>)
    requires |dshapes| == |kinds|
    ensures var r := BuildLayout(kinds, argtypes, dshapes);
      r.Ok? ==>
        && |r.value.fields| == 1 + ArrayCount(kinds, WalkLength(kinds, argtypes))
        && r.value.fields[0] == Header(HEADER_SLOTS)
        && |r.value.fieldIndex| == WalkLength(kinds, argtypes)
        && (|r.value.fields| == 1 <==> forall i :: 0 <= i < WalkLength(kinds, argtypes) ==> !kinds[i].Array?)
  {
    BuildLayoutDescribes(kinds, argtypes, dshapes);
    ArrayCountZero(kinds, WalkLength(kinds, argtypes));
  }

  /**
    Array arguments, and only they, get a field index; each index is in range, names a field of
    `len(dshape) - 1` extents labelled with that argument, and the indices strictly increase.
   */
  lemma LayoutFieldIndices(kinds: seq<Kind>, argtypes: seq<NativeType>, dshapes: seq<DShape>)
    requires |dshapes| == |kinds|
    ensures var r := BuildLayout(kinds, argtypes, dshapes);
      var n := WalkLength(kinds, argtypes);
      r.Ok? ==>
        && |r.value.fieldIndex| == n
        && (forall i :: 0 <= i < n ==> (r.value.fieldIndex[i].None? <==> kinds[i] == Scalar || kinds[i] == Pointer))
        && (forall i :: 0 <= i < n && r.value.fieldIndex[i].Some? ==>
              1 <= r.value.fieldIndex[i].value < |r.value.fields| &&
              r.value.fields[r.value.fieldIndex[i].value] == Extents(i, |dshapes[i].dims|))
        && (forall i, j :: 0 <= i < j < n && r.value.fieldIndex[i].Some? && r.value.fieldIndex[j].Some? ==>
              r.value.fieldIndex[i].value < r.value.fieldIndex[j].value)
  {
    var r := BuildLayout(kinds, argtypes, dshapes);
    var n := WalkLength(kinds, argtypes);
    if r.Ok? {
      BuildLayoutDescribes(kinds, argtypes, dshapes);
      LayoutErrors(kinds, argtypes, dshapes);
      forall i, j | 0 <= i < j < n && r.value.fieldIndex[i].Some? && r.value.fieldIndex[j].Some?
        ensures r.value.fieldIndex[i].value < r.value.fieldIndex[j].value
      {
        ArrayCountMonotone(kinds, i, j);
      }
    }
  }

  lemma {:induction false} WalkFromErrors(kinds: seq<Kind>, dshapes: seq<DShape>, n: nat, i: nat, acc: Layout)
    requires i <= n <= |kinds| && n <= |dshapes|
    ensures WalkFrom(kinds, dshapes, n, i, acc).Ok? <==> forall j :: i <= j < n ==> !Rejected(kinds[j])
    ensures WalkFrom(kinds, dshapes, n, i, acc).Err? ==>
      exists j :: i <= j < n && Rejected(kinds[j]) && (forall j' :: i <= j' < j ==> !Rejected(kinds[j'])) &&
        WalkFrom(kinds, dshapes, n, i, acc).error == KindError(kinds[j])
    decreases n - i
  {
    if i < n {
      var s := Step(acc, i, kinds[i], dshapes[i]);
      if s.Ok? {
        WalkFromErrors(kinds, dshapes, n, i + 1, s.value);
      }
    }
  }

  /**
    The builder fails exactly when some walked argument is a non C-contiguous array or a kind that
    is none of array, scalar or pointer; the error is that of the first such argument, and no
    layout is produced.
   */
  lemma LayoutErrors(kinds: seq<Kind>, argtypes: seq<NativeType>, dshapes: seq<DShape>)
    requires |dshapes| == |kinds|
    ensures var r := BuildLayout(kinds, argtypes, dshapes);
      var n := WalkLength(kinds, argtypes);
      && (r.Ok? <==> forall i :: 0 <= i < n ==> !Rejected(kinds[i]))
      && (r.Err? ==>
            exists i :: 0 <= i < n && Rejected(kinds[i]) && (forall j :: 0 <= j < i ==> !Rejected(kinds[j])) &&
              r.error == (if kinds[i].Array? then NotCContiguous else UnsupportedKind(kinds[i])))
  {
    WalkFromErrors(kinds, dshapes, WalkLength(kinds, argtypes), 0, Start());
  }

  // ---------------------------------------------------------------------------
  // The facts the bind routine and the marshaller rely on

  /** Every recorded field index names an extent-array field labelled with its own argument. */
  predicate IndexConsistent(l: Layout) {
    && |l.fields| >= 1
    && l.fields[0].Header?
    && (forall i :: 0 <= i < |l.fieldIndex| && l.fieldIndex[i].Some? ==>
          1 <= l.fieldIndex[i].value < |l.fields| &&
          l.fields[l.fieldIndex[i].value].Extents? &&
          l.fields[l.fieldIndex[i].value].operand == i)
  }

  /** Each extent-array field holds one entry per dimension of its argument's datashape. */
  predicate MatchesShapes(l: Layout, dshapes: seq<DShape>) {
    forall i :: 0 <= i < |l.fieldIndex| && l.fieldIndex[i].Some? ==>
      i < |dshapes| && l.fieldIndex[i].value < |l.fields| &&
      FieldLength(l.fields[l.fieldIndex[i].value]) == |dshapes[i].dims|
  }

  lemma BuiltLayoutConsistent(kinds: seq<Kind>, argtypes: seq<NativeType>, dshapes: seq<DShape>)
    requires |dshapes| == |kinds|
    ensures var r := BuildLayout(kinds, argtypes, dshapes);
      r.Ok? ==> IndexConsistent(r.value) && MatchesShapes(r.value, dshapes)
  {
    LayoutFieldIndices(kinds, argtypes, dshapes);
    LayoutFieldCount(kinds, argtypes, dshapes);
  }
}
