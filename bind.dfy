/**
  The bind routine (`bind_func`): before calls, copy the concrete extents of each operand's data
  descriptor (sources in order, destination last) into that operand's extent array of the
  kernel-data struct. With only the header in the layout it does nothing.
 */
module Bind {
  import opened Wrappers
  import opened Kinds
  import opened KernelDataLayout

  /** The concrete shape of a runtime data descriptor: its extents, outermost first, the measure left off. */
  datatype DataDescriptor = DataDescriptor(extents: seq<nat>)

  /**
    `dd.dshape[-len(ds):-1]`: of `dd`'s extents followed by its measure, the last `|ds.dims| + 1`
    entries without the measure, that is the trailing `|ds.dims|` extents, or all of them when `dd`
    has fewer.
   */
  function TrailingExtents(dd: DataDescriptor, ds: DShape): (r: seq<nat>)
    ensures |r| == Min(|ds.dims|, |dd.extents|)
    ensures forall j :: 0 <= j < |r| ==> r[j] == dd.extents[|dd.extents| - |r| + j]
  {
    var start := if |dd.extents| >= |ds.dims| then |dd.extents| - |ds.dims| else 0;
    dd.extents[start..]
  }

  /** `cshape[j] = dim_size` for every `j` of `shape`: the front of the field overwritten, the rest kept. */
  function WriteFront(field: seq<int>, shape: seq<nat>): seq<int>
    requires |shape| <= |field|
  {
    shape + field[|shape|..]
  }

  /** The data descriptors bind_func zips with the datashapes: the sources, then the destination. */
  function Operands(dst: DataDescriptor, srcs: seq<DataDescriptor>): seq<DataDescriptor> {
    srcs + [dst]
  }

  /** `izip` stops at the shorter of the datashapes and the operands. */
  function BindCount(dshapes: seq<DShape>, srcs: seq<DataDescriptor>): nat {
    Min(|dshapes|, |srcs| + 1)
  }

  /** The routine can run: the layout is the bare header, or every zipped operand has an `operand_i` field. */
  predicate CanBind(l: Layout, dshapes: seq<DShape>, srcs: seq<DataDescriptor>) {
    |l.fields| == 1 ||
    (BindCount(dshapes, srcs) <= |l.fieldIndex| && forall i :: 0 <= i < BindCount(dshapes, srcs) ==> l.fieldIndex[i].Some?)
  }

  /** The contents of a struct instance laid out by `l`: one integer array per field, of the field's length. */
  predicate ContentsConform(contents: seq<seq<int>>, l: Layout) {
    && |contents| == |l.fields|
    && forall f :: 0 <= f < |contents| ==> |contents[f]| == FieldLength(l.fields[f])
  }

  /** The struct contents after the first `k` operands are bound. */
  function BindUpTo(l: Layout, dshapes: seq<DShape>, contents: seq<seq<int>>, dst: DataDescriptor,
                    srcs: seq<DataDescriptor>, k: nat): (r: seq<seq<int>>)
    requires IndexConsistent(l) && MatchesShapes(l, dshapes) && ContentsConform(contents, l)
    requires k <= BindCount(dshapes, srcs)
    requires k <= |l.fieldIndex| && forall i :: 0 <= i < k ==> l.fieldIndex[i].Some?
    ensures ContentsConform(r, l)
    decreases k
  {
    if k == 0 then contents
    else
      var prev := BindUpTo(l, dshapes, contents, dst, srcs, k - 1);
      var f := l.fieldIndex[k - 1].value;
      prev[f := WriteFront(prev[f], TrailingExtents(Operands(dst, srcs)[k - 1], dshapes[k - 1]))]
  }

  /** What bind_func leaves in a struct that held `contents`. */
  function BindSpec(l: Layout, dshapes: seq<DShape>, contents: seq<seq<int>>, dst: DataDescriptor,
                    srcs: seq<DataDescriptor>): seq<seq<int>>
    requires IndexConsistent(l) && MatchesShapes(l, dshapes) && ContentsConform(contents, l)
    requires CanBind(l, dshapes, srcs)
  {
    if |l.fields| == 1 then contents
    else BindUpTo(l, dshapes, contents, dst, srcs, BindCount(dshapes, srcs))
  }

  /** Field `f` is the extent array of one of the zipped operands. */
  predicate Bound(l: Layout, dshapes: seq<DShape>, srcs: seq<DataDescriptor>, f: nat, k: nat) {
    exists i :: 0 <= i < k && i < |l.fieldIndex| && l.fieldIndex[i] == Some(f)
  }

  lemma {:induction false} BindUpToMeaning(l: Layout, dshapes: seq<DShape>, contents: seq<seq<int>>, dst: DataDescriptor,
                                           srcs: seq<DataDescriptor>, k: nat)
    requires IndexConsistent(l) && MatchesShapes(l, dshapes) && ContentsConform(contents, l)
    requires k <= BindCount(dshapes, srcs)
    requires k <= |l.fieldIndex| && forall i :: 0 <= i < k ==> l.fieldIndex[i].Some?
    ensures var r := BindUpTo(l, dshapes, contents, dst, srcs, k);
      && (forall i :: 0 <= i < k ==>
            r[l.fieldIndex[i].value] ==
              WriteFront(contents[l.fieldIndex[i].value], TrailingExtents(Operands(dst, srcs)[i], dshapes[i])))
      && (forall f :: 0 <= f < |r| && !Bound(l, dshapes, srcs, f, k) ==> r[f] == contents[f])
    decreases k
  {
    if k > 0 {
      BindUpToMeaning(l, dshapes, contents, dst, srcs, k - 1);
      var prev := BindUpTo(l, dshapes, contents, dst, srcs, k - 1);
      var r := BindUpTo(l, dshapes, contents, dst, srcs, k);
      var f := l.fieldIndex[k - 1].value;
      assert r == prev[f := WriteFront(prev[f], TrailingExtents(Operands(dst, srcs)[k - 1], dshapes[k - 1]))];
      assert !Bound(l, dshapes, srcs, f, k - 1);
      assert Bound(l, dshapes, srcs, f, k);
      forall i | 0 <= i < k - 1
        ensures r[l.fieldIndex[i].value] ==
          WriteFront(contents[l.fieldIndex[i].value], TrailingExtents(Operands(dst, srcs)[i], dshapes[i]))
      {
        assert l.fields[l.fieldIndex[i].value].operand == i;
        assert l.fieldIndex[i].value != f;
      }
      forall g | 0 <= g < |r| && !Bound(l, dshapes, srcs, g, k)
        ensures r[g] == contents[g]
      {
        assert !Bound(l, dshapes, srcs, g, k - 1);
      }
    }
  }

  /**
    With only the header in the layout the routine changes nothing. Otherwise operand `i`'s field
    `operand_i` gets the operand's trailing runtime extents in its first slots, and every other
    field, the header among them, is left as it was.
   */
  lemma BindMeaning(l: Layout, dshapes: seq<DShape>, contents: seq<seq<int>>, dst: DataDescriptor,
                    srcs: seq<DataDescriptor>)
    requires IndexConsistent(l) && MatchesShapes(l, dshapes) && ContentsConform(contents, l)
    requires CanBind(l, dshapes, srcs)
    ensures var r := BindSpec(l, dshapes, contents, dst, srcs);
      && ContentsConform(r, l)
      && (|l.fields| == 1 ==> r == contents)
      && r[0] == contents[0]
      && (|l.fields| > 1 ==>
            forall i :: 0 <= i < BindCount(dshapes, srcs) ==>
              r[l.fieldIndex[i].value] ==
                WriteFront(contents[l.fieldIndex[i].value], TrailingExtents(Operands(dst, srcs)[i], dshapes[i])))
      && (forall f :: 0 <= f < |r| && !Bound(l, dshapes, srcs, f, BindCount(dshapes, srcs)) ==> r[f] == contents[f])
  {
    if |l.fields| > 1 {
      BindUpToMeaning(l, dshapes, contents, dst, srcs, BindCount(dshapes, srcs));
    }
    assert !Bound(l, dshapes, srcs, 0, BindCount(dshapes, srcs));
  }

  /** Binding twice with the same descriptors leaves the struct as binding once does. */
  lemma BindIdempotent(l: Layout, dshapes: seq<DShape>, contents: seq<seq<int>>, dst: DataDescriptor,
                       srcs: seq<DataDescriptor>)
    requires IndexConsistent(l) && MatchesShapes(l, dshapes) && ContentsConform(contents, l)
    requires CanBind(l, dshapes, srcs)
    ensures ContentsConform(BindSpec(l, dshapes, contents, dst, srcs), l)
    ensures BindSpec(l, dshapes, BindSpec(l, dshapes, contents, dst, srcs), dst, srcs) == BindSpec(l, dshapes, contents, dst, srcs)
  {
    var once := BindSpec(l, dshapes, contents, dst, srcs);
    BindMeaning(l, dshapes, contents, dst, srcs);
    var twice := BindSpec(l, dshapes, once, dst, srcs);
    BindMeaning(l, dshapes, once, dst, srcs);
    forall f | 0 <= f < |once|
      ensures twice[f] == once[f]
    {
      if |l.fields| > 1 && Bound(l, dshapes, srcs, f, BindCount(dshapes, srcs)) {
        var i :| 0 <= i < BindCount(dshapes, srcs) && i < |l.fieldIndex| && l.fieldIndex[i] == Some(f);
        var s := TrailingExtents(Operands(dst, srcs)[i], dshapes[i]);
        assert once[f] == WriteFront(contents[f], s);
        assert twice[f] == WriteFront(once[f], s);
      }
    }
  }

  // ---------------------------------------------------------------------------
  // The routine on a struct instance

  /** A struct instance: distinct field buffers of the lengths the layout gives. */
  predicate Allocated(estruct: seq<array<int>>, l: Layout) {
    && |estruct| == |l.fields|
    && (forall f :: 0 <= f < |estruct| ==> estruct[f].Length == FieldLength(l.fields[f]))
    && (forall f, g :: 0 <= f < g < |estruct| ==> estruct[f] != estruct[g])
  }

  function Contents(estruct: seq<array<int>>): (c: seq<seq<int>>)
    reads estruct
  {
    seq(|estruct|, f requires 0 <= f < |estruct| reads estruct => estruct[f][..])
  }

  /** The inner loop of bind_func: `cshape[j] = dim_size` for each extent of `shape`, in place. */
  method WriteShape(cshape: array<int>, shape: seq<nat>)
    requires |shape| <= cshape.Length
    modifies cshape
    ensures cshape[..] == WriteFront(old(cshape[..]), shape)
  {
    for j := 0 to |shape|
      invariant forall m :: 0 <= m < j ==> cshape[m] == shape[m]
      invariant forall m :: j <= m < cshape.Length ==> cshape[m] == old(cshape[m])
    {
      cshape[j] := shape[j];
    }
  }

  /** bind_func: a no-op for a bare-header layout, otherwise the copy of every operand's trailing extents. */
  method BindFunc(l: Layout, dshapes: seq<DShape>, estruct: seq<array<int>>, dst: DataDescriptor,
                  srcs: seq<DataDescriptor>)
    requires IndexConsistent(l) && MatchesShapes(l, dshapes) && Allocated(estruct, l)
    requires CanBind(l, dshapes, srcs)
    modifies estruct
    ensures ContentsConform(old(Contents(estruct)), l)
    ensures Contents(estruct) == BindSpec(l, dshapes, old(Contents(estruct)), dst, srcs)
  {
    ghost var c0 := Contents(estruct);
    assert ContentsConform(c0, l);
    if |l.fields| == 1 {
      return;
    }
    var operands := srcs + [dst];
    var n := Min(|dshapes|, |operands|);
    for i := 0 to n
      invariant Contents(estruct) == BindUpTo(l, dshapes, c0, dst, srcs, i)
    {
      var shape := TrailingExtents(operands[i], dshapes[i]);
      var f := l.fieldIndex[i].value;
      ghost var before := Contents(estruct);
      WriteShape(estruct[f], shape);
      assert forall g :: 0 <= g < |estruct| && g != f ==> estruct[g][..] == before[g];
      assert Contents(estruct) == before[f := WriteFront(before[f], shape)];
    }
  }
}
