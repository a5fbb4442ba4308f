/** The tuple layout engine of `tuple_util.hpp`: per-column type codes and
    widths, the row size and the tightly packed column offsets of a tuple
    type, plus the `has_bool` and `convertible` type predicates. */
module TupleUtil {
  import opened TypeMapper

  /** Reference qualification of a tuple member type. */
  datatype RefKind = NoRef | LValueRef | RValueRef

  /** A member type as written in a tuple: a scalar kind with its
      cv-qualifiers and reference qualification. */
  datatype QualType = QualType(base: ScalarKind, isConst: bool, isVolatile: bool, ref: RefKind)

  /** A type handed to `convertible`: tuple-like (it has a `std::tuple_size`)
      with its member types, or not. */
  datatype CppType = TupleLike(members: seq<QualType>) | NotTupleLike

  /** The unqualified, non-reference type of a kind. */
  function Plain(k: ScalarKind): QualType
  {
    QualType(k, false, false, NoRef)
  }

  /** `std::remove_cvref_t`. */
  function RemoveCvref(q: QualType): QualType
  {
    Plain(q.base)
  }

  /** `std::tuple<T, TArgs...>` for a stream's kinds. */
  function PlainTuple(ks: seq<ScalarKind>): (t: CppType)
    ensures t.TupleLike? && |t.members| == |ks|
    ensures forall k :: 0 <= k < |ks| ==> RemoveCvref(t.members[k]) == t.members[k]
    ensures Decayed(t.members) == ks
  {
    var t := TupleLike(seq(|ks|, k requires 0 <= k < |ks| => Plain(ks[k])));
    assert Decayed(t.members) == ks;
    t
  }

  /** The scalar kinds of a tuple's members after `std::decay_t`. */
  function Decayed(ms: seq<QualType>): (ks: seq<ScalarKind>)
    ensures |ks| == |ms|
    ensures forall k :: 0 <= k < |ms| ==> ks[k] == ms[k].base
  {
    seq(|ms|, k requires 0 <= k < |ms| => ms[k].base)
  }

  /** `std::decay_t` ignores `const`, `volatile` and references: stripping
      them first does not change the decayed kinds. */
  lemma DecayedIgnoresCvref(ms: seq<QualType>)
    ensures Decayed(seq(|ms|, k requires 0 <= k < |ms| => RemoveCvref(ms[k]))) == Decayed(ms)
  {
  }

  // ---------------------------------------------------------------------
  // has_bool

  /** `has_bool_impl<T, N, i>`: some member at index `i` or later decays to
      `bool`. */
  function HasBoolFrom(ms: seq<QualType>, i: nat): bool
    requires i <= |ms|
    decreases |ms| - i
  {
    if i < |ms| then ms[i].base == Bool || HasBoolFrom(ms, i + 1) else false
  }

  /** `has_bool<T>()`, i.e. `tuple_info<T>::has_bool_element`. */
  function HasBool(ms: seq<QualType>): bool
  {
    HasBoolFrom(ms, 0)
  }

  lemma {:induction false} HasBoolFromIff(ms: seq<QualType>, i: nat)
    requires i <= |ms|
    ensures HasBoolFrom(ms, i) <==> exists k :: i <= k < |ms| && ms[k].base == Bool
    decreases |ms| - i
  {
    if i < |ms| {
      HasBoolFromIff(ms, i + 1);
    }
  }

  /** `has_bool_element` holds exactly when some member type is `bool`. */
  lemma HasBoolIff(ms: seq<QualType>)
    ensures HasBool(ms) <==> exists k :: 0 <= k < |ms| && ms[k].base == Bool
  {
    HasBoolFromIff(ms, 0);
  }

  // ---------------------------------------------------------------------
  // convertible

  /** The fold `(is_same_v<remove_cvref_t<From_N>, To_N> && ...)` over the
      members from index `i` on. */
  function SameFrom(from: seq<QualType>, to: seq<QualType>, i: nat): bool
    requires |from| == |to| && i <= |to|
    decreases |to| - i
  {
    if i == |to| then true else RemoveCvref(from[i]) == to[i] && SameFrom(from, to, i + 1)
  }

  /** `convertible<A, B>`: both tuple-like, of equal size, and the members
      agree after `remove_cvref` is applied to those of `A`. */
  function Convertible(a: CppType, b: CppType): bool
  {
    a.TupleLike? && b.TupleLike? && |a.members| == |b.members|
    && SameFrom(a.members, b.members, 0)
  }

  lemma {:induction false} SameFromIff(from: seq<QualType>, to: seq<QualType>, i: nat)
    requires |from| == |to| && i <= |to|
    ensures SameFrom(from, to, i) <==> forall k :: i <= k < |to| ==> RemoveCvref(from[k]) == to[k]
    decreases |to| - i
  {
    if i < |to| {
      SameFromIff(from, to, i + 1);
    }
  }

  /** Both directions of the characterisation of `convertible`. */
  lemma ConvertibleIff(a: CppType, b: CppType)
    ensures Convertible(a, b) <==>
      a.TupleLike? && b.TupleLike? && |a.members| == |b.members|
      && forall k :: 0 <= k < |b.members| ==> RemoveCvref(a.members[k]) == b.members[k]
  {
    if a.TupleLike? && b.TupleLike? && |a.members| == |b.members| {
      SameFromIff(a.members, b.members, 0);
    }
  }

  /** A tuple convertible to a stream's tuple type decays to the stream's
      kinds, so `tuple_info` of either gives the same layout. */
  lemma ConvertibleToStreamTuple(ms: seq<QualType>, ks: seq<ScalarKind>)
    requires Convertible(TupleLike(ms), PlainTuple(ks))
    ensures Decayed(ms) == ks
  {
    ConvertibleIff(TupleLike(ms), PlainTuple(ks));
    assert forall k :: 0 <= k < |ks| ==> RemoveCvref(ms[k]).base == ks[k];
  }

  // ---------------------------------------------------------------------
  // Layout: specification

  /** `data_types`: the type code of each member. */
  function DataTypes(ks: seq<ScalarKind>): seq<char>
  {
    seq(|ks|, k requires 0 <= k < |ks| => MapType(ks[k]))
  }

  /** `element_sizes`: the width of each member. */
  function ElementSizes(ks: seq<ScalarKind>): seq<nat>
  {
    seq(|ks|, k requires 0 <= k < |ks| => SizeOf(ks[k]))
  }

  /** The sum of a sequence of widths. */
  function Sum(ws: seq<nat>): nat
  {
    if ws == [] then 0 else Sum(ws[..|ws| - 1]) + ws[|ws| - 1]
  }

  /** Exclusive prefix sums of the widths: where each column starts. */
  function Offsets(ws: seq<nat>): (os: seq<nat>)
    ensures |os| == |ws|
  {
    seq(|ws|, k requires 0 <= k < |ws| => Sum(ws[..k]))
  }

  /** The offsets start at zero and each column starts where the previous
      one ends: no padding. */
  lemma OffsetsRecurrence(ws: seq<nat>, k: nat)
    requires 0 < k < |ws|
    ensures Offsets(ws)[0] == 0
    ensures Offsets(ws)[k] == Offsets(ws)[k - 1] + ws[k - 1]
  {
    assert ws[..k][..k - 1] == ws[..k - 1];
  }

  /** The widths of the first `k + 1` columns: those of the first `k` and
      column `k`'s. */
  lemma SumStep(ws: seq<nat>, k: nat)
    requires k < |ws|
    ensures Sum(ws[..k + 1]) == Sum(ws[..k]) + ws[k]
  {
    assert ws[..k + 1][..k] == ws[..k];
  }

  lemma {:induction false} SumPrefix(ws: seq<nat>, k: nat)
    requires k <= |ws|
    ensures Sum(ws[..k]) <= Sum(ws)
    decreases |ws| - k
  {
    if k < |ws| {
      SumPrefix(ws, k + 1);
      assert ws[..k + 1][..k] == ws[..k];
    } else {
      assert ws[..k] == ws;
    }
  }

  /** Every column lies inside the row. */
  lemma ColumnInRow(ws: seq<nat>, k: nat)
    requires k < |ws|
    ensures Offsets(ws)[k] + ws[k] <= Sum(ws)
  {
    SumPrefix(ws, k + 1);
    assert ws[..k + 1][..k] == ws[..k];
  }

  lemma {:induction false} OffsetsMonotone(ws: seq<nat>, i: nat, j: nat)
    requires i <= j <= |ws|
    ensures Sum(ws[..i]) <= Sum(ws[..j])
    decreases j - i
  {
    if i < j {
      OffsetsMonotone(ws, i, j - 1);
      assert ws[..j][..j - 1] == ws[..j - 1];
    }
  }

  /** Column byte ranges `[offsets[k], offsets[k] + widths[k])` are pairwise
      disjoint ... */
  lemma ColumnsDisjoint(ws: seq<nat>, i: nat, j: nat)
    requires i < j < |ws|
    ensures Offsets(ws)[i] + ws[i] <= Offsets(ws)[j]
  {
    assert ws[..i + 1][..i] == ws[..i];
    OffsetsMonotone(ws, i + 1, j);
  }

  /** ... and every byte of the row lies in one of them. */
  lemma {:induction false} ColumnsCover(ws: seq<nat>, b: nat)
    requires b < Sum(ws)
    ensures exists k :: 0 <= k < |ws| && Offsets(ws)[k] <= b < Offsets(ws)[k] + ws[k]
  {
    var n := |ws|;
    var init := ws[..n - 1];
    if b < Sum(init) {
      ColumnsCover(init, b);
      var k :| 0 <= k < |init| && Offsets(init)[k] <= b < Offsets(init)[k] + init[k];
      assert ws[..k] == init[..k];
    } else {
      assert ws[..n - 1] == init;
    }
  }

  /** Three four-byte columns: offsets 0, 4, 8 and a twelve-byte row. */
  lemma ThreeInt32Layout()
    ensures ElementSizes([Int(4), Int(4), Int(4)]) == [4, 4, 4]
    ensures Offsets([4, 4, 4]) == [0, 4, 8] && Sum([4, 4, 4]) == 12
    ensures Offsets([4, 4, 8]) == [0, 4, 8] && Sum([4, 4, 8]) == 16
  {
    var w, v := [4, 4, 4], [4, 4, 8];
    assert w[..0] == [] && w[..1] == [4] && w[..2] == [4, 4];
    assert v[..0] == [] && v[..1] == [4] && v[..2] == [4, 4];
    assert [4, 4][..1] == [4] && [4][..0] == [];
    assert Sum([4, 4]) == 8;
  }

  // ---------------------------------------------------------------------
  // Layout: the constexpr computations, slot by slot

  /** `getDataTypes` / `getDataTypes_impl`. */
  method GetDataTypes(ks: seq<ScalarKind>) returns (types: seq<char>)
    ensures |types| == |ks|
    ensures forall k :: 0 <= k < |ks| ==> types[k] == MapType(ks[k])
  {
    var a := new char[|ks|];
    var k := 0;
    while k < |ks|
      invariant 0 <= k <= |ks|
      invariant forall j :: 0 <= j < k ==> a[j] == MapType(ks[j])
    {
      a[k] := MapType(ks[k]);
      k := k + 1;
    }
    types := a[..];
  }

  /** `getElementSizes` / `getSizes_impl`. */
  method GetElementSizes(ks: seq<ScalarKind>) returns (sizes: seq<nat>)
    ensures |sizes| == |ks|
    ensures forall k :: 0 <= k < |ks| ==> sizes[k] == SizeOf(ks[k])
  {
    var a := new nat[|ks|];
    var k := 0;
    while k < |ks|
      invariant 0 <= k <= |ks|
      invariant forall j :: 0 <= j < k ==> a[j] == SizeOf(ks[j])
    {
      a[k] := SizeOf(ks[k]);
      k := k + 1;
    }
    sizes := a[..];
  }

  /** `sum_size_impl`: the row size `sum_sizes`. `size_t` overflow is not
      modelled. */
  method SumSizes(sizes: seq<nat>) returns (sum: nat)
    ensures sum == Sum(sizes)
  {
    sum := 0;
    var i := 0;
    while i < |sizes|
      invariant 0 <= i <= |sizes|
      invariant sum == Sum(sizes[..i])
    {
      assert sizes[..i + 1][..i] == sizes[..i];
      sum := sum + sizes[i];
      i := i + 1;
    }
    assert sizes[..i] == sizes;
  }

  /** `calc_offsets` / `calc_offsets_impl`. The source writes `offsets[0]`
      unconditionally, so a tuple has at least one member. */
  method CalcOffsets(sizes: seq<nat>) returns (offsets: seq<nat>)
    requires |sizes| >= 1
    ensures offsets == Offsets(sizes)
    ensures offsets[0] == 0
    ensures forall k :: 0 < k < |sizes| ==> offsets[k] == offsets[k - 1] + sizes[k - 1]
  {
    var a := new nat[|sizes|];
    a[0] := 0;
    var k := 1;
    while k < |sizes|
      invariant 1 <= k <= |sizes|
      invariant forall j :: 0 <= j < k ==> a[j] == Sum(sizes[..j])
    {
      assert sizes[..k][..k - 1] == sizes[..k - 1];
      a[k] := a[k - 1] + sizes[k - 1];
      k := k + 1;
    }
    offsets := a[..];
    forall j | 0 < j < |sizes|
      ensures offsets[j] == offsets[j - 1] + sizes[j - 1]
    {
      OffsetsRecurrence(sizes, j);
    }
  }
}
