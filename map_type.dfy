/** The type mapper of `map_type.hpp`: the closed set of scalar kinds a
    stream accepts, the C++ type traits the mapping branches on, and the
    one-character NumPy type code of each kind. */
module TypeMapper {
  import opened Common

  /** A scalar type accepted by `npy_serializable`: an arithmetic type or a
      `std::complex` of a floating-point type. Widths are `sizeof` in bytes;
      for `Complex` it is the width of one component. */
  datatype ScalarKind =
    | Bool
    | Int(width: nat)
    | UInt(width: nat)
    | Float(width: nat)
    | Complex(component: nat)

  /** `std::is_integral_v`: true for `bool` as well, as in C++. */
  predicate IsIntegral(k: ScalarKind)
  {
    k.Bool? || k.Int? || k.UInt?
  }

  /** `std::is_signed_v`: true for signed integers and floating-point types. */
  predicate IsSigned(k: ScalarKind)
  {
    k.Int? || k.Float?
  }

  /** `std::is_floating_point_v`. */
  predicate IsFloatingPoint(k: ScalarKind)
  {
    k.Float?
  }

  /** `std::is_arithmetic_v`: every accepted kind except a complex type. */
  predicate IsArithmetic(k: ScalarKind)
  {
    !k.Complex?
  }

  /** `sizeof(T)`; a complex number holds two components. */
  function SizeOf(k: ScalarKind): nat
  {
    match k
    case Bool => 1
    case Int(w) => w
    case UInt(w) => w
    case Float(w) => w
    case Complex(w) => 2 * w
  }

  /** The type codes `map_type` can produce. */
  const CODES: set<char> := {'b', 'i', 'u', 'f', 'c'}

  /** `map_type`: the complex overload first, then, for arithmetic types, the
      `bool` test, the integral test (split by signedness) and the
      floating-point test, in that order. */
  function MapType(k: ScalarKind): (c: char)
    ensures c in CODES
  {
    if k.Complex? then 'c'
    else if k == Bool then 'b'
    else if IsIntegral(k) then (if IsSigned(k) then 'i' else 'u')
    else if IsFloatingPoint(k) then 'f'
    else assert false; 'f'
  }

  /** Each code is produced by exactly one category of kinds, so the mapping
      is total and a code identifies the category. */
  lemma MapTypeCategories(k: ScalarKind)
    ensures MapType(k) == 'c' <==> k.Complex?
    ensures MapType(k) == 'b' <==> k.Bool?
    ensures MapType(k) == 'i' <==> IsArithmetic(k) && IsIntegral(k) && IsSigned(k) && !k.Bool?
    ensures MapType(k) == 'u' <==> IsArithmetic(k) && IsIntegral(k) && !IsSigned(k) && !k.Bool?
    ensures MapType(k) == 'f' <==> IsArithmetic(k) && IsFloatingPoint(k)
  {
  }

  /** `bool` is integral and unsigned in C++, yet maps to 'b' because the
      `bool` test comes first. */
  lemma BoolBeforeIntegral()
    ensures IsIntegral(Bool) && !IsSigned(Bool)
    ensures MapType(Bool) == 'b'
    ensures forall k :: IsIntegral(k) && MapType(k) != 'b' ==> k != Bool
  {
  }


  /** The (code, width) pairs of the common kinds: `b1`, `i4`, `f8`, `c16`. */
  lemma KnownKinds()
    ensures (MapType(Bool), SizeOf(Bool)) == ('b', 1)
    ensures (MapType(Int(4)), SizeOf(Int(4))) == ('i', 4)
    ensures (MapType(Float(8)), SizeOf(Float(8))) == ('f', 8)
    ensures (MapType(Complex(8)), SizeOf(Complex(8))) == ('c', 16)
  {
  }
}
