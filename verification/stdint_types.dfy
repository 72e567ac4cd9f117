/** The `FormatToCType` formatters of c-abi-lens: C type names for function
return values and arguments, built from `stdint.h` names.

The trait's three implementations become the three variants of
`StdintType`; each trait method is one function matching on the variant. */
module StdintTypes {
  import opened Wrappers
  import opened Ints
  import opened Text
  import Clang
  import CTypes

  /** A type the formatters can print:
      - `IntegerStdint` is `CIntegerStdintH`, an integer of 1, 2, 4 or 8
        bytes;
      - `ByteArray` is `CByteArrayType`, the bytes of any sized type;
      - `Unrepresentable` is `UnrepresentableType`, printed as a pointer. */
  datatype StdintType =
    | IntegerStdint(bytes: Usize, isUnsigned: bool)
    | ByteArray(bytes: Usize)
    | Unrepresentable(kind: Clang.TypeKind, maybeType: Option<Clang.ClangType>)

  datatype StdintError = NotIntegerLike | NoSize | UnsupportedSize(size: Usize)

  /** The types `CIntegerStdintH::new` lets through its first check:
      integers, pointers and enums. */
  predicate IntegerLike(ty: Clang.ClangType)
  {
    ty.isInteger || ty.hasPointee || ty.kind == Clang.Enum
  }

  /** `CIntegerStdintH::new`: the kind is checked first, then the size must
      be known, then it must be 1, 2, 4 or 8 bytes. */
  function NewInteger(ty: Clang.ClangType): (r: Result<StdintType, StdintError>)
    ensures r.Ok? <==> IntegerLike(ty) && ty.sizeOf.Some? && ty.sizeOf.value in {1, 2, 4, 8}
    ensures !IntegerLike(ty) ==> r == Err(NotIntegerLike)
    ensures IntegerLike(ty) && ty.sizeOf.None? ==> r == Err(NoSize)
    ensures IntegerLike(ty) && ty.sizeOf.Some? && ty.sizeOf.value !in {1, 2, 4, 8} ==> r == Err(UnsupportedSize(ty.sizeOf.value))
    ensures r.Ok? ==> r.value.IntegerStdint? && r.value.bytes == ty.sizeOf.value && r.value.isUnsigned == ty.isUnsignedInteger
  {
    if !IntegerLike(ty) then Err(NotIntegerLike)
    else if ty.sizeOf.None? then Err(NoSize)
    else if ty.sizeOf.value !in {1, 2, 4, 8} then Err(UnsupportedSize(ty.sizeOf.value))
    else Ok(IntegerStdint(ty.sizeOf.value, ty.isUnsignedInteger))
  }

  /** `CByteArrayType::new`: any type with a known size. */
  function NewByteArray(ty: Clang.ClangType): (r: Result<StdintType, StdintError>)
    ensures r.Ok? <==> ty.sizeOf.Some?
    ensures r.Err? ==> r.error == NoSize
    ensures r.Ok? ==> r.value == ByteArray(ty.sizeOf.value)
  {
    if ty.sizeOf.None? then Err(NoSize) else Ok(ByteArray(ty.sizeOf.value))
  }

  /** `to_function_return_type`. */
  function ReturnType(t: StdintType): (r: string)
    ensures |r| >= 5
    ensures t.IntegerStdint? ==> r == (if t.isUnsigned then "u" else "") + "int" + NatToString(8 * t.bytes) + "_t"
    ensures t.ByteArray? ==> r == "uint8_t"
    ensures t.Unrepresentable? ==> r == "void*"
  {
    match t
    case IntegerStdint(bytes, isUnsigned) => (if isUnsigned then "u" else "") + "int" + NatToString(8 * bytes) + "_t"
    case ByteArray(_) => "uint8_t"
    case Unrepresentable(_, _) => "void*"
  }

  /** `to_function_argument_type`: the return type and the argument's
      name, with the byte count in brackets for a byte array. */
  function ArgumentType(t: StdintType, name: string): (r: string)
    ensures |r| > |ReturnType(t)| + |name| && r[..|ReturnType(t)|] == ReturnType(t)
    ensures r[|ReturnType(t)|] == ' ' && r[|ReturnType(t)| + 1..|ReturnType(t)| + 1 + |name|] == name
    ensures r == ReturnType(t) + " " + name + (if t.ByteArray? then "[" + NatToString(t.bytes) + "]" else "")
  {
    var rt := ReturnType(t);
    var tail := if t.ByteArray? then "[" + NatToString(t.bytes) + "]" else "";
    Framed(rt, " " + name, tail);
    Framed(rt, " ", name);
    rt + " " + name + tail
  }

  /** `size_bytes`: the size the formatter stands for; for a type without
      representation the size of its type, and 0 where that is unknown. */
  function SizeBytes(t: StdintType): (r: nat)
    ensures t.Unrepresentable? ==> (r != 0 <==> t.maybeType.Some? && t.maybeType.value.sizeOf.Some? && t.maybeType.value.sizeOf.value != 0)
    ensures !t.Unrepresentable? ==> r == t.bytes
    ensures t.Unrepresentable? && t.maybeType.Some? && t.maybeType.value.sizeOf.Some? ==> r == t.maybeType.value.sizeOf.value
    ensures t.Unrepresentable? && (t.maybeType.None? || t.maybeType.value.sizeOf.None?) ==> r == 0
  {
    match t
    case IntegerStdint(bytes, _) => bytes
    case ByteArray(bytes) => bytes
    case Unrepresentable(_, maybeType) =>
      match maybeType
      case Some(ty) => if ty.sizeOf.Some? then ty.sizeOf.value else 0
      case None => 0
  }

  /** A formatter built from a type stands for exactly that type's size. */
  lemma ConstructedSizeIsSizeof(ty: Clang.ClangType)
    ensures NewInteger(ty).Ok? ==> SizeBytes(NewInteger(ty).value) == ty.sizeOf.value
    ensures NewByteArray(ty).Ok? ==> SizeBytes(NewByteArray(ty).value) == ty.sizeOf.value
  {
  }

  /** A byte-array argument declares an array of `uint8_t` under the
      argument's name whose bracketed count reads back as the formatter's
      size, for every size and every name. */
  lemma ByteArrayArgumentDeclaresSize(n: Usize, name: string)
    ensures var r := ArgumentType(ByteArray(n), name);
            var k := |"uint8_t " + name|;
            && |r| >= k + 3 && r[..k] == "uint8_t " + name && r[k] == '[' && r[|r| - 1] == ']'
            && IsDigits(r[k + 1..|r| - 1]) && ParseDecimal(r[k + 1..|r| - 1]) == SizeBytes(ByteArray(n))
  {
    var digits := NatToString(n);
    var head := "uint8_t " + name;
    var r := ArgumentType(ByteArray(n), name);
    assert r == head + "[" + digits + "]";
    Framed(head + "[", digits, "]");
    Framed(head, "[", digits);
    ParseNatToString(n);
  }

  /** The width an integer's name states is eight times its size. */
  lemma IntegerWidthIsSize(t: StdintType)
    requires t.IntegerStdint?
    ensures ParseIntegerName(ReturnType(t)) == Some((t.isUnsigned, 8 * SizeBytes(t)))
  {
    IntegerNameRoundTrip(t.bytes, t.isUnsigned);
  }

  /** Reads back what an integer's type name says: whether it is unsigned
      and its width in bits. */
  function ParseIntegerName(s: string): (r: Option<(bool, nat)>)
  {
    if |s| >= 6 && s[..4] == "uint" && s[|s| - 2..] == "_t" && IsDigits(s[4..|s| - 2]) then
      Some((true, ParseDecimal(s[4..|s| - 2])))
    else if |s| >= 5 && s[..3] == "int" && s[|s| - 2..] == "_t" && IsDigits(s[3..|s| - 2]) then
      Some((false, ParseDecimal(s[3..|s| - 2])))
    else None
  }

  /** The name of an integer type states its signedness and its width. */
  lemma IntegerNameRoundTrip(bytes: Usize, isUnsigned: bool)
    ensures ParseIntegerName(ReturnType(IntegerStdint(bytes, isUnsigned))) == Some((isUnsigned, 8 * bytes))
  {
    var bits := 8 * bytes;
    var s := ReturnType(IntegerStdint(bytes, isUnsigned));
    if isUnsigned {
      assert s == "uint" + NatToString(bits) + "_t";
      UnsignedNameParses(bits);
    } else {
      assert s == "int" + NatToString(bits) + "_t";
      SignedNameParses(bits);
    }
  }

  lemma UnsignedNameParses(bits: nat)
    ensures ParseIntegerName("uint" + NatToString(bits) + "_t") == Some((true, bits))
  {
    var digits := NatToString(bits);
    Framed("uint", digits, "_t");
    ParseNatToString(bits);
  }

  lemma SignedNameParses(bits: nat)
    ensures ParseIntegerName("int" + NatToString(bits) + "_t") == Some((false, bits))
  {
    var digits := NatToString(bits);
    var s := "int" + digits + "_t";
    Framed("int", digits, "_t");
    ParseNatToString(bits);
    assert s[..4] != "uint" by {
      assert s[0] == 'i';
    }
  }

  /** Integers of different width or signedness get different names. */
  lemma IntegerNamesDiffer(a: StdintType, b: StdintType)
    requires a.IntegerStdint? && b.IntegerStdint? && a != b
    ensures ReturnType(a) != ReturnType(b)
  {
    IntegerNameRoundTrip(a.bytes, a.isUnsigned);
    IntegerNameRoundTrip(b.bytes, b.isUnsigned);
  }

  /** For an integer kind both code generators agree: the name printed
      here is the one `RepresentableCType` prints for the same type, bare
      and with an argument name. */
  lemma IntegersAgreeWithRepresentable(ty: Clang.ClangType, name: string)
    requires ty.kind.IsIntegerLike() && NewInteger(ty).Ok?
    ensures CTypes.New(ty) == Ok(CTypes.Integer(ty.sizeOf.value, ty.isUnsignedInteger))
    ensures CTypes.FormatAsType(CTypes.New(ty).value, None) == Some(ReturnType(NewInteger(ty).value))
    ensures CTypes.FormatAsType(CTypes.New(ty).value, Some(name)) == Some(ArgumentType(NewInteger(ty).value, name))
  {
    var t := NewInteger(ty).value;
    assert t == IntegerStdint(ty.sizeOf.value, ty.isUnsignedInteger);
    IntegerFormatsAgree(ty.sizeOf.value, ty.isUnsignedInteger, name);
  }

  lemma IntegerFormatsAgree(bytes: U8, isUnsigned: bool, name: string)
    ensures CTypes.FormatAsType(CTypes.Integer(bytes, isUnsigned), None) == Some(ReturnType(IntegerStdint(bytes, isUnsigned)))
    ensures CTypes.FormatAsType(CTypes.Integer(bytes, isUnsigned), Some(name)) == Some(ArgumentType(IntegerStdint(bytes, isUnsigned), name))
  {
    var repr := CTypes.Integer(bytes, isUnsigned);
    var base := ReturnType(IntegerStdint(bytes, isUnsigned));
    assert base == (if isUnsigned then "uint" else "int") + NatToString(8 * bytes) + "_t";
    assert CTypes.ScalarFormat(repr, None) == Some(base + CTypes.NameSuffix(None));
    assert CTypes.FormatAsType(repr, None) == Some(base + CTypes.NameSuffix(None));
    assert CTypes.FormatAsType(repr, Some(name)) == Some(base + CTypes.NameSuffix(Some(name)));
    assert CTypes.NameSuffix(None) == "";
    assert CTypes.NameSuffix(Some(name)) == " " + name;
    assert ArgumentType(IntegerStdint(bytes, isUnsigned), name) == base + " " + name + "";
    assert base + "" == base;
    assert base + " " + name + "" == base + (" " + name);
  }

  /** Pointers are accepted as integers here, while `RepresentableCType`
      treats them as opaque: an 8-byte pointer prints as `int64_t` here
      and as `void *` there. */
  lemma PointersPrintAsIntegers()
    ensures var ptr := Clang.ClangType(Clang.Pointer, Some(8), false, false, true, None, 0, "int *");
            && ReturnType(NewInteger(ptr).value) == "int64_t"
            && CTypes.FormatAsType(CTypes.New(ptr).value, None) == Some("void *")
  {
    var ptr := Clang.ClangType(Clang.Pointer, Some(8), false, false, true, None, 0, "int *");
    assert NatToString(64) == "64" by {
      assert NatToString(6) == [DigitChar(6)];
      assert DigitChar(6) == '6' && DigitChar(4) == '4';
    }
    assert CTypes.New(ptr) == Ok(CTypes.Opaque(Some(8)));
    assert CTypes.ElementType(CTypes.Opaque(Some(8))) == CTypes.Opaque(Some(8));
    assert CTypes.NameSuffix(None) == "";
    assert "void *" + "" == "void *";
  }

  /** A byte array's argument is an array of `uint8_t` as long as the type
      has bytes. */
  lemma ByteArrayArgumentExample()
    ensures ArgumentType(ByteArray(12), "buf") == "uint8_t buf[12]"
  {
    assert NatToString(12) == "12" by {
      assert NatToString(1) == [DigitChar(1)];
      assert DigitChar(1) == '1' && DigitChar(2) == '2';
    }
  }
}
