/** The snippet emitter of c-abi-lens: for a struct, a section with a
`sizeof` function, then per field a section with `sizeof` and `offsetof`
functions and accessors (getter and setter for scalars, read and write for
arrays of scalars, a void-pointer getter otherwise).

The emitter appends to the snippet list it is given, and an error in the
middle of a field leaves what was appended so far in place. Logging is not
modelled; the offset of a field is given by `offsetOf`, what libclang's
`get_offsetof` on the struct type answers for a field name. */
module FunctionEmitter {
  import opened Wrappers
  import opened Ints
  import opened Text
  import Clang
  import opened CTypes
  import opened Tokens

  datatype EmitError =
    | NoStructType
    | NoStructName
    | NotAField
    | NoFieldName
    | UnalignedOffset(bits: Usize)
    | TypeFailed(cause: TypeError)
    | NoByteSwap(width: U64)

  /* The fixed wording of the generated comments and code, one constant
     per longer piece of text. */

  const BaseAddr := "struct_base_addr"
  const SwappedSuffix := ", with endianness swapped"
  const StructEnd := "` struct"
  const StructSizeofNote := ")`\n\nReturns the size in bytes consumed for one instance of the `"
  const FieldSizeofNote := ")`\n\nReturns the size in bytes of the `"
  const FieldFromThe := "` field from the `"
  const OffsetofNote := ")`\n\nGet the offset in bytes of the `"
  const FieldFromStart := "` field from the start of a `"
  const GetterNote := "`\n\nReturns the field `"
  const GetterValueOf := "`'s value from an instance of the `"
  const CopyIntoValue := "memcpy(&value, ((uint8_t*) struct_base_addr + "
  const CopyIntoValueEnd := "), sizeof(value));\n"
  const SetterNote := "` to `value`\n\nOverwrites the field `"
  const SetterValueOf := "`'s value of an `"
  const SetterInstanceEnd := "` struct instance with `value`"
  const CopyFromValue := "memcpy(((uint8_t*) struct_base_addr + "
  const CopyFromValueEnd := "), &value, sizeof(value));"
  const LoopHead := "for(uintptr_t i = 0; i < "
  const LoopStep := "; i++)\n"
  const ByteOf := "\t((uint8_t*)"
  const ByteIndexFrom := ")[i] = ((uint8_t*)"
  const BytesCopy := "memcpy((uint8_t*)"
  const ReadNote := "`\n\nCopies from `"
  const ReadFieldOf := "` field of an instance of the `"
  const ReadEnd := "` struct to `destination`"
  const WriteNote := "`\n\nCopies from `source` to the `"
  const WriteFieldOf := "` field of an `"
  const WriteEnd := "` struct instance"
  const VoidPointerIntro := "Get void pointer to `"
  const NoRepresentationNote := "No ABI compatible representation of this type is known, therefore this just returns a void ptr\n\n"
  const KindLabel := "type kind:  "
  const MaybeTypeLabel := "\nmaybe type: "
  const ReturnVoidPointer := "return (void*)((uint8_t*)struct_base_addr + "

  /** The name of a per-struct function. */
  function StructFunctionName(op: string, s: string): string
  {
    op + "__" + s
  }

  /** The name of a per-field function. */
  function FieldFunctionName(op: string, s: string, f: string): string
  {
    op + "__" + s + "__" + f
  }

  /** Operation names without an underscore give distinct function names
      for the same struct and field. */
  lemma FieldFunctionNamesDiffer(op1: string, op2: string, s: string, f: string)
    requires op1 != op2
    requires forall i :: 0 <= i < |op1| ==> op1[i] != '_'
    requires forall i :: 0 <= i < |op2| ==> op2[i] != '_'
    ensures FieldFunctionName(op1, s, f) != FieldFunctionName(op2, s, f)
  {
    var n1 := FieldFunctionName(op1, s, f);
    var n2 := FieldFunctionName(op2, s, f);
    if |op1| == |op2| {
      var i :| 0 <= i < |op1| && op1[i] != op2[i];
      assert n1[i] == op1[i] && n2[i] == op2[i];
    } else if |op1| < |op2| {
      assert n1[|op1|] == '_' && n2[|op1|] == op2[|op1|];
    } else {
      assert n2[|op2|] == '_' && n1[|op2|] == op1[|op2|];
    }
  }

  /** The double underscore is also allowed inside C names, so the
      per-struct `sizeof` of a struct `A__B` and the per-field `sizeof` of
      field `B` of struct `A` get the same name. */
  lemma StructAndFieldNamesCanCollide()
    ensures StructFunctionName("sizeof", "A__B") == FieldFunctionName("sizeof", "A", "B")
  {
  }

  /** `emit_per_struct_functions`' `sizeof` function. */
  function StructSizeofFunc(s: string, size: nat): CFunc
  {
    CFunc("`sizeof(" + s + StructSizeofNote + s + "`",
          UIntPtr, StructFunctionName("sizeof", s), [], "return " + NatToString(size) + ";")
  }

  /** `emit_per_struct_functions`: a section titled with the struct's
      name, then its `sizeof` function, each followed by an empty line. A
      struct type without a size is an error before anything is emitted. */
  function EmitPerStructFunctions(snippets: seq<CSnippet>, s: string, structType: Clang.ClangType)
    : (r: (Outcome<EmitError>, seq<CSnippet>))
    ensures r.0.Fail? <==> structType.sizeOf.None?
    ensures r.0.Fail? ==> r == (Fail(TypeFailed(SizeofFailed)), snippets)
    ensures r.0.Pass? ==> r.1 == snippets + [Section(CSection(" " + s + " ", "")), Newline,
                                             Func(StructSizeofFunc(s, structType.sizeOf.value)), Newline]
  {
    if structType.sizeOf.None? then (Fail(TypeFailed(SizeofFailed)), snippets)
    else
      var size := structType.sizeOf.value;
      (Pass, snippets + [Section(CSection(" " + s + " ", "")), Newline, Func(StructSizeofFunc(s, size)), Newline])
  }

  /** ", with endianness swapped" where bytes are swapped. */
  function SwappedNote(swap: bool): string
  {
    if swap then SwappedSuffix else ""
  }

  function FieldSizeofFunc(s: string, f: string, total: nat): CFunc
  {
    CFunc("`sizeof(" + s + "->" + f + FieldSizeofNote + f + FieldFromThe + s + StructEnd,
          UIntPtr, FieldFunctionName("sizeof", s, f), [], "return " + NatToString(total) + ";")
  }

  function OffsetofFunc(s: string, f: string, offsetBytes: nat): CFunc
  {
    CFunc("`offsetof(" + s + ", " + f + OffsetofNote + f + FieldFromStart + s + StructEnd,
          UIntPtr, FieldFunctionName("offsetof", s, f), [], "return " + NatToString(offsetBytes) + ";")
  }

  /** The snippets every field that gets that far receives: its section,
      `sizeof` and `offsetof`, each followed by an empty line. */
  function FieldPrologue(s: string, f: string, total: nat, offsetBytes: nat): seq<CSnippet>
  {
    [Section(CSection(" " + s + "." + f + " ", "")), Newline,
     Func(FieldSizeofFunc(s, f, total)), Newline,
     Func(OffsetofFunc(s, f, offsetBytes)), Newline]
  }

  /** The byte-swap helper for elements of `width` bytes: none for single
      bytes, `bswap_16`, `bswap_32` or `bswap_64`, and None where no helper
      exists. */
  function ByteSwapFn(width: nat): (r: Option<string>)
    ensures r.Some? <==> width in {1, 2, 4, 8}
    ensures width == 1 ==> r == Some("")
  {
    if width == 1 then Some("")
    else if width in {2, 4, 8} then Some("bswap_" + NatToString(8 * width))
    else None
  }

  /** The helper's name states the bit width it swaps. */
  lemma ByteSwapFnNamesWidth(width: nat)
    requires width in {2, 4, 8}
    ensures var name := ByteSwapFn(width).value;
            && |name| > 6 && name[..6] == "bswap_" && IsDigits(name[6..])
            && ParseDecimal(name[6..]) == 8 * width
  {
    var name := ByteSwapFn(width).value;
    assert name[6..] == NatToString(8 * width);
    ParseNatToString(8 * width);
  }

  /** The statement a scalar accessor swaps its value with, if any. */
  function ScalarSwapStatement(swap: bool, width: nat, swapFn: string): (r: string)
    ensures r != "" <==> swap && width != 1
  {
    if swap && width != 1 then "value = " + swapFn + "(value);\n" else ""
  }

  function GetterFunc(s: string, f: string, repr: RepresentableCType, offsetBytes: nat, swapLine: string, swap: bool): CFunc
    requires Renderable(repr)
  {
    CFunc("Get `" + s + "." + f + GetterNote + f + GetterValueOf + s + StructEnd + SwappedNote(swap),
          repr, FieldFunctionName("get", s, f), [(Opaque(None), BaseAddr)],
          FormatAsType(repr, Some("value")).value + ";\n"
            + CopyIntoValue + NatToString(offsetBytes) + CopyIntoValueEnd
            + swapLine + "return value;")
  }

  function SetterFunc(s: string, f: string, repr: RepresentableCType, offsetBytes: nat, swapLine: string, swap: bool): CFunc
  {
    CFunc("Set `" + s + "." + f + SetterNote + f + SetterValueOf + s + SetterInstanceEnd + SwappedNote(swap),
          Void, FieldFunctionName("set", s, f), [(Opaque(None), BaseAddr), (repr, "value")],
          swapLine + CopyFromValue + NatToString(offsetBytes) + CopyFromValueEnd)
  }

  /** The C code copying an array field from `src` to `dst`: a byte loop
      with the swapping index when elements wider than a byte are swapped,
      otherwise one `memcpy`. */
  function CopyCode(src: string, dst: string, total: nat, width: nat, swap: bool): (r: string)
    requires width >= 1
    ensures swap && width != 1 <==> |r| >= |LoopHead| && r[..|LoopHead|] == LoopHead
  {
    if swap && width != 1 then
      LoopHead + NatToString(total) + LoopStep
        + ByteOf + dst + ByteIndexFrom + src + ")[i + " + NatToString(width - 1)
        + " - (i % " + NatToString(width) + ")];"
    else
      var r := BytesCopy + dst + ", (uint8_t*)" + src + ", " + NatToString(total) + ");";
      assert r[0] == BytesCopy[0] != LoopHead[0];
      r
  }

  function ReadFunc(s: string, f: string, repr: RepresentableCType, total: nat, width: nat, swap: bool): CFunc
    requires width >= 1
  {
    CFunc("Read from `" + s + "." + f + ReadNote + f + ReadFieldOf + s + ReadEnd + SwappedNote(swap),
          Void, FieldFunctionName("read", s, f), [(Opaque(None), BaseAddr), (repr, "dst")],
          CopyCode(BaseAddr, "dst", total, width, swap))
  }

  function WriteFunc(s: string, f: string, repr: RepresentableCType, total: nat, width: nat, swap: bool): CFunc
    requires width >= 1
  {
    CFunc("Write to `" + s + "." + f + WriteNote + f + WriteFieldOf + s + WriteEnd + SwappedNote(swap),
          Void, FieldFunctionName("write", s, f), [(Opaque(None), BaseAddr), (repr, "src")],
          CopyCode("src", BaseAddr, total, width, swap))
  }

  function VoidPointerFunc(s: string, f: string, ty: Clang.ClangType, offsetBytes: nat): CFunc
  {
    CFunc(VoidPointerIntro + s + "." + f + "`\n\n" + NoRepresentationNote
            + KindLabel + Clang.KindName(ty.kind) + MaybeTypeLabel + Clang.DebugOption(ty.element),
          Opaque(None), FieldFunctionName("get", s, f), [(Opaque(None), BaseAddr)],
          ReturnVoidPointer + NatToString(offsetBytes) + ");")
  }

  /** `code_snippets.insert(code_snippets.len() - 2, x)`: insert before the
      last two snippets. */
  function InsertBeforeLastTwo(snippets: seq<CSnippet>, x: CSnippet): (r: seq<CSnippet>)
    requires |snippets| >= 2
    ensures |r| == |snippets| + 1
  {
    snippets[..|snippets| - 2] + [x] + snippets[|snippets| - 2..]
  }

  /** An accessor and the empty line after it, each inserted before the
      last two snippets: together they land in front of those two. */
  function AddAccessor(snippets: seq<CSnippet>, fn: CFunc): (r: seq<CSnippet>)
    requires |snippets| >= 2
    ensures r == snippets[..|snippets| - 2] + [Func(fn), Newline] + snippets[|snippets| - 2..]
  {
    var once := InsertBeforeLastTwo(snippets, Func(fn));
    assert once[..|once| - 2] == snippets[..|snippets| - 2] + [Func(fn)];
    assert once[|once| - 2..] == snippets[|snippets| - 2..];
    InsertBeforeLastTwo(once, Newline)
  }

  /** Inserting in front of the last two of `front + tail` keeps `front`. */
  lemma KeepsFront<T>(front: seq<T>, tail: seq<T>, mid: seq<T>)
    requires |tail| >= 2
    ensures var x := front + tail;
            && (x[..|x| - 2] + mid + x[|x| - 2..])[..|front|] == front
            && x[..|front|] == front
  {
    var x := front + tail;
    assert x[..|x| - 2] == front + tail[..|tail| - 2];
  }

  /** Whether the field is handled as a scalar: the kinds the getter and
      setter branch matches. */
  predicate IsScalarKind(k: Clang.TypeKind)
  {
    k.IsIntegerLike() || k.IsFloating()
  }

  /** Whether the field is handled as an array of scalars. */
  predicate IsScalarArray(ty: Clang.ClangType, repr: RepresentableCType)
  {
    ty.kind == Clang.ConstantArray && ty.element.Some? && (ElementType(repr).Integer? || ElementType(repr).Float?)
  }

  /** Each function followed by an empty line. */
  function Spaced(fns: seq<CFunc>): (r: seq<CSnippet>)
    ensures |r| == 2 * |fns|
  {
    if fns == [] then [] else [Func(fns[0]), Newline] + Spaced(fns[1..])
  }

  /** The accessors, added one after another: all of them, each with its
      empty line, end up between the front and the last two snippets. */
  function AddAccessors(snippets: seq<CSnippet>, fns: seq<CFunc>): (r: seq<CSnippet>)
    requires |snippets| >= 2
    ensures r == snippets[..|snippets| - 2] + Spaced(fns) + snippets[|snippets| - 2..]
    decreases |fns|
  {
    if fns == [] then snippets
    else
      var front := snippets[..|snippets| - 2];
      var back := snippets[|snippets| - 2..];
      var pair := [Func(fns[0]), Newline];
      var next := AddAccessor(snippets, fns[0]);
      SplitLastTwo(front + pair, back);
      assert Spaced(fns) == pair + Spaced(fns[1..]);
      Regroup(front, pair, Spaced(fns[1..]), back);
      AddAccessors(next, fns[1..])
  }

  /** The last two elements of `front + back` are `back` when it has two. */
  lemma SplitLastTwo<T>(front: seq<T>, back: seq<T>)
    requires |back| == 2
    ensures var x := front + back; x[..|x| - 2] == front && x[|x| - 2..] == back
  {
  }

  lemma Regroup<T>(a: seq<T>, b: seq<T>, c: seq<T>, d: seq<T>)
    ensures a + b + c + d == a + (b + c) + d
  {
  }

  /** The accessors of a field whose element width has a byte-swap helper:
      getter and setter for a scalar, read and write for an array of
      scalars, otherwise a getter of a void pointer. */
  function AccessorFuncs(s: string, f: string, ty: Clang.ClangType, repr: RepresentableCType,
                         offsetBytes: nat, total: nat, width: nat, swapFn: string, swap: bool): (r: seq<CFunc>)
    requires width >= 1 && Renderable(repr)
    ensures 1 <= |r| <= 2
    ensures IsScalarKind(ty.kind) ==> |r| == 2 && r[0].name == FieldFunctionName("get", s, f)
                                      && r[1].name == FieldFunctionName("set", s, f)
    ensures !IsScalarKind(ty.kind) && IsScalarArray(ty, repr) ==>
              |r| == 2 && r[0].name == FieldFunctionName("read", s, f) && r[1].name == FieldFunctionName("write", s, f)
    ensures !IsScalarKind(ty.kind) && !IsScalarArray(ty, repr) ==>
              |r| == 1 && r[0].name == FieldFunctionName("get", s, f) && r[0].returnType == Opaque(None)
  {
    if IsScalarKind(ty.kind) then
      var swapLine := ScalarSwapStatement(swap, width, swapFn);
      [GetterFunc(s, f, repr, offsetBytes, swapLine, swap), SetterFunc(s, f, repr, offsetBytes, swapLine, swap)]
    else if IsScalarArray(ty, repr) then
      [ReadFunc(s, f, repr, total, width, swap), WriteFunc(s, f, repr, total, width, swap)]
    else [VoidPointerFunc(s, f, ty, offsetBytes)]
  }

  /** The part of `emit_per_field_functions` after the field's type was
      classified as `repr`: once the element width has a byte-swap helper,
      the accessors sit between `sizeof` and `offsetof`. */
  function EmitTypedField(snippets: seq<CSnippet>, s: string, f: string, offsetBytes: nat,
                          ty: Clang.ClangType, repr: RepresentableCType, swap: bool): (r: (Outcome<EmitError>, seq<CSnippet>))
    requires New(ty) == Ok(repr)
    ensures TotalSizeBytes(repr).Ok? && ElementSizeBytes(repr).Ok? && Renderable(repr)
    ensures var total := TotalSizeBytes(repr).value;
            var width := ElementSizeBytes(repr).value;
            var pro := snippets + FieldPrologue(s, f, total, offsetBytes);
            && (r.0.Fail? <==> width !in {1, 2, 4, 8})
            && (r.0.Fail? ==> r == (Fail(NoByteSwap(width)), pro))
            && (r.0.Pass? ==>
                  r.1 == snippets + [Section(CSection(" " + s + "." + f + " ", "")), Newline, Func(FieldSizeofFunc(s, f, total)), Newline]
                         + Spaced(AccessorFuncs(s, f, ty, repr, offsetBytes, total, width, ByteSwapFn(width).value, swap))
                         + [Func(OffsetofFunc(s, f, offsetBytes)), Newline])
    ensures |r.1| >= |snippets| && r.1[..|snippets|] == snippets
  {
    NewIsSizedAndRenderable(ty);
    var total := TotalSizeBytes(repr).value;
    var width := ElementSizeBytes(repr).value;
    var pro := snippets + FieldPrologue(s, f, total, offsetBytes);
    KeepsFront(snippets, FieldPrologue(s, f, total, offsetBytes), []);
    match ByteSwapFn(width)
    case None => (Fail(NoByteSwap(width)), pro)
    case Some(swapFn) =>
      var fns := AccessorFuncs(s, f, ty, repr, offsetBytes, total, width, swapFn, swap);
      KeepsFront(snippets, FieldPrologue(s, f, total, offsetBytes), Spaced(fns));
      Reinsert(snippets, Section(CSection(" " + s + "." + f + " ", "")), Newline, Func(FieldSizeofFunc(s, f, total)), Newline,
               Func(OffsetofFunc(s, f, offsetBytes)), Newline, Spaced(fns));
      (Pass, AddAccessors(pro, fns))
  }

  /** `emit_per_field_functions`:
      - an offset that is not a whole number of bytes is an error, and so is
        a type without a size; nothing is emitted then;
      - otherwise the section, `sizeof` and `offsetof` are emitted;
      - then the byte-swap helper is chosen from the element width, for
        every field whether or not bytes are swapped, and a width other than
        1, 2, 4 or 8 is an error that keeps what was emitted;
      - otherwise the accessors go in front of `offsetof`. */
  function EmitPerFieldFunctions(snippets: seq<CSnippet>, s: string, f: string, offsetBits: Usize,
                                 ty: Clang.ClangType, swap: bool): (r: (Outcome<EmitError>, seq<CSnippet>))
    ensures offsetBits % 8 != 0 ==> r == (Fail(UnalignedOffset(offsetBits)), snippets)
    ensures offsetBits % 8 == 0 && New(ty).Err? ==> r == (Fail(TypeFailed(SizeofFailed)), snippets)
    ensures offsetBits % 8 == 0 && New(ty).Ok? ==> r == EmitTypedField(snippets, s, f, offsetBits / 8, ty, New(ty).value, swap)
    ensures |r.1| >= |snippets| && r.1[..|snippets|] == snippets
  {
    if offsetBits % 8 != 0 then (Fail(UnalignedOffset(offsetBits)), snippets)
    else
      match New(ty)
      case Err(e) => (Fail(TypeFailed(e)), snippets)
      case Ok(repr) =>
        EmitTypedField(snippets, s, f, offsetBits / 8, ty, repr, swap)
  }

  /** `a` is a prefix of `b` and `b` one of `c`, so `a` is one of `c`. */
  lemma PrefixTransitive<T>(a: seq<T>, b: seq<T>, c: seq<T>)
    requires |a| <= |b| <= |c| && b[..|a|] == a && c[..|b|] == b
    ensures c[..|a|] == a
  {
    assert c[..|a|] == c[..|b|][..|a|];
  }

  lemma Reinsert<T>(front: seq<T>, a: T, b: T, c: T, d: T, e: T, g: T, mid: seq<T>)
    ensures var x := front + [a, b, c, d, e, g];
            x[..|x| - 2] + mid + x[|x| - 2..] == front + [a, b, c, d] + mid + [e, g]
  {
    var x := front + [a, b, c, d, e, g];
    assert x[..|x| - 2] == front + [a, b, c, d];
    assert x[|x| - 2..] == [e, g];
  }

  /** A scalar field gets, in this order: its section, `sizeof`, the
      getter, the setter and `offsetof`, each followed by an empty line;
      `offsetof` returns the offset in bytes. */
  lemma ScalarFieldOrder(snippets: seq<CSnippet>, s: string, f: string, offsetBits: Usize, ty: Clang.ClangType, swap: bool)
    requires offsetBits % 8 == 0 && New(ty).Ok? && IsScalarKind(ty.kind)
    requires ElementSizeBytes(New(ty).value).Ok? && ElementSizeBytes(New(ty).value).value in {1, 2, 4, 8}
    ensures var r := EmitPerFieldFunctions(snippets, s, f, offsetBits, ty, swap);
            var out := r.1[|snippets|..];
            && r.0 == Pass && |out| == 10
            && out[0] == Section(CSection(" " + s + "." + f + " ", ""))
            && out[1] == out[3] == out[5] == out[7] == out[9] == Newline
            && out[2].Func? && out[2].fn.name == FieldFunctionName("sizeof", s, f)
            && out[4].Func? && out[4].fn.name == FieldFunctionName("get", s, f)
            && out[6].Func? && out[6].fn.name == FieldFunctionName("set", s, f)
            && out[8].Func? && out[8].fn.name == FieldFunctionName("offsetof", s, f)
            && out[8].fn.body == "return " + NatToString(offsetBits / 8) + ";"
  {
    var r := EmitPerFieldFunctions(snippets, s, f, offsetBits, ty, swap);
    var repr := New(ty).value;
    assert r == EmitTypedField(snippets, s, f, offsetBits / 8, ty, repr, swap);
    var width := ElementSizeBytes(repr).value;
    var total := TotalSizeBytes(repr).value;
    assert ByteSwapFn(width).Some? && r.0.Pass?;
    var fns := AccessorFuncs(s, f, ty, repr, offsetBits / 8, total, width, ByteSwapFn(width).value, swap);
    assert Spaced(fns) == [Func(fns[0]), Newline, Func(fns[1]), Newline] by {
      assert fns[1..][1..] == [];
    }
    var head := [Section(CSection(" " + s + "." + f + " ", "")), Newline, Func(FieldSizeofFunc(s, f, total)), Newline];
    var tail := [Func(OffsetofFunc(s, f, offsetBits / 8)), Newline];
    assert r.1 == snippets + head + Spaced(fns) + tail;
    Layout(snippets, head, Spaced(fns), tail);
  }

  /** What follows `front` in `front + head + mid + tail`, element by
      element, for four, four and two elements. */
  lemma Layout<T>(front: seq<T>, head: seq<T>, mid: seq<T>, tail: seq<T>)
    requires |head| == 4 && |mid| == 4 && |tail| == 2
    ensures var out := (front + head + mid + tail)[|front|..];
            && |out| == 10
            && out[0] == head[0] && out[1] == head[1] && out[2] == head[2] && out[3] == head[3]
            && out[4] == mid[0] && out[5] == mid[1] && out[6] == mid[2] && out[7] == mid[3]
            && out[8] == tail[0] && out[9] == tail[1]
  {
    assert (front + head + mid + tail)[|front|..] == head + mid + tail;
  }

  /** The byte-swap helper is chosen before the branch on the kind of the
      field, so a struct-typed field of 12 bytes gets its section, `sizeof`
      and `offsetof` but no accessor, and an error, even where no byte is
      swapped. */
  lemma OddSizedRecordGetsNoAccessor(snippets: seq<CSnippet>, s: string, f: string)
    ensures var ty := Clang.ClangType(Clang.Record, Some(12), false, false, false, None, 0, "struct pair");
            var r := EmitPerFieldFunctions(snippets, s, f, 0, ty, false);
            && r.0 == Fail(NoByteSwap(12))
            && r.1 == snippets + FieldPrologue(s, f, 12, 0)
  {
    var ty := Clang.ClangType(Clang.Record, Some(12), false, false, false, None, 0, "struct pair");
    assert New(ty) == Ok(Opaque(Some(12)));
    assert ElementType(Opaque(Some(12))) == Opaque(Some(12));
  }

  /** Whether a child of the struct is a field with a name. */
  predicate IsNamedField(c: Clang.Entity)
  {
    c.kind == Clang.FieldDecl && c.name.Some?
  }

  /** The loop over the struct's children in `insert_struct_functions`:
      - a child that is not a field, or a field without a name, ends the
        loop with an error, keeping what earlier fields emitted;
      - a field whose offset or type is unknown is skipped;
      - an error of `emit_per_field_functions` is only logged, and what it
        emitted before failing stays. */
  function EmitFields(snippets: seq<CSnippet>, s: string, fields: seq<Clang.Entity>,
                      offsetOf: string -> Option<Usize>, swap: bool): (r: (Outcome<EmitError>, seq<CSnippet>))
    ensures r.0.Pass? <==> forall i :: 0 <= i < |fields| ==> IsNamedField(fields[i])
    ensures r.0.Fail? ==> r.0.error == NotAField || r.0.error == NoFieldName
    ensures |r.1| >= |snippets| && r.1[..|snippets|] == snippets
    decreases |fields|
  {
    if fields == [] then (Pass, snippets)
    else
      var c := fields[0];
      if c.kind != Clang.FieldDecl then (Fail(NotAField), snippets)
      else if c.name.None? then (Fail(NoFieldName), snippets)
      else
        var f := c.name.value;
        var next := if offsetOf(f).Some? && c.ty.Some?
                    then EmitPerFieldFunctions(snippets, s, f, offsetOf(f).value, c.ty.value, swap).1
                    else snippets;
        var r := EmitFields(next, s, fields[1..], offsetOf, swap);
        PrefixTransitive(snippets, next, r.1);
        assert forall i :: 1 <= i < |fields| ==> fields[i] == fields[1..][i - 1];
        r
  }

  /** A field whose offset or type is unknown adds nothing. */
  lemma UnknownFieldIsSkipped(snippets: seq<CSnippet>, s: string, fields: seq<Clang.Entity>,
                              offsetOf: string -> Option<Usize>, swap: bool)
    requires fields != [] && IsNamedField(fields[0])
    requires offsetOf(fields[0].name.value).None? || fields[0].ty.None?
    ensures EmitFields(snippets, s, fields, offsetOf, swap) == EmitFields(snippets, s, fields[1..], offsetOf, swap)
  {
  }

  /** A named field whose offset and type are known contributes what
      `emit_per_field_functions` emits for it, before the later fields. */
  lemma KnownFieldIsEmitted(snippets: seq<CSnippet>, s: string, fields: seq<Clang.Entity>,
                            offsetOf: string -> Option<Usize>, swap: bool)
    requires fields != [] && IsNamedField(fields[0])
    requires offsetOf(fields[0].name.value).Some? && fields[0].ty.Some?
    ensures var f := fields[0].name.value;
            EmitFields(snippets, s, fields, offsetOf, swap)
              == EmitFields(EmitPerFieldFunctions(snippets, s, f, offsetOf(f).value, fields[0].ty.value, swap).1,
                            s, fields[1..], offsetOf, swap)
  {
  }

  /** What a field emits does not depend on what was emitted before it:
      the snippets are appended, whether the field succeeds or fails. */
  lemma FieldOutputIsAppended(snippets: seq<CSnippet>, s: string, f: string, offsetBits: Usize,
                              ty: Clang.ClangType, swap: bool)
    ensures EmitPerFieldFunctions(snippets, s, f, offsetBits, ty, swap).1
              == snippets + EmitPerFieldFunctions([], s, f, offsetBits, ty, swap).1
    ensures EmitPerFieldFunctions(snippets, s, f, offsetBits, ty, swap).0
              == EmitPerFieldFunctions([], s, f, offsetBits, ty, swap).0
  {
    if offsetBits % 8 == 0 && New(ty).Ok? {
      var repr := New(ty).value;
      NewIsSizedAndRenderable(ty);
      var total := TotalSizeBytes(repr).value;
      var width := ElementSizeBytes(repr).value;
      var e0 := EmitTypedField([], s, f, offsetBits / 8, ty, repr, swap);
      var e1 := EmitTypedField(snippets, s, f, offsetBits / 8, ty, repr, swap);
      if width in {1, 2, 4, 8} {
        var fns := AccessorFuncs(s, f, ty, repr, offsetBits / 8, total, width, ByteSwapFn(width).value, swap);
        var head := [Section(CSection(" " + s + "." + f + " ", "")), Newline, Func(FieldSizeofFunc(s, f, total)), Newline];
        var tail := [Func(OffsetofFunc(s, f, offsetBits / 8)), Newline];
        SameSuffix(e1.1, e0.1, snippets, head, Spaced(fns), tail);
      } else {
        var pro := FieldPrologue(s, f, total, offsetBits / 8);
        assert e1.1 == snippets + pro + [] + [] && e0.1 == [] + pro + [] + [];
        SameSuffix(e1.1, e0.1, snippets, pro, [], []);
      }
    }
  }

  /** Two outputs that add the same three parts, one to `front` and one to
      nothing, differ by `front` alone. */
  lemma SameSuffix<T>(x1: seq<T>, x0: seq<T>, front: seq<T>, a: seq<T>, b: seq<T>, c: seq<T>)
    requires x1 == front + a + b + c && x0 == [] + a + b + c
    ensures x1 == front + x0
  {
    assert [] + a == a;
  }

  /** `insert_struct_functions`: the struct's type, its size and its name
      must be known, then its own snippets and an empty line are emitted,
      then those of its fields, then a closing empty line. */
  function InsertStructFunctions(snippets: seq<CSnippet>, st: Clang.Entity,
                                 offsetOf: string -> Option<Usize>, swap: bool): (r: (Outcome<EmitError>, seq<CSnippet>))
    ensures st.ty.None? ==> r == (Fail(NoStructType), snippets)
    ensures st.ty.Some? && st.ty.value.sizeOf.None? ==> r == (Fail(TypeFailed(SizeofFailed)), snippets)
    ensures st.ty.Some? && st.ty.value.sizeOf.Some? && st.name.None? ==> r == (Fail(NoStructName), snippets)
    ensures r.0.Pass? <==> && st.ty.Some? && st.ty.value.sizeOf.Some? && st.name.Some?
                           && forall i :: 0 <= i < |st.children| ==> IsNamedField(st.children[i])
    ensures st.ty.Some? && st.ty.value.sizeOf.Some? && st.name.Some? ==>
              var head := snippets + [Section(CSection(" " + st.name.value + " ", "")), Newline,
                                      Func(StructSizeofFunc(st.name.value, st.ty.value.sizeOf.value)), Newline, Newline];
              |r.1| >= |head| && r.1[..|head|] == head
    ensures r.0.Pass? ==> r.1[|r.1| - 1] == Newline
    ensures r.0.Pass? ==>
              var head := snippets + [Section(CSection(" " + st.name.value + " ", "")), Newline,
                                      Func(StructSizeofFunc(st.name.value, st.ty.value.sizeOf.value)), Newline, Newline];
              r.1 == EmitFields(head, st.name.value, st.children, offsetOf, swap).1 + [Newline]
  {
    if st.ty.None? then (Fail(NoStructType), snippets)
    else if st.ty.value.sizeOf.None? then (Fail(TypeFailed(SizeofFailed)), snippets)
    else if st.name.None? then (Fail(NoStructName), snippets)
    else
      var name := st.name.value;
      var (out, withStruct) := EmitPerStructFunctions(snippets, name, st.ty.value);
      var head := withStruct + [Newline];
      var (fieldsOut, withFields) := EmitFields(head, name, st.children, offsetOf, swap);
      assert head == snippets + [Section(CSection(" " + name + " ", "")), Newline,
                                 Func(StructSizeofFunc(name, st.ty.value.sizeOf.value)), Newline, Newline];
      if fieldsOut.Fail? then (fieldsOut, withFields)
      else
        PrefixTransitive(head, withFields, withFields + [Newline]);
        (Pass, withFields + [Newline])
  }
}
