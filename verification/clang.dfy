/** What the code generator asks of libclang, as plain values. Only the
queries the generator makes are kept: a type's kind, its `sizeof`, the
integer and pointer tests, its element type and array length, and an entity's
kind, name, type and children. Parsing the header and canonicalising types
are libclang's business and are not part of this model: a `ClangType` here
is always the canonical type. */
module Clang {
  import opened Wrappers
  import opened Ints

  /** The `clang::TypeKind`s the generator distinguishes; any other kind is
      `OtherKind`, carrying the name its `Debug` output prints. */
  datatype TypeKind =
    | CharS | CharU | SChar | UChar | Short | UShort | Int | UInt
    | Long | ULong | LongLong | ULongLong | Enum
    | Float | Double
    | ConstantArray
    | Pointer
    | Record
    | OtherKind(debugName: string)
  {
    /** The kinds matched as integers in `RepresentableCType::new` and in
        the scalar branch of the per-field emitter. */
    predicate IsIntegerLike()
    {
      match this
      case CharS | CharU | SChar | UChar | Short | UShort | Int | UInt
        | Long | ULong | LongLong | ULongLong | Enum => true
      case _ => false
    }

    predicate IsFloating()
    {
      this == Float || this == Double
    }
  }

  /** A (canonical) `clang::Type`:
      - `sizeOf` is `get_sizeof`, None where libclang reports an error;
      - `isInteger`, `isUnsignedInteger` and `hasPointee` are the answers of
        `is_integer`, `is_unsigned_integer` and `get_pointee_type().is_some()`;
      - `element` is `get_element_type` and `arraySize` is `get_size` for a
        constant array;
      - `debug` is the text its `Debug` implementation prints. */
  datatype ClangType = ClangType(
    kind: TypeKind,
    sizeOf: Option<Usize>,
    isInteger: bool,
    isUnsignedInteger: bool,
    hasPointee: bool,
    element: Option<ClangType>,
    arraySize: U64,
    debug: string)

  /** The `Debug` text of an optional type. */
  function DebugOption(t: Option<ClangType>): string
  {
    match t
    case None => "None"
    case Some(ty) => "Some(" + ty.debug + ")"
  }

  /** The `Debug` text of a type kind: its variant name. */
  function KindName(k: TypeKind): string
  {
    match k
    case CharS => "CharS"
    case CharU => "CharU"
    case SChar => "SChar"
    case UChar => "UChar"
    case Short => "Short"
    case UShort => "UShort"
    case Int => "Int"
    case UInt => "UInt"
    case Long => "Long"
    case ULong => "ULong"
    case LongLong => "LongLong"
    case ULongLong => "ULongLong"
    case Enum => "Enum"
    case Float => "Float"
    case Double => "Double"
    case ConstantArray => "ConstantArray"
    case Pointer => "Pointer"
    case Record => "Record"
    case OtherKind(name) => name
  }

  datatype EntityKind = FieldDecl | OtherEntity

  /** A `clang::Entity`: a struct declaration or one of its fields. */
  datatype Entity = Entity(kind: EntityKind, name: Option<string>, ty: Option<ClangType>, children: seq<Entity>)
}
