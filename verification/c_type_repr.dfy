/** `RepresentableCType` of c-abi-lens: the platform-independent C
representation of a struct field's type, with its size, length and element
queries and its rendering as C source text.

A panic of the Rust code (formatting a float that is neither 4 nor 8 bytes
wide) is the value None. Sizes and lengths are unbounded integers. */
module CTypes {
  import opened Wrappers
  import opened Ints
  import opened Text
  import Clang

  datatype RepresentableCType =
    | Integer(bytes: U8, isUnsigned: bool)
    | Float(bytes: U8)
    | Array(element: RepresentableCType, length: U64)
    | Opaque(knownBytes: Option<U64>)
    | UIntPtr
    | Void

  datatype TypeError =
    /** libclang could not tell the size of the type. */
    | SizeofFailed
    /** `element_size_bytes` of a type without a known size. */
    | NoKnownSize

  /** `new`: integer kinds of 1, 2, 4 or 8 bytes become Integer, float
      kinds of 4 or 8 bytes Float, a constant array whose element type is
      itself representable an Array of it; every other type with a size is
      Opaque with that size. The element type is classified first, and a
      failure there only stops the array from being an Array. */
  function New(t: Clang.ClangType): (r: Result<RepresentableCType, TypeError>)
    ensures r.Err? <==> t.sizeOf.None?
    ensures r.Err? ==> r.error == SizeofFailed
    ensures r.Ok? ==> var size := t.sizeOf.value;
              && (r.value.Integer? <==> t.kind.IsIntegerLike() && size in {1, 2, 4, 8})
              && (r.value.Integer? ==> r.value == Integer(size, t.isUnsignedInteger))
              && (r.value.Float? <==> t.kind.IsFloating() && size in {4, 8})
              && (r.value.Float? ==> r.value.bytes == size)
              && (r.value.Array? <==> t.kind == Clang.ConstantArray && t.element.Some?
                                      && t.element.value.sizeOf.Some?)
              && (r.value.Array? ==> r.value.length == t.arraySize)
              && (r.value.Opaque? ==> r.value.knownBytes == Some(size))
              && !r.value.UIntPtr? && !r.value.Void?
    decreases t
  {
    if t.sizeOf.None? then Err(SizeofFailed)
    else
      var size := t.sizeOf.value;
      var element := if t.element.Some? then Some(New(t.element.value)) else None;
      if t.kind.IsIntegerLike() && size in {1, 2, 4, 8} then Ok(Integer(size, t.isUnsignedInteger))
      else if t.kind.IsFloating() && size in {4, 8} then Ok(Float(size))
      else if t.kind == Clang.ConstantArray && element.Some? && element.value.Ok? then
        Ok(Array(element.value.value, t.arraySize))
      else Ok(Opaque(Some(size)))
  }

  /** The layers `recurse_into_type` walks through: the type itself, then
      the element of every Array, down to the first type that is not an
      Array. */
  function Layers(t: RepresentableCType): (ls: seq<RepresentableCType>)
    ensures |ls| >= 1 && ls[0] == t && !ls[|ls| - 1].Array?
    ensures forall i :: 0 <= i < |ls| - 1 ==> ls[i].Array? && ls[i + 1] == ls[i].element
  {
    if t.Array? then [t] + Layers(t.element) else [t]
  }

  /** One call of the closure given to `recurse_into_type`. */
  datatype Visit = Visit(layer: RepresentableCType, isFirst: bool, isLast: bool)

  /** `recurse_into_type`: the loop that visits the layers outermost
      first, flagging only the first visit as first and only the final,
      non-Array layer as last. */
  method RecurseIntoType(t: RepresentableCType) returns (visits: seq<Visit>)
    ensures |visits| == |Layers(t)|
    ensures forall i :: 0 <= i < |visits| ==>
              visits[i] == Visit(Layers(t)[i], i == 0, i == |visits| - 1)
    ensures forall i :: 0 <= i < |visits| ==> (visits[i].isLast <==> !visits[i].layer.Array?)
  {
    var layers := Layers(t);
    var current := t;
    var isFirst := true;
    visits := [];
    while true
      invariant |visits| < |layers| && current == layers[|visits|]
      invariant isFirst <==> |visits| == 0
      invariant forall i :: 0 <= i < |visits| ==> visits[i] == Visit(layers[i], i == 0, false)
      decreases |layers| - |visits|
    {
      var isLast := !current.Array?;
      visits := visits + [Visit(current, isFirst, isLast)];
      if isLast {
        break;
      }
      current := current.element;
      isFirst := false;
    }
  }

  /** `length_1d`: the outermost dimension of an Array, 1 otherwise. */
  function Length1d(t: RepresentableCType): U64
  {
    if t.Array? then t.length else 1
  }

  /** The dimensions of a (nested) Array, outermost first. */
  function Dims(t: RepresentableCType): (ds: seq<U64>)
    ensures |ds| == |Layers(t)| - 1
    ensures forall i :: 0 <= i < |ds| ==> ds[i] == Length1d(Layers(t)[i])
  {
    if t.Array? then [t.length] + Dims(t.element) else []
  }

  /** `element_type`: for an Array the last layer reached through its
      element, otherwise the type itself. */
  function ElementType(t: RepresentableCType): (r: RepresentableCType)
    ensures !r.Array?
    ensures r == Layers(t)[|Layers(t)| - 1]
  {
    match t
    case Array(element, _) =>
      var ls := Layers(element);
      assert Layers(t) == [t] + ls;
      ls[|ls| - 1]
    case _ => t
  }

  /** The innermost type of a nested Array, by structural recursion. */
  function Innermost(t: RepresentableCType): RepresentableCType
  {
    if t.Array? then Innermost(t.element) else t
  }

  /** `element_type` is the innermost type, never an Array, and an Array
      has the element type of its element. */
  lemma {:induction false} ElementTypeIsInnermost(t: RepresentableCType)
    ensures ElementType(t) == Innermost(t)
    ensures t.Array? ==> ElementType(t) == ElementType(t.element)
  {
    if t.Array? {
      assert Layers(t) == [t] + Layers(t.element);
      ElementTypeIsInnermost(t.element);
    }
  }

  function Product(ds: seq<U64>): nat
  {
    if ds == [] then 1 else ds[0] * Product(ds[1..])
  }

  function LayerProduct(ls: seq<RepresentableCType>): nat
  {
    if ls == [] then 1 else Length1d(ls[0]) * LayerProduct(ls[1..])
  }

  /** `length`: the product of `length_1d` over every layer, that is of all
      dimensions of a nested Array; 1 for any other type. */
  function Length(t: RepresentableCType): (r: nat)
    ensures r == Product(Dims(t))
    ensures !t.Array? ==> r == 1
  {
    LayerProductIsDimsProduct(t);
    if t.Array? then LayerProduct(Layers(t)) else 1
  }

  lemma {:induction false} LayerProductIsDimsProduct(t: RepresentableCType)
    ensures LayerProduct(Layers(t)) == Product(Dims(t))
  {
    if t.Array? {
      LayerProductIsDimsProduct(t.element);
      assert Layers(t)[1..] == Layers(t.element);
      assert Dims(t)[1..] == Dims(t.element);
    } else {
      assert LayerProduct(Layers(t)) == Length1d(t) * LayerProduct([]);
    }
  }

  /** The length of an Array is its outer dimension times the length of
      its element. */
  lemma LengthOfArray(t: RepresentableCType)
    requires t.Array?
    ensures Length(t) == Length1d(t) * Length(t.element)
  {
    assert Dims(t)[1..] == Dims(t.element);
  }

  /** `element_size_bytes`: the byte width of the (innermost) element;
      only Opaque without a size, `uintptr_t` and `void` have none. */
  function ElementSizeBytes(t: RepresentableCType): (r: Result<U64, TypeError>)
    ensures var e := ElementType(t);
            && (r.Err? <==> e == Opaque(None) || e.UIntPtr? || e.Void?)
            && (r.Err? ==> r.error == NoKnownSize)
            && (e.Integer? || e.Float? ==> r == Ok(e.bytes))
            && (e.Opaque? && e.knownBytes.Some? ==> r == Ok(e.knownBytes.value))
    decreases |Layers(t)|
  {
    match t
    case Integer(bytes, _) => Ok(bytes)
    case Float(bytes) => Ok(bytes)
    case Array(_, _) =>
      var e := ElementType(t);
      assert |Layers(e)| == 1;
      ElementSizeBytes(e)
    case Opaque(bytes) => if bytes.Some? then Ok(bytes.value) else Err(NoKnownSize)
    case UIntPtr => Err(NoKnownSize)
    case Void => Err(NoKnownSize)
  }

  /** `total_size_bytes`: the element size times the length; the u64
      product is taken unbounded. */
  function TotalSizeBytes(t: RepresentableCType): (r: Result<nat, TypeError>)
    ensures r.Err? <==> ElementSizeBytes(t).Err?
    ensures r.Ok? ==> r.value == ElementSizeBytes(t).value * Length(t)
  {
    var e :- ElementSizeBytes(t);
    Ok(e * Length(t))
  }

  /** An Array takes its outer dimension times the bytes of its element. */
  lemma TotalSizeOfArray(t: RepresentableCType)
    requires t.Array?
    ensures TotalSizeBytes(t).Ok? <==> TotalSizeBytes(t.element).Ok?
    ensures TotalSizeBytes(t).Ok? ==> TotalSizeBytes(t).value == t.length * TotalSizeBytes(t.element).value
  {
    ElementTypeIsInnermost(t);
    LengthOfArray(t);
    if TotalSizeBytes(t).Ok? {
      var e := ElementSizeBytes(t).value;
      var inner := Length(t.element);
      assert Length(t) == t.length * inner;
      MulRegroup(e, t.length, inner);
    }
  }

  lemma MulRegroup(a: nat, b: nat, c: nat)
    ensures a * (b * c) == b * (a * c)
  {
  }

  /** ` name` when a variable name is given, nothing otherwise. */
  function NameSuffix(name: Option<string>): string
  {
    if name.Some? then " " + name.value else ""
  }

  /** `format_as_type` of a type that is not an Array. */
  function ScalarFormat(t: RepresentableCType, name: Option<string>): (r: Option<string>)
    requires !t.Array?
  {
    match t
    case Integer(bytes, isUnsigned) =>
      Some((if isUnsigned then "uint" else "int") + NatToString(8 * bytes) + "_t" + NameSuffix(name))
    case Float(bytes) =>
      if bytes == 4 then Some("float" + NameSuffix(name))
      else if bytes == 8 then Some("double" + NameSuffix(name))
      else None
    case Opaque(_) => Some("void *" + NameSuffix(name))
    case UIntPtr => Some("uintptr_t")
    case Void => Some("void")
  }

  /** `[d]` for every dimension, outermost first. */
  function DimsText(ds: seq<U64>): string
  {
    if ds == [] then "" else "[" + NatToString(ds[0]) + "]" + DimsText(ds[1..])
  }

  /** A type whose rendering does not panic: its element type is not a
      float of a width other than 4 or 8 bytes. */
  predicate Renderable(t: RepresentableCType)
  {
    var e := ElementType(t);
    !(e.Float? && e.bytes != 4 && e.bytes != 8)
  }

  /** `format_as_type`: an Array is its element type, then the variable
      name, then one `[d]` per dimension, outermost first. `uintptr_t` and
      `void` drop the name. None is the panic on an odd float width. */
  function FormatAsType(t: RepresentableCType, name: Option<string>): (r: Option<string>)
    ensures r.Some? <==> Renderable(t)
    ensures r.Some? && t.Array? ==>
              var base := ScalarFormat(ElementType(t), None).value;
              r.value == base + NameSuffix(name) + DimsText(Dims(t))
  {
    if t.Array? then
      var base := ScalarFormat(ElementType(t), None);
      if base.None? then None else Some(base.value + NameSuffix(name) + DimsText(Dims(t)))
    else ScalarFormat(t, name)
  }

  /** A named scalar other than `uintptr_t` and `void` is its unnamed
      rendering, a space and the name. */
  lemma ScalarFormatAppendsName(e: RepresentableCType, x: string)
    requires !e.Array? && !e.UIntPtr? && !e.Void?
    ensures ScalarFormat(e, Some(x)).Some? <==> ScalarFormat(e, None).Some?
    ensures ScalarFormat(e, Some(x)).Some? ==> ScalarFormat(e, Some(x)).value == ScalarFormat(e, None).value + " " + x
  {
  }

  /** Rendering an Array is rendering its element with the dimension
      attached to the name: `T x[n][m]` declares x as an array of n arrays
      of m T, as in C. `uintptr_t` and `void` elements are excluded because
      they drop the name. */
  lemma ArrayDeclaratorIsNested(t: RepresentableCType, x: string)
    requires t.Array?
    requires var e := ElementType(t); !e.UIntPtr? && !e.Void?
    ensures FormatAsType(t, Some(x)) == FormatAsType(t.element, Some(x + "[" + NatToString(t.length) + "]"))
  {
    ElementTypeIsInnermost(t);
    assert Dims(t) == [t.length] + Dims(t.element);
    assert DimsText(Dims(t)) == "[" + NatToString(t.length) + "]" + DimsText(Dims(t.element));
    if t.element.Array? {
      DeclaratorOfNestedArray(t, x);
    } else {
      DeclaratorOfFlatArray(t, x);
    }
  }

  lemma DeclaratorOfNestedArray(t: RepresentableCType, x: string)
    requires t.Array? && t.element.Array? && ElementType(t) == ElementType(t.element)
    requires DimsText(Dims(t)) == "[" + NatToString(t.length) + "]" + DimsText(Dims(t.element))
    ensures FormatAsType(t, Some(x)) == FormatAsType(t.element, Some(x + "[" + NatToString(t.length) + "]"))
  {
    var b := "[" + NatToString(t.length) + "]";
    var y := x + "[" + NatToString(t.length) + "]";
    assert y == x + b;
    var d := DimsText(Dims(t.element));
    var base := ScalarFormat(ElementType(t), None);
    if base.Some? {
      assert NameSuffix(Some(x)) == " " + x;
      assert NameSuffix(Some(y)) == " " + y;
      assert FormatAsType(t, Some(x)) == Some(base.value + (" " + x) + (b + d));
      assert FormatAsType(t.element, Some(y)) == Some(base.value + (" " + (x + b)) + d);
      Regroup(base.value, " ", x, b, d);
    }
  }

  lemma Regroup<T>(a: seq<T>, sp: seq<T>, x: seq<T>, b: seq<T>, d: seq<T>)
    ensures a + (sp + x) + (b + d) == a + (sp + (x + b)) + d
  {
    assert a + (sp + x) + (b + d) == a + sp + x + b + d;
    assert a + (sp + (x + b)) + d == a + sp + x + b + d;
  }

  lemma DeclaratorOfFlatArray(t: RepresentableCType, x: string)
    requires t.Array? && !t.element.Array? && !t.element.UIntPtr? && !t.element.Void?
    requires ElementType(t) == t.element
    requires DimsText(Dims(t)) == "[" + NatToString(t.length) + "]" + DimsText(Dims(t.element))
    ensures FormatAsType(t, Some(x)) == FormatAsType(t.element, Some(x + "[" + NatToString(t.length) + "]"))
  {
    var b := "[" + NatToString(t.length) + "]";
    var y := x + "[" + NatToString(t.length) + "]";
    assert y == x + b;
    assert DimsText(Dims(t.element)) == "";
    var dims := DimsText(Dims(t));
    assert dims == b;
    ScalarFormatAppendsName(t.element, y);
    var base := ScalarFormat(t.element, None);
    if base.Some? {
      assert NameSuffix(Some(x)) == " " + x;
      assert FormatAsType(t, Some(x)) == Some(base.value + (" " + x) + b);
      assert FormatAsType(t.element, Some(y)) == Some(base.value + " " + y);
      Regroup3(base.value, " ", x, b);
    }
  }

  lemma Regroup3<T>(a: seq<T>, sp: seq<T>, x: seq<T>, b: seq<T>)
    ensures a + (sp + x) + b == a + sp + (x + b)
  {
    assert a + (sp + x) == a + sp + x;
    assert a + sp + x + b == a + sp + (x + b);
  }

  /** Display of a type for a return type: `format_as_type(None)`. */
  function Display(t: RepresentableCType): Option<string>
  {
    FormatAsType(t, None)
  }

  /** The unit test of the rendering: `uint32_t[7][11]` named `arr`. */
  lemma FormatArrayExample()
    ensures FormatAsType(Array(Array(Integer(4, true), 11), 7), Some("arr")) == Some("uint32_t arr[7][11]")
  {
    var t := Array(Array(Integer(4, true), 11), 7);
    Uint32Name();
    DimsOfExample();
    assert ElementType(t) == Integer(4, true);
    assert NameSuffix(Some("arr")) == " arr";
    assert Renderable(t);
    var r := FormatAsType(t, Some("arr"));
    assert r.value == "uint32_t" + " arr" + "[7][11]";
    ExampleText();
  }

  lemma ExampleText()
    ensures "uint32_t" + " arr" + "[7][11]" == "uint32_t arr[7][11]"
  {
  }

  lemma Uint32Name()
    ensures ScalarFormat(Integer(4, true), None) == Some("uint32_t")
  {
    assert NatToString(32) == "32" by {
      assert NatToString(3) == "3";
      assert DigitChar(2) == '2';
    }
    assert NameSuffix(None) == "";
    assert ScalarFormat(Integer(4, true), None) == Some("uint" + "32" + "_t" + "");
    assert "uint" + "32" + "_t" + "" == "uint32_t";
  }

  lemma DimsOfExample()
    ensures DimsText(Dims(Array(Array(Integer(4, true), 11), 7))) == "[7][11]"
  {
    assert Dims(Array(Array(Integer(4, true), 11), 7)) == [7, 11];
    assert NatToString(7) == "7";
    assert NatToString(11) == "11" by {
      assert NatToString(1) == "1";
    }
    assert DimsText([11]) == "[11]" + DimsText([]);
    assert DimsText([7, 11]) == "[7]" + DimsText([11]);
  }

  /** What `new` produces always has a size and always renders: its
      innermost element is an Integer, a Float of 4 or 8 bytes, or an
      Opaque with a size. */
  lemma {:induction false} NewIsSizedAndRenderable(t: Clang.ClangType)
    requires New(t).Ok?
    ensures ElementSizeBytes(New(t).value).Ok? && TotalSizeBytes(New(t).value).Ok?
    ensures Renderable(New(t).value)
    ensures New(t).value.Array? ==> New(t.element.value) == Ok(New(t).value.element)
    decreases t
  {
    var r := New(t).value;
    if r.Array? {
      NewIsSizedAndRenderable(t.element.value);
      ElementTypeIsInnermost(r);
    }
  }
}
