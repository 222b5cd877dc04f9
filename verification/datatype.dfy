/** The boundary's type tag (`Ffi__DataType`), its assignment to nodes, the
    errors the layer records, and the strictly typed extraction the `need*!`
    helpers perform. */
module DataTypes {
  import opened Wrappers
  import opened JsonValue
  import opened JsonPointer

  /** One tag per shape of `Value`, in the order of the Rust enum. */
  datatype DataType =
    | NullType
    | BoolType
    | Int64Type
    | Uint64Type
    | FloatType
    | StringType
    | ArrayType
    | ObjectType

  /** The tag of a node's shape (the match of `get_value_type`). */
  function TagOf(v: Value): DataType {
    match v
    case Null => NullType
    case Bool(_) => BoolType
    case I64(_) => Int64Type
    case U64(_) => Uint64Type
    case F64(_) => FloatType
    case String(_) => StringType
    case Array(_) => ArrayType
    case Object(_) => ObjectType
  }

  /** What the error slot can hold. */
  datatype Error =
    | Generic(message: string)                        // `Error::Generic(..)`
    | Mismatch(expected: DataType, found: DataType)   // a `need*!` shape check failed
    | NullPointer                                     // `boxptr!` / `ptrtostr!` given null
    | InvalidUtf8                                     // `ptrtostr!` given non-UTF-8 text
    | InteriorNul                                     // `CString::new` on text holding NUL
    | LoadFailed(reason: string)                      // reading or parsing the document

  function NotFoundMessage(pointer: string): string {
    "Could not find " + pointer + " in data"
  }

  /** The payload a typed extraction hands back, one form per tag. */
  datatype Extracted =
    | NullOk
    | BoolOk(b: bool)
    | I64Ok(i: i64)
    | U64Ok(u: u64)
    | F64Ok(f: Float64)
    | StrOk(s: string)
    | ArrayOk(elems: seq<Value>)
    | ObjectOk(members: seq<Member>)

  /** The tag a payload was extracted under. */
  function ShapeOf(x: Extracted): DataType {
    match x
    case NullOk => NullType
    case BoolOk(_) => BoolType
    case I64Ok(_) => Int64Type
    case U64Ok(_) => Uint64Type
    case F64Ok(_) => FloatType
    case StrOk(_) => StringType
    case ArrayOk(_) => ArrayType
    case ObjectOk(_) => ObjectType
  }

  /** The node a payload was taken from: extraction loses nothing. */
  function Embed(x: Extracted): Value {
    match x
    case NullOk => Null
    case BoolOk(b) => Bool(b)
    case I64Ok(i) => I64(i)
    case U64Ok(u) => U64(u)
    case F64Ok(f) => F64(f)
    case StrOk(s) => String(s)
    case ArrayOk(es) => Array(es)
    case ObjectOk(ms) => Object(ms)
  }

  /** Strictly typed extraction of a node, as the `needX!` macros are
      documented to behave (their bodies are not part of this model): no
      coercion between shapes, in particular none between the three numeric
      ones. Agrees with `TagOf` both ways, returns the stored payload
      unchanged, and names both shapes when it refuses. */
  function Need(v: Value, want: DataType): (r: Result<Extracted, Error>)
    ensures r.Success? <==> TagOf(v) == want
    ensures r.Success? ==> ShapeOf(r.value) == want && Embed(r.value) == v
    ensures r.Failure? ==> r.error == Mismatch(want, TagOf(v))
  {
    var mismatch := Failure(Mismatch(want, TagOf(v)));
    match want
    case NullType => if v.Null? then Success(NullOk) else mismatch
    case BoolType => if v.Bool? then Success(BoolOk(v.b)) else mismatch
    case Int64Type => if v.I64? then Success(I64Ok(v.i)) else mismatch
    case Uint64Type => if v.U64? then Success(U64Ok(v.u)) else mismatch
    case FloatType => if v.F64? then Success(F64Ok(v.f)) else mismatch
    case StringType => if v.String? then Success(StrOk(v.s)) else mismatch
    case ArrayType => if v.Array? then Success(ArrayOk(v.elems)) else mismatch
    case ObjectType => if v.Object? then Success(ObjectOk(v.members)) else mismatch
  }

  /** `needX!(value)` and `needX!(value => p)`: resolve the pointer, if any, then
      extract strictly. An unresolved pointer is a lookup error naming it. */
  function NeedAt(doc: Value, pointer: Option<string>, want: DataType): (r: Result<Extracted, Error>)
    ensures pointer.None? ==> r == Need(doc, want)
    ensures pointer.Some? && ResolvePointer(doc, pointer.value).None? ==>
              r == Failure(Generic(NotFoundMessage(pointer.value)))
    ensures pointer.Some? && ResolvePointer(doc, pointer.value).Some? ==>
              r == Need(ResolvePointer(doc, pointer.value).value, want)
  {
    match pointer
    case None => Need(doc, want)
    case Some(p) =>
      match ResolvePointer(doc, p)
      case None => Failure(Generic(NotFoundMessage(p)))
      case Some(node) => Need(node, want)
  }

  /** Every tag is the tag of some node: the enumeration has no spare member. */
  function Sample(t: DataType): (v: Value)
    ensures TagOf(v) == t
  {
    match t
    case NullType => Null
    case BoolType => Bool(false)
    case Int64Type => I64(0)
    case Uint64Type => U64(0)
    case FloatType => F64(Float64(0))
    case StringType => String("")
    case ArrayType => Array([])
    case ObjectType => Object([])
  }

  /** Extraction under the node's own tag always succeeds and gives back the node. */
  lemma NeedOwnTag(v: Value)
    ensures Need(v, TagOf(v)).Success?
    ensures Embed(Need(v, TagOf(v)).value) == v
  {
  }

  /** Type strictness on numbers: a signed integer is never read as unsigned or
      float, and an unsigned one never as signed or float. */
  lemma NumericStrict(v: Value)
    requires v.I64? || v.U64? || v.F64?
    ensures v.I64? ==> Need(v, Uint64Type).Failure? && Need(v, FloatType).Failure?
    ensures v.U64? ==> Need(v, Int64Type).Failure? && Need(v, FloatType).Failure?
    ensures v.F64? ==> Need(v, Int64Type).Failure? && Need(v, Uint64Type).Failure?
  {
  }
}
