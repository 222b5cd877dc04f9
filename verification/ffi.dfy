/** The boundary functions of the data layer: `data_open`, `get_value_type`,
    `get_value_keys`, `get_value` and `free_value`, over an explicit state that
    holds every live document behind its handle and the process-wide error slot.

    Ownership: each call takes the document out of its handle (`boxptr!`). On the
    paths that reach the write-back the document never moves, so the caller's
    handle still maps to the same value afterwards. On the early exits that
    return while the document is still owned by the call (the `return`s after a
    failed lookup, `trynull!` on bad pointer text or on text holding NUL), the
    document is dropped: its handle leaves the store and may not be used again. */
module DataFfi {
  import opened Wrappers
  import opened JsonValue
  import opened JsonPointer
  import opened DataTypes

  /** An opaque handle: the address of a boxed document. */
  type Handle = nat

  newtype u8 = x: int | 0 <= x < 0x100

  /** The `pointer_ptr` argument: null, UTF-8 text, or text that is not UTF-8. */
  datatype PointerArg = NoPointer | Utf8(text: string) | NotUtf8

  /** Live documents, the next fresh address, and the last error recorded. */
  datatype State = State(store: map<Handle, Value>, next: Handle, lastError: Option<Error>)

  /** What a boundary call leaves behind, and what it returns. */
  datatype Reply<T> = Reply(state: State, result: T)

  /** What `get_value` returns through its `*mut c_void`. */
  datatype Payload =
    | NullPtr                   // the null pointer
    | Byte(byte: u8)            // boxed `u8`, 1 for true and 0 for false
    | Int64Val(i: i64)          // boxed `i64`
    | Uint64Val(u: u64)         // boxed `u64`
    | FloatVal(f: Float64)      // boxed `f64`
    | CStr(s: string)           // owned C string
    | Handles(hs: seq<Handle>)  // array of handles, one per element
    | Doc(h: Handle)            // handle to a document

  /** Handles below `next` are taken; every live document is well formed. */
  predicate Inv(s: State) {
    && (forall h :: h in s.store ==> h < s.next)
    && (forall h :: h in s.store ==> WellFormed(s.store[h]))
  }

  /** The caller's side of the contract: a handle is null or live (using a
      freed handle is undefined, not a checked error). */
  predicate Callable(s: State, h: Option<Handle>) {
    h.None? || h.value in s.store
  }

  /** Every document live before is still live, holding the same value. */
  predicate Kept(s: State, s': State) {
    forall k :: k in s.store ==> k in s'.store && s'.store[k] == s.store[k]
  }

  function SetErr(s: State, e: Error): State {
    s.(lastError := Some(e))
  }

  /** An early exit: the error is recorded and the document the call owns is dropped. */
  function Abandon(s: State, h: Handle, e: Error): (s': State)
    ensures s'.store == s.store - {h} && s'.next == s.next && s'.lastError == Some(e)
  {
    SetErr(s.(store := s.store - {h}), e)
  }

  /** `Box::into_raw(Box::new(v))`: a fresh handle owning `v`. */
  function Alloc(s: State, v: Value): (r: (State, Handle))
    ensures r.1 == s.next && r.0.next == s.next + 1 && r.0.lastError == s.lastError
    ensures r.0.store == s.store[s.next := v]
  {
    (s.(store := s.store[s.next := v], next := s.next + 1), s.next)
  }

  /** One fresh handle per element, in order, each owning its own copy. */
  function AllocAll(s: State, es: seq<Value>): (r: (State, seq<Handle>))
    ensures |r.1| == |es| && r.0.next == s.next + |es| && r.0.lastError == s.lastError
    ensures forall i :: 0 <= i < |es| ==> r.1[i] == s.next + i
    ensures forall i :: 0 <= i < |es| ==> r.1[i] in r.0.store && r.0.store[r.1[i]] == es[i]
    ensures forall k :: k in r.0.store <==> k in s.store || s.next <= k < s.next + |es|
    ensures forall k :: k in s.store && k < s.next ==> r.0.store[k] == s.store[k]
    decreases |es|
  {
    if |es| == 0 then (s, [])
    else
      var (s1, h) := Alloc(s, es[0]);
      var (s2, hs) := AllocAll(s1, es[1..]);
      assert forall i :: 1 <= i < |es| ==> es[i] == es[1..][i - 1];
      (s2, [h] + hs)
  }

  /** The loop of `get_value_keys` that turns each key into a C string, in the
      map's order; `CString::new` refuses a key holding NUL. */
  function KeyStrings(ms: seq<Member>): (r: Result<seq<string>, Error>)
    ensures r.Success? <==> forall i :: 0 <= i < |ms| ==> '\0' !in ms[i].key
    ensures r.Success? ==> r.value == Keys(ms)
    ensures r.Failure? ==> r.error == InteriorNul
  {
    if |ms| == 0 then Success([])
    else if '\0' in ms[0].key then Failure(InteriorNul)
    else
      var rest := KeyStrings(ms[1..]);
      assert forall i :: 1 <= i < |ms| ==> ms[i] == ms[1..][i - 1];
      match rest
      case Failure(e) => Failure(e)
      case Success(ks) =>
        assert [ms[0].key] + ks == Keys(ms);
        Success([ms[0].key] + ks)
  }

  /** `data_open`, given the outcome of reading and parsing the document. */
  function DataOpen(s: State, loaded: Result<Value, Error>): (r: Reply<Option<Handle>>)
    ensures loaded.Failure? ==> r == Reply(SetErr(s, loaded.error), None)
    ensures loaded.Success? ==> r.result == Some(s.next) && r.state.lastError == s.lastError
    ensures loaded.Success? ==> r.state.store == s.store[s.next := loaded.value] && r.state.next > s.next
  {
    match loaded
    case Failure(e) => Reply(SetErr(s, e), None)
    case Success(v) =>
      var (s1, h) := Alloc(s, v);
      Reply(s1, Some(h))
  }

  /** `get_value_type`. */
  function GetValueType(s: State, h: Option<Handle>, p: PointerArg): (r: Reply<Option<DataType>>)
    requires Callable(s, h)
    ensures h.None? ==> r == Reply(SetErr(s, NullPointer), None)
    ensures h.Some? && p.NoPointer? ==> r == Reply(s, Some(TagOf(s.store[h.value])))
    ensures h.Some? && p.Utf8? && ResolvePointer(s.store[h.value], p.text).Some? ==>
              r == Reply(s, Some(TagOf(ResolvePointer(s.store[h.value], p.text).value)))
    ensures h.Some? && p.Utf8? && ResolvePointer(s.store[h.value], p.text).None? ==>
              r == Reply(Abandon(s, h.value, Generic(NotFoundMessage(p.text))), None)
    ensures h.Some? && p.NotUtf8? ==> r == Reply(Abandon(s, h.value, InvalidUtf8), None)
  {
    if h.None? then Reply(SetErr(s, NullPointer), None)
    else
      var doc := s.store[h.value];
      match p
      case NoPointer => Reply(s, Some(TagOf(doc)))
      case NotUtf8 => Reply(Abandon(s, h.value, InvalidUtf8), None)
      case Utf8(text) =>
        match ResolvePointer(doc, text)
        case None => Reply(Abandon(s, h.value, Generic(NotFoundMessage(text))), None)
        case Some(node) => Reply(s, Some(TagOf(node)))
  }

  /** The part of `get_value_keys` after the node is found. */
  function KeysOf(s: State, h: Handle, node: Value): (r: Reply<Option<seq<string>>>)
    ensures !node.Object? ==> r == Reply(s, None)
    ensures node.Object? && r.result.Some? ==> r.state == s && r.result.value == Keys(node.members)
    ensures node.Object? && r.result.None? ==> r.state == Abandon(s, h, InteriorNul)
    ensures node.Object? ==>
              (r.result.Some? <==> forall i :: 0 <= i < |node.members| ==> '\0' !in node.members[i].key)
  {
    if node.Object? then
      match KeyStrings(node.members)
      case Failure(e) => Reply(Abandon(s, h, e), None)
      case Success(ks) => Reply(s, Some(ks))
    else Reply(s, None)
  }

  /** `get_value_keys`. */
  function GetValueKeys(s: State, h: Option<Handle>, p: PointerArg): (r: Reply<Option<seq<string>>>)
    requires Callable(s, h)
    ensures h.None? ==> r == Reply(SetErr(s, NullPointer), None)
    ensures h.Some? && p.NoPointer? ==> r == KeysOf(s, h.value, s.store[h.value])
    ensures h.Some? && p.Utf8? && ResolvePointer(s.store[h.value], p.text).Some? ==>
              r == KeysOf(s, h.value, ResolvePointer(s.store[h.value], p.text).value)
    ensures h.Some? && p.Utf8? && ResolvePointer(s.store[h.value], p.text).None? ==>
              r == Reply(Abandon(s, h.value, Generic(NotFoundMessage(p.text))), None)
    ensures h.Some? && p.NotUtf8? ==> r == Reply(Abandon(s, h.value, InvalidUtf8), None)
  {
    if h.None? then Reply(SetErr(s, NullPointer), None)
    else
      var doc := s.store[h.value];
      match p
      case NoPointer => KeysOf(s, h.value, doc)
      case NotUtf8 => Reply(Abandon(s, h.value, InvalidUtf8), None)
      case Utf8(text) =>
        match ResolvePointer(doc, text)
        case None => Reply(Abandon(s, h.value, Generic(NotFoundMessage(text))), None)
        case Some(node) => KeysOf(s, h.value, node)
  }

  /** The pointer `get_value` works with: text that does not convert is
      discarded (`.ok()`), which then means the root. */
  function PointerText(p: PointerArg): (r: Option<string>)
    ensures r.Some? <==> p.Utf8?
    ensures r.Some? ==> r.value == p.text
  {
    if p.Utf8? then Some(p.text) else None
  }

  /** `get_value`, all eight branches. */
  function GetValue(s: State, h: Option<Handle>, want: DataType, p: PointerArg): (r: Reply<Payload>)
    requires Callable(s, h)
    ensures h.None? ==> r == Reply(SetErr(s, NullPointer), NullPtr)
    ensures h.Some? && want != ObjectType && NeedAt(s.store[h.value], PointerText(p), want).Failure? ==>
              r == Reply(SetErr(s, NeedAt(s.store[h.value], PointerText(p), want).error), NullPtr)
    ensures r.state.next >= s.next
  {
    if h.None? then Reply(SetErr(s, NullPointer), NullPtr)
    else
      var doc := s.store[h.value];
      var pointer := PointerText(p);
      if want == ObjectType then GetObject(s, h.value, doc, pointer)
      else
        match NeedAt(doc, pointer, want)
        case Failure(e) => Reply(SetErr(s, e), NullPtr)
        case Success(x) => Marshal(s, h.value, x)
  }

  /** How a C caller reads a payload back under the tag it asked for: the
      null pointer under Null, `ptr::read` of the boxed `u8` (non-zero is
      true), `i64`, `u64` or `f64`, and the C string's text. */
  function ReadBack(p: Payload, want: DataType): (r: Option<Value>)
    ensures r.Some? ==> TagOf(r.value) == want
  {
    match p
    case NullPtr => if want == NullType then Some(Null) else None
    case Byte(b) => if want == BoolType then Some(Bool(b != 0)) else None
    case Int64Val(i) => if want == Int64Type then Some(I64(i)) else None
    case Uint64Val(u) => if want == Uint64Type then Some(U64(u)) else None
    case FloatVal(f) => if want == FloatType then Some(F64(f)) else None
    case CStr(str) => if want == StringType then Some(String(str)) else None
    case _ => None
  }

  /** How `get_value` hands a successfully extracted payload across. A scalar
      or NUL-free string reads back as the very node it came from and changes
      nothing; a string holding NUL is refused by `CString::new` and the
      document dropped; an array becomes one fresh handle per element. */
  function Marshal(s: State, h: Handle, x: Extracted): (r: Reply<Payload>)
    requires !x.ObjectOk?
    ensures !x.ArrayOk? && !(x.StrOk? && '\0' in x.s) ==>
              r.state == s && ReadBack(r.result, ShapeOf(x)) == Some(Embed(x))
    ensures x.StrOk? && '\0' in x.s ==> r == Reply(Abandon(s, h, InteriorNul), NullPtr)
    ensures x.ArrayOk? ==>
              && r.result.Handles? && |r.result.hs| == |x.elems|
              && r.state.next == s.next + |x.elems| && r.state.lastError == s.lastError
              && (forall i :: 0 <= i < |x.elems| ==>
                    && r.result.hs[i] == s.next + i
                    && r.result.hs[i] in r.state.store
                    && r.state.store[r.result.hs[i]] == x.elems[i])
              && (forall k :: k in s.store && k < s.next ==> k in r.state.store && r.state.store[k] == s.store[k])
    ensures r.state.next >= s.next
  {
    match x
    case NullOk => Reply(s, NullPtr)
    case BoolOk(b) => Reply(s, Byte(if b then 1 else 0))
    case I64Ok(i) => Reply(s, Int64Val(i))
    case U64Ok(u) => Reply(s, Uint64Val(u))
    case F64Ok(f) => Reply(s, FloatVal(f))
    case StrOk(str) =>
      if '\0' in str then Reply(Abandon(s, h, InteriorNul), NullPtr)
      else Reply(s, CStr(str))
    case ArrayOk(es) =>
      var (s1, hs) := AllocAll(s, es);
      Reply(s1, Handles(hs))
  }

  /** The Object branch of `get_value`. With a pointer, whatever it finds is
      copied behind a new handle, whatever its shape, and finding nothing
      records no error. Without one, the caller's own handle comes back when the
      root is an object. */
  function GetObject(s: State, h: Handle, doc: Value, pointer: Option<string>): (r: Reply<Payload>)
    ensures pointer.Some? && ResolvePointer(doc, pointer.value).Some? ==>
              && r.result == Doc(s.next)
              && r.state == s.(store := s.store[s.next := ResolvePointer(doc, pointer.value).value], next := s.next + 1)
    ensures pointer.Some? && ResolvePointer(doc, pointer.value).None? ==> r == Reply(s, NullPtr)
    ensures pointer.None? ==> r.state == s && (r.result == Doc(h) <==> doc.Object?)
    ensures pointer.None? && !doc.Object? ==> r.result == NullPtr
    ensures r.state.next >= s.next
  {
    match pointer
    case Some(ptr) =>
      (match ResolvePointer(doc, ptr)
       case Some(node) =>
         var (s1, copy) := Alloc(s, node);
         Reply(s1, Doc(copy))
       case None => Reply(s, NullPtr))
    case None =>
      if doc.Object? then Reply(s, Doc(h)) else Reply(s, NullPtr)
  }

  /** The status `free_value` returns when `boxptr!` fails; `tryrc!` does not
      show its value, any non-zero code models it. */
  const FailureStatus: nat := 1

  /** `free_value`: the handle is consumed and its document destroyed. */
  function FreeValue(s: State, h: Option<Handle>): (r: Reply<nat>)
    requires Callable(s, h)
    ensures h.None? ==> r == Reply(SetErr(s, NullPointer), FailureStatus)
    ensures h.Some? ==> r.result == 0 && r.state == s.(store := s.store - {h.value})
  {
    if h.None? then Reply(SetErr(s, NullPointer), FailureStatus)
    else Reply(s.(store := s.store - {h.value}), 0)
  }
}
