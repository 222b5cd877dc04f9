/** Properties of the boundary functions taken together: what each call does
    to the store and the error slot, how the tag query and typed extraction
    agree, what repeated calls return, and which calls destroy a document. */
module DataFfiProperties {
  import opened Wrappers
  import opened JsonValue
  import opened JsonPointer
  import opened DataTypes
  import opened DataFfi

  /** The node a call addresses: the root when there is no pointer, otherwise
      what the pointer finds. Text that is not UTF-8 also means the root for
      `get_value` (the other queries give up on it before looking). */
  function Target(doc: Value, p: PointerArg): (r: Option<Value>)
    ensures !p.Utf8? ==> r == Some(doc)
  {
    match p
    case Utf8(text) => ResolvePointer(doc, text)
    case _ => Some(doc)
  }

  lemma NeedAtTarget(doc: Value, p: PointerArg, want: DataType)
    ensures Target(doc, p).None? ==> NeedAt(doc, PointerText(p), want) == Failure(Generic(NotFoundMessage(p.text)))
    ensures Target(doc, p).Some? ==> NeedAt(doc, PointerText(p), want) == Need(Target(doc, p).value, want)
  {
  }

  // ---------------------------------------------------------------------------
  // Tag assignment against typed extraction.

  /** The tag `get_value_type` reports is the one tag `get_value` accepts for
      the same node: every other request records "expected X, found Y" and
      returns null, leaving the documents alone; the matching request records
      nothing. */
  lemma TagPredictsExtraction(s: State, h: Handle, p: PointerArg, want: DataType)
    requires h in s.store && !p.NotUtf8?
    requires GetValueType(s, Some(h), p).result.Some?
    requires want != ObjectType
    ensures var t := GetValueType(s, Some(h), p).result.value;
            var r := GetValue(s, Some(h), want, p);
            && (want != t ==> r == Reply(SetErr(s, Mismatch(want, t)), NullPtr))
            && (want == t ==> r.state.lastError == s.lastError || r.state.lastError == Some(InteriorNul))
  {
    NeedAtTarget(s.store[h], p, want);
  }

  /** A matching request returns the stored payload unchanged (a boolean as
      byte 1 or 0) and changes nothing. */
  lemma ScalarExtraction(s: State, h: Handle, p: PointerArg, node: Value)
    requires h in s.store
    requires Target(s.store[h], p) == Some(node)
    requires node.Null? || node.Bool? || node.I64? || node.U64? || node.F64? || (node.String? && '\0' !in node.s)
    ensures var r := GetValue(s, Some(h), TagOf(node), p);
            && r.state == s
            && r.result == match node
                           case Bool(b) => Byte(if b then 1 else 0)
                           case I64(i) => Int64Val(i)
                           case U64(u) => Uint64Val(u)
                           case F64(f) => FloatVal(f)
                           case String(str) => CStr(str)
                           case _ => NullPtr
  {
    NeedAtTarget(s.store[h], p, TagOf(node));
  }

  /** A Null request always returns the null pointer; success and failure
      differ only in whether the error slot was written. */
  lemma NullRequest(s: State, h: Handle, p: PointerArg)
    requires h in s.store
    ensures var r := GetValue(s, Some(h), NullType, p);
            && r.result == NullPtr
            && (Target(s.store[h], p) == Some(Null) ==> r.state == s)
            && (Target(s.store[h], p) != Some(Null) ==> exists e :: r.state == SetErr(s, e))
  {
    var doc := s.store[h];
    NeedAtTarget(doc, p, NullType);
    if Target(doc, p) != Some(Null) {
      var e := NeedAt(doc, PointerText(p), NullType).error;
      assert GetValue(s, Some(h), NullType, p).state == SetErr(s, e);
    }
  }

  /** An Array request on an array yields one fresh handle per element, in
      order, each owning a copy of its element that can be queried without a
      pointer; the documents already live are untouched. On anything else it
      records the mismatch and returns null, never part of an array. */
  lemma ArrayExtraction(s: State, h: Handle, p: PointerArg)
    requires Inv(s) && h in s.store
    requires Target(s.store[h], p).Some?
    ensures var node := Target(s.store[h], p).value;
            var r := GetValue(s, Some(h), ArrayType, p);
            && (node.Array? ==>
                  && r.result.Handles? && |r.result.hs| == |node.elems|
                  && Kept(s, r.state) && r.state.lastError == s.lastError
                  && (forall i :: 0 <= i < |node.elems| ==>
                        && r.result.hs[i] !in s.store
                        && r.result.hs[i] in r.state.store
                        && r.state.store[r.result.hs[i]] == node.elems[i]
                        && GetValueType(r.state, Some(r.result.hs[i]), NoPointer).result == Some(TagOf(node.elems[i])))
                  && (forall i, j :: 0 <= i < j < |node.elems| ==> r.result.hs[i] != r.result.hs[j]))
            && (!node.Array? ==> r == Reply(SetErr(s, Mismatch(ArrayType, TagOf(node))), NullPtr))
  {
    NeedAtTarget(s.store[h], p, ArrayType);
  }

  // ---------------------------------------------------------------------------
  // The Object branch.

  /** With a pointer that finds a node, the node is copied behind a new handle
      whatever its shape (the branch makes no shape check) and no error is
      recorded; with a pointer that finds nothing, null comes back and the error
      slot is not written. */
  lemma ObjectWithPointer(s: State, h: Handle, text: string)
    requires Inv(s) && h in s.store
    ensures var found := ResolvePointer(s.store[h], text);
            var r := GetValue(s, Some(h), ObjectType, Utf8(text));
            && (found.Some? ==>
                  && r.result.Doc? && r.result.h !in s.store
                  && r.state.store == s.store[r.result.h := found.value]
                  && r.state.lastError == s.lastError)
            && (found.None? ==> r == Reply(s, NullPtr))
  {
  }

  /** Without a usable pointer the caller's own handle comes back exactly when
      the root is an object, and null otherwise, with no error either way. */
  lemma ObjectWithoutPointer(s: State, h: Handle, p: PointerArg)
    requires h in s.store && !p.Utf8?
    ensures var r := GetValue(s, Some(h), ObjectType, p);
            && r.state == s
            && (r.result == Doc(h) <==> s.store[h].Object?)
            && (!s.store[h].Object? ==> r.result == NullPtr)
  {
  }

  /** Pointer text that does not convert is the same as no pointer at all for
      `get_value`, whatever the requested tag. */
  lemma UnconvertiblePointerMeansRoot(s: State, h: Option<Handle>, want: DataType)
    requires Callable(s, h)
    ensures GetValue(s, h, want, NotUtf8) == GetValue(s, h, want, NoPointer)
  {
  }

  // ---------------------------------------------------------------------------
  // Key enumeration.

  /** On an object whose keys hold no NUL, `get_value_keys` returns the keys in
      the order the map stores them and changes nothing, and that order is
      strictly ascending (so, by `SortedListing`, each key once and in the one
      ascending order of the key set). */
  lemma KeysListing(s: State, h: Handle, p: PointerArg)
    requires Inv(s) && h in s.store && !p.NotUtf8?
    requires Target(s.store[h], p).Some?
    ensures var node := Target(s.store[h], p).value;
            node.Object? && (forall i :: 0 <= i < |node.members| ==> '\0' !in node.members[i].key) ==>
              GetValueKeys(s, Some(h), p) == Reply(s, Some(Keys(node.members)))
    ensures var node := Target(s.store[h], p).value;
            node.Object? ==> SortedKeys(node.members)
  {
    TargetWellFormed(s.store[h], p);
  }

  /** On a found node that is not an object, `get_value_keys` returns null,
      writes no error and keeps the document. */
  lemma KeysOfNonObject(s: State, h: Handle, p: PointerArg)
    requires h in s.store && !p.NotUtf8?
    requires Target(s.store[h], p).Some?
    ensures var node := Target(s.store[h], p).value;
            !node.Object? ==> GetValueKeys(s, Some(h), p) == Reply(s, None)
  {
  }

  /** The keys of a well-formed object, in stored order, list each key once,
      ascend, and are the one ascending listing of the key set. */
  lemma SortedListing(ms: seq<Member>)
    requires SortedKeys(ms)
    ensures var ks := Keys(ms);
            && |ks| == |ms|
            && (forall k :: k in ks <==> exists i :: 0 <= i < |ms| && ms[i].key == k)
            && Ascending(ks)
            && (forall ks' :: Ascending(ks') && (forall k :: k in ks' <==> k in ks) ==> ks' == ks)
  {
    var ks := Keys(ms);
    forall ks' | Ascending(ks') && (forall k :: k in ks' <==> k in ks)
      ensures ks' == ks
    {
      AscendingUnique(ks', ks);
    }
  }

  /** A pointer that finds nothing makes `get_value_type` and `get_value_keys`
      return null and record "Could not find {ptr} in data"; the document is
      dropped on that exit. */
  lemma LookupFailure(s: State, h: Handle, text: string)
    requires h in s.store
    requires ResolvePointer(s.store[h], text).None?
    ensures var t := GetValueType(s, Some(h), Utf8(text));
            var k := GetValueKeys(s, Some(h), Utf8(text));
            && t.result.None? && k.result.None?
            && t.state.lastError == Some(Generic("Could not find " + text + " in data"))
            && k.state == t.state
            && h !in t.state.store && t.state.store == s.store - {h}
  {
  }

  /** In a well-formed object, `"/" + key` for a key written as itself finds
      that member's value. */
  lemma MemberPointer(ms: seq<Member>, i: nat)
    requires SortedKeys(ms) && i < |ms|
    requires '~' !in ms[i].key && '/' !in ms[i].key
    ensures ResolvePointer(Object(ms), "/" + ms[i].key) == Some(ms[i].val)
  {
    ResolveMember(ms, ms[i].key);
    FindSorted(ms, i);
  }

  // ---------------------------------------------------------------------------
  // Repeated calls.

  /** A query that answered can be repeated on the same handle with the same
      answer: the call that reached the write-back left everything as it was. */
  lemma QueriesRepeatable(s: State, h: Handle, p: PointerArg)
    requires h in s.store
    ensures var r := GetValueType(s, Some(h), p);
            r.result.Some? ==> r.state == s && GetValueType(r.state, Some(h), p) == r
    ensures var r := GetValueKeys(s, Some(h), p);
            r.result.Some? ==> r.state == s && GetValueKeys(r.state, Some(h), p) == r
  {
  }

  /** A `get_value` request that allocates no handles, repeated on a handle
      whose document survived the first call, gives the identical reply. */
  lemma ExtractionRepeatable(s: State, h: Handle, want: DataType, p: PointerArg)
    requires h in s.store
    requires want != ArrayType && want != ObjectType
    requires h in GetValue(s, Some(h), want, p).state.store
    ensures var r := GetValue(s, Some(h), want, p);
            GetValue(r.state, Some(h), want, p) == r
  {
    var doc := s.store[h];
    var r := GetValue(s, Some(h), want, p);
    match NeedAt(doc, PointerText(p), want) {
      case Failure(e) =>
        assert r.state == SetErr(s, e);
      case Success(x) =>
    }
  }

  // ---------------------------------------------------------------------------
  // Lifecycle.

  /** Freeing a handle destroys only its own document: every other handle,
      including ones extracted from it, keeps its value. */
  lemma FreeIsolated(s: State, h: Handle)
    requires h in s.store
    ensures var r := FreeValue(s, Some(h));
            && r.result == 0 && h !in r.state.store && r.state.lastError == s.lastError
            && forall k :: k in s.store && k != h ==> k in r.state.store && r.state.store[k] == s.store[k]
  {
  }

  /** Array elements stay usable after the array's document is freed. */
  lemma ElementsOutliveParent(s: State, h: Handle, p: PointerArg)
    requires Inv(s) && h in s.store
    requires Target(s.store[h], p).Some? && Target(s.store[h], p).value.Array?
    ensures var es := Target(s.store[h], p).value.elems;
            var r := GetValue(s, Some(h), ArrayType, p);
            var f := FreeValue(r.state, Some(h));
            && r.result.Handles?
            && forall i :: 0 <= i < |es| ==>
                 && r.result.hs[i] in f.state.store
                 && f.state.store[r.result.hs[i]] == es[i]
                 && GetValueType(f.state, Some(r.result.hs[i]), NoPointer).result == Some(TagOf(es[i]))
  {
    ArrayExtraction(s, h, p);
    var es := Target(s.store[h], p).value.elems;
    var r := GetValue(s, Some(h), ArrayType, p);
    forall i | 0 <= i < |es|
      ensures r.result.hs[i] != h
    {
      assert h in s.store;
    }
  }

  /** An opened document is live behind a fresh handle and answers queries. */
  lemma OpenThenQuery(s: State, v: Value)
    requires Inv(s) && WellFormed(v)
    ensures var r := DataOpen(s, Success(v));
            && r.result.Some? && r.result.value !in s.store && Inv(r.state) && Kept(s, r.state)
            && GetValueType(r.state, r.result, NoPointer) == Reply(r.state, Some(TagOf(v)))
  {
  }

  // ---------------------------------------------------------------------------
  // Every call, in one place.

  datatype Call =
    | Open(loaded: Result<Value, Error>)
    | TypeQuery(h: Option<Handle>, p: PointerArg)
    | KeysQuery(h: Option<Handle>, p: PointerArg)
    | Get(h: Option<Handle>, want: DataType, p: PointerArg)
    | Free(h: Option<Handle>)

  /** What a caller may do: open what the parser produced (always well
      formed), or pass a null or live handle. */
  predicate Allowed(s: State, c: Call) {
    if c.Open? then c.loaded.Success? ==> WellFormed(c.loaded.value)
    else Callable(s, c.h)
  }

  /** The state a call leaves behind. */
  function Transition(s: State, c: Call): State
    requires Allowed(s, c)
  {
    match c
    case Open(loaded) => DataOpen(s, loaded).state
    case TypeQuery(h, p) => GetValueType(s, h, p).state
    case KeysQuery(h, p) => GetValueKeys(s, h, p).state
    case Get(h, want, p) => GetValue(s, h, want, p).state
    case Free(h) => FreeValue(s, h).state
  }

  /** Lookups that give up before the write-back. */
  predicate LookupExit(doc: Value, p: PointerArg) {
    p.NotUtf8? || (p.Utf8? && ResolvePointer(doc, p.text).None?)
  }

  predicate HasNulKey(v: Value) {
    v.Object? && exists i :: 0 <= i < |v.members| && '\0' in v.members[i].key
  }

  /** The calls that destroy the document behind their handle: `free_value`,
      and the early exits of the queries. */
  predicate Drops(s: State, c: Call)
    requires Allowed(s, c)
  {
    match c
    case Open(_) => false
    case TypeQuery(h, p) => h.Some? && LookupExit(s.store[h.value], p)
    case KeysQuery(h, p) =>
      h.Some? && (LookupExit(s.store[h.value], p) || HasNulKey(Target(s.store[h.value], p).value))
    case Get(h, want, p) =>
      && h.Some? && want == StringType
      && Target(s.store[h.value], p).Some?
      && Target(s.store[h.value], p).value.String?
      && '\0' in Target(s.store[h.value], p).value.s
    case Free(h) => h.Some?
  }

  /** Ownership: a call either keeps every live document as it was (the
      write-back paths, and the null-handle exits, which own nothing) or it is
      one of the dropping calls and removes exactly its own handle. */
  lemma DocumentsKeptUnlessDropped(s: State, c: Call)
    requires Inv(s) && Allowed(s, c)
    ensures Drops(s, c) ==> Transition(s, c).store == s.store - {c.h.value}
    ensures !Drops(s, c) ==> Kept(s, Transition(s, c))
  {
    match c {
      case Open(_) =>
      case TypeQuery(h, p) =>
      case KeysQuery(h, p) =>
        if h.Some? {
          KeysKeptUnlessDropped(s, h.value, p);
        }
      case Get(h, want, p) =>
        if h.Some? {
          GetKeptUnlessDropped(s, h.value, want, p);
        }
      case Free(h) =>
    }
  }

  lemma KeysKeptUnlessDropped(s: State, h: Handle, p: PointerArg)
    requires h in s.store
    ensures var doc := s.store[h];
            var r := GetValueKeys(s, Some(h), p);
            && (LookupExit(doc, p) || HasNulKey(Target(doc, p).value) ==> r.state.store == s.store - {h})
            && (!LookupExit(doc, p) && !HasNulKey(Target(doc, p).value) ==> r.state == s)
  {
    var doc := s.store[h];
    if !LookupExit(doc, p) {
      var node := Target(doc, p).value;
      if node.Object? && KeyStrings(node.members).Failure? {
        var i :| 0 <= i < |node.members| && '\0' in node.members[i].key;
      }
    }
  }

  lemma GetKeptUnlessDropped(s: State, h: Handle, want: DataType, p: PointerArg)
    requires Inv(s) && h in s.store
    ensures var doc := s.store[h];
            var r := GetValue(s, Some(h), want, p);
            var dropped := want == StringType && Target(doc, p).Some? && Target(doc, p).value.String?
                           && '\0' in Target(doc, p).value.s;
            && (dropped ==> r.state.store == s.store - {h})
            && (!dropped ==> Kept(s, r.state))
  {
    NeedAtTarget(s.store[h], p, want);
  }

  /** Every call keeps the state invariant: fresh handles are above all live
      ones, and every live document is well formed. */
  lemma StepPreservesInv(s: State, c: Call)
    requires Inv(s) && Allowed(s, c)
    ensures Inv(Transition(s, c))
  {
    if c.Get? && c.h.Some? {
      GetValuePreservesInv(s, c.h.value, c.want, c.p);
    }
  }

  /** What a call addresses is well formed when its document is. */
  lemma TargetWellFormed(doc: Value, p: PointerArg)
    requires WellFormed(doc) && Target(doc, p).Some?
    ensures WellFormed(Target(doc, p).value)
  {
    if p.Utf8? {
      ResolveWellFormed(doc, Parse(p.text).value);
    }
  }

  lemma AllocAllPreservesInv(s: State, es: seq<Value>)
    requires Inv(s)
    requires forall i :: 0 <= i < |es| ==> WellFormed(es[i])
    ensures Inv(AllocAll(s, es).0)
  {
    var r := AllocAll(s, es);
    forall k | k in r.0.store
      ensures WellFormed(r.0.store[k])
    {
      if k >= s.next {
        assert r.1[k - s.next] == k;
      }
    }
  }

  lemma GetValuePreservesInv(s: State, h: Handle, want: DataType, p: PointerArg)
    requires Inv(s) && h in s.store
    ensures Inv(GetValue(s, Some(h), want, p).state)
  {
    var doc := s.store[h];
    if want == ObjectType {
      GetObjectPreservesInv(s, h, doc, PointerText(p));
    } else {
      NeedAtTarget(doc, p, want);
      match NeedAt(doc, PointerText(p), want) {
        case Failure(_) =>
        case Success(x) =>
          TargetWellFormed(doc, p);
          MarshalPreservesInv(s, h, x);
      }
    }
  }

  lemma GetObjectPreservesInv(s: State, h: Handle, doc: Value, pointer: Option<string>)
    requires Inv(s) && WellFormed(doc)
    ensures Inv(GetObject(s, h, doc, pointer).state)
  {
    if pointer.Some? && ResolvePointer(doc, pointer.value).Some? {
      ResolveWellFormed(doc, Parse(pointer.value).value);
    }
  }

  lemma MarshalPreservesInv(s: State, h: Handle, x: Extracted)
    requires Inv(s) && !x.ObjectOk? && WellFormed(Embed(x))
    ensures Inv(Marshal(s, h, x).state)
  {
    if x.ArrayOk? {
      AllocAllPreservesInv(s, x.elems);
    }
  }

  /** A run of calls, each allowed in the state the previous ones left. */
  predicate AllowedRun(s: State, cs: seq<Call>)
    decreases |cs|
  {
    |cs| == 0 || (Allowed(s, cs[0]) && AllowedRun(Transition(s, cs[0]), cs[1..]))
  }

  function Run(s: State, cs: seq<Call>): State
    requires AllowedRun(s, cs)
    decreases |cs|
  {
    if |cs| == 0 then s else Run(Transition(s, cs[0]), cs[1..])
  }

  lemma {:induction false} RunPreservesInv(s: State, cs: seq<Call>)
    requires Inv(s) && AllowedRun(s, cs)
    ensures Inv(Run(s, cs))
    decreases |cs|
  {
    if |cs| > 0 {
      StepPreservesInv(s, cs[0]);
      RunPreservesInv(Transition(s, cs[0]), cs[1..]);
    }
  }
}
