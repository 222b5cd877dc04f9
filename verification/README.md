# Data layer C boundary, modelled in Dafny

This project models the C-callable interface that the Intecture API puts over
host data: JSON documents parsed into `serde_json::Value` trees and handed to C
callers as opaque pointers. The modelled boundary functions are:

- `data_open` returns a handle to a freshly boxed document.
- `get_value_type` reports the node's `Ffi__DataType` tag.
- `get_value_keys` lists an object's keys as C strings.
- `get_value` extracts a node under a requested tag: null, bool as `u8`, `i64`, `u64`, `f64`, C string, array of element handles, or object handle.
- `free_value` destroys a document.

An optional RFC 6901 JSON Pointer addresses a node inside the document.

The model replaces raw pointers with an explicit, immutable state:

- a store from handles to documents;
- the next fresh handle;
- the process-wide last-error slot.

Every boundary function is a pure function from a state and its arguments to a `Reply` (the new state and the returned value). The null pointer is `None` or `NullPtr`.

Modules:

- `Wrappers` holds `Option` and `Result`.
- `JsonValue` holds the `Value` tree. Object members are kept in ascending key order, as serde_json's `BTreeMap` keeps them. It also defines key lookup and the uniqueness of an ascending key listing.
- `JsonPointer` covers RFC 6901:
  - escaping and unescaping tokens, with both round trips;
  - splitting and joining on `/`;
  - array indices (`0` or a digit string with no leading zero);
  - resolution, with a reference definition by explicit paths proved equivalent both ways.
- `DataTypes` holds the `Ffi__DataType` tag, the error values, and strictly typed extraction (the `needX!` macros).
- `DataFfi` holds the five boundary functions and the state.
- `DataFfiProperties` holds properties of the calls taken together:
  - the tag predicts which extraction succeeds;
  - what each call keeps, drops or allocates;
  - repeatability;
  - the state invariant over any run of calls.
- `DataFfiScenario` replays the module's own unit tests on their test document.

Ownership on the paths where a call gives up early:

- Each call takes its document out of the handle with `boxptr!`.
- On the paths that reach the write-back (`ptr::write(&mut value_ptr, Box::into_raw(Box::new(value)))`), the boxed document is moved into a new, leaked box and never itself moves. So the caller's handle still holds the same value afterwards.
- Some paths return while the call still owns the `Box<Value>`:
  - the `return` after a failed lookup in `get_value_type` and `get_value_keys`;
  - `trynull!` on pointer text that is not UTF-8;
  - `trynull!` on a key or string holding NUL.

  On those paths the box is dropped. The model removes the handle from the store, and it must not be used again.

## Model

| member | source | states |
|---|---|---|
| DataTypes.Need | src/data/ffi.rs:115-184 | Typed extraction succeeds exactly when the node's tag is the requested one. On success the payload has that shape and embeds back to the very node. Otherwise the error is "expected X, found Y". |
| DataTypes.NeedAt | src/data/ffi.rs:117-164 | `needX!(value)` works on the root. `needX!(value => p)` records "Could not find p in data" when the pointer finds nothing, and otherwise extracts from the node found. |
| DataTypes.Sample | src/data/ffi.rs:19-30 | Every member of the tag enumeration is the tag of some node. |
| DataTypes.NeedOwnTag | src/data/ffi.rs:56-65 | Extracting a node under the tag `get_value_type` reports for it always succeeds and loses nothing. |
| DataTypes.NumericStrict | src/data/ffi.rs:129-146 | Signed, unsigned and float numbers are never read under one another's tags. |
| DataFfi.DataOpen | src/data/ffi.rs:33-37 | A loaded document goes behind the next fresh handle, which then advances, and the other documents are untouched. A load failure records its error and returns null. |
| DataFfi.GetValueType | src/data/ffi.rs:40-70 | A null handle records the error and returns null. Without a pointer it gives the root's tag, and with a pointer that finds a node it gives that node's tag; both leave the state unchanged. A pointer that finds nothing, or text that is not UTF-8, records the error, returns null and drops the document. |
| DataFfi.GetValueKeys | src/data/ffi.rs:73-104 | The same branches as the tag query, with the found node's keys (or null for a node that is not an object) on the write-back path. |
| DataFfi.KeysOf | src/data/ffi.rs:89-99 | On an object the keys come back exactly when none holds NUL: then they are the keys in stored order and the state is unchanged; otherwise the result is null, the interior-NUL error is recorded and the document is dropped. On any other node: null with no error. |
| DataFfi.KeyStrings | src/data/ffi.rs:91-94 | The C-string conversion of the keys succeeds exactly when no key holds NUL. It yields the keys in map order, and it fails with the interior-NUL error. |
| DataFfi.PointerText | src/data/ffi.rs:109-113 | `get_value` keeps a pointer exactly when its text is UTF-8, and what it keeps is the caller's own text. |
| DataFfi.Abandon | src/data/ffi.rs:41-52 | An early exit from a call that owns the document records its error and drops exactly that document; every other handle and the handle counter stay as they were. |
| DataFfi.Alloc | src/data/ffi.rs:188 | Boxing a value hands out the next unused handle, which owns exactly that value; every earlier handle and the last error are untouched. |
| DataFfi.Marshal | src/data/ffi.rs:116-184 | A scalar or NUL-free string comes back as a payload that, read under the requested tag, is the very node extracted, with nothing else changed. A string holding NUL records the interior-NUL error, drops the document and returns null. An array comes back as one fresh handle per element, in order, each owning its element, with earlier handles untouched. |
| DataFfi.GetObject | src/data/ffi.rs:185-201 | With a pointer that resolves, a fresh handle owns a copy of the node it reaches and nothing else changes. With one that does not, the result is null and the state is unchanged. Without a pointer, the result is the caller's own handle exactly when the document is an object, and null otherwise. |
| DataFfi.GetValue | src/data/ffi.rs:107-115 | A null handle records the error and returns null. For every tag but Object, a failed extraction records its error, returns null and keeps the document. No call reuses a handle. |
| DataFfi.AllocAll | src/data/ffi.rs:167-170 | Each array element goes behind its own fresh handle, in order, holding a copy of that element. Documents already live keep their values. |
| DataFfi.FreeValue | src/data/ffi.rs:205-209 | Freeing a live handle returns 0 and removes exactly that document. A null handle records the error and returns a non-zero status. |
| DataFfiProperties.NeedAtTarget | src/data/ffi.rs:117-164 | Typed extraction through an optional pointer equals plain extraction from the node the call addresses. |
| DataFfiProperties.TagPredictsExtraction | src/data/ffi.rs:56-65 | The tag `get_value_type` reports is the only non-object tag that `get_value` accepts for the same node. Every other request records "expected X, found Y", returns null and changes nothing else. |
| DataFfiProperties.ScalarExtraction | src/data/ffi.rs:116-161 | A matching request for a null, bool, number or NUL-free string returns its payload unchanged, with a bool as byte 1 or 0, and leaves the state exactly as it was. |
| DataFfiProperties.NullRequest | src/data/ffi.rs:116-122 | A Null request always returns the null pointer. It leaves the state alone on a null node and only writes the error slot otherwise. |
| DataFfiProperties.ArrayExtraction | src/data/ffi.rs:162-184 | On an array it returns one distinct fresh handle per element, in order; each holds its element and answers the tag query. The documents already live are kept. On anything else it records the mismatch and returns null. |
| DataFfiProperties.ObjectWithPointer | src/data/ffi.rs:186-192 | A pointer that finds a node copies it, whatever its shape, behind a fresh handle with no error. A pointer that finds nothing returns null and writes no error. |
| DataFfiProperties.ObjectWithoutPointer | src/data/ffi.rs:193-197 | Without a usable pointer, the caller's own handle comes back exactly when the root is an object. Otherwise the result is null with no error, and the state is unchanged either way. |
| DataFfiProperties.UnconvertiblePointerMeansRoot | src/data/ffi.rs:109-113 | For `get_value`, pointer text that is not UTF-8 behaves exactly like a null pointer. |
| DataFfiProperties.KeysListing | src/data/ffi.rs:89-97 | On an object with NUL-free keys it returns exactly the keys in stored order and changes nothing, and those stored keys are strictly ascending. |
| DataFfiProperties.KeysOfNonObject | src/data/ffi.rs:98 | On a found node that is not an object it returns null, writes no error and keeps the document. |
| DataFfiProperties.SortedListing | src/data/ffi.rs:92 | The keys of a well-formed object, in stored order, list every key exactly once, ascend, and are the only ascending listing of that key set. |
| DataFfiProperties.LookupFailure | src/data/ffi.rs:47-53 | A pointer that finds nothing makes both queries return null and record "Could not find p in data", and the document is dropped. |
| DataFfiProperties.MemberPointer | src/data/ffi.rs:47 | In a well-formed object, `"/" + key` for a key with no `~` or `/` finds that member's value. |
| DataFfiProperties.QueriesRepeatable | src/data/ffi.rs:68 | A query that answered left everything as it was, so repeating it on the same handle gives the same answer. |
| DataFfiProperties.ExtractionRepeatable | src/data/ffi.rs:118-160 | A non-allocating `get_value` whose document survived the first call gives the identical reply when repeated. |
| DataFfiProperties.FreeIsolated | src/data/ffi.rs:205-209 | Freeing one handle leaves every other handle, including ones extracted from it, with its value. |
| DataFfiProperties.ElementsOutliveParent | src/data/ffi.rs:169 | The element handles of an array stay live, with their values and tags, after the document they came from is freed. |
| DataFfiProperties.OpenThenQuery | src/data/ffi.rs:33-70 | An opened document sits behind a fresh handle, keeps the invariant, and reports its root tag. |
| DataFfiProperties.DocumentsKeptUnlessDropped | src/data/ffi.rs:40-209 | Every call either keeps every live document unchanged or is one of the dropping calls and removes exactly its own handle. The dropping calls are `free_value` and the early exits. |
| DataFfiProperties.KeysKeptUnlessDropped | src/data/ffi.rs:73-104 | `get_value_keys` keeps the state exactly unless its lookup fails or a key holds NUL, in which case it removes just its own document. |
| DataFfiProperties.GetKeptUnlessDropped | src/data/ffi.rs:107-203 | `get_value` keeps every live document unless it is a String request on a string holding NUL, which drops its own document. |
| DataFfiProperties.StepPreservesInv | src/data/ffi.rs:33-209 | Every call keeps the invariant: handles are below the next fresh one, and every live document is well formed. |
| DataFfiProperties.TargetWellFormed | src/data/ffi.rs:47 | What a pointer finds in a well-formed document is well formed. |
| DataFfiProperties.AllocAllPreservesInv | src/data/ffi.rs:167-170 | Boxing well-formed array elements keeps the invariant. |
| DataFfiProperties.GetValuePreservesInv | src/data/ffi.rs:107-203 | Every `get_value` branch keeps the invariant. |
| DataFfiProperties.GetObjectPreservesInv | src/data/ffi.rs:185-201 | The Object branch keeps the invariant. |
| DataFfiProperties.MarshalPreservesInv | src/data/ffi.rs:116-184 | Handing an extracted payload across keeps the invariant. |
| DataFfiProperties.RunPreservesInv | src/data/ffi.rs:33-209 | Any sequence of allowed calls keeps the invariant. |
| JsonPointer.UnescapeEscape | src/data/ffi.rs:47 | Unescaping an escaped reference token gives the token back (section 4 of RFC 6901). |
| JsonPointer.EscapeUnescape | src/data/ffi.rs:47 | Escaping a token that unescaped successfully gives back the raw text. |
| JsonPointer.SplitJoin | src/data/ffi.rs:47 | Splitting a join of slash-free parts restores the parts. |
| JsonPointer.JoinSplit | src/data/ffi.rs:47 | Joining the parts of a split on `/` restores the text. |
| JsonPointer.ParseFormat | src/data/ffi.rs:47 | A formatted token list parses back to itself. |
| JsonPointer.FormatParse | src/data/ffi.rs:47 | Pointer text that parses is exactly the formatting of its tokens. |
| JsonPointer.ParseFormatIndex | src/data/ffi.rs:47 | Every array position formats to an index token that parses back to it. |
| JsonPointer.FormatParseIndex | src/data/ffi.rs:47 | A token that parses to a position is exactly that position's canonical decimal, so no other spelling (a leading zero, say) is accepted. |
| JsonPointer.ResolvePointer | src/data/ffi.rs:47 | The empty pointer addresses the whole document. |
| JsonPointer.ResolveAppend | src/data/ffi.rs:47 | Resolving a concatenation of token lists is resolving the first list and then the second from the node found. |
| JsonPointer.ResolveWellFormed | src/data/ffi.rs:47 | Resolution in a well-formed document finds well-formed nodes. |
| JsonPointer.ResolveMember | src/data/ffi.rs:47 | `"/" + k`, for a key with no `~` or `/`, looks up member `k`. |
| JsonPointer.ResolvePath | src/data/ffi.rs:47 | Resolving the tokens that spell an explicit key/index path reaches the same node as walking the path. |
| JsonPointer.PathPointerSound | src/data/ffi.rs:47 | A path that reaches a node, spelled as a pointer, finds that node. |
| JsonPointer.PathPointerComplete | src/data/ffi.rs:47 | Every pointer that finds a node is the written form of an explicit path that leads to that node. |
| JsonValue.Find | src/data/ffi.rs:47 | Member lookup succeeds exactly when some member has the key, and returns a value stored under it. |
| JsonValue.FindSorted | src/data/ffi.rs:47 | In an object with ascending keys, looking up a member's key finds that member's own value. |
| JsonValue.AscendingUnique | src/data/ffi.rs:92 | Two ascending listings of the same key set are equal. |
| JsonValue.KeyLessTotal | src/data/ffi.rs:92 | The key order used by the map is total on distinct keys. |
| DataFfiScenario.TestDocWellFormed | src/data/ffi.rs:345-367 | The unit tests' document, with its keys in map order, is well formed. |
| DataFfiScenario.ReadBool | src/data/ffi.rs:233-241 | `/bool` has tag Bool and reads as byte 1. |
| DataFfiScenario.ReadI64 | src/data/ffi.rs:243-251 | `/i64` has tag Int64 and reads as -5. |
| DataFfiScenario.ReadU64 | src/data/ffi.rs:253-261 | `/u64` has tag Uint64 and reads as 10. |
| DataFfiScenario.ReadF64 | src/data/ffi.rs:263-271 | `/f64` has tag Float and reads as the bit pattern of 1.2. |
| DataFfiScenario.ReadString | src/data/ffi.rs:273-281 | `/string` has tag String and reads as "abc". |
| DataFfiScenario.NegativeIsNotUnsigned | src/data/ffi.rs:135-140 | Reading -5 as unsigned records the mismatch and returns null. |
| DataFfiScenario.ArrayRequest | src/data/ffi.rs:283-290 | `/array` has tag Array and yields handles 1 and 2 for its two elements. |
| DataFfiScenario.ReadArray | src/data/ffi.rs:293-302 | The element handles read as 123 and "def" without a pointer, both before and after the document is freed. |
| DataFfiScenario.ObjectRequest | src/data/ffi.rs:304-310 | `/obj` has tag Object and yields a fresh handle to a copy of the inner object. |
| DataFfiScenario.ReadObject | src/data/ffi.rs:312-316 | In that copy, `/a` reads as "b". |
| DataFfiScenario.KeysAlphabetical | src/data/ffi.rs:328-342 | The root's keys come back in alphabetical order. |

## Left out

- Reading and parsing the file in `data_open` (`ptrtostr!` of the path, `DataParser::open`): `DataFfi.DataOpen` takes the parser's outcome, a document or an error, as its argument. `DataParser` is not part of this model.
- The bodies of the macros `trynull!`, `tryrc!`, `boxptr!`, `ptrtostr!`, `readptr!` and `needX!` are not part of this model. Their behaviour is inferred from their use:
  - `trynull!` records the error and returns null.
  - `tryrc!` records the error and returns a non-zero status, modelled as 1.
  - A failed pointer lookup in `needX!` records "Could not find p in data".
  - A shape mismatch records "expected X, found Y".
  - Extraction is strict: a node is read only under its own tag. This is the documented behaviour, not something the call sites show (see the `DataTypes.Need` line below).
- DataTypes.Need: the rule that there is no coercion between shapes is taken from the documented behaviour of the `needX!` macros, not from code: the macro bodies are not part of this model, and the call sites at src/data/ffi.rs:117-164 do not show it. In particular, an in-range `u64` is not read as Int64, and no integer is read as Float. If the macros delegated to serde_json's `as_i64`/`as_u64`/`as_f64`, those readings would succeed, and `DataTypes.NumericStrict` and the mismatch branch of `DataFfiProperties.TagPredictsExtraction` would not describe the program.
- The exact text of the mismatch, NUL and UTF-8 errors: the `error` module is not part of this model, so these are distinct error values rather than strings.
- Raw memory: addresses, alignment, `Ffi__Array` layout and the C strings' buffers. Handles are natural numbers that are never reused. A real allocator may reuse a freed address, which the model does not represent.
- The boxed `Ffi__DataType`, C strings, `u8`/`i64`/`u64`/`f64` boxes and arrays that the calls return are never freed by this code. Their ownership by the caller is not modelled.
- JsonPointer.ResolvePointer: follows the grammar of section 3 and the error rule of section 7 of RFC 6901. A `~` not followed by `0` or `1` makes the pointer find nothing, and so does an array index that is not `0` or a digit string without a leading zero (`01`, `+1`, `-1`). How serde_json's own `Value::pointer` treats malformed escapes and non-canonical index spellings is not modelled, because its source is not part of this model. A parse such as Rust's `usize` parse would accept `01` and `+1`.
- Floating point: an `f64` is carried as its 64-bit pattern. It is never compared or computed on.
- Undefined behaviour from a dangling or mistyped handle: callers must pass a null or live handle (`Callable`). Such misuse is not modelled as an error.
- Concurrency: the error slot is one global value. Thread-local storage and races are out of scope.
- The platform target files, the PHP binding header and the build script are context, not part of the data boundary.
- DataFfi.GetValue: its own contract covers only the null handle and failed extraction. The successful branches are stated by `DataFfiProperties.ScalarExtraction`, `NullRequest`, `ArrayExtraction`, `ObjectWithPointer` and `ObjectWithoutPointer`.

## Notes on the source

- In the Object branch of `get_value`, without a pointer and on a root that is not an object, the code returns null without writing the error slot. It also does no shape check on a node found by a pointer: any node found is copied and returned as an "object". The model follows the code in both cases.
- A pointer whose text is not UTF-8 is discarded by `get_value` (`.ok()`). That makes the call act on the root. The other two queries give up on such text. The model keeps this difference.
