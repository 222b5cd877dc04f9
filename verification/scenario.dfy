/** The document of the data layer's own unit tests, and the answers those
    tests expect, derived from the model. */
module DataFfiScenario {
  import opened Wrappers
  import opened JsonValue
  import opened JsonPointer
  import opened DataTypes
  import opened DataFfi
  import opened DataFfiProperties

  const Inner: Value := Object([Member("a", String("b"))])

  /** `{"bool":true,"i64":-5,"u64":10,"f64":1.2,"string":"abc","array":[123,"def"],"obj":{"a":"b"}}`
      as serde_json holds it: keys in ascending order, 1.2 as its bit pattern. */
  const TestDoc: Value := Object([
    Member("array", Array([U64(123), String("def")])),
    Member("bool", Bool(true)),
    Member("f64", F64(Float64(0x3FF3_3333_3333_3333))),
    Member("i64", I64(-5)),
    Member("obj", Inner),
    Member("string", String("abc")),
    Member("u64", U64(10))
  ])

  const Empty: State := State(map[], 0, None)

  /** The state after `data_open` of the test document: handle 0. */
  function Opened(): (s: State)
    ensures s == State(map[0 := TestDoc], 1, None)
  {
    DataOpen(Empty, Success(TestDoc)).state
  }

  lemma NeighbourKeys()
    ensures var ms := TestDoc.members;
            forall k :: 0 <= k < |ms| - 1 ==> KeyLess(ms[k].key, ms[k + 1].key)
  {
    assert KeyLess("array", "bool") && KeyLess("bool", "f64") && KeyLess("f64", "i64");
    assert KeyLess("i64", "obj") && KeyLess("obj", "string") && KeyLess("string", "u64");
  }

  lemma TestDocWellFormed()
    ensures WellFormed(TestDoc)
  {
    NeighbourKeys();
    SortedFromNeighbours(TestDoc.members);
    assert WellFormed(Inner);
  }

  lemma PlainKeys()
    ensures forall j :: 0 <= j < |TestDoc.members| ==>
              '~' !in TestDoc.members[j].key && '/' !in TestDoc.members[j].key
  {
  }

  /** What `"/" + key` finds in the test document: member `i`. */
  lemma Lookup(i: nat)
    requires i < |TestDoc.members|
    ensures var m := TestDoc.members[i];
            ResolvePointer(TestDoc, "/" + m.key) == Some(m.val)
  {
    TestDocWellFormed();
    PlainKeys();
    MemberPointer(TestDoc.members, i);
  }

  /** Reading member `i` under its own tag, through `"/" + key`. */
  lemma ReadMember(i: nat)
    requires i < |TestDoc.members|
    requires var v := TestDoc.members[i].val;
             v.Bool? || v.I64? || v.U64? || v.F64? || (v.String? && '\0' !in v.s)
    ensures var m := TestDoc.members[i];
            var p := Utf8("/" + m.key);
            && GetValueType(Opened(), Some(0), p) == Reply(Opened(), Some(TagOf(m.val)))
            && GetValue(Opened(), Some(0), TagOf(m.val), p).result ==
                 match m.val
                 case Bool(b) => Byte(if b then 1 else 0)
                 case I64(n) => Int64Val(n)
                 case U64(n) => Uint64Val(n)
                 case F64(f) => FloatVal(f)
                 case String(str) => CStr(str)
                 case _ => NullPtr
  {
    var m := TestDoc.members[i];
    Lookup(i);
    ScalarExtraction(Opened(), 0, Utf8("/" + m.key), m.val);
  }

  /** `test_open_get_value`: each member's tag, and its payload read under that tag. */
  lemma ReadBool()
    ensures GetValueType(Opened(), Some(0), Utf8("/bool")).result == Some(BoolType)
    ensures GetValue(Opened(), Some(0), BoolType, Utf8("/bool")).result == Byte(1)
  {
    ReadMember(1);
  }

  lemma ReadI64()
    ensures GetValueType(Opened(), Some(0), Utf8("/i64")).result == Some(Int64Type)
    ensures GetValue(Opened(), Some(0), Int64Type, Utf8("/i64")).result == Int64Val(-5)
  {
    ReadMember(3);
  }

  lemma ReadU64()
    ensures GetValueType(Opened(), Some(0), Utf8("/u64")).result == Some(Uint64Type)
    ensures GetValue(Opened(), Some(0), Uint64Type, Utf8("/u64")).result == Uint64Val(10)
  {
    ReadMember(6);
  }

  lemma ReadF64()
    ensures GetValueType(Opened(), Some(0), Utf8("/f64")).result == Some(FloatType)
    ensures GetValue(Opened(), Some(0), FloatType, Utf8("/f64")).result == FloatVal(Float64(0x3FF3_3333_3333_3333))
  {
    ReadMember(2);
  }

  lemma ReadString()
    ensures GetValueType(Opened(), Some(0), Utf8("/string")).result == Some(StringType)
    ensures GetValue(Opened(), Some(0), StringType, Utf8("/string")).result == CStr("abc")
  {
    ReadMember(5);
  }

  /** Type strictness: -5 is not an unsigned integer. */
  lemma NegativeIsNotUnsigned()
    ensures GetValue(Opened(), Some(0), Uint64Type, Utf8("/i64")) ==
            Reply(SetErr(Opened(), Mismatch(Uint64Type, Int64Type)), NullPtr)
  {
    Lookup(3);
    TagPredictsExtraction(Opened(), 0, Utf8("/i64"), Uint64Type);
  }

  /** The state after the Array request on `"/array"`: handles 1 and 2 hold
      the two elements. */
  const AfterArray: State := State(map[0 := TestDoc, 1 := U64(123), 2 := String("def")], 3, None)

  lemma ArrayRequest()
    ensures GetValueType(Opened(), Some(0), Utf8("/array")).result == Some(ArrayType)
    ensures GetValue(Opened(), Some(0), ArrayType, Utf8("/array")) == Reply(AfterArray, Handles([1, 2]))
  {
    ArrayFound();
    AllocTwo();
  }

  /** `"/array"` finds the array, so the request marshals its elements. */
  lemma ArrayFound()
    ensures GetValueType(Opened(), Some(0), Utf8("/array")).result == Some(ArrayType)
    ensures GetValue(Opened(), Some(0), ArrayType, Utf8("/array")) ==
            Marshal(Opened(), 0, ArrayOk([U64(123), String("def")]))
  {
    Lookup(0);
    NeedAtTarget(TestDoc, Utf8("/array"), ArrayType);
  }

  lemma AllocTwo()
    ensures AllocAll(Opened(), [U64(123), String("def")]) == (AfterArray, [1, 2])
  {
    var r := AllocAll(Opened(), [U64(123), String("def")]);
    assert r.1 == [1, 2];
    assert r.0.store == AfterArray.store;
  }

  /** The array `[123, "def"]` comes back as handles 1 and 2, read without a
      pointer as unsigned 123 and string "def"; both outlive the document. */
  lemma ReadArray()
    ensures var f := FreeValue(AfterArray, Some(0));
            && GetValue(AfterArray, Some(1), Uint64Type, NoPointer).result == Uint64Val(123)
            && GetValue(AfterArray, Some(2), StringType, NoPointer).result == CStr("def")
            && GetValue(f.state, Some(1), Uint64Type, NoPointer).result == Uint64Val(123)
            && GetValue(f.state, Some(2), StringType, NoPointer).result == CStr("def")
  {
    var f := FreeValue(AfterArray, Some(0));
    assert f.state.store == map[1 := U64(123), 2 := String("def")];
  }

  /** The state after the Object request on `"/obj"`: handle 1 holds a copy. */
  const AfterObject: State := State(map[0 := TestDoc, 1 := Inner], 2, None)

  lemma ObjectRequest()
    ensures GetValueType(Opened(), Some(0), Utf8("/obj")).result == Some(ObjectType)
    ensures GetValue(Opened(), Some(0), ObjectType, Utf8("/obj")) == Reply(AfterObject, Doc(1))
  {
    Lookup(4);
  }

  /** In the copy of `"/obj"`, `"/a"` reads as "b". */
  lemma ReadObject()
    ensures GetValue(AfterObject, Some(1), StringType, Utf8("/a")).result == CStr("b")
  {
    assert WellFormed(Inner);
    MemberPointer(Inner.members, 0);
    ScalarExtraction(AfterObject, 1, Utf8("/a"), String("b"));
  }

  lemma TestKeys()
    ensures Keys(TestDoc.members) == ["array", "bool", "f64", "i64", "obj", "string", "u64"]
    ensures forall i :: 0 <= i < |TestDoc.members| ==> '\0' !in TestDoc.members[i].key
  {
  }

  /** `test_get_value_keys`: the root's keys in alphabetical order. */
  lemma KeysAlphabetical()
    ensures GetValueKeys(Opened(), Some(0), NoPointer) ==
            Reply(Opened(), Some(["array", "bool", "f64", "i64", "obj", "string", "u64"]))
  {
    TestKeys();
  }
}
