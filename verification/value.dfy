/** The parsed document: a JSON value tree in the shape of serde_json's `Value`.
    Objects are kept as their key/value pairs in ascending key order, which is
    how serde_json's `Map` (a B-tree map) stores and enumerates them. */
module JsonValue {
  import opened Wrappers

  newtype i64 = x: int | -0x8000_0000_0000_0000 <= x < 0x8000_0000_0000_0000
  newtype u64 = x: int | 0 <= x < 0x1_0000_0000_0000_0000

  /** An IEEE-754 binary64 number, carried as its bit pattern; nothing in the
      model computes with it. */
  datatype Float64 = Float64(bits: u64)

  datatype Value =
    | Null
    | Bool(b: bool)
    | I64(i: i64)
    | U64(u: u64)
    | F64(f: Float64)
    | String(s: string)
    | Array(elems: seq<Value>)
    | Object(members: seq<Member>)

  datatype Member = Member(key: string, val: Value)

  /** Strict lexicographic order on keys, character by character. Rust orders
      `String`s by their UTF-8 bytes, which agrees with code-point order. */
  predicate KeyLess(a: string, b: string)
    decreases |a|
  {
    if |a| == 0 then |b| > 0
    else |b| > 0 && (a[0] < b[0] || (a[0] == b[0] && KeyLess(a[1..], b[1..])))
  }

  lemma {:induction false} KeyLessIrreflexive(a: string)
    ensures !KeyLess(a, a)
    decreases |a|
  {
    if |a| > 0 {
      KeyLessIrreflexive(a[1..]);
    }
  }

  lemma {:induction false} KeyLessTransitive(a: string, b: string, c: string)
    requires KeyLess(a, b) && KeyLess(b, c)
    ensures KeyLess(a, c)
    decreases |a|
  {
    if |a| > 0 && a[0] == b[0] && b[0] == c[0] {
      KeyLessTransitive(a[1..], b[1..], c[1..]);
    }
  }

  lemma {:induction false} KeyLessTotal(a: string, b: string)
    ensures a == b || KeyLess(a, b) || KeyLess(b, a)
    decreases |a|
  {
    if |a| > 0 && |b| > 0 && a[0] == b[0] {
      KeyLessTotal(a[1..], b[1..]);
      if a[1..] == b[1..] {
        assert a == [a[0]] + a[1..] && b == [b[0]] + b[1..];
      }
    }
  }

  /** A sequence of keys in strictly ascending order. */
  predicate Ascending(ks: seq<string>) {
    forall i, j :: 0 <= i < j < |ks| ==> KeyLess(ks[i], ks[j])
  }

  /** The keys of an object, in stored order. */
  function Keys(ms: seq<Member>): (ks: seq<string>)
    ensures |ks| == |ms|
    ensures forall i :: 0 <= i < |ms| ==> ks[i] == ms[i].key
  {
    seq(|ms|, i requires 0 <= i < |ms| => ms[i].key)
  }

  /** The invariant of serde_json's map: keys strictly ascending, hence unique. */
  predicate SortedKeys(ms: seq<Member>) {
    forall i, j :: 0 <= i < j < |ms| ==> KeyLess(ms[i].key, ms[j].key)
  }

  /** Every object in the tree, at any depth, keeps its keys sorted. */
  predicate WellFormed(v: Value) {
    match v
    case Array(es) => forall i :: 0 <= i < |es| ==> WellFormed(es[i])
    case Object(ms) => SortedKeys(ms) && forall i :: 0 <= i < |ms| ==> WellFormed(ms[i].val)
    case _ => true
  }

  /** Map lookup by exact key match. */
  function Find(ms: seq<Member>, k: string): (r: Option<Value>)
    ensures r.Some? <==> exists i :: 0 <= i < |ms| && ms[i].key == k
    ensures r.Some? ==> exists i :: 0 <= i < |ms| && ms[i] == Member(k, r.value)
  {
    if |ms| == 0 then None
    else if ms[0].key == k then Some(ms[0].val)
    else
      var r := Find(ms[1..], k);
      assert forall i :: 1 <= i < |ms| ==> ms[i] == ms[1..][i - 1];
      r
  }

  /** In a sorted map the lookup finds exactly the member stored under the key. */
  lemma {:induction false} FindSorted(ms: seq<Member>, i: int)
    requires SortedKeys(ms)
    requires 0 <= i < |ms|
    ensures Find(ms, ms[i].key) == Some(ms[i].val)
    decreases i
  {
    if i > 0 {
      KeyLessIrreflexive(ms[i].key);
      assert ms[0].key != ms[i].key;
      assert ms[1..][i - 1] == ms[i];
      FindSorted(ms[1..], i - 1);
    }
  }

  /** Keys that ascend between neighbours ascend throughout. */
  lemma SortedFromNeighbours(ms: seq<Member>)
    requires forall k :: 0 <= k < |ms| - 1 ==> KeyLess(ms[k].key, ms[k + 1].key)
    ensures SortedKeys(ms)
  {
    forall i, j | 0 <= i < j < |ms|
      ensures KeyLess(ms[i].key, ms[j].key)
    {
      NeighboursReach(ms, i, j);
    }
  }

  lemma {:induction false} NeighboursReach(ms: seq<Member>, i: int, j: int)
    requires 0 <= i < j < |ms|
    requires forall k :: 0 <= k < |ms| - 1 ==> KeyLess(ms[k].key, ms[k + 1].key)
    ensures KeyLess(ms[i].key, ms[j].key)
    decreases j - i
  {
    if j > i + 1 {
      NeighboursReach(ms, i, j - 1);
      KeyLessTransitive(ms[i].key, ms[j - 1].key, ms[j].key);
    }
  }

  lemma NoMembersEmpty(ys: seq<string>)
    ensures (forall k :: k !in ys) ==> ys == []
  {
    if ys != [] {
      assert ys[0] in ys;
    }
  }

  /** An ascending listing of a set of keys is unique: the order in which a
      sorted map enumerates its keys depends on the keys alone. */
  lemma {:induction false} AscendingUnique(xs: seq<string>, ys: seq<string>)
    requires Ascending(xs) && Ascending(ys)
    requires forall k :: k in xs <==> k in ys
    ensures xs == ys
    decreases |xs|
  {
    if |xs| == 0 {
      NoMembersEmpty(ys);
    } else {
      assert xs[0] in xs;
      var j :| 0 <= j < |ys| && ys[j] == xs[0];
      assert ys[0] in ys;
      var i :| 0 <= i < |xs| && xs[i] == ys[0];
      if i > 0 && j > 0 {
        KeyLessTransitive(xs[0], xs[i], xs[0]);
        KeyLessIrreflexive(xs[0]);
      } else if i > 0 {
        KeyLessIrreflexive(xs[0]);
      } else if j > 0 {
        KeyLessIrreflexive(ys[0]);
      }
      assert xs[0] == ys[0];
      forall k | k in xs[1..]
        ensures k in ys[1..]
      {
        var a :| 1 <= a < |xs| && xs[a] == k;
        assert k in xs;
        var b :| 0 <= b < |ys| && ys[b] == k;
        if b == 0 {
          KeyLessIrreflexive(xs[0]);
        }
      }
      forall k | k in ys[1..]
        ensures k in xs[1..]
      {
        var b :| 1 <= b < |ys| && ys[b] == k;
        assert k in ys;
        var a :| 0 <= a < |xs| && xs[a] == k;
        if a == 0 {
          KeyLessIrreflexive(ys[0]);
        }
      }
      AscendingUnique(xs[1..], ys[1..]);
      assert xs == [xs[0]] + xs[1..] && ys == [ys[0]] + ys[1..];
    }
  }
}
