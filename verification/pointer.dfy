/** JSON Pointer (RFC 6901): the text form of a path, its reference tokens,
    and their evaluation against a value tree. */
module JsonPointer {
  import opened Wrappers
  import opened JsonValue

  // ---------------------------------------------------------------------------
  // Reference-token escaping (section 3 of RFC 6901): '~' is written "~0" and
  // '/' is written "~1"; any other '~' is malformed.

  function Escape(t: string): (r: string)
    ensures '/' !in r
  {
    if |t| == 0 then ""
    else (if t[0] == '~' then "~0" else if t[0] == '/' then "~1" else [t[0]]) + Escape(t[1..])
  }

  function Unescape(raw: string): Option<string>
  {
    if |raw| == 0 then Some("")
    else if raw[0] == '~' then
      if |raw| >= 2 && raw[1] == '0' then Cons('~', Unescape(raw[2..]))
      else if |raw| >= 2 && raw[1] == '1' then Cons('/', Unescape(raw[2..]))
      else None
    else Cons(raw[0], Unescape(raw[1..]))
  }

  function Cons(c: char, o: Option<string>): Option<string> {
    if o.Some? then Some([c] + o.value) else None
  }

  lemma {:induction false} UnescapeEscape(t: string)
    ensures Unescape(Escape(t)) == Some(t)
    decreases |t|
  {
    if |t| > 0 {
      UnescapeEscape(t[1..]);
      var head := if t[0] == '~' then "~0" else if t[0] == '/' then "~1" else [t[0]];
      assert Escape(t) == head + Escape(t[1..]);
      assert (head + Escape(t[1..]))[|head|..] == Escape(t[1..]);
      assert t == [t[0]] + t[1..];
    }
  }

  /** Escaping is the only way to write a token: a slash-free raw token that
      unescapes to `t` is exactly `Escape(t)`. */
  lemma {:induction false} EscapeUnescape(raw: string, t: string)
    requires '/' !in raw
    requires Unescape(raw) == Some(t)
    ensures Escape(t) == raw
    decreases |raw|
  {
    if |raw| > 0 {
      if raw[0] == '~' {
        var u := Unescape(raw[2..]).value;
        EscapeUnescape(raw[2..], u);
        assert raw == raw[..2] + raw[2..];
      } else {
        var u := Unescape(raw[1..]).value;
        EscapeUnescape(raw[1..], u);
        assert raw == [raw[0]] + raw[1..];
      }
    }
  }

  // ---------------------------------------------------------------------------
  // Splitting the text after the leading '/' into raw tokens.

  function Split(s: string): (r: seq<string>)
    ensures |r| >= 1
    ensures forall i :: 0 <= i < |r| ==> '/' !in r[i]
  {
    if |s| == 0 then [""]
    else
      var rest := Split(s[1..]);
      if s[0] == '/' then [""] + rest
      else [[s[0]] + rest[0]] + rest[1..]
  }

  function Join(ts: seq<string>): string
    requires |ts| >= 1
  {
    if |ts| == 1 then ts[0] else ts[0] + "/" + Join(ts[1..])
  }

  lemma {:induction false} SplitSlashFree(x: string, y: string)
    requires '/' !in x
    ensures Split(x + y) == [x + Split(y)[0]] + Split(y)[1..]
    decreases |x|
  {
    if |x| > 0 {
      SplitSlashFree(x[1..], y);
      assert (x + y)[0] == x[0] && (x + y)[1..] == x[1..] + y;
      var rest := Split(x[1..] + y);
      assert rest[0] == x[1..] + Split(y)[0];
      assert rest[1..] == Split(y)[1..];
      assert Split(x + y) == [[x[0]] + rest[0]] + rest[1..];
      assert [x[0]] + (x[1..] + Split(y)[0]) == x + Split(y)[0];
    } else {
      assert x + y == y && x + Split(y)[0] == Split(y)[0];
      assert Split(y) == [Split(y)[0]] + Split(y)[1..];
    }
  }

  lemma {:induction false} SplitJoin(ts: seq<string>)
    requires |ts| >= 1
    requires forall i :: 0 <= i < |ts| ==> '/' !in ts[i]
    ensures Split(Join(ts)) == ts
    decreases |ts|
  {
    if |ts| == 1 {
      SplitSlashFree(ts[0], "");
      assert ts[0] + "" == ts[0];
    } else {
      SplitJoin(ts[1..]);
      var j := Join(ts[1..]);
      assert ts[0] + "/" + j == ts[0] + ("/" + j);
      SplitSlashFree(ts[0], "/" + j);
      assert ("/" + j)[1..] == j;
      assert Split("/" + j) == [""] + ts[1..];
      assert ts[0] + "" == ts[0];
      assert ts == [ts[0]] + ts[1..];
    }
  }

  lemma {:induction false} JoinSplit(s: string)
    ensures Join(Split(s)) == s
    decreases |s|
  {
    if |s| > 0 {
      JoinSplit(s[1..]);
      var rest := Split(s[1..]);
      if s[0] == '/' {
        assert ([""] + rest)[1..] == rest;
        assert s == "/" + s[1..];
      } else if |rest| == 1 {
        assert s == [s[0]] + s[1..];
      } else {
        var r := [[s[0]] + rest[0]] + rest[1..];
        assert r[1..] == rest[1..];
        assert Join(r) == [s[0]] + (rest[0] + "/" + Join(rest[1..]));
        assert s == [s[0]] + s[1..];
      }
    }
  }

  function UnescapeAll(raws: seq<string>): (r: Option<seq<string>>)
    ensures r.Some? ==> |r.value| == |raws|
    ensures r.Some? ==> forall i :: 0 <= i < |raws| ==> Unescape(raws[i]) == Some(r.value[i])
    ensures r.None? ==> exists i :: 0 <= i < |raws| && Unescape(raws[i]).None?
  {
    if |raws| == 0 then Some([])
    else
      var head := Unescape(raws[0]);
      var tail := UnescapeAll(raws[1..]);
      if head.None? then None
      else if tail.None? then
        assert forall i :: 1 <= i < |raws| ==> raws[i] == raws[1..][i - 1];
        None
      else
        assert forall i :: 1 <= i < |raws| ==> raws[i] == raws[1..][i - 1];
        Some([head.value] + tail.value)
  }

  function EscapeAll(ts: seq<string>): (r: seq<string>)
    ensures |r| == |ts|
    ensures forall i :: 0 <= i < |ts| ==> r[i] == Escape(ts[i])
  {
    seq(|ts|, i requires 0 <= i < |ts| => Escape(ts[i]))
  }

  // ---------------------------------------------------------------------------
  // Whole pointers (section 3 of RFC 6901): json-pointer = *( "/" reference-token ).
  // The empty text is the pointer with no tokens, which addresses the root.

  function Parse(text: string): Option<seq<string>>
  {
    if |text| == 0 then Some([])
    else if text[0] != '/' then None
    else UnescapeAll(Split(text[1..]))
  }

  function Format(ts: seq<string>): string
  {
    if |ts| == 0 then "" else "/" + Join(EscapeAll(ts))
  }

  /** Every token list is written as a pointer that reads back as itself. */
  lemma ParseFormat(ts: seq<string>)
    ensures Parse(Format(ts)) == Some(ts)
  {
    if |ts| > 0 {
      var es := EscapeAll(ts);
      SplitJoin(es);
      assert Format(ts)[1..] == Join(es);
      forall i | 0 <= i < |ts|
        ensures Unescape(es[i]) == Some(ts[i])
      {
        UnescapeEscape(ts[i]);
      }
      var r := UnescapeAll(es);
      assert r.Some?;
      assert r.value == ts;
    }
  }

  /** Pointer text is canonical: whatever parses is the format of its tokens. */
  lemma FormatParse(text: string, ts: seq<string>)
    requires Parse(text) == Some(ts)
    ensures Format(ts) == text
  {
    if |text| > 0 {
      var raws := Split(text[1..]);
      JoinSplit(text[1..]);
      forall i | 0 <= i < |raws|
        ensures Escape(ts[i]) == raws[i]
      {
        EscapeUnescape(raws[i], ts[i]);
      }
      assert EscapeAll(ts) == raws;
      assert text == "/" + text[1..];
    }
  }

  // ---------------------------------------------------------------------------
  // Array indices (section 4 of RFC 6901): array-index = "0" / ( %x31-39 *%x30-39 ).

  predicate IsDigit(c: char) { '0' <= c <= '9' }

  predicate AllDigits(s: string) { forall i :: 0 <= i < |s| ==> IsDigit(s[i]) }

  function DigitValue(c: char): nat
    requires IsDigit(c)
  {
    c as int - '0' as int
  }

  function DigitChar(d: nat): (c: char)
    requires d < 10
    ensures IsDigit(c) && DigitValue(c) == d
  {
    ('0' as int + d) as char
  }

  /** Base-10 value of a digit string. */
  function Decimal(s: string): nat
    requires AllDigits(s)
    decreases |s|
  {
    if |s| == 0 then 0 else Decimal(s[..|s| - 1]) * 10 + DigitValue(s[|s| - 1])
  }

  function ParseIndex(tok: string): Option<nat>
  {
    if |tok| == 0 || !AllDigits(tok) then None
    else if tok[0] == '0' && |tok| > 1 then None
    else Some(Decimal(tok))
  }

  /** The canonical decimal text of an index. */
  function FormatIndex(n: nat): (r: string)
    ensures |r| >= 1 && AllDigits(r)
    ensures r[0] == '0' ==> n == 0 && |r| == 1
  {
    if n < 10 then [DigitChar(n)] else FormatIndex(n / 10) + [DigitChar(n % 10)]
  }

  lemma {:induction false} DecimalFormat(n: nat)
    ensures Decimal(FormatIndex(n)) == n
  {
    if n >= 10 {
      DecimalFormat(n / 10);
      var r := FormatIndex(n);
      assert r[..|r| - 1] == FormatIndex(n / 10);
    }
  }

  lemma ParseFormatIndex(n: nat)
    ensures ParseIndex(FormatIndex(n)) == Some(n)
  {
    DecimalFormat(n);
  }

  lemma {:induction false} DecimalPositive(s: string)
    requires |s| >= 1 && AllDigits(s) && s[0] != '0'
    ensures Decimal(s) >= 1
    decreases |s|
  {
    if |s| > 1 {
      DecimalPositive(s[..|s| - 1]);
    }
  }

  /** Index text is canonical: a token accepted as index `n` is `n`'s decimal text. */
  lemma {:induction false} FormatParseIndex(tok: string, n: nat)
    requires ParseIndex(tok) == Some(n)
    ensures FormatIndex(n) == tok
    decreases |tok|
  {
    if |tok| > 1 {
      var p := tok[..|tok| - 1];
      assert AllDigits(p);
      DecimalPositive(p);
      FormatParseIndex(p, Decimal(p));
      assert n == Decimal(p) * 10 + DigitValue(tok[|tok| - 1]);
      assert n / 10 == Decimal(p) && n % 10 == DigitValue(tok[|tok| - 1]);
      assert tok == p + [tok[|tok| - 1]];
    }
  }

  // ---------------------------------------------------------------------------
  // Evaluation (section 4 of RFC 6901): each token selects an object member by
  // exact key or an array element by index; anything else is "not found".

  function Resolve(v: Value, ts: seq<string>): Option<Value>
    decreases |ts|
  {
    if |ts| == 0 then Some(v)
    else match v
      case Object(ms) =>
        (match Find(ms, ts[0])
         case Some(c) => Resolve(c, ts[1..])
         case None => None)
      case Array(es) =>
        (match ParseIndex(ts[0])
         case Some(i) => if i < |es| then Resolve(es[i], ts[1..]) else None
         case None => None)
      case _ => None
  }

  /** Evaluation of pointer text (section 4 of RFC 6901); text that does not
      match the grammar of section 3 is an error condition (section 7) and finds
      nothing. */
  function ResolvePointer(v: Value, text: string): (r: Option<Value>)
    ensures text == "" ==> r == Some(v)
  {
    match Parse(text)
    case None => None
    case Some(ts) => Resolve(v, ts)
  }

  /** Evaluation is token by token: resolving `a + b` is resolving `a`, then `b`
      from wherever `a` led. */
  lemma {:induction false} ResolveAppend(v: Value, a: seq<string>, b: seq<string>)
    ensures Resolve(v, a + b) == (match Resolve(v, a) case None => None case Some(w) => Resolve(w, b))
    decreases |a|
  {
    if |a| > 0 {
      assert (a + b)[0] == a[0];
      assert (a + b)[1..] == a[1..] + b;
      match v {
        case Object(ms) =>
          match Find(ms, a[0]) {
            case Some(c) => ResolveAppend(c, a[1..], b);
            case None =>
          }
        case Array(es) =>
          match ParseIndex(a[0]) {
            case Some(i) =>
              if i < |es| {
                ResolveAppend(es[i], a[1..], b);
              }
            case None =>
          }
        case _ =>
      }
    } else {
      assert a + b == b;
    }
  }

  /** What a pointer reaches is part of the tree it was evaluated on, so it is
      well formed when the tree is. */
  lemma {:induction false} ResolveWellFormed(v: Value, ts: seq<string>)
    requires WellFormed(v)
    requires Resolve(v, ts).Some?
    ensures WellFormed(Resolve(v, ts).value)
    decreases |ts|
  {
    if |ts| > 0 {
      match v
      case Object(ms) =>
        var c := Find(ms, ts[0]).value;
        var i :| 0 <= i < |ms| && ms[i] == Member(ts[0], c);
        assert WellFormed(ms[i].val);
        ResolveWellFormed(c, ts[1..]);
      case Array(es) =>
        var i := ParseIndex(ts[0]).value;
        ResolveWellFormed(es[i], ts[1..]);
    }
  }

  /** A key with neither '~' nor '/' is written as itself. */
  lemma {:induction false} EscapePlain(t: string)
    requires '~' !in t && '/' !in t
    ensures Escape(t) == t
    decreases |t|
  {
    if |t| > 0 {
      EscapePlain(t[1..]);
      assert t == [t[0]] + t[1..];
    }
  }

  /** A one-token pointer `"/" + k`, for a key written as itself, finds the
      object's member `k`. */
  lemma ResolveMember(ms: seq<Member>, k: string)
    requires '~' !in k && '/' !in k
    ensures ResolvePointer(Object(ms), "/" + k) == Find(ms, k)
  {
    EscapePlain(k);
    assert Format([k]) == "/" + k;
    ParseFormat([k]);
    assert [k][1..] == [];
    assert Resolve(Object(ms), [k]) == Find(ms, k);
  }

  // ---------------------------------------------------------------------------
  // A reference definition of paths, independent of pointer text: a step names
  // an object key or an array position explicitly.

  datatype Step = Key(key: string) | Index(index: nat)

  function At(v: Value, path: seq<Step>): Option<Value>
    decreases |path|
  {
    if |path| == 0 then Some(v)
    else match (v, path[0])
      case (Object(ms), Key(k)) =>
        (match Find(ms, k)
         case Some(c) => At(c, path[1..])
         case None => None)
      case (Array(es), Index(i)) => if i < |es| then At(es[i], path[1..]) else None
      case _ => None
  }

  function StepToken(st: Step): string {
    match st
    case Key(k) => k
    case Index(i) => FormatIndex(i)
  }

  function PathTokens(path: seq<Step>): (ts: seq<string>)
    ensures |ts| == |path|
    ensures forall i :: 0 <= i < |path| ==> ts[i] == StepToken(path[i])
  {
    seq(|path|, i requires 0 <= i < |path| => StepToken(path[i]))
  }

  /** The pointer written for a path finds the node the path leads to. */
  lemma {:induction false} PathPointerSound(v: Value, path: seq<Step>)
    requires At(v, path).Some?
    ensures ResolvePointer(v, Format(PathTokens(path))) == At(v, path)
  {
    ParseFormat(PathTokens(path));
    ResolvePath(v, path);
  }

  lemma {:induction false} ResolvePath(v: Value, path: seq<Step>)
    requires At(v, path).Some?
    ensures Resolve(v, PathTokens(path)) == At(v, path)
    decreases |path|
  {
    if |path| > 0 {
      var ts := PathTokens(path);
      assert ts[1..] == PathTokens(path[1..]);
      match (v, path[0])
      case (Object(ms), Key(k)) =>
        ResolvePath(Find(ms, k).value, path[1..]);
      case (Array(es), Index(i)) =>
        ParseFormatIndex(i);
        ResolvePath(es[i], path[1..]);
    }
  }

  /** The path that a token list spells out when walked over `v`. */
  function PathOf(v: Value, ts: seq<string>): (path: seq<Step>)
    requires Resolve(v, ts).Some?
    decreases |ts|
  {
    if |ts| == 0 then []
    else match v
      case Object(ms) => [Key(ts[0])] + PathOf(Find(ms, ts[0]).value, ts[1..])
      case Array(es) => [Index(ParseIndex(ts[0]).value)] + PathOf(es[ParseIndex(ts[0]).value], ts[1..])
  }

  lemma {:induction false} PathOfSpellsTokens(v: Value, ts: seq<string>)
    requires Resolve(v, ts).Some?
    ensures PathTokens(PathOf(v, ts)) == ts
    decreases |ts|
  {
    if |ts| > 0 {
      if v.Object? {
        PathOfObject(v.members, ts);
        var c := Find(v.members, ts[0]).value;
        PathOfSpellsTokens(c, ts[1..]);
        SpellsWithHead(Key(ts[0]), PathOf(c, ts[1..]), ts);
      } else {
        PathOfArray(v.elems, ts);
        var i := ParseIndex(ts[0]).value;
        FormatParseIndex(ts[0], i);
        PathOfSpellsTokens(v.elems[i], ts[1..]);
        SpellsWithHead(Index(i), PathOf(v.elems[i], ts[1..]), ts);
      }
    }
  }

  /** One step of `PathOf` into an object. */
  lemma PathOfObject(ms: seq<Member>, ts: seq<string>)
    requires |ts| > 0 && Resolve(Object(ms), ts).Some?
    ensures Find(ms, ts[0]).Some? && Resolve(Find(ms, ts[0]).value, ts[1..]).Some?
    ensures PathOf(Object(ms), ts) == [Key(ts[0])] + PathOf(Find(ms, ts[0]).value, ts[1..])
  {
  }

  /** One step of `PathOf` into an array. */
  lemma PathOfArray(es: seq<Value>, ts: seq<string>)
    requires |ts| > 0 && Resolve(Array(es), ts).Some?
    ensures ParseIndex(ts[0]).Some? && ParseIndex(ts[0]).value < |es|
    ensures Resolve(es[ParseIndex(ts[0]).value], ts[1..]).Some?
    ensures PathOf(Array(es), ts) ==
            [Index(ParseIndex(ts[0]).value)] + PathOf(es[ParseIndex(ts[0]).value], ts[1..])
  {
  }

  /** A path spells `ts` when its first step spells the head and the rest
      spells the tail. */
  lemma SpellsWithHead(st: Step, rest: seq<Step>, ts: seq<string>)
    requires |ts| > 0 && StepToken(st) == ts[0] && PathTokens(rest) == ts[1..]
    ensures PathTokens([st] + rest) == ts
  {
    ConsTokens(st, rest);
    assert ts == [ts[0]] + ts[1..];
  }

  /** The tokens of a path with one more step in front. */
  lemma ConsTokens(st: Step, rest: seq<Step>)
    ensures PathTokens([st] + rest) == [StepToken(st)] + PathTokens(rest)
  {
    var pt := PathTokens([st] + rest);
    assert forall i :: 1 <= i < |pt| ==> ([st] + rest)[i] == rest[i - 1];
  }

  lemma {:induction false} PathOfLeadsThere(v: Value, ts: seq<string>)
    requires Resolve(v, ts).Some?
    ensures At(v, PathOf(v, ts)) == Resolve(v, ts)
    decreases |ts|
  {
    if |ts| > 0 {
      var p := PathOf(v, ts);
      if v.Object? {
        var c := Find(v.members, ts[0]).value;
        PathOfLeadsThere(c, ts[1..]);
        assert p[0] == Key(ts[0]) && p[1..] == PathOf(c, ts[1..]);
      } else {
        var i := ParseIndex(ts[0]).value;
        PathOfLeadsThere(v.elems[i], ts[1..]);
        assert p[0] == Index(i) && p[1..] == PathOf(v.elems[i], ts[1..]);
      }
    }
  }

  /** Conversely, every pointer that finds a node is the written form of a
      path leading there. */
  lemma PathPointerComplete(v: Value, text: string)
    requires ResolvePointer(v, text).Some?
    ensures exists path :: Format(PathTokens(path)) == text && At(v, path) == ResolvePointer(v, text)
  {
    var ts := Parse(text).value;
    FormatParse(text, ts);
    PathOfSpellsTokens(v, ts);
    PathOfLeadsThere(v, ts);
    var path := PathOf(v, ts);
    assert Format(PathTokens(path)) == text;
  }
}
