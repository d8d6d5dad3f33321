/** The part of JavaScript's value semantics that the table mappers rely on:
    loosely typed values, truthiness, the `||` operator, reading a
    property, `Object.entries`, conversion to a string, `Array.prototype.join`
    and `Array.prototype.map` over a callback that may throw. */
module JsValues {

  /** A JavaScript value. Numbers are integers; an object is its own
      enumerable properties in enumeration order. */
  datatype JsValue =
    | Undefined
    | Null
    | Bool(b: bool)
    | Num(n: int)
    | Str(s: string)
    | Arr(elems: seq<JsValue>)
    | Obj(props: seq<Property>)

  datatype Property = Property(key: string, val: JsValue)

  /** The outcome of evaluating an expression: its value, or a thrown TypeError. */
  datatype Completion<T> = Normal(value: T) | TypeError

  datatype Option<T> = None | Some(value: T)

  /** `null` and `undefined`: the values whose properties cannot be read. */
  predicate Nullish(v: JsValue) {
    v.Undefined? || v.Null?
  }

  /** ToBoolean, as used by `if`, `&&`, `||` and `Boolean(...)`. */
  predicate Truthy(v: JsValue) {
    match v
    case Undefined => false
    case Null => false
    case Bool(b) => b
    case Num(n) => n != 0
    case Str(s) => s != ""
    case Arr(_) => true
    case Obj(_) => true
  }

  /** `x || y`: x when x is truthy, y otherwise. */
  function Or(x: JsValue, y: JsValue): (r: JsValue)
    ensures Truthy(r) <==> Truthy(x) || Truthy(y)
    ensures Truthy(x) ==> r == x
    ensures !Truthy(x) ==> r == y
  {
    if Truthy(x) then x else y
  }

  // ---------------------------------------------------------------------------
  // Decimal numerals

  function Digit(d: nat): (c: char)
    requires d < 10
    ensures '0' <= c <= '9'
  {
    "0123456789"[d]
  }

  function DigitValue(c: char): nat {
    if '0' <= c <= '9' then (c - '0') as nat else 0
  }

  /** The decimal numeral of a non-negative integer, without leading zeros. */
  function NatToString(n: nat): (r: string)
    ensures |r| >= 1
    ensures forall i :: 0 <= i < |r| ==> '0' <= r[i] <= '9'
    ensures |r| > 1 ==> r[0] != '0'
  {
    if n < 10 then [Digit(n)] else NatToString(n / 10) + [Digit(n % 10)]
  }

  /** Reads a string of decimal digits back as a number. */
  function ParseNat(s: string): nat {
    if s == [] then 0 else ParseNat(s[..|s| - 1]) * 10 + DigitValue(s[|s| - 1])
  }

  lemma {:induction false} ParseNatToString(n: nat)
    ensures ParseNat(NatToString(n)) == n
  {
    var r := NatToString(n);
    if n < 10 {
      assert r[..|r| - 1] == [];
    } else {
      ParseNatToString(n / 10);
      assert r[..|r| - 1] == NatToString(n / 10);
      assert DigitValue(r[|r| - 1]) == n % 10;
    }
  }

  /** Distinct array indices have distinct property keys. */
  lemma NatToStringInjective(m: nat, n: nat)
    requires NatToString(m) == NatToString(n)
    ensures m == n
  {
    ParseNatToString(m);
    ParseNatToString(n);
  }

  /** Number-to-string conversion for the integers. */
  function IntToString(n: int): (r: string)
    ensures |r| >= 1
    ensures (r[0] == '-') <==> n < 0
  {
    if n < 0 then "-" + NatToString(-n) else NatToString(n)
  }

  // ---------------------------------------------------------------------------
  // Property access

  /** The value of the first property named `key`, undefined when there is none. */
  function Lookup(props: seq<Property>, key: string): (r: JsValue)
    ensures (forall i :: 0 <= i < |props| ==> props[i].key != key) ==> r == Undefined
    ensures forall i :: (0 <= i < |props| && props[i].key == key &&
                         (forall j :: 0 <= j < i ==> props[j].key != key)) ==> r == props[i].val
  {
    if props == [] then Undefined
    else if props[0].key == key then props[0].val
    else Lookup(props[1..], key)
  }

  /** The index among 0 .. n-1 whose numeral (from `from` on) is `key`. */
  function IndexOfKey(n: nat, key: string, from: nat): (r: Option<nat>)
    decreases n - from
    ensures r.Some? ==> from <= r.value < n && NatToString(r.value) == key
    ensures r.None? ==> forall i :: from <= i < n ==> NatToString(i) != key
  {
    if from >= n then None
    else if NatToString(from) == key then Some(from)
    else IndexOfKey(n, key, from + 1)
  }

  /** `v[key]` for a value whose properties can be read: an own property of an
      object, the length or an element of an array, the length or a
      one-character string of a string; undefined for anything else. */
  function Get(v: JsValue, key: string): (r: JsValue)
    requires !Nullish(v)
    ensures v.Arr? && key == "length" ==> r == Num(|v.elems|)
    ensures v.Str? && key == "length" ==> r == Num(|v.s|)
    ensures v.Bool? || v.Num? ==> r == Undefined
  {
    match v
    case Obj(props) => Lookup(props, key)
    case Arr(es) =>
      if key == "length" then Num(|es|)
      else (match IndexOfKey(|es|, key, 0)
            case Some(i) => es[i]
            case None => Undefined)
    case Str(s) =>
      if key == "length" then Num(|s|)
      else (match IndexOfKey(|s|, key, 0)
            case Some(i) => Str([s[i]])
            case None => Undefined)
    case _ => Undefined
  }

  /** Reading an array or a string at any key other than "length" gives
      undefined or one of its elements (for a string, a one-character string of
      one of its characters). */
  lemma GetElement(v: JsValue, key: string)
    requires (v.Arr? || v.Str?) && key != "length"
    ensures v.Arr? ==> Get(v, key) == Undefined || Get(v, key) in v.elems
    ensures v.Str? ==> Get(v, key) == Undefined || (Get(v, key).Str? && |Get(v, key).s| == 1 && Get(v, key).s[0] in v.s)
  {
  }

  /** Reading an array at an index gives that element. */
  lemma GetIndex(es: seq<JsValue>, i: nat)
    requires i < |es|
    ensures Get(Arr(es), NatToString(i)) == es[i]
  {
    var k := IndexOfKey(|es|, NatToString(i), 0);
    assert NatToString(i) != "length" by {
      assert "length"[0] == 'l';
    }
    if k.Some? {
      NatToStringInjective(k.value, i);
    }
  }

  /** The keys of an object's properties are pairwise distinct. */
  predicate DistinctKeys(props: seq<Property>) {
    forall i, j :: 0 <= i < j < |props| ==> props[i].key != props[j].key
  }

  /** Distinct indices have distinct numerals. */
  lemma NumeralsDistinct(n: nat)
    ensures forall i, j :: 0 <= i < j < n ==> NatToString(i) != NatToString(j)
  {
    forall i, j | 0 <= i < j < n
      ensures NatToString(i) != NatToString(j)
    {
      if NatToString(i) == NatToString(j) {
        NatToStringInjective(i, j);
      }
    }
  }

  /** In an object with distinct keys, each property is what reading its key gives. */
  lemma LookupDistinct(props: seq<Property>, k: nat)
    requires DistinctKeys(props) && k < |props|
    ensures Lookup(props, props[k].key) == props[k].val
  {
  }

  /** `Object.entries(v)` for a value that is not null or undefined: an
      object's own properties, and for an array or a string one entry per
      index, keyed by the index's numeral. */
  function Entries(v: JsValue): (r: seq<Property>)
    requires !Nullish(v)
    ensures v.Obj? ==> r == v.props
    ensures v.Arr? ==> |r| == |v.elems| && forall i :: 0 <= i < |r| ==> r[i] == Property(NatToString(i), v.elems[i])
    ensures v.Str? ==> |r| == |v.s| && forall i :: 0 <= i < |r| ==> r[i] == Property(NatToString(i), Str([v.s[i]]))
    ensures v.Bool? || v.Num? ==> r == []
  {
    match v
    case Obj(props) => props
    case Arr(es) => IndexedEntries(es)
    case Str(s) => IndexedEntries(Chars(s))
    case _ => []
  }

  /** A string's characters, each as a one-character string. */
  function Chars(s: string): (r: seq<JsValue>)
    ensures |r| == |s|
  {
    seq(|s|, i requires 0 <= i < |s| => Str([s[i]]))
  }

  /** One entry per element, keyed by its index's numeral. */
  function IndexedEntries(es: seq<JsValue>): (r: seq<Property>)
    ensures |r| == |es|
  {
    seq(|es|, i requires 0 <= i < |es| => Property(NatToString(i), es[i]))
  }

  /** The entries of an array or a string have pairwise distinct keys, so
      they are a well-formed object. */
  lemma EntriesDistinctKeys(v: JsValue)
    requires !Nullish(v) && !v.Obj?
    ensures DistinctKeys(Entries(v))
  {
    match v
    case Arr(es) => NumeralsDistinct(|es|);
    case Str(s) => NumeralsDistinct(|s|);
    case _ =>
  }

  /** Every entry is the value that reading its key gives. */
  lemma EntriesAgreeWithGet(v: JsValue, k: nat)
    requires !Nullish(v)
    requires v.Obj? ==> DistinctKeys(v.props)
    requires k < |Entries(v)|
    ensures Get(v, Entries(v)[k].key) == Entries(v)[k].val
  {
    match v
    case Obj(props) =>
    case Arr(es) =>
      GetIndex(es, k);
    case Str(s) =>
      var key := NatToString(k);
      assert key != "length" by {
        assert "length"[0] == 'l';
      }
      var i := IndexOfKey(|s|, key, 0);
      if i.Some? {
        NatToStringInjective(i.value, k);
      }
  }

  // ---------------------------------------------------------------------------
  // Strings

  /** `parts.join(sep)` for parts that are already strings. */
  function JoinStrings(parts: seq<string>, sep: string): string {
    if parts == [] then ""
    else if |parts| == 1 then parts[0]
    else parts[0] + sep + JoinStrings(parts[1..], sep)
  }

  /** Joining the concatenation of two lists puts one separator between their joins. */
  lemma {:induction false} JoinStringsAppend(xs: seq<string>, ys: seq<string>, sep: string)
    requires xs != [] && ys != []
    ensures JoinStrings(xs + ys, sep) == JoinStrings(xs, sep) + sep + JoinStrings(ys, sep)
  {
    if |xs| == 1 {
      assert (xs + ys)[1..] == ys;
    } else {
      assert (xs + ys)[1..] == xs[1..] + ys;
      JoinStringsAppend(xs[1..], ys, sep);
    }
  }

  /** ToString: what a template literal `${v}` and a property key make of v. */
  function ToString(v: JsValue): (r: string)
    decreases v, 2
    ensures v.Bool? ==> (r == "true" <==> v.b) && (r == "false" <==> !v.b)
    ensures v.Arr? && v.elems == [] ==> r == ""
    ensures v.Arr? && |v.elems| == 1 && !Nullish(v.elems[0]) ==> r == ToString(v.elems[0])
    ensures v.Arr? && |v.elems| == 1 && Nullish(v.elems[0]) ==> r == ""
  {
    match v
    case Undefined => "undefined"
    case Null => "null"
    case Bool(b) => if b then "true" else "false"
    case Num(n) => IntToString(n)
    case Str(s) => s
    case Arr(es) => Join(es, ",")
    case Obj(_) => "[object Object]"
  }

  /** `Array.prototype.join`: null and undefined elements become empty strings. */
  function Join(es: seq<JsValue>, sep: string): (r: string)
    decreases es, 1
    ensures es == [] ==> r == ""
    ensures |es| == 1 ==> r == (if Nullish(es[0]) then "" else ToString(es[0]))
  {
    JoinStrings(JoinParts(es), sep)
  }

  /** The string each element of an array contributes to `join`. */
  function JoinParts(es: seq<JsValue>): (r: seq<string>)
    decreases es, 0
    ensures |r| == |es|
  {
    seq(|es|, i requires 0 <= i < |es| => if Nullish(es[i]) then "" else ToString(es[i]))
  }

  /** Joining two non-empty arrays end to end puts one separator between
      their joins. */
  lemma {:induction false} JoinAppend(xs: seq<JsValue>, ys: seq<JsValue>, sep: string)
    requires xs != [] && ys != []
    ensures Join(xs + ys, sep) == Join(xs, sep) + sep + Join(ys, sep)
  {
    assert JoinParts(xs + ys) == JoinParts(xs) + JoinParts(ys);
    JoinStringsAppend(JoinParts(xs), JoinParts(ys), sep);
  }

  // ---------------------------------------------------------------------------
  // Array.prototype.map

  /** `xs.map(f)` where the callback may throw: the first throw ends the map. */
  function MapOrThrow<A, B>(xs: seq<A>, f: A -> Completion<B>): (r: Completion<seq<B>>)
    ensures r.Normal? <==> forall i :: 0 <= i < |xs| ==> f(xs[i]).Normal?
    ensures r.Normal? ==> |r.value| == |xs|
    ensures r.Normal? ==> forall i :: 0 <= i < |xs| ==> r.value[i] == f(xs[i]).value
  {
    if xs == [] then Normal([])
    else match f(xs[0])
      case TypeError => TypeError
      case Normal(y) =>
        match MapOrThrow(xs[1..], f)
        case TypeError => TypeError
        case Normal(ys) => Normal([y] + ys)
  }

  // ---------------------------------------------------------------------------
  // Regular-expression character classes and String.prototype.toUpperCase

  /** `\w`: an ASCII letter, digit or underscore. */
  predicate IsWordChar(c: char) {
    ('a' <= c <= 'z') || ('A' <= c <= 'Z') || ('0' <= c <= '9') || c == '_'
  }

  /** `\s`: white space and line terminators. `\S` is every other character. */
  predicate IsWhitespace(c: char) {
    c == ' ' || c == '\t' || c == '\n' || c == '\r' || c == '\U{000B}' || c == '\U{000C}'
    || c == '\U{00A0}' || c == '\U{1680}' || ('\U{2000}' <= c <= '\U{200A}')
    || c == '\U{2028}' || c == '\U{2029}' || c == '\U{202F}' || c == '\U{205F}'
    || c == '\U{3000}' || c == '\U{FEFF}'
  }

  /** toUpperCase of one character of `\w`. */
  function Upper(c: char): (r: char)
    ensures IsWordChar(c) && c != '_' ==> IsWordChar(r) && r != '_'
    ensures !('a' <= c <= 'z') ==> r == c
    ensures 'a' <= c <= 'z' ==> 'A' <= r <= 'Z'
  {
    if 'a' <= c <= 'z' then (c - 'a' + 'A') as char else c
  }
}
