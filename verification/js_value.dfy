/** The dynamic JavaScript values the hooks inspect, with the language's
    truthiness, property access, `String.prototype.includes` and the numeric
    coercion applied by the `|` operator. */
module JsValue {
  import opened Wrappers
  import opened Int32

  /** A JavaScript value. Numbers are integral; objects are their own
      enumerable string-keyed data properties. */
  datatype Value =
    | Undefined
    | Null
    | Bool(b: bool)
    | Num(n: int)
    | Str(s: string)
    | Arr(elems: seq<Value>)
    | Obj(fields: map<string, Value>)

  /** The property map of an object. */
  type Object = map<string, Value>

  /** ToBoolean (section 7.1.2 of ECMA-262). */
  predicate Truthy(v: Value) {
    match v
    case Undefined => false
    case Null => false
    case Bool(b) => b
    case Num(n) => n != 0
    case Str(s) => |s| > 0
    case Arr(_) => true
    case Obj(_) => true
  }

  /** `o.key` on an object: an absent key reads as undefined. */
  function Get(o: Object, key: string): (r: Value)
    ensures key !in o ==> r == Undefined
    ensures key in o ==> r == o[key]
  {
    if key in o then o[key] else Undefined
  }

  /** A value `JSON.parse` can produce: `undefined` occurs nowhere in it.
      (`JSON.stringify` drops an `undefined` field, so only such values
      survive a round trip through text.) */
  predicate IsJson(v: Value) {
    match v
    case Undefined => false
    case Arr(elems) => forall i :: 0 <= i < |elems| ==> IsJson(elems[i])
    case Obj(fields) => forall k :: k in fields ==> IsJson(fields[k])
    case _ => true
  }

  /** `v.key` on any value other than null or undefined. None of the keys the
      hooks read exists on a built-in prototype, so only an object's own
      fields can answer. */
  function GetProp(v: Value, key: string): (r: Value)
    ensures !v.Obj? ==> r == Undefined
    ensures v.Obj? ==> r == Get(v.fields, key)
  {
    match v
    case Obj(fields) => Get(fields, key)
    case _ => Undefined
  }

  /** A key written as a decimal index without leading zeros, such as "0"
      or "12": on an array, writing it replaces or adds an element. */
  predicate IsIndexKey(key: string) {
    && |key| > 0
    && (forall i :: 0 <= i < |key| ==> '0' <= key[i] <= '9')
    && (key[0] == '0' ==> |key| == 1)
  }

  /** `v.key = x` in sloppy-mode code, as seen through the value model: an
      object gains or updates the key; a write to a boolean, number or string
      is silently dropped, and an array keeps a named property that no
      element and no JSON serialisation can see. On null or undefined the
      write throws a TypeError, so callers rule those out; on an array,
      index and `length` keys change the elements and are ruled out too. */
  function SetProp(v: Value, key: string, x: Value): (r: Value)
    requires !(v.Null? || v.Undefined?)
    requires v.Arr? ==> key != "length" && !IsIndexKey(key)
    ensures v.Obj? ==> r.Obj? && r.fields.Keys == v.fields.Keys + {key}
    ensures v.Obj? ==> Get(r.fields, key) == x
    ensures v.Obj? ==> forall k :: k in v.fields && k != key ==> r.fields[k] == v.fields[k]
    ensures !v.Obj? ==> r == v
    ensures IsJson(v) && IsJson(x) ==> IsJson(r)
  {
    match v
    case Obj(fields) => Obj(fields[key := x])
    case _ => v
  }

  /** `s.includes(t)`: `t` occurs in `s` as a contiguous block. */
  predicate Contains(s: string, t: string)
    decreases |s|
  {
    if |t| <= |s| && s[..|t|] == t then true
    else if |s| == 0 then false
    else Contains(s[1..], t)
  }

  /** `t` occurs in `s` starting at index `i`. */
  predicate OccursAt(s: string, t: string, i: int) {
    0 <= i <= |s| - |t| && s[i..i + |t|] == t
  }

  /** A successful search has found an occurrence. */
  lemma {:induction false} ContainsOccurs(s: string, t: string)
    requires Contains(s, t)
    ensures exists i :: OccursAt(s, t, i)
    decreases |s|
  {
    if |t| <= |s| && s[..|t|] == t {
      assert OccursAt(s, t, 0);
    } else {
      ContainsOccurs(s[1..], t);
      var i :| OccursAt(s[1..], t, i);
      assert s[i + 1..i + 1 + |t|] == s[1..][i..i + |t|];
      assert OccursAt(s, t, i + 1);
    }
  }

  /** An occurrence anywhere is found by the search. */
  lemma {:induction false} OccursContains(s: string, t: string, i: int)
    requires OccursAt(s, t, i)
    ensures Contains(s, t)
    decreases i
  {
    if i == 0 {
      assert s[..|t|] == s[0..0 + |t|];
    } else if !(s[..|t|] == t) {
      assert s[1..][i - 1..i - 1 + |t|] == s[i..i + |t|];
      OccursContains(s[1..], t, i - 1);
    }
  }

  /** The recursive search agrees with the positional definition of a
      substring occurrence. */
  lemma ContainsIff(s: string, t: string)
    ensures Contains(s, t) <==> exists i :: OccursAt(s, t, i)
  {
    if Contains(s, t) {
      ContainsOccurs(s, t);
    } else if exists i :: OccursAt(s, t, i) {
      var i :| OccursAt(s, t, i);
      OccursContains(s, t, i);
    }
  }

  /** A string that contains a non-empty needle is itself non-empty, hence
      truthy. */
  lemma ContainsNonEmpty(s: string, t: string)
    requires Contains(s, t)
    requires |t| > 0
    ensures Truthy(Str(s))
  {
    ContainsIff(s, t);
  }

  /** Whatever contains a string also contains each of its prefixes. */
  lemma ContainsPrefix(s: string, t: string, u: string)
    requires Contains(s, t)
    requires u <= t
    ensures Contains(s, u)
  {
    ContainsIff(s, t);
    var i :| OccursAt(s, t, i);
    assert s[i..i + |u|] == t[..|u|] == u;
    assert OccursAt(s, u, i);
    ContainsIff(s, u);
  }

  /** `a.includes(v)` for an array or string receiver; None when the
      receiver has no `includes` method and the call throws a TypeError. */
  function Includes(receiver: Value, needle: string): (r: Option<bool>)
    ensures r.None? <==> !(receiver.Str? || receiver.Arr?)
    ensures receiver.Str? ==> r == Some(Contains(receiver.s, needle))
    ensures receiver.Arr? ==> (r == Some(true) <==> exists i :: 0 <= i < |receiver.elems| && receiver.elems[i] == Str(needle))
  {
    match receiver
    case Str(s) => Some(Contains(s, needle))
    case Arr(elems) => Some(Str(needle) in elems)
    case _ => None
  }

  /** ToInt32(ToNumber(v)) as applied by `v | 2`. Numbers wrap to 32 bits,
      booleans read as 0 or 1, null and undefined as 0. Strings, arrays and
      objects read as 0, the value of their usual NaN conversion. */
  function ToInt32Of(v: Value): (r: int)
    ensures IsInt32(r)
    ensures v.Num? ==> r == ToInt32(v.n)
    ensures !Truthy(v) ==> r == 0
    ensures v == Bool(true) ==> r == 1
    ensures v.Str? || v.Arr? || v.Obj? ==> r == 0
  {
    match v
    case Num(n) => ToInt32(n)
    case Bool(b) => if b then 1 else 0
    case _ => 0
  }
}
