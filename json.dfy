// JSON values as the API returns them and Python dictionaries as the ETL job
// manipulates them. A dictionary is an association list: Python dicts keep
// insertion order, and that order is visible in the SQL text the job builds.

module Json {
  import opened Results
  import opened Text

  datatype Value =
    | Null
    | Bool(b: bool)
    | Int(i: int)
    | Str(s: string)
    | Arr(items: seq<Value>)
    | Obj(fields: seq<(string, Value)>)

  /** A Python dict, in insertion order. */
  type Record = seq<(string, Value)>

  /** Python truthiness: `None`, `False`, `0`, `''`, `[]` and `{}` are falsy. */
  predicate Truthy(v: Value)
  {
    match v
    case Null => false
    case Bool(b) => b
    case Int(i) => i != 0
    case Str(s) => s != ""
    case Arr(items) => items != []
    case Obj(fields) => fields != []
  }

  /** `isinstance(v, int)`: `bool` is a subclass of `int` in Python. */
  predicate IsPyInt(v: Value)
  {
    v.Int? || v.Bool?
  }

  function Keys(r: Record): (ks: seq<string>)
    ensures |ks| == |r|
    ensures forall k :: 0 <= k < |r| ==> ks[k] == r[k].0
  {
    if r == [] then [] else [r[0].0] + Keys(r[1..])
  }

  function Values(r: Record): (vs: seq<Value>)
    ensures |vs| == |r|
    ensures forall k :: 0 <= k < |r| ==> vs[k] == r[k].1
  {
    if r == [] then [] else [r[0].1] + Values(r[1..])
  }

  predicate HasKey(r: Record, key: string)
  {
    exists k :: 0 <= k < |r| && r[k].0 == key
  }

  /** Every key occurs once, as in every dict Python builds. */
  predicate DistinctKeys(r: Record)
  {
    forall a, b :: 0 <= a < b < |r| ==> r[a].0 != r[b].0
  }

  /** `d.get(key)`: the value stored under `key`, `None` when it is absent. */
  function Get(r: Record, key: string): (v: Value)
    ensures !HasKey(r, key) ==> v == Null
    ensures HasKey(r, key) ==> exists k :: 0 <= k < |r| && r[k] == (key, v)
  {
    if r == [] then Null
    else if r[0].0 == key then r[0].1
    else
      var v := Get(r[1..], key);
      assert HasKey(r[1..], key) ==> exists k :: 0 <= k < |r[1..]| && r[1..][k] == (key, v);
      assert forall k :: 0 <= k < |r[1..]| ==> r[1..][k] == r[k + 1];
      v
  }

  /** `d[key] = v`: overwrites in place when the key is present, appends otherwise. */
  function Set(r: Record, key: string, v: Value): (r': Record)
    ensures Keys(r') == if HasKey(r, key) then Keys(r) else Keys(r) + [key]
  {
    if r == [] then [(key, v)]
    else if r[0].0 == key then [(key, v)] + r[1..]
    else
      var t := Set(r[1..], key, v);
      assert HasKey(r, key) <==> HasKey(r[1..], key) by {
        assert forall k :: 0 <= k < |r[1..]| ==> r[1..][k] == r[k + 1];
        assert HasKey(r, key) ==> exists k :: 1 <= k < |r| && r[k].0 == key;
      }
      [r[0]] + t
  }

  /** `{k: v for k, v in d.items() if k not in drop}` */
  function Without(r: Record, drop: set<string>): (r': Record)
    ensures |r'| <= |r|
    ensures forall k :: 0 <= k < |r'| ==> r'[k].0 !in drop && r'[k] in r
  {
    if r == [] then []
    else if r[0].0 in drop then Without(r[1..], drop)
    else [r[0]] + Without(r[1..], drop)
  }

  /** `str(v)` */
  function PyStr(v: Value): string
  {
    match v
    case Str(s) => s
    case _ => Repr(v)
  }

  /** `repr(v)`; quotes inside strings are not escaped. */
  function Repr(v: Value): string
    decreases v, 1
  {
    match v
    case Null => "None"
    case Bool(b) => if b then "True" else "False"
    case Int(i) => IntToString(i)
    case Str(s) => "'" + s + "'"
    case Arr(items) => "[" + Join(ReprItems(v, items), ", ") + "]"
    case Obj(fields) => "{" + Join(ReprFields(v, fields), ", ") + "}"
  }

  function ReprItems(ghost parent: Value, items: seq<Value>): seq<string>
    requires forall k :: 0 <= k < |items| ==> items[k] < parent
    decreases parent, 0, |items|
  {
    if items == [] then [] else [Repr(items[0])] + ReprItems(parent, items[1..])
  }

  function ReprFields(ghost parent: Value, fields: seq<(string, Value)>): seq<string>
    requires forall k :: 0 <= k < |fields| ==> fields[k].1 < parent
    decreases parent, 0, |fields|
  {
    if fields == [] then []
    else ["'" + fields[0].0 + "': " + Repr(fields[0].1)] + ReprFields(parent, fields[1..])
  }

  /** The value under `key` after `d[key] = v` is `v`. */
  lemma {:induction false} GetSet(r: Record, key: string, v: Value)
    ensures Get(Set(r, key, v), key) == v
  {
    if r != [] && r[0].0 != key {
      GetSet(r[1..], key, v);
    }
  }

  /** `d[key] = v` leaves every other key's value alone. */
  lemma {:induction false} GetSetOther(r: Record, key: string, v: Value, other: string)
    requires other != key
    ensures Get(Set(r, key, v), other) == Get(r, other)
  {
    if r != [] && r[0].0 != key {
      GetSetOther(r[1..], key, v, other);
    }
  }

  /** `d[key] = v` adds `key` and keeps every key that was there. */
  lemma {:induction false} HasKeySet(r: Record, key: string, v: Value, other: string)
    ensures HasKey(Set(r, key, v), other) <==> HasKey(r, other) || other == key
  {
    var ks := Keys(Set(r, key, v));
    assert HasKey(Set(r, key, v), other) <==> other in ks;
    assert HasKey(r, other) <==> other in Keys(r);
    assert HasKey(r, key) <==> key in Keys(r);
  }

  /** `d[key] = v`, key by key: what every key holds afterwards and which keys are present. */
  lemma SetEffect(r: Record, key: string, v: Value)
    ensures forall k :: Get(Set(r, key, v), k) == if k == key then v else Get(r, k)
    ensures forall k :: HasKey(Set(r, key, v), k) <==> HasKey(r, k) || k == key
  {
    forall k
      ensures Get(Set(r, key, v), k) == if k == key then v else Get(r, k)
      ensures HasKey(Set(r, key, v), k) <==> HasKey(r, k) || k == key
    {
      HasKeySet(r, key, v, k);
      if k == key { GetSet(r, key, v); } else { GetSetOther(r, key, v, k); }
    }
  }

  /** `d[key] = v` when there is a value to assign. */
  function SetIf(r: Record, key: string, v: Option<Value>): Record
  {
    if v.Some? then Set(r, key, v.value) else r
  }

  lemma SetIfEffect(r: Record, key: string, v: Option<Value>)
    ensures forall k :: Get(SetIf(r, key, v), k) == if v.Some? && k == key then v.value else Get(r, k)
    ensures forall k :: HasKey(SetIf(r, key, v), k) <==> HasKey(r, k) || (v.Some? && k == key)
  {
    if v.Some? { SetEffect(r, key, v.value); }
  }

  /** Dropping keys leaves the other keys' values alone. */
  lemma {:induction false} GetWithout(r: Record, drop: set<string>, key: string)
    ensures key in drop ==> !HasKey(Without(r, drop), key)
    ensures key !in drop ==> Get(Without(r, drop), key) == Get(r, key)
    ensures key !in drop ==> (HasKey(Without(r, drop), key) <==> HasKey(r, key))
  {
    if r != [] {
      GetWithout(r[1..], drop, key);
    }
  }

  /** A pair of a record with distinct keys is what `Get` returns for its key. */
  lemma GetDistinct(r: Record, k: nat)
    requires DistinctKeys(r) && k < |r|
    ensures Get(r, r[k].0) == r[k].1
  {
    if k > 0 {
      assert r[1..][k - 1] == r[k];
      assert DistinctKeys(r[1..]);
      GetDistinct(r[1..], k - 1);
    }
  }

  /** Dropping keys the record does not have leaves it as it is. */
  lemma {:induction false} WithoutNone(r: Record, drop: set<string>)
    requires forall k :: k in drop ==> !HasKey(r, k)
    ensures Without(r, drop) == r
  {
    if r != [] {
      assert r[0].0 !in drop;
      forall k | k in drop ensures !HasKey(r[1..], k) {
        assert Keys(r[1..]) == Keys(r)[1..];
      }
      WithoutNone(r[1..], drop);
    }
  }

  const NoGetAttribute := "AttributeError: object has no attribute 'get'"

  /**
   * `r.get(key, {})` used as a dict: a missing key reads as `{}`, a value that
   * is not a dict raises on the next `.get`.
   */
  function GetDict(r: Record, key: string): (d: Result<Record>)
    ensures d.Err? <==> HasKey(r, key) && !Get(r, key).Obj?
    ensures d.Ok? ==> d.value == (if HasKey(r, key) then Get(r, key).fields else [])
  {
    if !HasKey(r, key) then Ok([])
    else match Get(r, key)
      case Obj(fields) => Ok(fields)
      case _ => Err(NoGetAttribute)
  }
}
