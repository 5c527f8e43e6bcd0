/**
 * The decoded JSON values the quiz client works on, and the few Python
 * built-ins it applies to them: truthiness, `len`, `dict.get`, `key in d`,
 * iteration with `for`, and `type(v)`.
 *
 * An object keeps its bindings in the order they appear in the reply text.
 * Python's `dict` built by `json.loads` keeps one entry per key: the key sits
 * at its first position and carries its last value. `Lookup` and `Keys` below
 * give exactly that view, so a decoded object with repeated keys behaves
 * as the dictionary the client receives.
 */
module JsonValue {

  datatype Option<T> = None | Some(value: T)

  datatype Result<T, E> = Ok(value: T) | Err(error: E)

  /** A value produced by `json.loads`: None, bool, int, float, str, list or dict. */
  datatype Value =
    | Null
    | Bool(b: bool)
    | Int(i: int)
    | Float(f: real)
    | Str(s: string)
    | Arr(items: seq<Value>)
    | Obj(fields: seq<(string, Value)>)

  /** The exceptions the client can raise, explicitly or from the Python runtime. */
  datatype Error =
    | ValueError(message: string)   // raised by the client itself, with its message
    | TypeError(typeName: string)   // `len(x)` or `for _ in x` on a value of this type
    | AttributeError(typeName: string)  // `.upper()` or `.get()` on a value of this type
    | ZeroDivisionError             // a score over an empty question list

  /** `key in d` for a decoded object. */
  predicate HasKey(fields: seq<(string, Value)>, key: string) {
    exists i :: 0 <= i < |fields| && fields[i].0 == key
  }

  /** `d.get(key)`: the value of the last binding of `key`, if there is one. */
  function Lookup(fields: seq<(string, Value)>, key: string): (r: Option<Value>)
    ensures r.Some? <==> HasKey(fields, key)
    ensures r.Some? ==> exists i :: 0 <= i < |fields| && fields[i] == (key, r.value)
    decreases |fields|
  {
    if fields == [] then None
    else if fields[|fields| - 1].0 == key then Some(fields[|fields| - 1].1)
    else Lookup(fields[..|fields| - 1], key)
  }

  /** A key bound at position i and never again afterwards maps to the value bound there. */
  lemma {:induction false} LookupLastBinding(fields: seq<(string, Value)>, i: nat)
    requires i < |fields|
    requires forall j :: i < j < |fields| ==> fields[j].0 != fields[i].0
    ensures Lookup(fields, fields[i].0) == Some(fields[i].1)
    decreases |fields|
  {
    if i < |fields| - 1 {
      var front := fields[..|fields| - 1];
      assert front[i] == fields[i];
      LookupLastBinding(front, i);
    }
  }

  /** `d.get(key, default)`. */
  function GetOr(fields: seq<(string, Value)>, key: string, default: Value): (r: Value)
    ensures !HasKey(fields, key) ==> r == default
    ensures HasKey(fields, key) ==> Lookup(fields, key) == Some(r)
  {
    match Lookup(fields, key)
    case Some(v) => v
    case None => default
  }

  /** The keys of a decoded object, once each, in order of first appearance, leaving out `seen`. */
  function KeysFrom(fields: seq<(string, Value)>, seen: set<string>): (r: seq<string>)
    ensures forall i :: 0 <= i < |r| ==> r[i] !in seen
    ensures forall i, j :: 0 <= i < j < |r| ==> r[i] != r[j]
    ensures forall k :: k in r <==> k !in seen && HasKey(fields, k)
    decreases |fields|
  {
    if fields == [] then []
    else if fields[0].0 in seen then
      var rest := KeysFrom(fields[1..], seen);
      assert forall k :: HasKey(fields, k) <==> k == fields[0].0 || HasKey(fields[1..], k) by {
        forall k | HasKey(fields, k) && k != fields[0].0 ensures HasKey(fields[1..], k) {
          var i :| 0 <= i < |fields| && fields[i].0 == k;
          assert fields[1..][i - 1] == fields[i];
        }
      }
      rest
    else
      var rest := KeysFrom(fields[1..], seen + {fields[0].0});
      assert forall k :: HasKey(fields, k) <==> k == fields[0].0 || HasKey(fields[1..], k) by {
        forall k | HasKey(fields, k) && k != fields[0].0 ensures HasKey(fields[1..], k) {
          var i :| 0 <= i < |fields| && fields[i].0 == k;
          assert fields[1..][i - 1] == fields[i];
        }
      }
      [fields[0].0] + rest
  }

  /** `list(d)`: the keys of a dictionary, in insertion order. */
  function Keys(fields: seq<(string, Value)>): (r: seq<string>)
    ensures forall i, j :: 0 <= i < j < |r| ==> r[i] != r[j]
    ensures forall k :: k in r <==> HasKey(fields, k)
  {
    KeysFrom(fields, {})
  }

  /** Python's `bool(v)`: a container is true exactly when its length is not zero. */
  predicate Truthy(v: Value)
    ensures Len(v).Some? ==> (Truthy(v) <==> Len(v).value != 0)
    ensures v.Null? ==> !Truthy(v)
    ensures v.Int? ==> (Truthy(v) <==> v.i != 0)
  {
    match v
    case Null => false
    case Bool(b) => b
    case Int(i) => i != 0
    case Float(f) => f != 0.0
    case Str(s) => s != []
    case Arr(items) => items != []
    case Obj(fields) => fields != []
  }

  /** Python's `len(v)`; None where `len` raises TypeError. */
  function Len(v: Value): (r: Option<nat>)
    ensures r.None? <==> v.Null? || v.Bool? || v.Int? || v.Float?
    ensures v.Str? ==> r == Some(|v.s|)
    ensures v.Arr? ==> r == Some(|v.items|)
    ensures v.Obj? ==> r == Some(|Keys(v.fields)|) && (r.value == 0 <==> v.fields == [])
  {
    match v
    case Str(s) => Some(|s|)
    case Arr(items) => Some(|items|)
    case Obj(fields) =>
      assert fields != [] ==> fields[0].0 in Keys(fields) by {
        if fields != [] { assert HasKey(fields, fields[0].0); }
      }
      Some(|Keys(fields)|)
    case _ => None
  }

  /** What `for x in v` visits; None where iteration raises TypeError. */
  function Iterate(v: Value): (r: Option<seq<Value>>)
    ensures r.None? <==> v.Null? || v.Bool? || v.Int? || v.Float?
    ensures v.Arr? ==> r == Some(v.items)
    ensures r.Some? && !v.Arr? ==> forall i :: 0 <= i < |r.value| ==> r.value[i].Str?
  {
    match v
    case Arr(items) => Some(items)
    case Obj(fields) =>
      var ks := Keys(fields);
      Some(seq(|ks|, i requires 0 <= i < |ks| => Str(ks[i])))
    case Str(s) => Some(seq(|s|, i requires 0 <= i < |s| => Str([s[i]])))
    case _ => None
  }

  /** The name of `type(v)`. */
  function TypeName(v: Value): string {
    match v
    case Null => "NoneType"
    case Bool(_) => "bool"
    case Int(_) => "int"
    case Float(_) => "float"
    case Str(_) => "str"
    case Arr(_) => "list"
    case Obj(_) => "dict"
  }
}
