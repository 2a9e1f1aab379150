/** The parsed content of a locale file: a JavaScript value tree, with the JavaScript and
    lodash operations the extension applies to it (truthiness, `typeof`, `instanceof Object`,
    `Object.entries`, `in`, `delete`, template-string conversion, lodash `get`, `set`,
    `isEmpty`). Numbers are integers. */
module Values {
  import opened Wrappers
  import opened Strings

  datatype Value =
    | Undef
    | Null
    | Bool(b: bool)
    | Num(n: int)
    | Str(s: string)
    | Obj(fields: seq<Field>)   // own enumerable properties, in insertion order
    | Arr(items: seq<Value>)

  datatype Field = Field(name: string, value: Value)

  /** `!!v` */
  predicate Truthy(v: Value) {
    match v
    case Undef => false
    case Null => false
    case Bool(b) => b
    case Num(n) => n != 0
    case Str(s) => s != ""
    case Obj(_) => true
    case Arr(_) => true
  }

  /** `typeof v === 'object'` (true of `null` as well). */
  predicate TypeofObject(v: Value) {
    v.Null? || v.Obj? || v.Arr?
  }

  /** `v instanceof Object`, which is also lodash's `isObject` for these values. */
  predicate IsObjectLike(v: Value) {
    v.Obj? || v.Arr?
  }

  /** The value of the first own property named `name`. */
  function Lookup(fields: seq<Field>, name: string): (r: Option<Value>)
    ensures r.Some? <==> exists i :: 0 <= i < |fields| && fields[i].name == name
    ensures r.Some? ==> exists i :: 0 <= i < |fields| && fields[i].name == name && fields[i].value == r.value
  {
    if fields == [] then None
    else if fields[0].name == name then Some(fields[0].value)
    else
      var r := Lookup(fields[1..], name);
      assert forall i :: 1 <= i < |fields| ==> fields[i] == fields[1..][i - 1];
      r
  }

  /** Assigning a property: an existing one keeps its position, a new one goes last. */
  function SetField(fields: seq<Field>, name: string, x: Value): (r: seq<Field>)
    ensures Lookup(r, name) == Some(x)
    ensures forall m :: m != name ==> Lookup(r, m) == Lookup(fields, m)
  {
    if fields == [] then [Field(name, x)]
    else if fields[0].name == name then [Field(name, x)] + fields[1..]
    else
      var rest := SetField(fields[1..], name, x);
      assert ([fields[0]] + rest)[1..] == rest;
      [fields[0]] + rest
  }

  /** lodash `get(v, path)` with the path already split into segments; `Undef` when absent. */
  function Get(v: Value, path: seq<string>): Value
    decreases |path|
  {
    if path == [] then v
    else match v
      case Obj(fs) =>
        (match Lookup(fs, path[0])
         case Some(c) => Get(c, path[1..])
         case None => Undef)
      case Arr(items) =>
        (match ParseIndex(path[0])
         case Some(i) => if i < |items| then Get(items[i], path[1..]) else Undef
         case None => Undef)
      case _ => Undef
  }

  /** lodash `get(v, keypath)` for a dotted key path. */
  function GetPath(v: Value, keypath: string): Value {
    Get(v, Split(keypath, '.'))
  }

  /** The object `set` descends into under `k`: the existing one, or a fresh one in place of
      anything else. */
  function Child(fs: seq<Field>, k: string): (c: Value)
    ensures IsObjectLike(c)
  {
    match Lookup(fs, k)
    case Some(c) => if IsObjectLike(c) then c else Obj([])
    case None => Obj([])
  }

  /** lodash `set(v, path, x)`: a non-object root is returned unchanged; along the path an
      existing object is kept and anything else is replaced by a fresh object. */
  function Set(v: Value, path: seq<string>, x: Value): Value
    requires |path| >= 1
    decreases |path|
  {
    var k := path[0];
    match v
    case Obj(fs) =>
      if |path| == 1 then Obj(SetField(fs, k, x))
      else
        Obj(SetField(fs, k, Set(Child(fs, k), path[1..], x)))
    case Arr(items) =>
      (match ParseIndex(k)
       case Some(i) =>
         if i < |items| then
           Arr(items[i := if |path| == 1 then x
                          else Set(if IsObjectLike(items[i]) then items[i] else Obj([]), path[1..], x)])
         else v
       case None => v)
    case _ => v
  }

  /** lodash `set(v, keypath, x)` for a dotted key path. */
  function SetPath(v: Value, keypath: string, x: Value): Value {
    Set(v, Split(keypath, '.'), x)
  }

  /** No array anywhere in the tree. */
  predicate ArrayFree(v: Value) {
    match v
    case Arr(_) => false
    case Obj(fs) => forall i :: 0 <= i < |fs| ==> ArrayFree(fs[i].value)
    case _ => true
  }

  lemma ChildArrayFree(fs: seq<Field>, k: string)
    requires ArrayFree(Obj(fs))
    ensures Child(fs, k).Obj? && ArrayFree(Child(fs, k))
  {
  }

  /** Reading back a path just written into an array-free object gives the written value. */
  lemma {:induction false} GetSet(v: Value, path: seq<string>, x: Value)
    requires v.Obj? && ArrayFree(v) && |path| >= 1
    ensures Get(Set(v, path, x), path) == x
    decreases |path|
  {
    var k := path[0];
    var fs := v.fields;
    if |path| == 1 {
      assert Set(v, path, x) == Obj(SetField(fs, k, x));
      assert Lookup(SetField(fs, k, x), k) == Some(x);
    } else {
      var child := Child(fs, k);
      ChildArrayFree(fs, k);
      var y := Set(child, path[1..], x);
      assert Set(v, path, x) == Obj(SetField(fs, k, y));
      assert Lookup(SetField(fs, k, y), k) == Some(y);
      GetSet(child, path[1..], x);
    }
  }

  /** Writing one top-level property leaves every path under another top-level property unchanged. */
  lemma SetOtherBranch(v: Value, path: seq<string>, x: Value, other: seq<string>)
    requires v.Obj? && |path| >= 1 && |other| >= 1 && other[0] != path[0]
    ensures Get(Set(v, path, x), other) == Get(v, other)
  {
  }

  /** `key in v` (own properties, the index range and `length` of an array, and the names every
      object inherits from `Object.prototype`); `None` where `in` throws a TypeError. */
  function HasIn(v: Value, key: string): (r: Option<bool>)
    ensures r.Some? <==> IsObjectLike(v)
    ensures v.Obj? && Lookup(v.fields, key).Some? ==> r == Some(true)
  {
    match v
    case Obj(fs) => Some(Lookup(fs, key).Some? || key in ObjectPrototypeNames)
    case Arr(items) =>
      Some((ParseIndex(key).Some? && ParseIndex(key).value < |items|) || key == "length" || key in ObjectPrototypeNames)
    case _ => None
  }

  const ObjectPrototypeNames: set<string> := {
    "constructor", "hasOwnProperty", "isPrototypeOf", "propertyIsEnumerable",
    "toLocaleString", "toString", "valueOf", "__proto__", "__defineGetter__",
    "__defineSetter__", "__lookupGetter__", "__lookupSetter__"
  }

  /** `delete v[key]` on an object: every own property of that name is gone, the others keep
      their order. */
  function DeleteField(fields: seq<Field>, key: string): (r: seq<Field>)
    ensures Lookup(r, key).None?
    ensures forall m :: m != key ==> Lookup(r, m) == Lookup(fields, m)
    ensures |r| <= |fields|
  {
    if fields == [] then []
    else if fields[0].name == key then DeleteField(fields[1..], key)
    else
      var rest := DeleteField(fields[1..], key);
      assert ([fields[0]] + rest)[1..] == rest;
      [fields[0]] + rest
  }

  /** lodash `isEmpty`: an object or array without entries, the empty string, and every
      number, boolean, `null` and `undefined`. */
  predicate IsEmpty(v: Value) {
    match v
    case Obj(fs) => fs == []
    case Arr(items) => items == []
    case Str(s) => s == ""
    case _ => true
  }

  /** `Object.entries(v)`: `None` for `null` and `undefined`, where it throws. */
  function Entries(v: Value): (r: Option<seq<Field>>)
    ensures r.None? <==> v.Undef? || v.Null?
    ensures v.Obj? ==> r == Some(v.fields)
    ensures v.Arr? ==> r.Some? && |r.value| == |v.items|
                       && forall i :: 0 <= i < |v.items| ==> r.value[i] == Field(NatToString(i), v.items[i])
    ensures v.Str? ==> r.Some? && |r.value| == |v.s|
                       && forall i :: 0 <= i < |v.s| ==> r.value[i] == Field(NatToString(i), Str([v.s[i]]))
    ensures v.Num? || v.Bool? ==> r == Some([])
  {
    match v
    case Undef => None
    case Null => None
    case Obj(fs) => Some(fs)
    case Arr(items) => Some(seq(|items|, i requires 0 <= i < |items| => Field(NatToString(i), items[i])))
    case Str(s) => Some(seq(|s|, i requires 0 <= i < |s| => Field(NatToString(i), Str([s[i]]))))
    case _ => Some([])
  }

  /** The elements of an object-like value's entries are smaller than it. */
  lemma EntriesSmaller(v: Value, i: nat)
    requires IsObjectLike(v) && i < |Entries(v).value|
    ensures Entries(v).value[i].value < v
  {
    if v.Obj? {
      assert v.fields[i] in v.fields;
    }
  }

  /** `${v}` in a template literal. */
  function ToTemplate(v: Value): string
    decreases v, if v.Arr? then |v.items| + 1 else 0
  {
    match v
    case Undef => "undefined"
    case Null => "null"
    case Bool(b) => if b then "true" else "false"
    case Num(n) => IntToString(n)
    case Str(s) => s
    case Obj(_) => "[object Object]"
    case Arr(items) => ItemsTemplate(v, 0)
  }

  /** `Array.prototype.join(',')` from index `i` on, as `String(array)` applies it: `null` and
      `undefined` elements become empty. */
  function ItemsTemplate(v: Value, i: nat): string
    requires v.Arr? && i <= |v.items|
    decreases v, |v.items| - i
  {
    if i == |v.items| then ""
    else
      var item := v.items[i];
      var t := if item.Undef? || item.Null? then "" else ToTemplate(item);
      if i + 1 == |v.items| then t else t + "," + ItemsTemplate(v, i + 1)
  }
}
