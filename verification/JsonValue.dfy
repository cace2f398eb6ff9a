/** JSON values as serde_json holds them, their nodes and levels, and their equality. */
module JsonValue {
  import opened ByteStrings

  /** A number is a u64, a negative i64, or a double, the last one known by its printed form. */
  datatype Number = Unsigned(u: u64) | Negative(i: negative64) | Double(text: string)

  type u64 = x: int | 0 <= x < 0x1_0000_0000_0000_0000
  type negative64 = x: int | -0x8000_0000_0000_0000 <= x < 0 witness -1

  /** In an object the i-th key names the i-th item. */
  datatype Value =
    | Null
    | Bool(b: bool)
    | Num(n: Number)
    | Str(s: string)
    | Arr(items: seq<Value>)
    | Obj(keys: seq<string>, items: seq<Value>)

  predicate IsContainer(v: Value) { v.Arr? || v.Obj? }

  function Children(v: Value): seq<Value> {
    if v.Arr? then v.items else if v.Obj? then v.items else []
  }

  predicate IsNumeric(c: char) { '0' <= c <= '9' || c == '-' || c == '+' || c == '.' || c == 'e' || c == 'E' }

  /** A double prints in numeric characters, starts like a number, and shows a point or an exponent. */
  predicate IsDoubleText(s: string) {
    s != [] && (s[0] == '-' || '0' <= s[0] <= '9')
    && (forall i :: 0 <= i < |s| ==> IsNumeric(s[i]))
    && exists i :: 0 <= i < |s| && (s[i] == '.' || s[i] == 'e')
  }

  predicate NumberOk(n: Number) { n.Double? ==> IsDoubleText(n.text) }

  predicate HasUniqueKeys(keys: seq<string>) {
    forall i, j :: 0 <= i < j < |keys| ==> keys[i] != keys[j]
  }

  /** Keys name items one for one, no key occurs twice, and numbers print as numbers, at every level. */
  predicate WellFormed(v: Value)
    decreases v
  {
    && (v.Num? ==> NumberOk(v.n))
    && (v.Obj? ==> |v.keys| == |v.items| && HasUniqueKeys(v.keys))
    && (v.Arr? ==> forall i :: 0 <= i < |v.items| ==> WellFormed(v.items[i]))
    && (v.Obj? ==> forall i :: 0 <= i < |v.items| ==> WellFormed(v.items[i]))
  }

  /** How many values a tree holds. */
  function Nodes(v: Value): (n: nat)
    ensures n >= 1
    decreases v, 1
  {
    match v
    case Arr(items) => 1 + NodesOf(items)
    case Obj(_, items) => 1 + NodesOf(items)
    case _ => 1
  }

  function NodesOf(vs: seq<Value>): nat
    decreases vs, 0
  {
    if vs == [] then 0 else Nodes(vs[0]) + NodesOf(vs[1..])
  }

  /** How far below the root the deepest value lies. */
  function Height(v: Value): nat
    decreases v, 1
  {
    match v
    case Arr(items) => HeightOf(items)
    case Obj(_, items) => HeightOf(items)
    case _ => 0
  }

  /** One more than the greatest height in vs, or 0 if there is none. */
  function HeightOf(vs: seq<Value>): nat
    decreases vs, 0
  {
    if vs == [] then 0
    else
      var first, rest := 1 + Height(vs[0]), HeightOf(vs[1..]);
      if first >= rest then first else rest
  }

  lemma {:induction false} ItemIsSmaller(vs: seq<Value>, i: nat)
    requires i < |vs|
    ensures Nodes(vs[i]) <= NodesOf(vs) && Height(vs[i]) < HeightOf(vs)
    decreases |vs|
  {
    if i > 0 {
      assert vs[1..][i - 1] == vs[i];
      ItemIsSmaller(vs[1..], i - 1);
    }
  }

  /** The first position of a key, or the number of keys. */
  function IndexOf(keys: seq<string>, key: string): (i: nat)
    ensures i <= |keys| && (i < |keys| ==> keys[i] == key) && forall k :: 0 <= k < i ==> keys[k] != key
  {
    if keys == [] || keys[0] == key then 0 else 1 + IndexOf(keys[1..], key)
  }

  /** `Map::get`; a value that is no object has no fields. */
  function Get(v: Value, key: string): (r: Option<Value>)
    ensures r.Some? ==> v.Obj? && Nodes(r.value) < Nodes(v) && Height(r.value) < Height(v)
    ensures r.Some? ==> exists i :: 0 <= i < |v.items| && r.value == v.items[i]
  {
    if !v.Obj? then None
    else
      var i := IndexOf(v.keys, key);
      if i < |v.keys| && i < |v.items| then
        ItemIsSmaller(v.items, i);
        Some(v.items[i])
      else None
  }

  predicate HasKey(v: Value, key: string) { Get(v, key).Some? }

  /** Equality of JSON values: arrays in order, objects as maps from keys to values. */
  predicate Same(a: Value, b: Value)
    decreases a
  {
    match a
    case Arr(items) =>
      b.Arr? && |b.items| == |items| && forall i :: 0 <= i < |items| ==> Same(items[i], b.items[i])
    case Obj(keys, items) =>
      b.Obj? && |b.keys| == |keys| && |items| == |keys|
      && forall i :: 0 <= i < |items| ==> HasKey(b, keys[i]) && Same(items[i], Get(b, keys[i]).value)
    case _ => a == b
  }

  /** Negative zero and zero are different doubles that compare equal. */
  function PlainZero(n: Number): Number {
    if n == Double("-0.0") then Double("0.0") else n
  }

  /** The value with every negative zero in it replaced by zero. */
  function PlainZeros(v: Value): Value
    decreases v
  {
    match v
    case Num(n) => Num(PlainZero(n))
    case Arr(items) => Arr(seq(|items|, i requires 0 <= i < |items| => PlainZeros(items[i])))
    case Obj(keys, items) => Obj(keys, seq(|items|, i requires 0 <= i < |items| => PlainZeros(items[i])))
    case _ => v
  }

  /** `==` of JSON values: numbers by value, where `Same` tells the two zeros apart as their texts do. */
  predicate Equals(a: Value, b: Value) { Same(PlainZeros(a), PlainZeros(b)) }
}
