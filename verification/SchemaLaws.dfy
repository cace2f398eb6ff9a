/**
 What each keyword of a schema asks of a value, said of the JSON trees: an accepted value obeys every
 keyword of its schema, and a schema of one keyword accepts exactly the values that obey it.
 */
module SchemaLaws {
  import opened ByteStrings
  import opened JsonValue
  import opened SchemaPreflight
  import opened SchemaValidator

  // ---------------------------------------------------------------- members and equality

  /** `Get` finds the first member of that key. */
  lemma {:induction false} GetMeans(v: Value, key: string, item: Value)
    ensures Get(v, key) == Some(item) <==>
              v.Obj? && exists i :: 0 <= i < |v.keys| && i < |v.items| && v.keys[i] == key && v.items[i] == item
                                    && key !in v.keys[..i]
  {
    if v.Obj? {
      var first := IndexOf(v.keys, key);
      if Get(v, key) == Some(item) { assert key !in v.keys[..first]; }
      forall i | 0 <= i < |v.keys| && i < |v.items| && v.keys[i] == key && v.items[i] == item && key !in v.keys[..i]
        ensures first == i
      {
        assert forall k :: 0 <= k < i ==> v.keys[..i][k] == v.keys[k];
      }
    }
  }

  /** An object with an item for each key has a key exactly if it is one of them. */
  lemma {:induction false} HasKeyMeans(v: Value, key: string)
    requires v.Obj? && |v.keys| == |v.items|
    ensures HasKey(v, key) <==> key in v.keys
  {
  }

  predicate IsZero(n: Number) { n == Double("0.0") || n == Double("-0.0") }

  /** `==` of JSON values: numbers by representation but for the two zeros, objects by their members in any order. */
  ghost predicate IsEqual(a: Value, b: Value)
    decreases a, 1
  {
    match a
    case Num(n) => b.Num? && (b.n == n || (IsZero(n) && IsZero(b.n)))
    case Arr(items) => b.Arr? && |b.items| == |items| && forall i :: 0 <= i < |items| ==> IsEqual(items[i], b.items[i])
    case Obj(keys, items) =>
      && b.Obj? && |b.keys| == |keys| == |items| == |b.items|
      && forall i :: 0 <= i < |keys| ==> MemberIsEqual(a, b, i)
    case _ => a == b
  }

  /** Member i of a has an equal one of its key in b. */
  ghost predicate MemberIsEqual(a: Value, b: Value, i: nat)
    requires a.Obj? && b.Obj? && |a.items| == |a.keys| && |b.items| == |b.keys| && i < |a.keys|
    decreases a, 0
  {
    exists j :: 0 <= j < |b.keys| && b.keys[j] == a.keys[i] && IsEqual(a.items[i], b.items[j])
  }

  lemma {:induction false} ZerosOfGet(b: Value, key: string)
    requires b.Obj? && |b.keys| == |b.items|
    ensures HasKey(PlainZeros(b), key) <==> HasKey(b, key)
    ensures HasKey(b, key) ==> Get(PlainZeros(b), key).value == PlainZeros(Get(b, key).value)
  {
  }

  lemma {:induction false} NumbersAreEqual(m: Number, n: Number)
    ensures PlainZero(m) == PlainZero(n) <==> m == n || (IsZero(m) && IsZero(n))
  {
  }

  /** The validator's equality is that one, on values with unique keys. */
  lemma {:induction false} EqualsMeans(a: Value, b: Value)
    requires WellFormed(a) && WellFormed(b)
    ensures Equals(a, b) <==> IsEqual(a, b)
    decreases a
  {
    match a
    case Num(n) => if b.Num? { NumbersAreEqual(n, b.n); }
    case Arr(items) =>
      if b.Arr? && |b.items| == |items| {
        forall i | 0 <= i < |items| ensures Equals(items[i], b.items[i]) <==> IsEqual(items[i], b.items[i]) {
          EqualsMeans(items[i], b.items[i]);
        }
        ArraysEqual(a, b);
      }
    case Obj(keys, items) =>
      if b.Obj? && |b.keys| == |keys| {
        forall i | 0 <= i < |items|
          ensures HasKey(b, keys[i]) ==>
                    (Equals(items[i], Get(b, keys[i]).value) <==> IsEqual(items[i], Get(b, keys[i]).value))
        {
          if HasKey(b, keys[i]) {
            MemberIsWellFormed(b, keys[i]);
            EqualsMeans(items[i], Get(b, keys[i]).value);
          }
        }
        ObjectsEqual(a, b);
      }
    case _ =>
  }

  lemma {:induction false} MemberIsWellFormed(b: Value, key: string)
    requires WellFormed(b) && HasKey(b, key)
    ensures WellFormed(Get(b, key).value)
  {
  }

  lemma {:induction false} ArraysEqual(a: Value, b: Value)
    requires a.Arr? && b.Arr? && |a.items| == |b.items|
    ensures Equals(a, b) <==> forall i :: 0 <= i < |a.items| ==> Equals(a.items[i], b.items[i])
  {
    var x, y := PlainZeros(a).items, PlainZeros(b).items;
    assert forall i :: 0 <= i < |a.items| ==> x[i] == PlainZeros(a.items[i]) && y[i] == PlainZeros(b.items[i]);
  }

  lemma {:induction false} ObjectsEqual(a: Value, b: Value)
    requires WellFormed(a) && WellFormed(b) && a.Obj? && b.Obj? && |a.keys| == |b.keys|
    requires forall i :: 0 <= i < |a.items| && HasKey(b, a.keys[i]) ==>
               (Equals(a.items[i], Get(b, a.keys[i]).value) <==> IsEqual(a.items[i], Get(b, a.keys[i]).value))
    ensures Equals(a, b) <==> IsEqual(a, b)
  {
    assert |a.items| == |a.keys| && |b.items| == |b.keys|;
    hide IsEqual, Equals, MemberEquals, MemberIsEqual;
    forall i | 0 <= i < |a.items|
      ensures MemberEquals(a, b, i) <==> MemberIsEqual(a, b, i)
    {
      MembersAgree(a, b, i);
    }
    ByMembers(a, b);
  }

  /** Member i of a, against the member of b with its key, as the validator compares them. */
  predicate MemberEquals(a: Value, b: Value, i: nat)
    requires a.Obj? && b.Obj? && |a.items| == |a.keys| && i < |a.keys|
  {
    HasKey(b, a.keys[i]) && Equals(a.items[i], Get(b, a.keys[i]).value)
  }

  lemma {:induction false} MembersAgree(a: Value, b: Value, i: nat)
    requires WellFormed(a) && WellFormed(b) && a.Obj? && b.Obj?
    requires |a.items| == |a.keys| && |b.items| == |b.keys| && i < |a.keys|
    requires HasKey(b, a.keys[i]) ==>
               (Equals(a.items[i], Get(b, a.keys[i]).value) <==> IsEqual(a.items[i], Get(b, a.keys[i]).value))
    ensures MemberEquals(a, b, i) <==> MemberIsEqual(a, b, i)
  {
    hide IsEqual, Equals;
    var at := IndexOf(b.keys, a.keys[i]);
    assert forall j :: 0 <= j < |b.keys| && b.keys[j] == a.keys[i] ==> j == at;
  }

  lemma {:induction false} ByMembers(a: Value, b: Value)
    requires a.Obj? && b.Obj? && |a.keys| == |b.keys| && |a.items| == |a.keys| && |b.items| == |b.keys|
    ensures Equals(a, b) <==> forall i :: 0 <= i < |a.keys| ==> MemberEquals(a, b, i)
    ensures IsEqual(a, b) <==> MembersAreEqual(a, b)
  {
    if IsEqual(a, b) { EqualHasMembers(a, b); }
    if MembersAreEqual(a, b) { MembersMakeEqual(a, b); }
    var x, y := PlainZeros(a), PlainZeros(b);
    forall i | 0 <= i < |a.keys|
      ensures HasKey(y, x.keys[i]) && Same(x.items[i], Get(y, x.keys[i]).value) <==> MemberEquals(a, b, i)
    {
      ZerosOfGet(b, a.keys[i]);
      assert x.items[i] == PlainZeros(a.items[i]);
      hide Get, Same, PlainZeros;
    }
    hide MemberEquals, Get, IsEqual, MemberIsEqual;
    SameByMembers(x, y);
  }

  lemma {:induction false} SameByMembers(x: Value, y: Value)
    requires x.Obj? && y.Obj? && |x.keys| == |y.keys| && |x.items| == |x.keys|
    ensures Same(x, y) <==> forall i :: 0 <= i < |x.keys| ==>
              HasKey(y, x.keys[i]) && Same(x.items[i], Get(y, x.keys[i]).value)
  {
    hide Get;
  }

  ghost predicate MembersAreEqual(a: Value, b: Value)
    requires a.Obj? && b.Obj? && |a.items| == |a.keys| && |b.items| == |b.keys|
  {
    forall i :: 0 <= i < |a.keys| ==> MemberIsEqual(a, b, i)
  }

  lemma {:induction false} EqualHasMembers(a: Value, b: Value)
    requires a.Obj? && b.Obj? && |a.keys| == |b.keys| && |a.items| == |a.keys| && |b.items| == |b.keys|
    requires IsEqual(a, b)
    ensures MembersAreEqual(a, b)
  {
  }

  lemma {:induction false} MembersMakeEqual(a: Value, b: Value)
    requires a.Obj? && b.Obj? && |a.keys| == |b.keys| && |a.items| == |a.keys| && |b.items| == |b.keys|
    requires MembersAreEqual(a, b)
    ensures IsEqual(a, b)
  {
  }

  // ---------------------------------------------------------------- the keywords

  predicate IsTypeName(kind: string) {
    kind in {"null", "boolean", "object", "array", "string", "integer", "number"}
  }

  /** The value is of the named type; a name that is none asks nothing. */
  predicate IsOfType(kind: string, value: Value) {
    !IsTypeName(kind)
    || match value
       case Null => kind == "null"
       case Bool(_) => kind == "boolean"
       case Num(n) => kind == "number" || (kind == "integer" && !n.Double?)
       case Str(_) => kind == "string"
       case Arr(_) => kind == "array"
       case Obj(_, _) => kind == "object"
  }

  predicate ObeysType(schema: Value, value: Value) {
    var types := Get(schema, "type");
    && (types.Some? && types.value.Str? ==> IsOfType(types.value.s, value))
    && (types.Some? && types.value.Arr? ==>
          exists i :: 0 <= i < |types.value.items| && types.value.items[i].Str?
            && IsOfType(types.value.items[i].s, value))
  }

  /** Every string listed as required names a member of an object. */
  ghost predicate ObeysRequired(schema: Value, value: Value) {
    var names := Get(schema, "required");
    names.Some? && names.value.Arr? && value.Obj? ==>
      forall name :: Str(name) in names.value.items ==> name in value.keys
  }

  ghost predicate ObeysConst(schema: Value, value: Value) {
    var expected := Get(schema, "const");
    expected.Some? ==> IsEqual(expected.value, value)
  }

  ghost predicate ObeysEnum(schema: Value, value: Value) {
    var choices := Get(schema, "enum");
    choices.Some? && choices.value.Arr? ==>
      exists i :: 0 <= i < |choices.value.items| && IsEqual(choices.value.items[i], value)
  }

  /** A bound is a number, and a number it bounds is an integer as the bound is. */
  predicate AreIntegers(bound: Value, value: Value) {
    bound.Num? && (value.Num? ==> !bound.n.Double? && !value.n.Double?)
  }

  function ValueOf(n: Number): int
    requires !n.Double?
  {
    if n.Unsigned? then n.u else n.i
  }

  predicate ObeysMinimum(schema: Value, value: Value) {
    var bound := Get(schema, "minimum");
    bound.Some? ==>
      AreIntegers(bound.value, value) && (value.Num? ==> ValueOf(bound.value.n) <= ValueOf(value.n))
  }

  predicate ObeysMaximum(schema: Value, value: Value) {
    var bound := Get(schema, "maximum");
    bound.Some? ==>
      AreIntegers(bound.value, value) && (value.Num? ==> ValueOf(value.n) <= ValueOf(bound.value.n))
  }

  /** A length keyword counts only when it is an unsigned integer. */
  predicate IsLength(keyword: Option<Value>) { keyword.Some? && keyword.value.Num? && keyword.value.n.Unsigned? }

  predicate ObeysLengths(schema: Value, value: Value) {
    var shortest, longest := Get(schema, "minLength"), Get(schema, "maxLength");
    && (IsLength(shortest) && value.Str? ==> shortest.value.n.u <= |value.s|)
    && (IsLength(longest) && value.Str? ==> |value.s| <= longest.value.n.u)
  }

  /** The key is one of the schema's `properties`. */
  predicate IsPropertyOf(schema: Value, key: string) {
    var properties := Get(schema, "properties");
    properties.Some? && properties.value.Obj? && key in properties.value.keys
  }

  /** Under `additionalProperties: false` every key of an object is a key of `properties`. */
  predicate ObeysClosed(schema: Value, value: Value) {
    Get(schema, "additionalProperties") == Some(Bool(false)) && value.Obj? ==>
      forall key :: key in value.keys ==> IsPropertyOf(schema, key)
  }

  ghost predicate Obeys(schema: Value, value: Value) {
    && ObeysConst(schema, value) && ObeysEnum(schema, value) && ObeysType(schema, value)
    && ObeysRequired(schema, value) && ObeysClosed(schema, value)
    && ObeysMinimum(schema, value) && ObeysMaximum(schema, value) && ObeysLengths(schema, value)
  }

  lemma {:induction false} TypeMeans(schema: Value, value: Value)
    ensures TypeHolds(schema, value) <==> ObeysType(schema, value)
  {
    hide TypeMatches, IsOfType, Get;
    forall kind ensures TypeMatches(kind, value) <==> IsOfType(kind, value) { NamedType(kind, value); }
  }

  lemma {:induction false} NamedType(kind: string, value: Value)
    ensures TypeMatches(kind, value) <==> IsOfType(kind, value)
  {
    assert |"null"| == 4 && |"boolean"| == 7 && |"object"| == 6 && |"array"| == 5 && |"string"| == 6;
    assert |"integer"| == 7 && |"number"| == 6;
    assert "boolean"[0] == 'b' && "integer"[0] == 'i' && "object"[0] == 'o' && "string"[0] == 's' && "number"[0] == 'n';
  }

  lemma {:induction false} RequiredMeans(schema: Value, value: Value)
    requires value.Obj? && |value.keys| == |value.items|
    ensures RequiredHolds(schema, value) <==> ObeysRequired(schema, value)
  {
    var required := Get(schema, "required");
    forall name ensures HasKey(value, name) <==> name in value.keys { HasKeyMeans(value, name); }
    hide HasKey, Get;
    if required.Some? && required.value.Arr? {
      var names := required.value.items;
      if RequiredHolds(schema, value) {
        forall name | Str(name) in names
          ensures name in value.keys
        {
          var i :| 0 <= i < |names| && names[i] == Str(name);
          assert names[i].Str? && names[i].s == name;
        }
      } else {
        var i :| 0 <= i < |names| && names[i].Str? && !HasKey(value, names[i].s);
        assert Str(names[i].s) in names;
      }
    }
  }

  lemma {:induction false} ItemIsWellFormed(v: Value, i: nat)
    requires WellFormed(v) && (v.Arr? || v.Obj?) && i < |v.items|
    ensures WellFormed(v.items[i])
  {
  }

  lemma {:induction false} ConstAndEnumMean(schema: Value, value: Value)
    requires WellFormed(schema) && WellFormed(value)
    ensures ConstAndEnumHold(schema, value) <==> ObeysConst(schema, value) && ObeysEnum(schema, value)
  {
    var expected, choices := Get(schema, "const"), Get(schema, "enum");
    if expected.Some? {
      MemberIsWellFormed(schema, "const");
      EqualsMeans(expected.value, value);
    }
    if choices.Some? && choices.value.Arr? {
      MemberIsWellFormed(schema, "enum");
      forall i | 0 <= i < |choices.value.items|
        ensures Equals(choices.value.items[i], value) <==> IsEqual(choices.value.items[i], value)
      {
        ItemIsWellFormed(choices.value, i);
        EqualsMeans(choices.value.items[i], value);
      }
    }
    hide Equals, IsEqual, Get, WellFormed;
  }

  lemma {:induction false} BoundsMean(schema: Value, value: Value)
    ensures BoundsHold(schema, value) <==>
              ObeysMinimum(schema, value) && ObeysMaximum(schema, value) && ObeysLengths(schema, value)
  {
    hide Get, CompareNumbers;
  }

  lemma {:induction false} ClosedMeans(schema: Value, value: Value)
    requires WellFormed(schema) && value.Obj?
    ensures NoUnknownProperty(schema, value) <==> ObeysClosed(schema, value)
  {
    var properties := Get(schema, "properties");
    if properties.Some? && properties.value.Obj? {
      MemberIsWellFormed(schema, "properties");
      forall name ensures HasKey(properties.value, name) <==> name in properties.value.keys {
        HasKeyMeans(properties.value, name);
      }
    }
    if properties.Some? && !properties.value.Obj? {
      forall name ensures !HasKey(properties.value, name) { }
    }
    forall name ensures IsDeclared(schema, name) <==> IsPropertyOf(schema, name) { }
    hide Get, HasKey, IsDeclared, IsPropertyOf, WellFormed;
    var keys := value.keys;
    assert Names(value) == keys;
    if Get(schema, "additionalProperties") == Some(Bool(false)) {
      if NoUnknownProperty(schema, value) {
        forall key | key in keys
          ensures IsPropertyOf(schema, key)
        {
          var i :| 0 <= i < |keys| && keys[i] == key;
          assert IsDeclared(schema, Names(value)[i]);
        }
      } else {
        var i :| 0 <= i < |Names(value)| && !IsDeclared(schema, Names(value)[i]);
        assert keys[i] in keys && !IsPropertyOf(schema, keys[i]);
      }
    }
  }

  // ---------------------------------------------------------------- what the validator accepts

  lemma {:induction false} LeavesMean(schema: Value, value: Value)
    requires WellFormed(schema) && WellFormed(value)
    ensures Obeys(schema, value) <==>
              && ConstAndEnumHold(schema, value) && TypeHolds(schema, value) && BoundsHold(schema, value)
              && (value.Obj? ==> RequiredHolds(schema, value) && NoUnknownProperty(schema, value))
  {
    ConstAndEnumMean(schema, value);
    TypeMeans(schema, value);
    BoundsMean(schema, value);
    if value.Obj? {
      RequiredMeans(schema, value);
      ClosedMeans(schema, value);
    }
    hide ConstAndEnumHold, TypeHolds, BoundsHold, RequiredHolds, NoUnknownProperty, ObeysConst, ObeysEnum, ObeysType,
         ObeysMinimum, ObeysMaximum, ObeysLengths, Get, WellFormed;
  }

  /** An accepted value obeys every keyword of its schema, whatever else the schema asks. */
  lemma {:induction false} AcceptedObeys(schema: Value, value: Value)
    requires WellFormed(schema) && WellFormed(value) && schema.Obj? && Validates(schema, value)
    ensures Obeys(schema, value)
  {
    LeavesMean(schema, value);
    hide Obeys, ConstAndEnumHold, TypeHolds, BoundsHold, RequiredHolds, NoUnknownProperty, PassesPreflight, Get, Object;
    InnerStep(schema, value, 0);
    RunChecksLeaves(schema, value, 1);
  }

  lemma {:induction false} RunChecksLeaves(schema: Value, value: Value, n: nat)
    requires schema.Obj? && Object(schema, value, n).ok
    ensures ConstAndEnumHold(schema, value) && TypeHolds(schema, value) && BoundsHold(schema, value)
    ensures value.Obj? ==> RequiredHolds(schema, value) && NoUnknownProperty(schema, value)
  {
    hide ConstAndEnumHold, TypeHolds, BoundsHold, RequiredHolds, NoUnknownProperty, AnyOf, OneOf, AllOf, Items,
         Properties, Get;
    var counted := AllOf(schema, value, OneOf(schema, value, AnyOf(schema, value, n).nodes).nodes).nodes;
    if value.Obj? { PropertiesCheckLeaves(schema, value, counted); }
  }

  lemma {:induction false} PropertiesCheckLeaves(schema: Value, value: Value, n: nat)
    requires schema.Obj? && value.Obj? && Properties(schema, value, n).ok
    ensures RequiredHolds(schema, value) && NoUnknownProperty(schema, value)
  {
    hide RequiredHolds, NoUnknownProperty, Declared, Additional, Get;
  }

  /** A keyword that asks nothing of the schemas below it. */
  predicate IsLeafKeyword(key: string) {
    key in {"const", "enum", "type", "required", "minimum", "maximum", "minLength", "maxLength"}
  }

  lemma {:induction false} LeafKeywordsAreLeaves(key: string)
    requires IsLeafKeyword(key)
    ensures key !in {"anyOf", "oneOf", "allOf", "items", "properties", "additionalProperties"}
  {
    assert |"const"| == 5 && |"enum"| == 4 && |"type"| == 4 && |"required"| == 8 && |"minimum"| == 7;
    assert |"maximum"| == 7 && |"minLength"| == 9 && |"maxLength"| == 9 && |"properties"| == 10;
    assert |"additionalProperties"| == 20 && |"anyOf"| == 5 && |"oneOf"| == 5 && |"allOf"| == 5 && |"items"| == 5;
    assert "const"[0] == 'c' && "anyOf"[0] == 'a' && "oneOf"[0] == 'o' && "allOf"[0] == 'a' && "items"[0] == 'i';
  }

  /** A schema of one such keyword accepts exactly the values that obey it. */
  lemma {:induction false} KeywordAlone(key: string, argument: Value, value: Value)
    requires IsLeafKeyword(key)
    requires var schema := Obj([key], [argument]);
             WellFormed(schema) && WellFormed(value) && PassesPreflight(schema) && PassesPreflight(value)
    ensures var schema := Obj([key], [argument]); Validates(schema, value) <==> Obeys(schema, value)
  {
    var schema := Obj([key], [argument]);
    LeavesMean(schema, value);
    LeafKeywordsAreLeaves(key);
    GetOfOne(key, argument, "anyOf");
    GetOfOne(key, argument, "oneOf");
    GetOfOne(key, argument, "allOf");
    GetOfOne(key, argument, "items");
    GetOfOne(key, argument, "properties");
    GetOfOne(key, argument, "additionalProperties");
    hide Obeys, ConstAndEnumHold, TypeHolds, BoundsHold, RequiredHolds, NoUnknownProperty, PassesPreflight, Get,
         WellFormed, IsLeafKeyword;
    InnerStep(schema, value, 0);
    LeafRuns(schema, value);
  }

  lemma {:induction false} LeafRuns(schema: Value, value: Value)
    requires schema.Obj? && Get(schema, "anyOf").None? && Get(schema, "oneOf").None? && Get(schema, "allOf").None?
    requires Get(schema, "items").None? && Get(schema, "properties").None? && Get(schema, "additionalProperties").None?
    ensures Object(schema, value, 1).ok <==>
              && ConstAndEnumHold(schema, value) && TypeHolds(schema, value) && BoundsHold(schema, value)
              && (value.Obj? ==> RequiredHolds(schema, value) && NoUnknownProperty(schema, value))
  {
    hide ConstAndEnumHold, TypeHolds, BoundsHold, RequiredHolds, Get;
  }

  /** {"additionalProperties": false, "properties": {names: true}} */
  function ClosedSchema(names: seq<string>): Value {
    Obj(["additionalProperties", "properties"], [Bool(false), Obj(names, seq(|names|, i => Bool(true)))])
  }

  lemma {:induction false} TruesAccept(names: seq<string>, schemas: seq<Value>, value: Value, n: nat)
    requires |schemas| == |names| && (forall i :: 0 <= i < |schemas| ==> schemas[i] == Bool(true))
    requires n + |names| <= MAX_NODES
    ensures var run := Declared(names, schemas, value, n); run.ok && run.nodes <= n + |names|
    decreases |names|
  {
    hide Get;
    if names != [] {
      assert schemas[0] == Bool(true);
      TruesAccept(names[1..], schemas[1..], value, n);
      if n + 1 + |names[1..]| <= MAX_NODES { TruesAccept(names[1..], schemas[1..], value, n + 1); }
    }
  }

  lemma {:induction false} NodesOfTrues(n: nat)
    ensures NodesOf(seq(n, i => Bool(true))) == n
    decreases n
  {
    if n > 0 {
      assert seq(n, i => Bool(true))[1..] == seq(n - 1, i => Bool(true));
      NodesOfTrues(n - 1);
    }
  }

  lemma {:induction false} ClosedKeywords(names: seq<string>, key: string)
    ensures "additionalProperties" != "properties"
    ensures Get(ClosedSchema(names), key) ==
            if key == "additionalProperties" then Some(Bool(false))
            else if key == "properties" then Some(Obj(names, seq(|names|, i => Bool(true)))) else None
  {
    assert |"additionalProperties"| == 20 && |"properties"| == 10;
    GetOfTwo("additionalProperties", Bool(false), "properties", Obj(names, seq(|names|, i => Bool(true))), key);
  }

  lemma {:induction false} ShortKeyword(names: seq<string>, key: string)
    requires |key| < 10
    ensures Get(ClosedSchema(names), key).None?
  {
    assert |"additionalProperties"| == 20 && |"properties"| == 10;
    ClosedKeywords(names, key);
  }

  /** The schema has no keyword but the two about properties. */
  predicate AsksNothingElse(schema: Value) {
    && Get(schema, "anyOf").None? && Get(schema, "oneOf").None? && Get(schema, "allOf").None?
    && Get(schema, "const").None? && Get(schema, "enum").None? && Get(schema, "type").None?
    && Get(schema, "required").None? && Get(schema, "items").None?
    && Get(schema, "minimum").None? && Get(schema, "maximum").None?
    && Get(schema, "minLength").None? && Get(schema, "maxLength").None?
  }

  lemma {:induction false} ClosedAsksNothingElse(names: seq<string>)
    ensures AsksNothingElse(ClosedSchema(names))
    ensures Get(ClosedSchema(names), "additionalProperties") == Some(Bool(false))
    ensures Get(ClosedSchema(names), "properties") == Some(Obj(names, seq(|names|, i => Bool(true))))
  {
    hide Get, ClosedSchema;
    ClosedKeywords(names, "additionalProperties");
    ClosedKeywords(names, "properties");
    ShortKeyword(names, "anyOf");
    ShortKeyword(names, "oneOf");
    ShortKeyword(names, "allOf");
    ShortKeyword(names, "const");
    ShortKeyword(names, "enum");
    ShortKeyword(names, "type");
    ShortKeyword(names, "required");
    ShortKeyword(names, "items");
    ShortKeyword(names, "minimum");
    ShortKeyword(names, "maximum");
    ShortKeyword(names, "minLength");
    ShortKeyword(names, "maxLength");
  }

  /** A closed schema accepts exactly the values that are no objects and the objects with no other key. */
  lemma {:induction false} ClosedAlone(names: seq<string>, value: Value)
    requires WellFormed(value) && PassesPreflight(ClosedSchema(names)) && PassesPreflight(value)
    ensures Validates(ClosedSchema(names), value) <==>
              (value.Obj? ==> forall key :: key in value.keys ==> key in names)
  {
    var schema := ClosedSchema(names);
    ClosedAsksNothingElse(names);
    NodesOfTrues(|names|);
    assert Nodes(schema) >= 1 + |names| by { ClosedNodes(names); }
    TruesAccept(names, seq(|names|, i => Bool(true)), value, 1);
    assert value.Obj? ==> |value.keys| == |value.items|;
    hide Get, Declared, PassesPreflight, ClosedSchema, WellFormed, Nodes, Object, AsksNothingElse;
    InnerStep(schema, value, 0);
    ClosedRuns(schema, names, value);
  }

  lemma {:induction false} ClosedNodes(names: seq<string>)
    ensures Nodes(ClosedSchema(names)) >= 1 + |names|
  {
    NodesOfTrues(|names|);
    var properties := Obj(names, seq(|names|, i => Bool(true)));
    assert Nodes(properties) == 1 + |names|;
    var items := [Bool(false), properties];
    assert items[1..][0] == properties;
    ItemIsSmaller(items, 1);
  }

  lemma {:induction false} ClosedRuns(schema: Value, names: seq<string>, value: Value)
    requires schema.Obj? && (value.Obj? ==> |value.keys| == |value.items|)
    requires AsksNothingElse(schema) && Get(schema, "additionalProperties") == Some(Bool(false))
    requires Get(schema, "properties") == Some(Obj(names, seq(|names|, i => Bool(true))))
    requires Declared(names, seq(|names|, i => Bool(true)), value, 1).ok
    ensures Object(schema, value, 1).ok <==> (value.Obj? ==> forall key :: key in value.keys ==> key in names)
  {
    var properties := Obj(names, seq(|names|, i => Bool(true)));
    forall key ensures HasKey(properties, key) <==> key in names { HasKeyMeans(properties, key); }
    if value.Obj? { ClosedChecks(schema, names, value); }
    hide Get, Declared, HasKey, NoUnknownProperty;
    assert ConstAndEnumHold(schema, value) && TypeHolds(schema, value) && BoundsHold(schema, value);
    if value.Obj? { assert RequiredHolds(schema, value); }
  }

  lemma {:induction false} ClosedChecks(schema: Value, names: seq<string>, value: Value)
    requires schema.Obj? && value.Obj? && Get(schema, "additionalProperties") == Some(Bool(false))
    requires Get(schema, "properties").Some?
    requires forall key :: HasKey(Get(schema, "properties").value, key) <==> key in names
    ensures NoUnknownProperty(schema, value) <==> forall key :: key in value.keys ==> key in names
  {
    hide Get, HasKey;
    var keys := value.keys;
    if NoUnknownProperty(schema, value) {
      forall key | key in keys
        ensures key in names
      {
        var i :| 0 <= i < |keys| && keys[i] == key;
        assert IsDeclared(schema, Names(value)[i]);
      }
    } else {
      var i :| 0 <= i < |Names(value)| && !IsDeclared(schema, Names(value)[i]);
      assert keys[i] in keys && keys[i] !in names;
    }
  }
}
