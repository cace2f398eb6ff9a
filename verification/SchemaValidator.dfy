/**
 The budgeted validator of tool arguments against a JSON Schema. The specification functions
 thread the node counter through every check in the source's order; `Satisfies` is the meaning
 of the same keywords with no counter at all.
 */
module SchemaValidator {
  import opened ByteStrings
  import opened JsonValue
  import opened SchemaPreflight

  // ---------------------------------------------------------------- exact integers

  datatype Ordering = Less | Equal | Greater

  function Compare(a: int, b: int): Ordering {
    if a < b then Less else if a == b then Equal else Greater
  }

  function AsI64(n: Number): Option<int> {
    match n
    case Unsigned(u) => if u < 0x8000_0000_0000_0000 then Some(u) else None
    case Negative(i) => Some(i)
    case Double(_) => None
  }

  function AsU64(n: Number): Option<int> {
    match n
    case Unsigned(u) => Some(u)
    case _ => None
  }

  /** The integer a number denotes, if it is an integer representation. */
  function IntegerOf(n: Number): Option<int> {
    match n
    case Unsigned(u) => Some(u)
    case Negative(i) => Some(i)
    case Double(_) => None
  }

  /** `compare_json_integer_numbers`, by the four conversions the source tries. */
  function CompareNumbers(left: Number, right: Number): (r: Option<Ordering>)
    ensures r == if IntegerOf(left).Some? && IntegerOf(right).Some?
                 then Some(Compare(IntegerOf(left).value, IntegerOf(right).value)) else None
  {
    if AsI64(left).Some? && AsI64(right).Some? then Some(Compare(AsI64(left).value, AsI64(right).value))
    else if AsI64(left).Some? && AsU64(right).Some? then
      if AsI64(left).value < 0 then Some(Less) else Some(Compare(AsI64(left).value, AsU64(right).value))
    else if AsU64(left).Some? && AsI64(right).Some? then
      if AsI64(right).value < 0 then Some(Greater) else Some(Compare(AsU64(left).value, AsI64(right).value))
    else if AsU64(left).Some? && AsU64(right).Some? then Some(Compare(AsU64(left).value, AsU64(right).value))
    else None
  }

  // ---------------------------------------------------------------- keywords without subschemas

  predicate TypeMatches(kind: string, value: Value) {
    if kind == "null" then value.Null?
    else if kind == "boolean" then value.Bool?
    else if kind == "object" then value.Obj?
    else if kind == "array" then value.Arr?
    else if kind == "string" then value.Str?
    else if kind == "integer" then value.Num? && (AsI64(value.n).Some? || AsU64(value.n).Some?)
    else if kind == "number" then value.Num?
    else true
  }

  predicate BoundHolds(bound: Option<Value>, value: Value, rejection: Ordering) {
    bound.None?
    || (bound.value.Num?
        && (value.Num? ==>
              CompareNumbers(value.n, bound.value.n).Some?
                && CompareNumbers(value.n, bound.value.n).value != rejection))
  }

  /** A length keyword counts only when it is an unsigned integer. */
  function LengthOf(keyword: Option<Value>): Option<int> {
    if keyword.Some? && keyword.value.Num? then AsU64(keyword.value.n) else None
  }

  predicate ConstAndEnumHold(schema: Value, value: Value) {
    var expected, enumeration := Get(schema, "const"), Get(schema, "enum");
    && (expected.Some? ==> Equals(expected.value, value))
    && (enumeration.Some? && enumeration.value.Arr? ==>
          exists i :: 0 <= i < |enumeration.value.items| && Equals(enumeration.value.items[i], value))
  }

  predicate TypeHolds(schema: Value, value: Value) {
    var types := Get(schema, "type");
    types.None? || match types.value
      case Str(kind) => TypeMatches(kind, value)
      case Arr(kinds) => exists i :: 0 <= i < |kinds| && kinds[i].Str? && TypeMatches(kinds[i].s, value)
      case _ => true
  }

  predicate RequiredHolds(schema: Value, value: Value) {
    var required := Get(schema, "required");
    required.Some? && required.value.Arr? ==>
      forall i :: 0 <= i < |required.value.items| && required.value.items[i].Str? ==>
          HasKey(value, required.value.items[i].s)
  }

  predicate BoundsHold(schema: Value, value: Value) {
    && BoundHolds(Get(schema, "minimum"), value, Less)
    && BoundHolds(Get(schema, "maximum"), value, Greater)
    && (LengthOf(Get(schema, "minLength")).Some? && value.Str? ==>
        LengthOf(Get(schema, "minLength")).value <= |value.s|)
    && (LengthOf(Get(schema, "maxLength")).Some? && value.Str? ==>
        |value.s| <= LengthOf(Get(schema, "maxLength")).value)
  }

  /** Whether a property of the value is named in the schema's `properties`. */
  predicate IsDeclared(schema: Value, name: string) {
    var properties := Get(schema, "properties");
    properties.Some? && HasKey(properties.value, name)
  }

  /** `additionalProperties: false` admits declared properties only. */
  predicate NoUnknownProperty(schema: Value, value: Value) {
    Get(schema, "additionalProperties") == Some(Bool(false)) ==>
      forall i :: 0 <= i < |Names(value)| ==> IsDeclared(schema, Names(value)[i])
  }

  function Names(v: Value): seq<string> { if v.Obj? then v.keys else [] }

  /** The candidates of anyOf, oneOf or allOf. */
  function Candidates(schema: Value, keyword: string): (cs: Option<seq<Value>>)
    ensures cs.Some? ==> NodesOf(cs.value) < Nodes(schema)
  {
    var keywordValue := Get(schema, keyword);
    if keywordValue.Some? && keywordValue.value.Arr? then Some(keywordValue.value.items) else None
  }

  // ---------------------------------------------------------------- the counted validator

  datatype Run = Run(ok: bool, nodes: nat)

  function Inner(schema: Value, value: Value, n: nat): Run
    decreases Nodes(schema), 3, 0
  {
    if n + 1 > MAX_NODES then Run(false, n + 1)
    else if !schema.Obj? then Run(true, n + 1)
    else Object(schema, value, n + 1)
  }

  function Object(schema: Value, value: Value, n: nat): Run
    decreases Nodes(schema), 2, 0
  {
    var a := AnyOf(schema, value, n);
    if !a.ok then a
    else
      var o := OneOf(schema, value, a.nodes);
      if !o.ok then o
      else
        var l := AllOf(schema, value, o.nodes);
        if !l.ok then l
        else if !ConstAndEnumHold(schema, value) || !TypeHolds(schema, value) then Run(false, l.nodes)
        else
          var p := Properties(schema, value, l.nodes);
          if !p.ok then p
          else
            var i := Items(schema, value, p.nodes);
            if !i.ok then i else Run(BoundsHold(schema, value), i.nodes)
  }

  function AnyOf(schema: Value, value: Value, n: nat): Run
    decreases Nodes(schema), 1, 0
  {
    var cs := Candidates(schema, "anyOf");
    if cs.None? then Run(true, n) else FirstOf(cs.value, value, n)
  }

  /** `any`: stops at the first candidate that accepts. */
  function FirstOf(candidates: seq<Value>, value: Value, n: nat): Run
    decreases NodesOf(candidates), 4, |candidates|
  {
    if candidates == [] then Run(false, n)
    else
      var first := Inner(candidates[0], value, n);
      if first.ok then first else FirstOf(candidates[1..], value, first.nodes)
  }

  function OneOf(schema: Value, value: Value, n: nat): Run
    decreases Nodes(schema), 1, 0
  {
    var cs := Candidates(schema, "oneOf");
    if cs.None? then Run(true, n)
    else
      var c := CountOf(cs.value, value, n);
      Run(c.0 == 1, c.1)
  }

  /** `filter().count()`: runs every candidate. */
  function CountOf(candidates: seq<Value>, value: Value, n: nat): (nat, nat)
    decreases NodesOf(candidates), 4, |candidates|
  {
    if candidates == [] then (0, n)
    else
      var first := Inner(candidates[0], value, n);
      var rest := CountOf(candidates[1..], value, first.nodes);
      (rest.0 + if first.ok then 1 else 0, rest.1)
  }

  function AllOf(schema: Value, value: Value, n: nat): Run
    decreases Nodes(schema), 1, 0
  {
    var cs := Candidates(schema, "allOf");
    if cs.None? then Run(true, n) else EachOf(cs.value, value, n)
  }

  function EachOf(candidates: seq<Value>, value: Value, n: nat): Run
    decreases NodesOf(candidates), 4, |candidates|
  {
    if candidates == [] then Run(true, n)
    else
      var first := Inner(candidates[0], value, n);
      if first.ok then EachOf(candidates[1..], value, first.nodes) else first
  }

  function Properties(schema: Value, value: Value, n: nat): Run
    decreases Nodes(schema), 1, 0
  {
    if !value.Obj? then Run(true, n)
    else if !RequiredHolds(schema, value) then Run(false, n)
    else
      var properties := Get(schema, "properties");
      var d := if properties.Some? && properties.value.Obj?
               then Declared(properties.value.keys, properties.value.items, value, n) else Run(true, n);
      if !d.ok then d
      else if !NoUnknownProperty(schema, value) then Run(false, d.nodes)
      else
        var additional := Get(schema, "additionalProperties");
        if additional.Some? && additional.value.Obj?
        then Additional(schema, additional.value, Names(value), value, d.nodes) else d
  }

  /** The declared properties the value has, in the schema's order. */
  function Declared(names: seq<string>, schemas: seq<Value>, value: Value, n: nat): Run
    decreases NodesOf(schemas), 4, |schemas|
  {
    if schemas == [] || names == [] then Run(true, n)
    else
      var property := Get(value, names[0]);
      var first := if property.Some? then Inner(schemas[0], property.value, n) else Run(true, n);
      if first.ok then Declared(names[1..], schemas[1..], value, first.nodes) else first
  }

  /** The undeclared properties against the additional schema, whose node is counted here. */
  function Additional(schema: Value, additional: Value, names: seq<string>, value: Value, n: nat): Run
    decreases Nodes(additional), 4, |names|
  {
    if names == [] then Run(true, n)
    else if IsDeclared(schema, names[0]) || !HasKey(value, names[0])
    then Additional(schema, additional, names[1..], value, n)
    else if n + 1 > MAX_NODES then Run(false, n + 1)
    else
      var first := Object(additional, Get(value, names[0]).value, n + 1);
      if first.ok then Additional(schema, additional, names[1..], value, first.nodes) else first
  }

  function Items(schema: Value, value: Value, n: nat): Run
    decreases Nodes(schema), 1, 0
  {
    var items := Get(schema, "items");
    if items.Some? && value.Arr? then EachItem(items.value, value.items, n) else Run(true, n)
  }

  function EachItem(schema: Value, values: seq<Value>, n: nat): Run
    decreases Nodes(schema), 4, |values|
  {
    if values == [] then Run(true, n)
    else
      var first := Inner(schema, values[0], n);
      if first.ok then EachItem(schema, values[1..], first.nodes) else first
  }

  // ---------------------------------------------------------------- the meaning, without a counter

  ghost predicate Satisfies(schema: Value, value: Value)
    decreases Nodes(schema), 3, 0
  {
    schema.Obj? ==>
      && (Candidates(schema, "anyOf").Some? ==> HowMany(Candidates(schema, "anyOf").value, value) > 0)
      && (Candidates(schema, "oneOf").Some? ==> HowMany(Candidates(schema, "oneOf").value, value) == 1)
      && (Candidates(schema, "allOf").Some? ==> SatisfiesAll(Candidates(schema, "allOf").value, value))
      && ConstAndEnumHold(schema, value) && TypeHolds(schema, value)
      && (value.Obj? ==> PropertiesSatisfied(schema, value))
      && (value.Arr? ==> ItemsSatisfied(schema, value.items))
      && BoundsHold(schema, value)
  }

  /** How many of the schemas the value satisfies. */
  ghost function HowMany(schemas: seq<Value>, value: Value): nat
    decreases NodesOf(schemas), 4, |schemas|
  {
    if schemas == [] then 0
    else HowMany(schemas[1..], value) + if Satisfies(schemas[0], value) then 1 else 0
  }

  ghost predicate SatisfiesAll(schemas: seq<Value>, value: Value)
    decreases NodesOf(schemas), 4, |schemas|
  {
    schemas != [] ==> Satisfies(schemas[0], value) && SatisfiesAll(schemas[1..], value)
  }

  ghost predicate PropertiesSatisfied(schema: Value, value: Value)
    decreases Nodes(schema), 1, 0
  {
    && RequiredHolds(schema, value)
    && NoUnknownProperty(schema, value)
    && (Get(schema, "properties").Some? && Get(schema, "properties").value.Obj? ==>
          DeclaredSatisfied(Get(schema, "properties").value.keys, Get(schema, "properties").value.items, value))
    && (Get(schema, "additionalProperties").Some? && Get(schema, "additionalProperties").value.Obj? ==>
          AdditionalSatisfied(schema, Get(schema, "additionalProperties").value, Names(value), value))
  }

  ghost predicate DeclaredSatisfied(names: seq<string>, schemas: seq<Value>, value: Value)
    decreases NodesOf(schemas), 4, |schemas|
  {
    schemas != [] && names != [] ==>
      (HasKey(value, names[0]) ==> Satisfies(schemas[0], Get(value, names[0]).value))
      && DeclaredSatisfied(names[1..], schemas[1..], value)
  }

  ghost predicate AdditionalSatisfied(schema: Value, additional: Value, names: seq<string>, value: Value)
    decreases Nodes(additional), 4, |names|
  {
    names != [] ==>
      (!IsDeclared(schema, names[0]) && HasKey(value, names[0]) ==> Satisfies(additional, Get(value, names[0]).value))
      && AdditionalSatisfied(schema, additional, names[1..], value)
  }

  ghost predicate ItemsSatisfied(schema: Value, values: seq<Value>)
    decreases Nodes(schema), 1, 0
  {
    Get(schema, "items").Some? ==> EachSatisfies(Get(schema, "items").value, values)
  }

  ghost predicate EachSatisfies(schema: Value, values: seq<Value>)
    decreases Nodes(schema), 4, |values|
  {
    values != [] ==> Satisfies(schema, values[0]) && EachSatisfies(schema, values[1..])
  }

  /** No oneOf list at any position of the schema that a value is validated against. */
  ghost predicate OneOfFree(schema: Value)
    decreases Nodes(schema), 3, 0
  {
    schema.Obj? ==>
      && Candidates(schema, "oneOf").None?
      && (Candidates(schema, "anyOf").Some? ==> AllOneOfFree(Candidates(schema, "anyOf").value))
      && (Candidates(schema, "allOf").Some? ==> AllOneOfFree(Candidates(schema, "allOf").value))
      && (Get(schema, "properties").Some? && Get(schema, "properties").value.Obj? ==>
            AllOneOfFree(Get(schema, "properties").value.items))
      && (Get(schema, "additionalProperties").Some? ==> OneOfFree(Get(schema, "additionalProperties").value))
      && (Get(schema, "items").Some? ==> OneOfFree(Get(schema, "items").value))
  }

  ghost predicate AllOneOfFree(schemas: seq<Value>)
    decreases NodesOf(schemas), 4, |schemas|
  {
    schemas != [] ==> OneOfFree(schemas[0]) && AllOneOfFree(schemas[1..])
  }

  // ---------------------------------------------------------------- the counted validator means what it should

  /**
   The counter never goes down. A run that ends within the node limit gives the verdict of the
   schema's meaning; and without oneOf an acceptance is right however the counter ended.
   */
  ghost predicate Faithful(run: Run, n: nat, meaning: bool, oneOfFree: bool) {
    && n <= run.nodes
    && (run.nodes <= MAX_NODES ==> run.ok == meaning)
    && (oneOfFree && run.ok ==> meaning)
  }

  lemma {:induction false} InnerFaithful(schema: Value, value: Value, n: nat)
    ensures Faithful(Inner(schema, value, n), n, Satisfies(schema, value), OneOfFree(schema))
    decreases Nodes(schema), 3, 0
  {
    hide Object, Satisfies, OneOfFree;
    if n + 1 <= MAX_NODES && schema.Obj? { ObjectFaithful(schema, value, n + 1); }
    if !schema.Obj? { NonObjectMeansNothing(schema, value); }
  }

  lemma {:induction false} NonObjectMeansNothing(schema: Value, value: Value)
    requires !schema.Obj?
    ensures Satisfies(schema, value) && OneOfFree(schema)
  {
  }

  lemma {:induction false} FirstOfFaithful(cs: seq<Value>, value: Value, n: nat)
    ensures Faithful(FirstOf(cs, value, n), n, HowMany(cs, value) > 0, AllOneOfFree(cs))
    decreases NodesOf(cs), 4, |cs|
  {
    hide Inner, Satisfies, OneOfFree;
    if cs != [] {
      var first := Inner(cs[0], value, n);
      InnerFaithful(cs[0], value, n);
      if !first.ok { FirstOfFaithful(cs[1..], value, first.nodes); }
    }
  }

  lemma {:induction false} CountOfFaithful(cs: seq<Value>, value: Value, n: nat)
    ensures n <= CountOf(cs, value, n).1
    ensures CountOf(cs, value, n).1 <= MAX_NODES ==> CountOf(cs, value, n).0 == HowMany(cs, value)
    decreases NodesOf(cs), 4, |cs|
  {
    hide Inner, Satisfies, OneOfFree;
    if cs != [] {
      InnerFaithful(cs[0], value, n);
      CountOfFaithful(cs[1..], value, Inner(cs[0], value, n).nodes);
    }
  }

  lemma {:induction false} EachOfFaithful(cs: seq<Value>, value: Value, n: nat)
    ensures Faithful(EachOf(cs, value, n), n, SatisfiesAll(cs, value), AllOneOfFree(cs))
    decreases NodesOf(cs), 4, |cs|
  {
    hide Inner, Satisfies, OneOfFree;
    if cs != [] {
      var first := Inner(cs[0], value, n);
      InnerFaithful(cs[0], value, n);
      if first.ok { EachOfFaithful(cs[1..], value, first.nodes); }
    }
  }

  lemma {:induction false} DeclaredFaithful(names: seq<string>, schemas: seq<Value>, value: Value, n: nat)
    ensures Faithful(Declared(names, schemas, value, n), n, DeclaredSatisfied(names, schemas, value),
                     AllOneOfFree(schemas))
    decreases NodesOf(schemas), 4, |schemas|
  {
    hide Inner, Satisfies, OneOfFree, Get;
    if schemas != [] && names != [] {
      var property := Get(value, names[0]);
      var first := if property.Some? then Inner(schemas[0], property.value, n) else Run(true, n);
      if property.Some? { InnerFaithful(schemas[0], property.value, n); }
      if first.ok { DeclaredFaithful(names[1..], schemas[1..], value, first.nodes); }
    }
  }

  lemma {:induction false} AdditionalFaithful(schema: Value, additional: Value, names: seq<string>, value: Value,
                                              n: nat)
    requires additional.Obj?
    ensures Faithful(Additional(schema, additional, names, value, n), n,
                     AdditionalSatisfied(schema, additional, names, value), OneOfFree(additional))
    decreases Nodes(additional), 4, |names|
  {
    hide Object, Satisfies, OneOfFree, Get, IsDeclared;
    if names != [] {
      if IsDeclared(schema, names[0]) || !HasKey(value, names[0]) {
        AdditionalFaithful(schema, additional, names[1..], value, n);
      } else if n + 1 <= MAX_NODES {
        var first := Object(additional, Get(value, names[0]).value, n + 1);
        ObjectFaithful(additional, Get(value, names[0]).value, n + 1);
        if first.ok { AdditionalFaithful(schema, additional, names[1..], value, first.nodes); }
      }
    }
  }

  lemma {:induction false} EachItemFaithful(schema: Value, values: seq<Value>, n: nat)
    ensures Faithful(EachItem(schema, values, n), n, EachSatisfies(schema, values), OneOfFree(schema))
    decreases Nodes(schema), 4, |values|
  {
    hide Inner, Satisfies, OneOfFree;
    if values != [] {
      var first := Inner(schema, values[0], n);
      InnerFaithful(schema, values[0], n);
      if first.ok { EachItemFaithful(schema, values[1..], first.nodes); }
    }
  }

  lemma {:induction false} PropertiesFaithful(schema: Value, value: Value, n: nat)
    requires schema.Obj?
    ensures Faithful(Properties(schema, value, n), n,
                     value.Obj? ==> PropertiesSatisfied(schema, value), OneOfFree(schema))
    decreases Nodes(schema), 1, 0
  {
    hide Satisfies, Declared, Additional, DeclaredSatisfied, AdditionalSatisfied, RequiredHolds, NoUnknownProperty,
         Candidates;
    if value.Obj? && RequiredHolds(schema, value) {
      var properties, additional := Get(schema, "properties"), Get(schema, "additionalProperties");
      var d := Run(true, n);
      if properties.Some? && properties.value.Obj? {
        d := Declared(properties.value.keys, properties.value.items, value, n);
        DeclaredFaithful(properties.value.keys, properties.value.items, value, n);
      }
      if d.ok && additional.Some? && additional.value.Obj? {
        AdditionalFaithful(schema, additional.value, Names(value), value, d.nodes);
      }
    }
  }

  lemma {:induction false} ListsFaithful(schema: Value, value: Value, n: nat)
    requires schema.Obj?
    ensures Faithful(AnyOf(schema, value, n), n,
                     Candidates(schema, "anyOf").Some? ==>
                       HowMany(Candidates(schema, "anyOf").value, value) > 0,
                     OneOfFree(schema))
    ensures Faithful(OneOf(schema, value, n), n,
                     Candidates(schema, "oneOf").Some? ==>
                       HowMany(Candidates(schema, "oneOf").value, value) == 1,
                     OneOfFree(schema))
    ensures Faithful(AllOf(schema, value, n), n,
                     Candidates(schema, "allOf").Some? ==>
                       SatisfiesAll(Candidates(schema, "allOf").value, value),
                     OneOfFree(schema))
    decreases Nodes(schema), 1, 0
  {
    hide FirstOf, CountOf, EachOf, HowMany, SatisfiesAll, Candidates;
    var any, one, all := Candidates(schema, "anyOf"), Candidates(schema, "oneOf"), Candidates(schema, "allOf");
    if any.Some? { FirstOfFaithful(any.value, value, n); }
    if one.Some? { CountOfFaithful(one.value, value, n); }
    if all.Some? { EachOfFaithful(all.value, value, n); }
  }

  lemma {:induction false} ItemsFaithful(schema: Value, value: Value, n: nat)
    requires schema.Obj?
    ensures Faithful(Items(schema, value, n), n, value.Arr? ==> ItemsSatisfied(schema, value.items), OneOfFree(schema))
    decreases Nodes(schema), 1, 0
  {
    hide EachItem, EachSatisfies, Candidates;
    var items := Get(schema, "items");
    if items.Some? && value.Arr? { EachItemFaithful(items.value, value.items, n); }
  }

  lemma {:induction false} ObjectFaithful(schema: Value, value: Value, n: nat)
    requires schema.Obj?
    ensures Faithful(Object(schema, value, n), n, Satisfies(schema, value), OneOfFree(schema))
    decreases Nodes(schema), 2, 0
  {
    hide AnyOf, OneOf, AllOf, Properties, Items, OneOfFree, HowMany, SatisfiesAll, PropertiesSatisfied, ItemsSatisfied,
         Candidates, ConstAndEnumHold, TypeHolds, BoundsHold;
    ListsFaithful(schema, value, n);
    var a := AnyOf(schema, value, n);
    ListsFaithful(schema, value, a.nodes);
    var o := OneOf(schema, value, a.nodes);
    ListsFaithful(schema, value, o.nodes);
    var l := AllOf(schema, value, o.nodes);
    PropertiesFaithful(schema, value, l.nodes);
    var p := Properties(schema, value, l.nodes);
    ItemsFaithful(schema, value, p.nodes);
  }

  // ---------------------------------------------------------------- the validator with its mutable budget

  datatype BudgetError = DepthExceeded | NodesExceeded

  class Budget {
    var nodes: nat

    constructor ()
      ensures nodes == 0
    {
      nodes := 0;
    }

    /** Counts a visit; the depth is checked first, and counting goes on past the limit. */
    method Enter(depth: nat) returns (error: Option<BudgetError>)
      modifies this
      ensures depth > MAX_DEPTH ==> error == Some(DepthExceeded) && nodes == old(nodes)
      ensures depth <= MAX_DEPTH ==>
                nodes == old(nodes) + 1 && error == if nodes > MAX_NODES then Some(NodesExceeded) else None
    {
      if depth > MAX_DEPTH { return Some(DepthExceeded); }
      nodes := nodes + 1;
      if nodes > MAX_NODES { return Some(NodesExceeded); }
      return None;
    }
  }

  lemma {:induction false} CandidatesHeight(schema: Value, keyword: string)
    ensures Candidates(schema, keyword).Some? ==> HeightOf(Candidates(schema, keyword).value) < Height(schema)
  {
  }

  method ValidateInner(schema: Value, value: Value, depth: nat, budget: Budget) returns (ok: bool)
    requires depth + Height(schema) <= MAX_DEPTH
    modifies budget
    ensures Run(ok, budget.nodes) == Inner(schema, value, old(budget.nodes))
    decreases Nodes(schema), 3, 0
  {
    hide Object;
    var error := budget.Enter(depth);
    assert error != Some(DepthExceeded);
    if error.Some? { return false; }
    if !schema.Obj? { return true; }
    ok := ValidateObject(schema, value, depth, budget);
  }

  method ValidateObject(schema: Value, value: Value, depth: nat, budget: Budget) returns (ok: bool)
    requires schema.Obj? && depth + Height(schema) <= MAX_DEPTH
    modifies budget
    ensures Run(ok, budget.nodes) == Object(schema, value, old(budget.nodes))
    decreases Nodes(schema), 2, 0
  {
    hide FirstOf, CountOf, EachOf, Declared, Additional, EachItem, Candidates, ConstAndEnumHold, TypeHolds, BoundsHold,
         NoUnknownProperty, RequiredHolds, Inner;
    CandidatesHeight(schema, "anyOf");
    CandidatesHeight(schema, "oneOf");
    CandidatesHeight(schema, "allOf");
    var anyOf := Candidates(schema, "anyOf");
    if anyOf.Some? {
      ok := AnyCandidate(anyOf.value, value, depth, budget);
      if !ok { return false; }
    }
    var oneOf := Candidates(schema, "oneOf");
    if oneOf.Some? {
      var matches := CountCandidates(oneOf.value, value, depth, budget);
      if matches != 1 { return false; }
    }
    var allOf := Candidates(schema, "allOf");
    if allOf.Some? {
      ok := EveryCandidate(allOf.value, value, depth, budget);
      if !ok { return false; }
    }
    if !ConstAndEnumHold(schema, value) || !TypeHolds(schema, value) { return false; }
    ok := ValidateProperties(schema, value, depth, budget);
    if !ok { return false; }
    var items := Get(schema, "items");
    if items.Some? && value.Arr? {
      ok := EveryItem(items.value, value.items, depth, budget);
      if !ok { return false; }
    }
    ok := BoundsHold(schema, value);
  }

  method ValidateProperties(schema: Value, value: Value, depth: nat, budget: Budget) returns (ok: bool)
    requires schema.Obj? && depth + Height(schema) <= MAX_DEPTH
    modifies budget
    ensures Run(ok, budget.nodes) == Properties(schema, value, old(budget.nodes))
    decreases Nodes(schema), 1, 0
  {
    hide Declared, Additional, NoUnknownProperty, RequiredHolds;
    if !value.Obj? { return true; }
    if !RequiredHolds(schema, value) { return false; }
    var properties := Get(schema, "properties");
    if properties.Some? && properties.value.Obj? {
      ok := DeclaredProperties(properties.value.keys, properties.value.items, value, depth, budget);
      if !ok { return false; }
    }
    if !NoUnknownProperty(schema, value) { return false; }
    var additional := Get(schema, "additionalProperties");
    if additional.Some? && additional.value.Obj? {
      ok := AdditionalProperties(schema, additional.value, value, depth, budget);
      return;
    }
    return true;
  }

  method AnyCandidate(candidates: seq<Value>, value: Value, depth: nat, budget: Budget) returns (ok: bool)
    requires depth + HeightOf(candidates) < MAX_DEPTH
    modifies budget
    ensures Run(ok, budget.nodes) == FirstOf(candidates, value, old(budget.nodes))
    decreases NodesOf(candidates), 4, |candidates|
  {
    hide Inner, Nodes;
    for i := 0 to |candidates|
      invariant FirstOf(candidates, value, old(budget.nodes)) == FirstOf(candidates[i..], value, budget.nodes)
    {
      ItemIsSmaller(candidates, i);
      assert candidates[i..][0] == candidates[i] && candidates[i..][1..] == candidates[i + 1..];
      ok := ValidateInner(candidates[i], value, depth + 1, budget);
      if ok { return; }
    }
    return false;
  }

  method CountCandidates(candidates: seq<Value>, value: Value, depth: nat, budget: Budget) returns (matches: nat)
    requires depth + HeightOf(candidates) < MAX_DEPTH
    modifies budget
    ensures (matches, budget.nodes) == CountOf(candidates, value, old(budget.nodes))
    decreases NodesOf(candidates), 4, |candidates|
  {
    hide Inner, Nodes;
    matches := 0;
    for i := 0 to |candidates|
      invariant var rest := CountOf(candidates[i..], value, budget.nodes);
                CountOf(candidates, value, old(budget.nodes)) == (matches + rest.0, rest.1)
    {
      ItemIsSmaller(candidates, i);
      assert candidates[i..][0] == candidates[i] && candidates[i..][1..] == candidates[i + 1..];
      var ok := ValidateInner(candidates[i], value, depth + 1, budget);
      if ok { matches := matches + 1; }
    }
  }

  method EveryCandidate(candidates: seq<Value>, value: Value, depth: nat, budget: Budget) returns (ok: bool)
    requires depth + HeightOf(candidates) < MAX_DEPTH
    modifies budget
    ensures Run(ok, budget.nodes) == EachOf(candidates, value, old(budget.nodes))
    decreases NodesOf(candidates), 4, |candidates|
  {
    hide Inner, Nodes;
    for i := 0 to |candidates|
      invariant EachOf(candidates, value, old(budget.nodes)) == EachOf(candidates[i..], value, budget.nodes)
    {
      ItemIsSmaller(candidates, i);
      assert candidates[i..][0] == candidates[i] && candidates[i..][1..] == candidates[i + 1..];
      ok := ValidateInner(candidates[i], value, depth + 1, budget);
      if !ok { return; }
    }
    return true;
  }

  method DeclaredProperties(names: seq<string>, schemas: seq<Value>, value: Value, depth: nat, budget: Budget)
    returns (ok: bool)
    requires depth + HeightOf(schemas) < MAX_DEPTH
    modifies budget
    ensures Run(ok, budget.nodes) == Declared(names, schemas, value, old(budget.nodes))
    decreases NodesOf(schemas), 4, |schemas|
  {
    hide Inner, Nodes, Get;
    var i := 0;
    while i < |schemas| && i < |names|
      invariant i <= |schemas| && i <= |names|
      invariant Declared(names, schemas, value, old(budget.nodes)) ==
                  Declared(names[i..], schemas[i..], value, budget.nodes)
    {
      ItemIsSmaller(schemas, i);
      assert schemas[i..][0] == schemas[i] && schemas[i..][1..] == schemas[i + 1..];
      assert names[i..][0] == names[i] && names[i..][1..] == names[i + 1..];
      var property := Get(value, names[i]);
      if property.Some? {
        ok := ValidateInner(schemas[i], property.value, depth + 1, budget);
        if !ok { return; }
      }
      i := i + 1;
    }
    return true;
  }

  method AdditionalProperties(schema: Value, additional: Value, value: Value, depth: nat, budget: Budget)
    returns (ok: bool)
    requires additional.Obj? && depth + 1 + Height(additional) <= MAX_DEPTH
    modifies budget
    ensures Run(ok, budget.nodes) == Additional(schema, additional, Names(value), value, old(budget.nodes))
    decreases Nodes(additional), 4, |Names(value)|
  {
    hide Object, Get, IsDeclared;
    var names := Names(value);
    for i := 0 to |names|
      invariant Additional(schema, additional, names, value, old(budget.nodes))
             == Additional(schema, additional, names[i..], value, budget.nodes)
    {
      assert names[i..][0] == names[i] && names[i..][1..] == names[i + 1..];
      if !IsDeclared(schema, names[i]) && HasKey(value, names[i]) {
        var error := budget.Enter(depth + 1);
        if error.Some? { return false; }
        ok := ValidateObject(additional, Get(value, names[i]).value, depth + 1, budget);
        if !ok { return; }
      }
    }
    return true;
  }

  method EveryItem(schema: Value, values: seq<Value>, depth: nat, budget: Budget) returns (ok: bool)
    requires depth + 1 + Height(schema) <= MAX_DEPTH
    modifies budget
    ensures Run(ok, budget.nodes) == EachItem(schema, values, old(budget.nodes))
    decreases Nodes(schema), 4, |values|
  {
    hide Inner, Nodes;
    for i := 0 to |values|
      invariant EachItem(schema, values, old(budget.nodes)) == EachItem(schema, values[i..], budget.nodes)
    {
      assert values[i..][0] == values[i] && values[i..][1..] == values[i + 1..];
      ok := ValidateInner(schema, values[i], depth + 1, budget);
      if !ok { return; }
    }
    return true;
  }

  /**
   `validate_json_schema`: once both trees passed the preflight, no depth error can arise; the
   verdict is the schema's meaning whenever the counter stayed within its limit, and for schemas
   without oneOf an acceptance is right in any case.
   */
  method ValidateJsonSchema(schema: Value, value: Value) returns (ok: bool)
    ensures ok == Validates(schema, value)
    ensures OneOfFree(schema) && ok ==> Satisfies(schema, value)
  {
    hide Inner, Satisfies, OneOfFree;
    InnerFaithful(schema, value, 0);
    var schemaError, _ := Preflight(schema);
    if schemaError.Some? { return false; }
    var valueError, _ := Preflight(value);
    if valueError.Some? { return false; }
    var budget := new Budget();
    ok := ValidateInner(schema, value, 0, budget);
  }

  predicate PassesPreflight(v: Value) { Height(v) <= MAX_DEPTH && Nodes(v) <= MAX_NODES }

  predicate Validates(schema: Value, value: Value) {
    PassesPreflight(schema) && PassesPreflight(value) && Inner(schema, value, 0).ok
  }

  /** Exactly the schema's meaning, on inputs that pass the preflight and do not exhaust the counter. */
  lemma {:induction false} ValidatesExactly(schema: Value, value: Value)
    requires PassesPreflight(schema) && PassesPreflight(value) && Inner(schema, value, 0).nodes <= MAX_NODES
    ensures Validates(schema, value) <==> Satisfies(schema, value)
  {
    InnerFaithful(schema, value, 0);
  }

  // ---------------------------------------------------------------- where an acceptance is wrong

  const EMPTY_SCHEMA := Obj([], [])

  /** {"anyOf": [{"items": {}}], "oneOf": [{}, {}]} */
  const EXHAUSTING_SCHEMA :=
    Obj(["anyOf", "oneOf"], [Arr([Obj(["items"], [EMPTY_SCHEMA])]), Arr([EMPTY_SCHEMA, EMPTY_SCHEMA])])

  function Nulls(n: nat): (vs: seq<Value>)
    ensures |vs| == n
  {
    seq(n, i => Null)
  }

  /** The schema has none of the keywords but anyOf, oneOf and items. */
  ghost predicate HasOnlyLists(schema: Value) {
    && Get(schema, "allOf").None? && Get(schema, "const").None? && Get(schema, "enum").None?
    && Get(schema, "type").None? && Get(schema, "minimum").None? && Get(schema, "maximum").None?
    && Get(schema, "minLength").None? && Get(schema, "maxLength").None?
  }

  /** Such a schema says of an array, or of null, only what those lists say. */
  lemma {:induction false} ListsOnly(schema: Value, value: Value, n: nat)
    requires schema.Obj? && HasOnlyLists(schema) && !value.Obj?
    ensures var a := AnyOf(schema, value, n);
            var o := OneOf(schema, value, a.nodes);
            Object(schema, value, n) == if !a.ok then a else if !o.ok then o else Items(schema, value, o.nodes)
    ensures Satisfies(schema, value) <==>
              (Candidates(schema, "anyOf").Some? ==> HowMany(Candidates(schema, "anyOf").value, value) > 0)
              && (Candidates(schema, "oneOf").Some? ==> HowMany(Candidates(schema, "oneOf").value, value) == 1)
              && (value.Arr? ==> ItemsSatisfied(schema, value.items))
  {
    hide Get, AnyOf, OneOf, Items, HowMany, ItemsSatisfied;
  }

  lemma {:induction false} EmptySchemaAccepts(value: Value, n: nat)
    requires !value.Obj?
    ensures Inner(EMPTY_SCHEMA, value, n) == Run(n + 1 <= MAX_NODES, n + 1)
    ensures Satisfies(EMPTY_SCHEMA, value)
  {
    forall k ensures Get(EMPTY_SCHEMA, k) == None { EmptyHasNoKey(k); }
    ListsOnly(EMPTY_SCHEMA, value, n + 1);
    hide Get, Object, Satisfies;
  }

  lemma {:induction false} EmptyHasNoKey(k: string)
    ensures Get(EMPTY_SCHEMA, k) == None
  {
  }

  lemma {:induction false} EmptySchemaAcceptsItems(n: nat, counted: nat)
    requires counted + n <= MAX_NODES
    ensures EachItem(EMPTY_SCHEMA, Nulls(n), counted) == Run(true, counted + n)
    decreases n
  {
    hide Inner;
    if n > 0 {
      EmptySchemaAccepts(Null, counted);
      assert Nulls(n)[1..] == Nulls(n - 1);
      EmptySchemaAcceptsItems(n - 1, counted + 1);
    }
  }

  lemma {:induction false} NullsMeasure(n: nat)
    ensures NodesOf(Nulls(n)) == n && HeightOf(Nulls(n)) <= 1
    decreases n
  {
    if n > 0 {
      assert Nulls(n)[1..] == Nulls(n - 1);
      NullsMeasure(n - 1);
    }
  }

  /** The keys of the two schemas are none of the other keywords. */
  lemma {:induction false} KeywordsDiffer(k: string)
    requires k == "items" || k == "anyOf" || k == "oneOf"
    ensures k != "allOf" && k != "const" && k != "enum" && k != "type" && k != "minimum" && k != "maximum"
            && k != "minLength" && k != "maxLength"
    ensures "items" != "anyOf" && "items" != "oneOf" && "anyOf" != "oneOf"
  {
    assert "items"[0] == 'i' && "anyOf"[0] == 'a' && "anyOf"[1] == 'n' && "oneOf"[0] == 'o';
    assert "allOf"[1] == 'l' && "const"[0] == 'c' && "enum"[0] == 'e' && "type"[0] == 't' && "minimum"[0] == 'm'
           && "maximum"[0] == 'm' && "minLength"[0] == 'm' && "maxLength"[0] == 'm';
  }

  lemma {:induction false} GetOfOne(key: string, item: Value, k: string)
    ensures Get(Obj([key], [item]), k) == if k == key then Some(item) else None
  {
    assert [key][1..] == [];
  }

  lemma {:induction false} GetOfTwo(key0: string, item0: Value, key1: string, item1: Value, k: string)
    requires key0 != key1
    ensures Get(Obj([key0, key1], [item0, item1]), k) ==
            if k == key0 then Some(item0) else if k == key1 then Some(item1) else None
  {
    assert [key0, key1][1..] == [key1] && [key1][1..] == [];
    assert IndexOf([key1], k) == if k == key1 then 0 else 1;
  }

  /** The branch of anyOf visits every item of the value once. */
  lemma {:induction false} ItemsBranchCounts(n: nat)
    requires n + 2 <= MAX_NODES
    ensures Inner(Obj(["items"], [EMPTY_SCHEMA]), Arr(Nulls(n)), 1) == Run(true, n + 2)
  {
    var branch := Obj(["items"], [EMPTY_SCHEMA]);
    KeywordsDiffer("items");
    forall k
      ensures Get(branch, k) == if k == "items" then Some(EMPTY_SCHEMA) else None
    {
      GetOfOne("items", EMPTY_SCHEMA, k);
    }
    hide Get, EachItem, Object, Nulls;
    ListsOnly(branch, Arr(Nulls(n)), 2);
    EmptySchemaAcceptsItems(n, 2);
    InnerStep(branch, Arr(Nulls(n)), 1);
  }

  /**
   The validator accepts a value its schema rejects. Both inputs pass the preflight; the anyOf
   branch leaves one node of the budget, the first oneOf branch takes it, and the second one,
   which would match too, fails for want of budget and is not counted.
   */
  lemma {:induction false} ExhaustionInsideOneOfAccepts()
    ensures var value := Arr(Nulls(262_141));
            Validates(EXHAUSTING_SCHEMA, value) && !Satisfies(EXHAUSTING_SCHEMA, value)
            && Inner(EXHAUSTING_SCHEMA, value, 0).nodes > MAX_NODES
  {
    var value := Arr(Nulls(262_141));
    hide Inner, Satisfies, Nulls, PassesPreflight;
    ExhaustingRun(value);
    NullsPassPreflight();
    ExhaustingSchemaMeasures();
  }

  lemma {:induction false} NullsPassPreflight()
    ensures PassesPreflight(Arr(Nulls(262_141)))
  {
    hide Nulls, NodesOf, HeightOf;
    NullsMeasure(262_141);
  }

  lemma {:induction false} ExhaustingRun(value: Value)
    requires value == Arr(Nulls(262_141))
    ensures Inner(EXHAUSTING_SCHEMA, value, 0) == Run(true, MAX_NODES + 1) && !Satisfies(EXHAUSTING_SCHEMA, value)
  {
    var branch := Obj(["items"], [EMPTY_SCHEMA]);
    ExhaustingKeywords();
    FirstOfOne(branch, value, 1);
    hide Get, Nulls, Inner, Object, Satisfies, FirstOf, CountOf, HowMany, HasOnlyLists, Candidates;
    ItemsBranchCounts(262_141);
    TwoEmptyBranches(value);
    InnerStep(EXHAUSTING_SCHEMA, value, 0);
    ListsOnly(EXHAUSTING_SCHEMA, value, 1);
  }

  lemma {:induction false} ExhaustingKeywords()
    ensures HasOnlyLists(EXHAUSTING_SCHEMA) && Get(EXHAUSTING_SCHEMA, "items").None?
    ensures Candidates(EXHAUSTING_SCHEMA, "anyOf") == Some([Obj(["items"], [EMPTY_SCHEMA])])
    ensures Candidates(EXHAUSTING_SCHEMA, "oneOf") == Some([EMPTY_SCHEMA, EMPTY_SCHEMA])
  {
    var any, one := Arr([Obj(["items"], [EMPTY_SCHEMA])]), Arr([EMPTY_SCHEMA, EMPTY_SCHEMA]);
    KeywordsDiffer("anyOf");
    KeywordsDiffer("oneOf");
    forall k
      ensures Get(EXHAUSTING_SCHEMA, k) ==
              if k == "anyOf" then Some(any) else if k == "oneOf" then Some(one) else None
    {
      GetOfTwo("anyOf", any, "oneOf", one, k);
    }
    hide Get;
  }

  lemma {:induction false} FirstOfOne(schema: Value, value: Value, n: nat)
    ensures FirstOf([schema], value, n).ok == Inner(schema, value, n).ok
    ensures FirstOf([schema], value, n).nodes == Inner(schema, value, n).nodes
  {
    hide Inner;
    assert [schema][1..] == [];
  }

  lemma {:induction false} InnerStep(schema: Value, value: Value, n: nat)
    requires schema.Obj? && n + 1 <= MAX_NODES
    ensures Inner(schema, value, n) == Object(schema, value, n + 1)
  {
    hide Object;
  }

  lemma {:induction false} ExhaustingSchemaMeasures()
    ensures PassesPreflight(EXHAUSTING_SCHEMA)
  {
    var branch := Obj(["items"], [EMPTY_SCHEMA]);
    var any, one := Arr([branch]), Arr([EMPTY_SCHEMA, EMPTY_SCHEMA]);
    assert [EMPTY_SCHEMA][1..] == [] && [branch][1..] == [] && [EMPTY_SCHEMA, EMPTY_SCHEMA][1..] == [EMPTY_SCHEMA];
    assert [any, one][1..] == [one] && [one][1..] == [];
    assert Nodes(EMPTY_SCHEMA) == 1 && Height(EMPTY_SCHEMA) == 0;
    assert NodesOf([EMPTY_SCHEMA]) == 1 && HeightOf([EMPTY_SCHEMA]) == 1;
    assert Nodes(branch) == 2 && Height(branch) == 1;
    assert Nodes(any) == 3 && Height(any) == 2;
    assert Nodes(one) == 3 && Height(one) == 1;
    assert NodesOf([one]) == 3 && HeightOf([one]) == 2;
  }

  lemma {:induction false} TwoEmptyBranches(value: Value)
    requires !value.Obj?
    ensures CountOf([EMPTY_SCHEMA, EMPTY_SCHEMA], value, MAX_NODES - 1) == (1, MAX_NODES + 1)
    ensures HowMany([EMPTY_SCHEMA, EMPTY_SCHEMA], value) == 2
  {
    hide Inner, Satisfies;
    EmptySchemaAccepts(value, MAX_NODES - 1);
    EmptySchemaAccepts(value, MAX_NODES);
    assert [EMPTY_SCHEMA, EMPTY_SCHEMA][1..] == [EMPTY_SCHEMA];
    assert CountOf([EMPTY_SCHEMA], value, MAX_NODES) == (0, MAX_NODES + 1);
    assert HowMany([EMPTY_SCHEMA], value) == 1;
  }
}
