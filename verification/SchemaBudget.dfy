/**
 How much of the node budget a validation takes: at most one node for each pair of a schema node
 and a value node. So a caller can tell before the call that the budget will do, and the verdict
 is exact.
 */
module SchemaBudget {
  import opened JsonValue
  import opened SchemaPreflight
  import opened SchemaValidator

  // ---------------------------------------------------------------- products

  function Times(a: nat, b: nat): nat { a * b }

  /** A product by parts of its first factor, and by parts of its second. */
  lemma {:induction false} Distribute(a: nat, b: nat, m: nat)
    ensures Times(a + b, m) == Times(a, m) + Times(b, m)
    ensures Times(m, a + b) == Times(m, a) + Times(m, b)
  {
  }

  lemma {:induction false} Grow(a: nat, b: nat, m: nat)
    requires a <= b
    ensures Times(a, m) <= Times(b, m) && Times(m, a) <= Times(m, b)
  {
    Distribute(a, b - a, m);
  }

  lemma {:induction false} Once(m: nat)
    ensures Times(1, m) == m && Times(m, 1) == m
  {
  }

  // ---------------------------------------------------------------- the nodes below some keys

  /** The nodes below a key. */
  function Below(v: Value, key: string): nat { if HasKey(v, key) then Nodes(Get(v, key).value) else 0 }

  /** The nodes below the first occurrence of each wanted key. */
  function Wanted(keys: seq<string>, items: seq<Value>, wanted: set<string>): nat {
    if keys == [] || items == [] then 0
    else if keys[0] in wanted then Nodes(items[0]) + Wanted(keys[1..], items[1..], wanted - {keys[0]})
    else Wanted(keys[1..], items[1..], wanted)
  }

  lemma {:induction false} WantedIsPart(keys: seq<string>, items: seq<Value>, wanted: set<string>)
    ensures Wanted(keys, items, wanted) <= NodesOf(items)
    decreases |items|
  {
    hide Nodes;
    if keys != [] && items != [] {
      WantedIsPart(keys[1..], items[1..], wanted - {keys[0]});
      WantedIsPart(keys[1..], items[1..], wanted);
    }
  }

  /** One wanted key less. */
  lemma {:induction false} TakeWanted(keys: seq<string>, items: seq<Value>, wanted: set<string>, key: string)
    requires key in wanted
    ensures Wanted(keys, items, wanted) == Below(Obj(keys, items), key) + Wanted(keys, items, wanted - {key})
    decreases |items|
  {
    hide Nodes;
    if keys != [] && items != [] {
      BelowStep(keys, items, key);
      if keys[0] == key {
        assert key !in wanted - {key};
      } else if keys[0] in wanted {
        TakeWanted(keys[1..], items[1..], wanted - {keys[0]}, key);
        assert wanted - {keys[0]} - {key} == wanted - {key} - {keys[0]};
      } else {
        TakeWanted(keys[1..], items[1..], wanted, key);
      }
    }
  }

  lemma {:induction false} BelowStep(keys: seq<string>, items: seq<Value>, key: string)
    requires keys != [] && items != []
    ensures Below(Obj(keys, items), key) == if keys[0] == key then Nodes(items[0])
                                            else Below(Obj(keys[1..], items[1..]), key)
  {
  }

  const KEYWORDS: set<string> := {"anyOf", "oneOf", "allOf", "properties", "additionalProperties", "items"}

  lemma {:induction false} KeywordsDiffer()
    ensures "anyOf" !in {"oneOf", "allOf", "properties", "additionalProperties", "items"}
    ensures "oneOf" !in {"allOf", "properties", "additionalProperties", "items"}
    ensures "allOf" !in {"properties", "additionalProperties", "items"}
    ensures "properties" !in {"additionalProperties", "items"} && "additionalProperties" != "items"
  {
    assert "anyOf"[1] == 'n' && "allOf"[1] == 'l' && "oneOf"[0] == 'o' && "properties"[0] == 'p' && "items"[0] == 'i';
    assert |"additionalProperties"| == 20 && |"anyOf"| == 5 && |"allOf"| == 5;
  }

  /** The subschemas of a schema lie below different keywords. */
  lemma {:induction false} KeywordsShareNodes(schema: Value)
    requires schema.Obj?
    ensures Below(schema, "anyOf") + Below(schema, "oneOf") + Below(schema, "allOf") + Below(schema, "properties")
            + Below(schema, "additionalProperties") + Below(schema, "items") <= Nodes(schema) - 1
  {
    hide Wanted, Below;
    var keys, items := schema.keys, schema.items;
    var five := {"oneOf", "allOf", "properties", "additionalProperties", "items"};
    var four := {"allOf", "properties", "additionalProperties", "items"};
    var three := {"properties", "additionalProperties", "items"};
    var two := {"additionalProperties", "items"};
    KeywordsDiffer();
    assert KEYWORDS - {"anyOf"} == five && five - {"oneOf"} == four && four - {"allOf"} == three
           && three - {"properties"} == two && two - {"additionalProperties"} == {"items"};
    TakeWanted(keys, items, KEYWORDS, "anyOf");
    TakeWanted(keys, items, five, "oneOf");
    TakeWanted(keys, items, four, "allOf");
    TakeWanted(keys, items, three, "properties");
    TakeWanted(keys, items, two, "additionalProperties");
    TakeWanted(keys, items, {"items"}, "items");
    WantedIsPart(keys, items, KEYWORDS);
    assert schema == Obj(keys, items);
  }

  // ---------------------------------------------------------------- the counter

  lemma {:induction false} FieldIsWellFormed(value: Value, name: string)
    requires WellFormed(value) && HasKey(value, name)
    ensures WellFormed(Get(value, name).value)
  {
  }

  lemma {:induction false} InnerTakes(schema: Value, value: Value, n: nat)
    requires WellFormed(value)
    ensures Inner(schema, value, n).nodes <= n + Times(Nodes(schema), Nodes(value))
    decreases Nodes(schema), 3, 0
  {
    hide Times, Object, Nodes, WellFormed;
    Once(Nodes(value));
    Grow(1, Nodes(schema), Nodes(value));
    if n + 1 <= MAX_NODES && schema.Obj? {
      ObjectTakes(schema, value, n + 1);
      Distribute(1, Nodes(schema) - 1, Nodes(value));
    }
  }

  lemma {:induction false} FirstOfTakes(cs: seq<Value>, value: Value, n: nat)
    requires WellFormed(value)
    ensures FirstOf(cs, value, n).nodes <= n + Times(NodesOf(cs), Nodes(value))
    decreases NodesOf(cs), 4, |cs|
  {
    hide Times, Inner, Nodes, WellFormed;
    if cs != [] {
      InnerTakes(cs[0], value, n);
      FirstOfTakes(cs[1..], value, Inner(cs[0], value, n).nodes);
      Distribute(Nodes(cs[0]), NodesOf(cs[1..]), Nodes(value));
    }
  }

  lemma {:induction false} CountOfTakes(cs: seq<Value>, value: Value, n: nat)
    requires WellFormed(value)
    ensures CountOf(cs, value, n).1 <= n + Times(NodesOf(cs), Nodes(value))
    decreases NodesOf(cs), 4, |cs|
  {
    hide Times, Inner, Nodes, WellFormed;
    if cs != [] {
      InnerTakes(cs[0], value, n);
      CountOfTakes(cs[1..], value, Inner(cs[0], value, n).nodes);
      Distribute(Nodes(cs[0]), NodesOf(cs[1..]), Nodes(value));
    }
  }

  lemma {:induction false} EachOfTakes(cs: seq<Value>, value: Value, n: nat)
    requires WellFormed(value)
    ensures EachOf(cs, value, n).nodes <= n + Times(NodesOf(cs), Nodes(value))
    decreases NodesOf(cs), 4, |cs|
  {
    hide Times, Inner, Nodes, WellFormed;
    if cs != [] {
      InnerTakes(cs[0], value, n);
      EachOfTakes(cs[1..], value, Inner(cs[0], value, n).nodes);
      Distribute(Nodes(cs[0]), NodesOf(cs[1..]), Nodes(value));
    }
  }

  lemma {:induction false} DeclaredTakes(names: seq<string>, schemas: seq<Value>, value: Value, n: nat)
    requires WellFormed(value)
    ensures Declared(names, schemas, value, n).nodes <= n + Times(NodesOf(schemas), Nodes(value))
    decreases NodesOf(schemas), 4, |schemas|
  {
    hide Times, Inner, Nodes, WellFormed;
    if schemas != [] && names != [] {
      var property := Get(value, names[0]);
      var first := if property.Some? then Inner(schemas[0], property.value, n) else Run(true, n);
      if property.Some? {
        FieldIsWellFormed(value, names[0]);
        InnerTakes(schemas[0], property.value, n);
        Grow(Nodes(property.value), Nodes(value), Nodes(schemas[0]));
      }
      DeclaredTakes(names[1..], schemas[1..], value, first.nodes);
      Distribute(Nodes(schemas[0]), NodesOf(schemas[1..]), Nodes(value));
    }
  }

  /** The names left of a value's own, none of them twice. */
  predicate AreDistinct(names: seq<string>) { forall i, j :: 0 <= i < j < |names| ==> names[i] != names[j] }

  lemma {:induction false} AdditionalTakes(schema: Value, additional: Value, names: seq<string>, value: Value, n: nat,
                                           left: set<string>)
    requires WellFormed(value) && value.Obj? && additional.Obj?
    requires AreDistinct(names) && forall i :: 0 <= i < |names| ==> names[i] in left
    ensures Additional(schema, additional, names, value, n).nodes <=
            n + Times(Nodes(additional), Wanted(value.keys, value.items, left))
    decreases Nodes(additional), 4, |names|
  {
    hide Times, Object, Nodes, WellFormed, IsDeclared, Wanted, Get;
    if names != [] {
      var name, rest := names[0], left - {names[0]};
      TakeWanted(value.keys, value.items, left, name);
      assert value == Obj(value.keys, value.items);
      assert AreDistinct(names[1..]) && forall i :: 0 <= i < |names[1..]| ==> names[1..][i] in rest;
      Distribute(Below(value, name), Wanted(value.keys, value.items, rest), Nodes(additional));
      if IsDeclared(schema, name) || !HasKey(value, name) {
        AdditionalTakes(schema, additional, names[1..], value, n, rest);
        Grow(0, Below(value, name), Nodes(additional));
      } else if n + 1 <= MAX_NODES {
        var field := Get(value, name).value;
        FieldIsWellFormed(value, name);
        ObjectTakes(additional, field, n + 1);
        Distribute(1, Nodes(additional) - 1, Nodes(field));
        Once(Nodes(field));
        AdditionalTakes(schema, additional, names[1..], value, Object(additional, field, n + 1).nodes, rest);
      } else {
        Once(Below(value, name));
        Grow(1, Nodes(additional), Below(value, name));
      }
    }
  }

  lemma {:induction false} EachItemTakes(schema: Value, values: seq<Value>, n: nat)
    requires forall i :: 0 <= i < |values| ==> WellFormed(values[i])
    ensures EachItem(schema, values, n).nodes <= n + Times(Nodes(schema), NodesOf(values))
    decreases Nodes(schema), 4, |values|
  {
    hide Times, Inner, Nodes, WellFormed;
    if values != [] {
      InnerTakes(schema, values[0], n);
      EachItemTakes(schema, values[1..], Inner(schema, values[0], n).nodes);
      Distribute(Nodes(values[0]), NodesOf(values[1..]), Nodes(schema));
    }
  }

  /** The candidates below a keyword are fewer nodes than the keyword's value. */
  lemma {:induction false} CandidatesBelow(schema: Value, keyword: string)
    ensures var cs := Candidates(schema, keyword); cs.Some? ==> NodesOf(cs.value) <= Below(schema, keyword)
  {
  }

  lemma {:induction false} ListsTake(schema: Value, value: Value, n: nat)
    requires schema.Obj? && WellFormed(value)
    ensures AnyOf(schema, value, n).nodes <= n + Times(Below(schema, "anyOf"), Nodes(value))
    ensures OneOf(schema, value, n).nodes <= n + Times(Below(schema, "oneOf"), Nodes(value))
    ensures AllOf(schema, value, n).nodes <= n + Times(Below(schema, "allOf"), Nodes(value))
    decreases Nodes(schema), 1, 0
  {
    var any, one, all := Candidates(schema, "anyOf"), Candidates(schema, "oneOf"), Candidates(schema, "allOf");
    CandidatesBelow(schema, "anyOf");
    CandidatesBelow(schema, "oneOf");
    CandidatesBelow(schema, "allOf");
    hide Times, Candidates, Below, FirstOf, CountOf, EachOf, Nodes, WellFormed;
    var m := Nodes(value);
    if any.Some? {
      FirstOfTakes(any.value, value, n);
      Grow(NodesOf(any.value), Below(schema, "anyOf"), m);
    }
    if one.Some? {
      CountOfTakes(one.value, value, n);
      Grow(NodesOf(one.value), Below(schema, "oneOf"), m);
    }
    if all.Some? {
      EachOfTakes(all.value, value, n);
      Grow(NodesOf(all.value), Below(schema, "allOf"), m);
    }
  }

  lemma {:induction false} PropertiesTake(schema: Value, value: Value, n: nat)
    requires schema.Obj? && WellFormed(value)
    ensures Properties(schema, value, n).nodes <=
            n + Times(Below(schema, "properties"), Nodes(value))
                + Times(Below(schema, "additionalProperties"), Nodes(value))
    decreases Nodes(schema), 1, 0
  {
    var m, props, adds := Nodes(value), Below(schema, "properties"), Below(schema, "additionalProperties");
    if value.Obj? {
      var properties, additional := Get(schema, "properties"), Get(schema, "additionalProperties");
      var d := Run(true, n);
      if properties.Some? && properties.value.Obj? {
        assert NodesOf(properties.value.items) <= props;
        hide Times, Get, WellFormed, Declared, Additional, RequiredHolds, NoUnknownProperty, Nodes;
        d := Declared(properties.value.keys, properties.value.items, value, n);
        DeclaredTakes(properties.value.keys, properties.value.items, value, n);
        Grow(NodesOf(properties.value.items), props, m);
      }
      if additional.Some? && additional.value.Obj? {
        AdditionalOfAll(schema, additional.value, value, d.nodes);
        assert adds == Nodes(additional.value);
      }
    }
  }

  lemma {:induction false} AdditionalOfAll(schema: Value, additional: Value, value: Value, n: nat)
    requires WellFormed(value) && value.Obj? && additional.Obj?
    ensures Additional(schema, additional, Names(value), value, n).nodes <= n + Times(Nodes(additional), Nodes(value))
    decreases Nodes(additional), 5, 0
  {
    var names := Names(value);
    var left := set name | name in names;
    assert AreDistinct(names);
    AdditionalTakes(schema, additional, names, value, n, left);
    WantedIsPart(value.keys, value.items, left);
    Grow(Wanted(value.keys, value.items, left), Nodes(value), Nodes(additional));
  }

  lemma {:induction false} ItemsTake(schema: Value, value: Value, n: nat)
    requires schema.Obj? && WellFormed(value)
    ensures Items(schema, value, n).nodes <= n + Times(Below(schema, "items"), Nodes(value))
    decreases Nodes(schema), 1, 0
  {
    var items := Get(schema, "items");
    if items.Some? && value.Arr? {
      EachItemTakes(items.value, value.items, n);
      Grow(NodesOf(value.items), Nodes(value), Nodes(items.value));
    }
  }

  lemma {:induction false} ObjectTakes(schema: Value, value: Value, n: nat)
    requires schema.Obj? && WellFormed(value)
    ensures Object(schema, value, n).nodes <= n + Times(Nodes(schema) - 1, Nodes(value))
    decreases Nodes(schema), 2, 0
  {
    hide Times, AnyOf, OneOf, AllOf, Properties, Items, ConstAndEnumHold, TypeHolds, BoundsHold, Below, Nodes,
         WellFormed;
    KeywordsShareNodes(schema);
    var m := Nodes(value);
    var any, one, all := Below(schema, "anyOf"), Below(schema, "oneOf"), Below(schema, "allOf");
    var props, adds, items := Below(schema, "properties"), Below(schema, "additionalProperties"),
      Below(schema, "items");
    Grow(any + one + all + props + adds + items, Nodes(schema) - 1, m);
    SumTimes(any, one, all, props, adds, items, m);
    var a := AnyOf(schema, value, n);
    ListsTake(schema, value, n);
    var o := OneOf(schema, value, a.nodes);
    ListsTake(schema, value, a.nodes);
    var l := AllOf(schema, value, o.nodes);
    ListsTake(schema, value, o.nodes);
    var p := Properties(schema, value, l.nodes);
    PropertiesTake(schema, value, l.nodes);
    ItemsTake(schema, value, p.nodes);
  }

  lemma {:induction false} SumTimes(a: nat, b: nat, c: nat, d: nat, e: nat, f: nat, m: nat)
    ensures Times(a + b + c + d + e + f, m) ==
              Times(a, m) + Times(b, m) + Times(c, m) + Times(d, m) + Times(e, m) + Times(f, m)
  {
    hide Times;
    Distribute(a + b + c + d + e, f, m);
    Distribute(a + b + c + d, e, m);
    Distribute(a + b + c, d, m);
    Distribute(a + b, c, m);
    Distribute(a, b, m);
  }

  // ---------------------------------------------------------------- what a caller can check

  /**
   When the nodes of schema and value multiply to no more than the budget, the counter cannot run
   out: the verdict is the schema's meaning, oneOf or not.
   */
  lemma {:induction false} SmallInputsValidateExactly(schema: Value, value: Value)
    requires WellFormed(value) && Nodes(schema) * Nodes(value) <= MAX_NODES
    ensures Inner(schema, value, 0).nodes <= Nodes(schema) * Nodes(value)
    ensures Validates(schema, value) <==> PassesPreflight(schema) && PassesPreflight(value) && Satisfies(schema, value)
  {
    hide Inner, Satisfies, Nodes, Height;
    InnerTakes(schema, value, 0);
    if PassesPreflight(schema) && PassesPreflight(value) { ValidatesExactly(schema, value); }
  }
}
