/**
 The fingerprint of a failed tool call joins tool name, arguments, error code and output by bare
 colons, and still tells all of them: no canonical text ends, after a colon of its own, in another
 canonical text. That is seen by reading quotes and brackets, from whatever state.
 */
module FailureFingerprint {
  import opened CanonicalJson
  import opened JsonValue

  // ---------------------------------------------------------------- reading quotes and brackets

  /** Whether a string is open, whether the last character was an escaping backslash, and how many brackets are open. */
  datatype Lex = Lex(inside: bool, escaped: bool, depth: int)

  function Step(s: Lex, c: char): Lex {
    if s.escaped then s.(escaped := false)
    else if c == '\\' then s.(escaped := true)
    else if c == '\"' then s.(inside := !s.inside)
    else if s.inside then s
    else if c == '{' || c == '[' then s.(depth := s.depth + 1)
    else if c == '}' || c == ']' then s.(depth := s.depth - 1)
    else s
  }

  function Run(t: string, s: Lex): Lex {
    if t == "" then s else Run(t[1..], Step(s, t[0]))
  }

  /** Every colon is inside a string or more than d brackets deep. */
  predicate ColonsDeep(t: string, s: Lex, d: int) {
    t == "" || ((t[0] == ':' ==> s.inside || s.depth > d) && ColonsDeep(t[1..], Step(s, t[0]), d))
  }

  lemma {:induction false} RunAppend(a: string, b: string, s: Lex, d: int)
    ensures Run(a + b, s) == Run(b, Run(a, s))
    ensures ColonsDeep(a + b, s, d) <==> ColonsDeep(a, s, d) && ColonsDeep(b, Run(a, s), d)
    decreases |a|
  {
    hide Step;
    if a == "" {
      assert a + b == b;
    } else {
      assert (a + b)[1..] == a[1..] + b;
      RunAppend(a[1..], b, Step(s, a[0]), d);
    }
  }

  lemma {:induction false} RunOne(c: char, s: Lex, d: int)
    ensures Run([c], s) == Step(s, c)
    ensures ColonsDeep([c], s, d) <==> (c == ':' ==> s.inside || s.depth > d)
  {
    assert [c][1..] == "";
  }

  lemma {:induction false} DeeperToo(t: string, s: Lex, d: int, e: int)
    requires ColonsDeep(t, s, d) && e <= d
    ensures ColonsDeep(t, s, e)
    decreases |t|
  {
    hide Step;
    if t != "" { DeeperToo(t[1..], Step(s, t[0]), d, e); }
  }

  // ---------------------------------------------------------------- what the parts of a canonical text do

  /** A character that is no quote, backslash, bracket or colon. */
  predicate IsNeutral(c: char) { c != '\"' && c != '\\' && c != '{' && c != '}' && c != '[' && c != ']' && c != ':' }

  lemma {:induction false} NeutralReads(t: string, s: Lex, d: int)
    requires !s.escaped && forall i :: 0 <= i < |t| ==> IsNeutral(t[i])
    ensures Run(t, s) == s && ColonsDeep(t, s, d)
    decreases |t|
  {
    if t != "" { NeutralReads(t[1..], s, d); }
  }

  /** One escaped character opens and closes no string, and inside of one does nothing. */
  lemma {:induction false} EscapeReads(c: char, s: Lex, d: int)
    requires !s.escaped
    ensures var e := Run(Escape(c), s);
            !e.escaped && e.inside == s.inside && (s.inside ==> e == s && ColonsDeep(Escape(c), s, d))
  {
    var t := Escape(c);
    if c == '\"' || c == '\\' || (c as int) < 32 {
      assert t == [t[0]] + t[1..] && t[1..] == [t[1]] + t[2..];
      RunAppend([t[0]], t[1..], s, d);
      RunOne(t[0], s, d);
      RunAppend([t[1]], t[2..], Step(s, t[0]), d);
      RunOne(t[1], Step(s, t[0]), d);
      assert Step(Step(s, t[0]), t[1]) == s;
      NeutralReads(t[2..], s, d);
    } else {
      RunOne(c, s, d);
    }
  }

  lemma {:induction false} EscapeAllReads(x: string, s: Lex, d: int)
    requires !s.escaped
    ensures var e := Run(EscapeAll(x), s);
            !e.escaped && e.inside == s.inside && (s.inside ==> e == s && ColonsDeep(EscapeAll(x), s, d))
    decreases |x|
  {
    hide Escape, Step;
    if x != "" {
      EscapeReads(x[0], s, d);
      RunAppend(Escape(x[0]), EscapeAll(x[1..]), s, d);
      EscapeAllReads(x[1..], Run(Escape(x[0]), s), d);
    }
  }

  // ---------------------------------------------------------------- canonical texts read inside a string

  /** Read inside an open string, the text leaves one open: it opens and closes as many. */
  predicate StaysInside(t: string, s: Lex) { Run(t, s).inside && !Run(t, s).escaped }

  lemma {:induction false} InsideThen(a: string, b: string, s: Lex)
    requires StaysInside(a, s) && StaysInside(b, Run(a, s))
    ensures StaysInside(a + b, s)
  {
    RunAppend(a, b, s, 0);
  }

  lemma {:induction false} InsideOne(c: char, s: Lex)
    requires s.inside && !s.escaped && c != '\"' && c != '\\'
    ensures StaysInside([c], s) && Run([c], s) == s
  {
    RunOne(c, s, 0);
  }

  lemma {:induction false} QuoteInside(x: string, s: Lex)
    requires s.inside && !s.escaped
    ensures StaysInside(Quote(x), s)
  {
    hide EscapeAll;
    var body, outside := EscapeAll(x), Step(s, '\"');
    assert Quote(x) == ['\"'] + (body + ['\"']);
    RunAppend(['\"'], body + ['\"'], s, 0);
    RunOne('\"', s, 0);
    RunAppend(body, ['\"'], outside, 0);
    EscapeAllReads(x, outside, 0);
    RunOne('\"', Run(body, outside), 0);
  }

  /** A text between two characters that are no quote or backslash. */
  lemma {:induction false} BetweenInside(open: char, t: string, close: char, s: Lex)
    requires s.inside && !s.escaped && StaysInside(t, s)
    requires open != '\"' && open != '\\' && close != '\"' && close != '\\'
    ensures StaysInside([open] + t + [close], s)
  {
    hide Run, Step;
    InsideOne(open, s);
    InsideThen([open], t, s);
    RunAppend([open], t, s, 0);
    InsideOne(close, Run([open] + t, s));
    InsideThen([open] + t, [close], s);
  }

  /** Two texts with a character between them that is no quote or backslash. */
  lemma {:induction false} AcrossInside(a: string, c: char, b: string, s: Lex)
    requires s.inside && !s.escaped && StaysInside(a, s) && c != '\"' && c != '\\' && StaysInside(b, Run(a, s))
    ensures StaysInside(a + [c] + b, s) && Run(a + [c] + b, s) == Run(b, Run(a, s))
  {
    hide Run, Step;
    InsideOne(c, Run(a, s));
    InsideThen(a, [c], s);
    RunAppend(a, [c], s, 0);
    InsideThen(a + [c], b, s);
    RunAppend(a + [c], b, s, 0);
  }

  lemma {:induction false} CanonInside(v: Value, s: Lex)
    requires WellFormed(v) && s.inside && !s.escaped
    ensures StaysInside(Canon(v), s)
    decreases Nodes(v), 1, 0
  {
    WellFormedParts(v);
    hide Run, Step, WellFormed, JoinItems, JoinEntries, Sorted, Quote, StaysInside;
    match v
    case Str(x) => QuoteInside(x, s);
    case Arr(items) =>
      ItemsInside(items, s);
      BetweenInside('[', JoinItems(items), ']', s);
      assert "[" == ['['] && "]" == [']'];
    case Obj(keys, items) =>
      EntriesInside(Sorted(keys, items), s);
      BetweenInside('{', JoinEntries(Sorted(keys, items)), '}', s);
      assert "{" == ['{'] && "}" == ['}'];
    case _ => LeafInside(v, s);
  }

  lemma {:induction false} LeafInside(v: Value, s: Lex)
    requires WellFormed(v) && s.inside && !s.escaped && (v.Null? || v.Bool? || v.Num?)
    ensures StaysInside(Canon(v), s)
  {
    LeafIsNeutral(v);
    hide Canon;
    NeutralReads(Canon(v), s, 0);
  }

  lemma {:induction false} LeafIsNeutral(v: Value)
    requires WellFormed(v) && (v.Null? || v.Bool? || v.Num?)
    ensures forall i :: 0 <= i < |Canon(v)| ==> IsNeutral(Canon(v)[i])
  {
    if v.Num? {
      hide Printed;
      PrintedIsNumeric(v.n);
    }
  }

  lemma {:induction false} ItemsInside(items: seq<Value>, s: Lex)
    requires AllWellFormed(items) && s.inside && !s.escaped
    ensures StaysInside(JoinItems(items), s)
    decreases NodesOf(items), 2, |items|
  {
    if items != [] {
      hide Run, Step, WellFormed, Canon;
      CanonInside(items[0], s);
      if |items| > 1 {
        ItemsInside(items[1..], Run(Canon(items[0]), s));
        AcrossInside(Canon(items[0]), ',', JoinItems(items[1..]), s);
        assert "," == [','];
      }
    }
  }

  lemma {:induction false} EntriesInside(entries: seq<Entry>, s: Lex)
    requires EntriesWellFormed(entries) && s.inside && !s.escaped
    ensures StaysInside(JoinEntries(entries), s)
    decreases EntryNodes(entries), 2, |entries|
  {
    if entries != [] {
      hide Run, Step, WellFormed, Canon, Quote;
      var key, value := Quote(entries[0].0), Canon(entries[0].1);
      QuoteInside(entries[0].0, s);
      CanonInside(entries[0].1, Run(key, s));
      AcrossInside(key, ':', value, s);
      assert ":" == [':'];
      if |entries| > 1 {
        EntriesInside(entries[1..], Run(key + ":" + value, s));
        AcrossInside(key + ":" + value, ',', JoinEntries(entries[1..]), s);
        assert "," == [','];
      }
    }
  }

  // ---------------------------------------------------------------- canonical texts read outside

  /**
   Read outside of strings, the text closes what it opens, and its colons are in strings or more than d
   brackets deep.
   */
  predicate StaysOutside(t: string, s: Lex, d: int) { Run(t, s) == s && ColonsDeep(t, s, d) }

  lemma {:induction false} OutsideThen(a: string, b: string, s: Lex, d: int)
    requires StaysOutside(a, s, d) && StaysOutside(b, s, d)
    ensures StaysOutside(a + b, s, d)
  {
    RunAppend(a, b, s, d);
  }

  lemma {:induction false} OutsideOne(c: char, s: Lex, d: int)
    requires !s.inside && !s.escaped && (IsNeutral(c) || (c == ':' && s.depth > d))
    ensures StaysOutside([c], s, d)
  {
    RunOne(c, s, d);
  }

  lemma {:induction false} OutsideLooser(t: string, s: Lex, d: int, e: int)
    requires StaysOutside(t, s, d) && e <= d
    ensures StaysOutside(t, s, e)
  {
    hide Run;
    DeeperToo(t, s, d, e);
  }

  lemma {:induction false} QuoteOutside(x: string, s: Lex, d: int)
    requires !s.inside && !s.escaped
    ensures StaysOutside(Quote(x), s, d)
  {
    hide EscapeAll;
    var body, inside := EscapeAll(x), Step(s, '\"');
    assert Quote(x) == ['\"'] + (body + ['\"']);
    RunAppend(['\"'], body + ['\"'], s, d);
    RunOne('\"', s, d);
    RunAppend(body, ['\"'], inside, d);
    EscapeAllReads(x, inside, d);
    RunOne('\"', inside, d);
  }

  lemma {:induction false} BracketsOutside(open: char, t: string, close: char, s: Lex)
    requires !s.inside && !s.escaped && ((open == '[' && close == ']') || (open == '{' && close == '}'))
    requires StaysOutside(t, Step(s, open), s.depth)
    ensures StaysOutside([open] + t + [close], s, s.depth)
  {
    hide Run, ColonsDeep;
    RunAppend([open], t, s, s.depth);
    RunOne(open, s, s.depth);
    RunAppend([open] + t, [close], s, s.depth);
    RunOne(close, Step(s, open), s.depth);
  }

  lemma {:induction false} CanonOutside(v: Value, s: Lex)
    requires WellFormed(v) && !s.inside && !s.escaped
    ensures StaysOutside(Canon(v), s, s.depth)
    decreases Nodes(v), 1, 0
  {
    WellFormedParts(v);
    hide Run, ColonsDeep, WellFormed, JoinItems, JoinEntries, Sorted, Quote, StaysOutside;
    match v
    case Str(x) => QuoteOutside(x, s, s.depth);
    case Arr(items) =>
      ItemsOutside(items, Step(s, '['));
      BracketsOutside('[', JoinItems(items), ']', s);
      assert "[" == ['['] && "]" == [']'];
    case Obj(keys, items) =>
      EntriesOutside(Sorted(keys, items), Step(s, '{'));
      BracketsOutside('{', JoinEntries(Sorted(keys, items)), '}', s);
      assert "{" == ['{'] && "}" == ['}'];
    case _ => LeafOutside(v, s);
  }

  lemma {:induction false} LeafOutside(v: Value, s: Lex)
    requires WellFormed(v) && !s.inside && !s.escaped && (v.Null? || v.Bool? || v.Num?)
    ensures StaysOutside(Canon(v), s, s.depth)
  {
    LeafIsNeutral(v);
    hide Canon;
    NeutralReads(Canon(v), s, s.depth);
  }

  lemma {:induction false} ItemsOutside(items: seq<Value>, s: Lex)
    requires AllWellFormed(items) && !s.inside && !s.escaped
    ensures StaysOutside(JoinItems(items), s, s.depth - 1)
    decreases NodesOf(items), 2, |items|
  {
    if items != [] {
      hide Run, ColonsDeep, StaysOutside, WellFormed, Canon;
      var d := s.depth - 1;
      CanonOutside(items[0], s);
      OutsideLooser(Canon(items[0]), s, s.depth, d);
      if |items| > 1 {
        ItemsOutside(items[1..], s);
        OutsideOne(',', s, d);
        assert "," == [','];
        OutsideThen(Canon(items[0]), ",", s, d);
        OutsideThen(Canon(items[0]) + ",", JoinItems(items[1..]), s, d);
      }
    }
  }

  lemma {:induction false} EntriesOutside(entries: seq<Entry>, s: Lex)
    requires EntriesWellFormed(entries) && !s.inside && !s.escaped
    ensures StaysOutside(JoinEntries(entries), s, s.depth - 1)
    decreases EntryNodes(entries), 2, |entries|
  {
    if entries != [] {
      hide Run, ColonsDeep, StaysOutside, WellFormed, Canon, Quote;
      var d, key, value := s.depth - 1, Quote(entries[0].0), Canon(entries[0].1);
      QuoteOutside(entries[0].0, s, d);
      OutsideOne(':', s, d);
      assert ":" == [':'] && "," == [','];
      CanonOutside(entries[0].1, s);
      OutsideLooser(value, s, s.depth, d);
      OutsideThen(key, ":", s, d);
      OutsideThen(key + ":", value, s, d);
      if |entries| > 1 {
        EntriesOutside(entries[1..], s);
        OutsideOne(',', s, d);
        OutsideThen(key + ":" + value, ",", s, d);
        OutsideThen(key + ":" + value + ",", JoinEntries(entries[1..]), s, d);
      }
    }
  }

  // ---------------------------------------------------------------- no canonical text ends in another after a colon

  const OUTSIDE: Lex := Lex(false, false, 0)

  /**
   A colon of a canonical text stands in a string, and then what follows it has an odd number of
   unescaped quotes, or in an object, and then what follows closes more brackets than it opens. A
   canonical text does neither.
   */
  lemma {:induction false} NoCanonicalSuffix(v: Value, before: string, w: Value)
    requires WellFormed(v) && WellFormed(w)
    ensures Canon(v) != before + ":" + Canon(w)
  {
    hide Canon, WellFormed, Run, ColonsDeep;
    CanonOutside(v, OUTSIDE);
    var at := Run(before, OUTSIDE);
    RunAppend(before, ":", OUTSIDE, 0);
    RunAppend(before + ":", Canon(w), OUTSIDE, 0);
    assert ":" == [':'];
    RunOne(':', at, 0);
    var after := Step(at, ':');
    if after.inside { CanonInside(w, after); } else { CanonOutside(w, after); }
  }

  /** A canonical text at the end, after a colon, is told from what stands before it. */
  lemma {:induction false} SplitBeforeCanon(p: string, v: Value, q: string, w: Value)
    requires WellFormed(v) && WellFormed(w) && p + ":" + Canon(v) == q + ":" + Canon(w)
    ensures p == q && Canon(v) == Canon(w)
  {
    hide WellFormed, Canon;
    var a, b := Canon(v), Canon(w);
    if |a| > |b| {
      LongerTail(p, a, q, b);
      NoCanonicalSuffix(v, a[..|a| - |b| - 1], w);
    } else if |b| > |a| {
      LongerTail(q, b, p, a);
      NoCanonicalSuffix(w, b[..|b| - |a| - 1], v);
    } else {
      SameTail(p, a, q, b);
    }
  }

  lemma {:induction false} LongerTail(p: string, a: string, q: string, b: string)
    requires p + ":" + a == q + ":" + b && |a| > |b|
    ensures a == a[..|a| - |b| - 1] + ":" + b && ':' in a
  {
    var t, k := p + ":" + a, |p| + 1;
    assert a == t[k..];
    assert t[|q|] == ':' && t[|q| + 1..] == b;
    assert a == a[..|q| - k] + [a[|q| - k]] + a[|q| - k + 1..];
    assert a[|q| - k + 1..] == b && a[|q| - k] == ':';
  }

  lemma {:induction false} SameTail(p: string, a: string, q: string, b: string)
    requires p + ":" + a == q + ":" + b && |a| == |b|
    ensures p == q && a == b
  {
    var t := p + ":" + a;
    assert p == t[..|p|] && q == t[..|q|] && a == t[|p| + 1..] && b == t[|q| + 1..];
  }

  /** The last colon of a text tells a colon-free end from what stands before it. */
  lemma {:induction false} SplitAtLastColon(p: string, a: string, q: string, b: string)
    requires p + ":" + a == q + ":" + b && ':' !in a && ':' !in b
    ensures p == q && a == b
  {
    if |a| > |b| {
      LongerTail(p, a, q, b);
    } else if |b| > |a| {
      LongerTail(q, b, p, a);
    } else {
      SameTail(p, a, q, b);
    }
  }

  // ---------------------------------------------------------------- the fingerprint

  /** The fingerprint of a failed call: tool name, arguments, error code and stabilised output. */
  function Fingerprint(name: string, arguments: Value, code: string, output: Value): string {
    name + ":" + Canon(arguments) + ":" + code + ":" + Canon(Stable(output))
  }

  /**
   Two failures count as the same exactly when tool, arguments and error code agree and the
   outputs agree but for duration_ms, whatever the tool is called. Error codes hold no colon.
   */
  lemma {:induction false} FingerprintIdentifiesFailure(name: string, arguments: Value, code: string, output: Value,
                                                        name': string, arguments': Value, code': string, output': Value)
    requires ':' !in code && ':' !in code'
    requires WellFormed(arguments) && WellFormed(arguments') && WellFormed(output) && WellFormed(output')
    ensures Fingerprint(name, arguments, code, output) == Fingerprint(name', arguments', code', output')
       <==> name == name' && Same(arguments, arguments') && code == code' && SameButDuration(output, output')
  {
    StableWellFormed(output);
    StableWellFormed(output');
    hide Canon, Same, WellFormed, Stable, SameButDuration;
    StableForgetsDuration(output, output');
    CanonIsFaithful(arguments, arguments');
    CanonIsFaithful(Stable(output), Stable(output'));
    if Fingerprint(name, arguments, code, output) == Fingerprint(name', arguments', code', output') {
      var called, called' := name + ":" + Canon(arguments), name' + ":" + Canon(arguments');
      SplitBeforeCanon(called + ":" + code, Stable(output), called' + ":" + code', Stable(output'));
      SplitAtLastColon(called, code, called', code');
      SplitBeforeCanon(name, arguments, name', arguments');
    }
  }
}
