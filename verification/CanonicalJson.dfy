/**
 The canonical JSON text behind the repeated-error detector: objects are printed with their keys
 sorted, so two values print the same exactly when they are equal as JSON values.
 */
module CanonicalJson {
  import opened ByteStrings
  import opened JsonValue

  // ---------------------------------------------------------------- strings

  function HexDigit(n: nat): char
    requires n < 16
  {
    if n < 10 then '0' + n as char else 'a' + (n - 10) as char
  }

  /** serde_json's escape of one character. */
  function Escape(c: char): (e: string)
    ensures e != []
  {
    if c == '\"' then "\\\""
    else if c == '\\' then "\\\\"
    else if c as int == 8 then "\\b"
    else if c as int == 9 then "\\t"
    else if c as int == 10 then "\\n"
    else if c as int == 12 then "\\f"
    else if c as int == 13 then "\\r"
    else if (c as int) < 32 then "\\u00" + [HexDigit((c as int) / 16), HexDigit((c as int) % 16)]
    else [c]
  }

  function EscapeAll(s: string): string {
    if s == [] then [] else Escape(s[0]) + EscapeAll(s[1..])
  }

  function Quote(s: string): string { "\"" + EscapeAll(s) + "\"" }

  /** No escape is a prefix of another, and none starts with a bare quote. */
  lemma {:induction false} EscapeIsPrefixFree(a: char, b: char, x: string, y: string)
    requires Escape(a) + x == Escape(b) + y
    ensures a == b && x == y
  {
    var e, f := Escape(a) + x, Escape(b) + y;
    assert e[0] == Escape(a)[0] && f[0] == Escape(b)[0];
    if (a as int) < 32 || a == '\"' || a == '\\' {
      assert e[1] == Escape(a)[1] && f[1] == Escape(b)[1];
      if e[1] == 'u' {
        assert e[4] == Escape(a)[4] && e[5] == Escape(a)[5] && f[4] == Escape(b)[4] && f[5] == Escape(b)[5];
        HexInjective((a as int) / 16, (b as int) / 16);
        HexInjective((a as int) % 16, (b as int) % 16);
        assert (a as int) == 16 * ((a as int) / 16) + (a as int) % 16;
        assert (b as int) == 16 * ((b as int) / 16) + (b as int) % 16;
      }
    }
    assert a == b;
    assert x == e[|Escape(a)|..] && y == f[|Escape(b)|..];
  }

  lemma {:induction false} HexInjective(m: nat, n: nat)
    requires m < 16 && n < 16
    ensures HexDigit(m) == HexDigit(n) ==> m == n
  {
  }

  /** A quoted string ends at its own closing quote, whatever follows. */
  lemma {:induction false} EscapedEndsAtQuote(s: string, t: string, x: string, y: string)
    requires EscapeAll(s) + ("\"" + x) == EscapeAll(t) + ("\"" + y)
    ensures s == t && x == y
    decreases |s|
  {
    hide Escape;
    NotQuote(s, "\"" + x);
    NotQuote(t, "\"" + y);
    if s == [] || t == [] {
      assert s == [] && t == [];
      assert ("\"" + x)[1..] == x && ("\"" + y)[1..] == y;
    } else {
      var u, v := EscapeAll(s[1..]) + ("\"" + x), EscapeAll(t[1..]) + ("\"" + y);
      assert EscapeAll(s) + ("\"" + x) == Escape(s[0]) + u;
      assert EscapeAll(t) + ("\"" + y) == Escape(t[0]) + v;
      EscapeIsPrefixFree(s[0], t[0], u, v);
      EscapedEndsAtQuote(s[1..], t[1..], x, y);
      assert s == [s[0]] + s[1..] && t == [t[0]] + t[1..];
    }
  }

  /** An escaped text starts with a bare quote only where it is empty. */
  lemma {:induction false} NotQuote(s: string, rest: string)
    ensures s == [] ==> EscapeAll(s) + rest == rest
    ensures s != [] ==> EscapeAll(s) + rest != [] && (EscapeAll(s) + rest)[0] != '\"'
  {
    if s != [] {
      assert (EscapeAll(s) + rest)[0] == Escape(s[0])[0];
    }
  }

  lemma {:induction false} QuotedEnds(s: string, t: string, x: string, y: string)
    requires Quote(s) + x == Quote(t) + y
    ensures s == t && x == y
  {
    hide EscapeAll;
    QuotedTail(s, x);
    QuotedTail(t, y);
    EscapedEndsAtQuote(s, t, x, y);
  }

  lemma {:induction false} QuotedTail(s: string, x: string)
    ensures (Quote(s) + x)[1..] == EscapeAll(s) + ("\"" + x)
  {
  }

  // ---------------------------------------------------------------- numbers

  function Digits(n: nat): (d: string)
    ensures d != []
  {
    if n < 10 then ['0' + n as char] else Digits(n / 10) + ['0' + (n % 10) as char]
  }

  function Printed(n: Number): string {
    match n
    case Unsigned(u) => Digits(u)
    case Negative(i) => "-" + Digits(-(i as int))
    case Double(text) => text
  }

  lemma {:induction false} DigitsAreDigits(n: nat)
    ensures forall i :: 0 <= i < |Digits(n)| ==> '0' <= Digits(n)[i] <= '9'
    decreases n
  {
    if n >= 10 { DigitsAreDigits(n / 10); }
  }

  lemma {:induction false} DigitsInjective(m: nat, n: nat)
    requires Digits(m) == Digits(n)
    ensures m == n
    decreases m + n
  {
    var d, e := Digits(m), Digits(n);
    assert d[|d| - 1] == '0' + (m % 10) as char && e[|e| - 1] == '0' + (n % 10) as char;
    assert m % 10 == n % 10;
    if m >= 10 && n >= 10 {
      assert d[..|d| - 1] == Digits(m / 10) && e[..|e| - 1] == Digits(n / 10);
      DigitsInjective(m / 10, n / 10);
    }
  }

  lemma {:induction false} PrintedIsNumeric(n: Number)
    requires NumberOk(n)
    ensures var p := Printed(n);
            p != [] && (p[0] == '-' || '0' <= p[0] <= '9') && forall i :: 0 <= i < |p| ==> IsNumeric(p[i])
  {
    match n
    case Unsigned(u) => DigitsAreDigits(u);
    case Negative(i) => DigitsAreDigits(-(i as int));
    case Double(_) =>
  }

  lemma {:induction false} IntegersShowNoPoint(n: Number)
    requires !n.Double?
    ensures forall i :: 0 <= i < |Printed(n)| ==> Printed(n)[i] != '.' && Printed(n)[i] != 'e'
    ensures Printed(n) != [] && (n.Negative? <==> Printed(n)[0] == '-')
  {
    if n.Unsigned? { DigitsAreDigits(n.u); } else { DigitsAreDigits(-(n.i as int)); }
  }

  lemma {:induction false} PrintedInjective(a: Number, b: Number)
    requires NumberOk(a) && NumberOk(b) && Printed(a) == Printed(b)
    ensures a == b
  {
    hide Digits;
    if !a.Double? { IntegersShowNoPoint(a); }
    if !b.Double? { IntegersShowNoPoint(b); }
    assert a.Double? == b.Double?;
    if a.Unsigned? {
      DigitsInjective(a.u, b.u);
    } else if a.Negative? {
      assert Printed(a)[1..] == Digits(-(a.i as int)) && Printed(b)[1..] == Digits(-(b.i as int));
      DigitsInjective(-(a.i as int), -(b.i as int));
    }
  }

  /** What may follow a value: nothing, or a character no number contains. */
  predicate IsDelimited(x: string) { x == [] || !IsNumeric(x[0]) }

  /** A number ends where its numeric characters end. */
  lemma {:induction false} NumericEnds(p: string, q: string, x: string, y: string)
    requires p + x == q + y && IsDelimited(x) && IsDelimited(y)
    requires forall i :: 0 <= i < |p| ==> IsNumeric(p[i])
    requires forall i :: 0 <= i < |q| ==> IsNumeric(q[i])
    ensures p == q && x == y
  {
    var w := p + x;
    assert forall k :: 0 <= k < |p| ==> w[k] == p[k];
    assert forall k :: 0 <= k < |q| ==> w[k] == q[k];
    assert |p| < |w| ==> w[|p|] == x[0];
    assert |q| < |w| ==> w[|q|] == y[0];
    assert |p| == |q|;
    assert p == (p + x)[..|p|] && q == (q + y)[..|q|] && x == (p + x)[|p|..] && y == (q + y)[|q|..];
  }

  // ---------------------------------------------------------------- sorted entries

  type Entry = (string, Value)

  /** Lexicographic order of strings by code point, which is the byte order of their UTF-8. */
  predicate Less(a: string, b: string) {
    b != [] && (a == [] || a[0] < b[0] || (a[0] == b[0] && Less(a[1..], b[1..])))
  }

  lemma {:induction false} LessTotal(a: string, b: string)
    ensures a == b || Less(a, b) || Less(b, a)
    ensures !(Less(a, b) && Less(b, a)) && !Less(a, a)
    decreases |a|
  {
    if a != [] {
      LessTotal(a[1..], a[1..]);
      if b != [] {
        LessTotal(a[1..], b[1..]);
        assert a == [a[0]] + a[1..] && b == [b[0]] + b[1..];
      }
    }
  }

  lemma {:induction false} LessTransitive(a: string, b: string, c: string)
    requires Less(a, b) && Less(b, c)
    ensures Less(a, c)
    decreases |a|
  {
    if a != [] && a[0] == b[0] && b[0] == c[0] { LessTransitive(a[1..], b[1..], c[1..]); }
  }

  function EntryNodes(entries: seq<Entry>): nat {
    if entries == [] then 0 else Nodes(entries[0].1) + EntryNodes(entries[1..])
  }

  function Insert(e: Entry, sorted: seq<Entry>): (r: seq<Entry>)
    ensures EntryNodes(r) == Nodes(e.1) + EntryNodes(sorted)
  {
    if sorted == [] || Less(e.0, sorted[0].0) then
      assert ([e] + sorted)[1..] == sorted;
      [e] + sorted
    else
      var rest := Insert(e, sorted[1..]);
      assert ([sorted[0]] + rest)[1..] == rest;
      [sorted[0]] + rest
  }

  /** The entries of an object sorted by key. */
  function Sorted(keys: seq<string>, items: seq<Value>): (r: seq<Entry>)
    requires |keys| == |items|
    ensures EntryNodes(r) == NodesOf(items)
  {
    if keys == [] then [] else Insert((keys[0], items[0]), Sorted(keys[1..], items[1..]))
  }

  predicate IsSorted(entries: seq<Entry>) {
    forall i, j :: 0 <= i < j < |entries| ==> Less(entries[i].0, entries[j].0)
  }

  lemma {:induction false} InsertSorts(e: Entry, sorted: seq<Entry>)
    requires IsSorted(sorted) && forall i :: 0 <= i < |sorted| ==> sorted[i].0 != e.0
    ensures IsSorted(Insert(e, sorted))
    ensures forall f :: f in Insert(e, sorted) <==> f == e || f in sorted
    ensures |Insert(e, sorted)| == |sorted| + 1
    decreases |sorted|
  {
    hide Less;
    if sorted == [] {
    } else if Less(e.0, sorted[0].0) {
      forall i | 0 < i < |sorted|
        ensures Less(e.0, sorted[i].0)
      {
        LessTransitive(e.0, sorted[0].0, sorted[i].0);
      }
    } else {
      LessTotal(e.0, sorted[0].0);
      var rest := Insert(e, sorted[1..]);
      assert IsSorted(sorted[1..]);
      InsertSorts(e, sorted[1..]);
      var r := [sorted[0]] + rest;
      forall i | 0 < i < |r|
        ensures Less(sorted[0].0, r[i].0)
      {
        assert r[i] in rest;
      }
      assert sorted == [sorted[0]] + sorted[1..];
    }
  }

  /** Sorting keeps exactly the entries, and orders them strictly. */
  lemma {:induction false} SortedIsSorted(keys: seq<string>, items: seq<Value>)
    requires |keys| == |items| && HasUniqueKeys(keys)
    ensures IsSorted(Sorted(keys, items)) && |Sorted(keys, items)| == |keys|
    ensures forall e :: e in Sorted(keys, items) <==> exists i :: 0 <= i < |keys| && e == (keys[i], items[i])
    decreases |keys|
  {
    hide Less, Insert;
    if keys != [] {
      SortedIsSorted(keys[1..], items[1..]);
      var first, rest := (keys[0], items[0]), Sorted(keys[1..], items[1..]);
      forall i | 0 <= i < |rest|
        ensures rest[i].0 != keys[0]
      {
        assert rest[i] in rest;
      }
      InsertSorts(first, rest);
      forall e
        ensures e in Sorted(keys, items) <==> exists i :: 0 <= i < |keys| && e == (keys[i], items[i])
      {
        if e in rest {
          var i :| 0 <= i < |keys[1..]| && e == (keys[1..][i], items[1..][i]);
          assert e == (keys[i + 1], items[i + 1]);
        }
        if exists i :: 0 <= i < |keys| && e == (keys[i], items[i]) {
          var i :| 0 <= i < |keys| && e == (keys[i], items[i]);
          if i > 0 { assert e == (keys[1..][i - 1], items[1..][i - 1]); }
        }
      }
    }
  }

  // ---------------------------------------------------------------- the canonical text

  function Canon(v: Value): string
    decreases Nodes(v), 1, 0
  {
    match v
    case Null => "null"
    case Bool(b) => if b then "true" else "false"
    case Num(n) => Printed(n)
    case Str(s) => Quote(s)
    case Arr(items) => "[" + JoinItems(items) + "]"
    case Obj(keys, items) => if |keys| == |items| then "{" + JoinEntries(Sorted(keys, items)) + "}" else "{}"
  }

  function JoinItems(items: seq<Value>): string
    decreases NodesOf(items), 2, |items|
  {
    if items == [] then ""
    else if |items| == 1 then Canon(items[0])
    else Canon(items[0]) + "," + JoinItems(items[1..])
  }

  function JoinEntries(entries: seq<Entry>): string
    decreases EntryNodes(entries), 2, |entries|
  {
    if entries == [] then ""
    else
      var member := Quote(entries[0].0) + ":" + Canon(entries[0].1);
      if |entries| == 1 then member else member + "," + JoinEntries(entries[1..])
  }

  /** The first character tells what kind of value a text holds. */
  function Kind(v: Value): char {
    match v
    case Null => 'n'
    case Bool(b) => if b then 't' else 'f'
    case Num(_) => '0'
    case Str(_) => '\"'
    case Arr(_) => '['
    case Obj(_, _) => '{'
  }

  lemma {:induction false} CanonStart(v: Value)
    requires WellFormed(v)
    ensures Canon(v) != []
    ensures if v.Num? then Canon(v)[0] == '-' || '0' <= Canon(v)[0] <= '9' else Canon(v)[0] == Kind(v)
  {
    if v.Num? { PrintedIsNumeric(v.n); }
  }

  /** What follows the first item of a list, up to the closing bracket and beyond. */
  function AfterFirst(items: seq<Value>, x: string): string
    requires items != []
  {
    if |items| == 1 then "]" + x else "," + (JoinItems(items[1..]) + ("]" + x))
  }

  lemma {:induction false} JoinItemsStep(items: seq<Value>, x: string)
    ensures items == [] ==> JoinItems(items) + ("]" + x) == "]" + x
    ensures items != [] ==> JoinItems(items) + ("]" + x) == Canon(items[0]) + AfterFirst(items, x)
  {
    hide Canon;
  }

  function AfterFirstEntry(entries: seq<Entry>, x: string): string
    requires entries != []
  {
    if |entries| == 1 then "}" + x else "," + (JoinEntries(entries[1..]) + ("}" + x))
  }

  lemma {:induction false} JoinEntriesStep(entries: seq<Entry>, x: string)
    ensures entries == [] ==> JoinEntries(entries) + ("}" + x) == "}" + x
    ensures entries != [] ==>
              JoinEntries(entries) + ("}" + x)
              == Quote(entries[0].0) + (":" + (Canon(entries[0].1) + AfterFirstEntry(entries, x)))
  {
    hide Canon, Quote;
  }

  predicate AllWellFormed(items: seq<Value>) { forall i :: 0 <= i < |items| ==> WellFormed(items[i]) }

  predicate EntriesWellFormed(entries: seq<Entry>) { forall i :: 0 <= i < |entries| ==> WellFormed(entries[i].1) }

  /** A canonical text ends where its value ends: texts with delimited tails agree only on equal values. */
  lemma {:induction false} CanonEnds(a: Value, b: Value, x: string, y: string)
    requires WellFormed(a) && WellFormed(b) && IsDelimited(x) && IsDelimited(y)
    requires Canon(a) + x == Canon(b) + y
    ensures Same(a, b) && x == y
    decreases Nodes(a), 1, 0
  {
    hide WellFormed, JoinItems, JoinEntries, Printed, Quote, Sorted, Same;
    CanonStart(a);
    CanonStart(b);
    assert (Canon(a) + x)[0] == Canon(a)[0] && (Canon(b) + y)[0] == Canon(b)[0];
    assert Kind(a) == Kind(b);
    match a
    case Null => LiteralEnds(a, b, x, y);
    case Bool(_) => LiteralEnds(a, b, x, y);
    case Num(_) => NumberEnds(a, b, x, y);
    case Str(s) => QuotedEnds(s, b.s, x, y); SameLeaf(a, b);
    case Arr(items) =>
      assert (Canon(a) + x)[1..] == JoinItems(items) + ("]" + x);
      assert (Canon(b) + y)[1..] == JoinItems(b.items) + ("]" + y);
      WellFormedParts(a);
      WellFormedParts(b);
      ItemsEnd(items, b.items, x, y);
      SameArrays(a, b);
    case Obj(keys, items) =>
      WellFormedParts(a);
      WellFormedParts(b);
      assert (Canon(a) + x)[1..] == JoinEntries(Sorted(keys, items)) + ("}" + x);
      assert (Canon(b) + y)[1..] == JoinEntries(Sorted(b.keys, b.items)) + ("}" + y);
      EntriesEnd(Sorted(keys, items), Sorted(b.keys, b.items), x, y);
      SortedAlikeMeansSame(a, b);
  }

  lemma {:induction false} SameLeaf(a: Value, b: Value)
    requires a == b && !a.Arr? && !a.Obj?
    ensures Same(a, b)
  {
  }

  lemma {:induction false} SameArrays(a: Value, b: Value)
    requires a.Arr? && b.Arr? && |a.items| == |b.items| && forall i :: 0 <= i < |a.items| ==>
               Same(a.items[i], b.items[i])
    ensures Same(a, b)
  {
  }

  lemma {:induction false} LiteralEnds(a: Value, b: Value, x: string, y: string)
    requires a.Null? || a.Bool?
    requires Kind(a) == Kind(b) && (b.Null? || b.Bool?)
    requires Canon(a) + x == Canon(b) + y
    ensures Same(a, b) && x == y
  {
    assert Canon(a) == Canon(b);
    DropConcat(Canon(a), x);
    DropConcat(Canon(b), y);
  }

  lemma {:induction false} NumberEnds(a: Value, b: Value, x: string, y: string)
    requires a.Num? && b.Num? && WellFormed(a) && WellFormed(b) && IsDelimited(x) && IsDelimited(y)
    requires Canon(a) + x == Canon(b) + y
    ensures Same(a, b) && x == y
  {
    PrintedIsNumeric(a.n);
    PrintedIsNumeric(b.n);
    NumericEnds(Printed(a.n), Printed(b.n), x, y);
    PrintedInjective(a.n, b.n);
  }

  lemma {:induction false} WellFormedParts(v: Value)
    requires WellFormed(v)
    ensures v.Arr? ==> AllWellFormed(v.items)
    ensures v.Obj? ==> AllWellFormed(v.items) && |v.keys| == |v.items| && HasUniqueKeys(v.keys)
                       && EntriesWellFormed(Sorted(v.keys, v.items))
  {
    if v.Obj? {
      SortedIsSorted(v.keys, v.items);
      var s := Sorted(v.keys, v.items);
      forall i | 0 <= i < |s|
        ensures WellFormed(s[i].1)
      {
        assert s[i] in s;
      }
    }
  }

  lemma {:induction false} ItemsEnd(as_: seq<Value>, bs: seq<Value>, x: string, y: string)
    requires AllWellFormed(as_) && AllWellFormed(bs)
    requires JoinItems(as_) + ("]" + x) == JoinItems(bs) + ("]" + y)
    ensures |as_| == |bs| && (forall i :: 0 <= i < |as_| ==> Same(as_[i], bs[i])) && x == y
    decreases NodesOf(as_), 2, |as_|
  {
    hide Canon, JoinItems, Same, WellFormed;
    JoinItemsStep(as_, x);
    JoinItemsStep(bs, y);
    if as_ != [] { CanonStart(as_[0]); assert (Canon(as_[0]) + AfterFirst(as_, x))[0] == Canon(as_[0])[0]; }
    if bs != [] { CanonStart(bs[0]); assert (Canon(bs[0]) + AfterFirst(bs, y))[0] == Canon(bs[0])[0]; }
    if as_ == [] || bs == [] {
      assert as_ == [] && bs == [];
      assert ("]" + x)[1..] == x && ("]" + y)[1..] == y;
    } else {
      var ra, rb := AfterFirst(as_, x), AfterFirst(bs, y);
      CanonEnds(as_[0], bs[0], ra, rb);
      assert ra[0] == rb[0];
      if |as_| == 1 {
        assert ra[1..] == x && rb[1..] == y;
      } else {
        assert ra[1..] == JoinItems(as_[1..]) + ("]" + x) && rb[1..] == JoinItems(bs[1..]) + ("]" + y);
        ItemsEnd(as_[1..], bs[1..], x, y);
        assert forall i :: 0 < i < |as_| ==> as_[i] == as_[1..][i - 1] && bs[i] == bs[1..][i - 1];
      }
    }
  }

  predicate EntriesAlike(es: seq<Entry>, fs: seq<Entry>) {
    |es| == |fs| && forall i :: 0 <= i < |es| ==> es[i].0 == fs[i].0 && Same(es[i].1, fs[i].1)
  }

  lemma {:induction false} EntriesEnd(es: seq<Entry>, fs: seq<Entry>, x: string, y: string)
    requires EntriesWellFormed(es) && EntriesWellFormed(fs)
    requires JoinEntries(es) + ("}" + x) == JoinEntries(fs) + ("}" + y)
    ensures EntriesAlike(es, fs) && x == y
    decreases EntryNodes(es), 2, |es|
  {
    hide Canon, JoinEntries, Same, WellFormed;
    JoinEntriesStep(es, x);
    JoinEntriesStep(fs, y);
    if es != [] { QuoteStart(es[0].0, ":" + (Canon(es[0].1) + AfterFirstEntry(es, x))); }
    if fs != [] { QuoteStart(fs[0].0, ":" + (Canon(fs[0].1) + AfterFirstEntry(fs, y))); }
    if es == [] || fs == [] {
      assert es == [] && fs == [];
      assert ("}" + x)[1..] == x && ("}" + y)[1..] == y;
    } else {
      hide Quote;
      var ra, rb := AfterFirstEntry(es, x), AfterFirstEntry(fs, y);
      QuotedEnds(es[0].0, fs[0].0, ":" + (Canon(es[0].1) + ra), ":" + (Canon(fs[0].1) + rb));
      assert (":" + (Canon(es[0].1) + ra))[1..] == Canon(es[0].1) + ra;
      assert (":" + (Canon(fs[0].1) + rb))[1..] == Canon(fs[0].1) + rb;
      CanonEnds(es[0].1, fs[0].1, ra, rb);
      assert ra[0] == rb[0];
      if |es| == 1 {
        assert ra[1..] == x && rb[1..] == y;
      } else {
        assert ra[1..] == JoinEntries(es[1..]) + ("}" + x) && rb[1..] == JoinEntries(fs[1..]) + ("}" + y);
        EntriesEnd(es[1..], fs[1..], x, y);
        assert forall i :: 0 < i < |es| ==> es[i] == es[1..][i - 1] && fs[i] == fs[1..][i - 1];
      }
    }
  }

  lemma {:induction false} QuoteStart(s: string, rest: string)
    ensures (Quote(s) + rest) != [] && (Quote(s) + rest)[0] == '\"'
  {
  }

  // ---------------------------------------------------------------- objects as sorted entries

  /** A key of an object with unique keys leads to its own item. */
  lemma {:induction false} GetUnique(keys: seq<string>, items: seq<Value>, i: nat)
    requires |keys| == |items| && HasUniqueKeys(keys) && i < |keys|
    ensures Get(Obj(keys, items), keys[i]) == Some(items[i])
  {
    assert IndexOf(keys, keys[i]) == i;
  }

  lemma {:induction false} SortedAlikeMeansSame(a: Value, b: Value)
    requires a.Obj? && b.Obj? && |a.keys| == |a.items| && |b.keys| == |b.items|
    requires HasUniqueKeys(a.keys) && HasUniqueKeys(b.keys)
    requires EntriesAlike(Sorted(a.keys, a.items), Sorted(b.keys, b.items))
    ensures Same(a, b)
  {
    hide Sorted, Get, HasUniqueKeys, Less;
    var s, t := Sorted(a.keys, a.items), Sorted(b.keys, b.items);
    SortedIsSorted(a.keys, a.items);
    SortedIsSorted(b.keys, b.items);
    forall i | 0 <= i < |a.items|
      ensures HasKey(b, a.keys[i]) && Same(a.items[i], Get(b, a.keys[i]).value)
    {
      assert (a.keys[i], a.items[i]) in s;
      var k :| 0 <= k < |s| && s[k] == (a.keys[i], a.items[i]);
      assert t[k] in t;
      var j :| 0 <= j < |b.keys| && t[k] == (b.keys[j], b.items[j]);
      GetUnique(b.keys, b.items, j);
      assert b == Obj(b.keys, b.items);
    }
  }

  // ---------------------------------------------------------------- equal values print the same

  lemma {:induction false} UniqueCardinality(keys: seq<string>)
    requires HasUniqueKeys(keys)
    ensures |set k | k in keys| == |keys|
    decreases |keys|
  {
    if keys != [] {
      UniqueCardinality(keys[1..]);
      assert (set k | k in keys) == {keys[0]} + (set k | k in keys[1..]);
      assert keys[0] !in keys[1..];
    }
  }

  /** Unique keys that all occur among as many unique keys are the same keys. */
  lemma {:induction false} UniqueKeysCover(a: seq<string>, b: seq<string>)
    requires HasUniqueKeys(a) && HasUniqueKeys(b) && |a| == |b| && forall k :: k in a ==> k in b
    ensures forall k :: k in b ==> k in a
  {
    UniqueCardinality(a);
    UniqueCardinality(b);
    var s, t := set k | k in a, set k | k in b;
    assert s <= t;
    assert s + (t - s) == t;
    assert |t - s| == 0;
    forall k | k in b
      ensures k in a
    {
      assert k in t && k !in t - s;
    }
  }

  predicate IsKeyOf(entries: seq<Entry>, k: string) { exists i :: 0 <= i < |entries| && entries[i].0 == k }

  lemma {:induction false} SameSortedKeys(s: seq<Entry>, t: seq<Entry>)
    requires IsSorted(s) && IsSorted(t) && forall k :: IsKeyOf(s, k) <==> IsKeyOf(t, k)
    ensures |s| == |t| && forall i :: 0 <= i < |s| ==> s[i].0 == t[i].0
    decreases |s|
  {
    hide Less;
    if s == [] {
      assert t != [] ==> IsKeyOf(t, t[0].0);
    } else {
      assert IsKeyOf(s, s[0].0);
      var j :| 0 <= j < |t| && t[j].0 == s[0].0;
      assert IsKeyOf(t, t[0].0);
      var i :| 0 <= i < |s| && s[i].0 == t[0].0;
      LessTotal(s[0].0, t[0].0);
      assert s[0].0 == t[0].0;
      forall k
        ensures IsKeyOf(s[1..], k) <==> IsKeyOf(t[1..], k)
      {
        TailKeys(s, k);
        TailKeys(t, k);
      }
      SameSortedKeys(s[1..], t[1..]);
      assert forall m :: 0 < m < |s| ==> s[m] == s[1..][m - 1] && t[m] == t[1..][m - 1];
    }
  }

  lemma {:induction false} TailKeys(s: seq<Entry>, k: string)
    requires IsSorted(s) && s != []
    ensures IsKeyOf(s[1..], k) <==> IsKeyOf(s, k) && k != s[0].0
  {
    hide Less;
    if IsKeyOf(s[1..], k) {
      var i :| 0 <= i < |s[1..]| && s[1..][i].0 == k;
      assert s[i + 1].0 == k;
      LessTotal(s[0].0, s[i + 1].0);
    }
    if IsKeyOf(s, k) && k != s[0].0 {
      var i :| 0 <= i < |s| && s[i].0 == k;
      assert s[1..][i - 1].0 == k;
    }
  }

  lemma {:induction false} SortedKeys(keys: seq<string>, items: seq<Value>, k: string)
    requires |keys| == |items| && HasUniqueKeys(keys)
    ensures IsKeyOf(Sorted(keys, items), k) <==> k in keys
  {
    hide Sorted, Less, HasUniqueKeys;
    SortedIsSorted(keys, items);
    var s := Sorted(keys, items);
    if k in keys {
      var i :| 0 <= i < |keys| && keys[i] == k;
      assert (keys[i], items[i]) in s;
    }
    if IsKeyOf(s, k) {
      var i :| 0 <= i < |s| && s[i].0 == k;
      assert s[i] in s;
    }
  }

  lemma {:induction false} SameMeansSortedAlike(a: Value, b: Value)
    requires a.Obj? && b.Obj? && |a.keys| == |a.items| && |b.keys| == |b.items|
    requires HasUniqueKeys(a.keys) && HasUniqueKeys(b.keys) && Same(a, b)
    ensures EntriesAlike(Sorted(a.keys, a.items), Sorted(b.keys, b.items))
  {
    hide Sorted, Less, HasUniqueKeys, IsSorted, IsKeyOf;
    var s, t := Sorted(a.keys, a.items), Sorted(b.keys, b.items);
    forall k | k in a.keys
      ensures k in b.keys
    {
      var i :| 0 <= i < |a.keys| && a.keys[i] == k;
      assert HasKey(b, a.keys[i]);
    }
    UniqueKeysCover(a.keys, b.keys);
    forall k
      ensures IsKeyOf(s, k) <==> IsKeyOf(t, k)
    {
      SortedKeys(a.keys, a.items, k);
      SortedKeys(b.keys, b.items, k);
    }
    SortedIsSorted(a.keys, a.items);
    SortedIsSorted(b.keys, b.items);
    SameSortedKeys(s, t);
    hide Get;
    forall i | 0 <= i < |s|
      ensures Same(s[i].1, t[i].1)
    {
      assert s[i] in s && t[i] in t;
      var k :| 0 <= k < |a.keys| && s[i] == (a.keys[k], a.items[k]);
      var j :| 0 <= j < |b.keys| && t[i] == (b.keys[j], b.items[j]);
      GetUnique(b.keys, b.items, j);
      assert b == Obj(b.keys, b.items);
      assert Same(a.items[k], Get(b, a.keys[k]).value);
    }
  }

  lemma {:induction false} SameCanon(a: Value, b: Value)
    requires WellFormed(a) && WellFormed(b) && Same(a, b)
    ensures Canon(a) == Canon(b)
    decreases Nodes(a), 1, 0
  {
    WellFormedParts(a);
    WellFormedParts(b);
    match a
    case Arr(items) => hide Canon, WellFormed; ItemsSameText(items, b.items); CanonOfArray(a); CanonOfArray(b);
    case Obj(keys, items) =>
      SameMeansSortedAlike(a, b);
      hide Canon, WellFormed, Same, Sorted;
      EntriesSameText(Sorted(keys, items), Sorted(b.keys, b.items));
      CanonOfObject(a);
      CanonOfObject(b);
    case _ =>
  }

  lemma {:induction false} CanonOfArray(a: Value)
    requires a.Arr?
    ensures Canon(a) == "[" + JoinItems(a.items) + "]"
  {
  }

  lemma {:induction false} CanonOfObject(a: Value)
    requires a.Obj? && |a.keys| == |a.items|
    ensures Canon(a) == "{" + JoinEntries(Sorted(a.keys, a.items)) + "}"
  {
  }

  lemma {:induction false} ItemsSameText(as_: seq<Value>, bs: seq<Value>)
    requires AllWellFormed(as_) && AllWellFormed(bs)
    requires |as_| == |bs| && forall i :: 0 <= i < |as_| ==> Same(as_[i], bs[i])
    ensures JoinItems(as_) == JoinItems(bs)
    decreases NodesOf(as_), 2, |as_|
  {
    hide Canon, Same, WellFormed;
    if as_ != [] {
      SameCanon(as_[0], bs[0]);
      if |as_| > 1 { ItemsSameText(as_[1..], bs[1..]); }
    }
  }

  lemma {:induction false} EntriesSameText(es: seq<Entry>, fs: seq<Entry>)
    requires EntriesWellFormed(es) && EntriesWellFormed(fs) && EntriesAlike(es, fs)
    ensures JoinEntries(es) == JoinEntries(fs)
    decreases EntryNodes(es), 2, |es|
  {
    hide Canon, Same, WellFormed, Quote;
    if es != [] {
      SameCanon(es[0].1, fs[0].1);
      if |es| > 1 { EntriesSameText(es[1..], fs[1..]); }
    }
  }

  /** Two values have the same canonical text exactly when they are equal up to the order of object keys. */
  lemma {:induction false} CanonIsFaithful(a: Value, b: Value)
    requires WellFormed(a) && WellFormed(b)
    ensures Canon(a) == Canon(b) <==> Same(a, b)
  {
    hide Canon, Same, WellFormed;
    if Same(a, b) { SameCanon(a, b); }
    if Canon(a) == Canon(b) {
      assert Canon(a) + "" == Canon(b) + "";
      CanonEnds(a, b, "", "");
    }
  }

  // ---------------------------------------------------------------- the repeated-error detector

  const DURATION := "duration_ms"

  /** The positions of an object's keys other than duration_ms, from `from` on. */
  function KeptKeys(keys: seq<string>, items: seq<Value>): seq<string>
    requires |keys| == |items|
  {
    if keys == [] then []
    else (if keys[0] == DURATION then [] else [keys[0]]) + KeptKeys(keys[1..], items[1..])
  }

  /** `stable_error_output`: without duration_ms at any depth. */
  function Stable(v: Value): Value
    decreases Nodes(v), 1, 0
  {
    match v
    case Arr(items) => Arr(StableAll(items))
    case Obj(keys, items) =>
      if |keys| == |items| then Obj(KeptKeys(keys, items), StableKept(keys, items)) else v
    case _ => v
  }

  function StableAll(items: seq<Value>): (r: seq<Value>)
    ensures |r| == |items|
    decreases NodesOf(items), 2, |items|
  {
    if items == [] then [] else [Stable(items[0])] + StableAll(items[1..])
  }

  function StableKept(keys: seq<string>, items: seq<Value>): (r: seq<Value>)
    requires |keys| == |items|
    ensures |r| == |KeptKeys(keys, items)|
    decreases NodesOf(items), 2, |items|
  {
    if keys == [] then []
    else (if keys[0] == DURATION then [] else [Stable(items[0])]) + StableKept(keys[1..], items[1..])
  }

  /** Equality of JSON values that looks at no duration_ms field. */
  predicate SameButDuration(a: Value, b: Value)
    decreases a
  {
    match a
    case Arr(items) =>
      b.Arr? && |b.items| == |items| && forall i :: 0 <= i < |items| ==> SameButDuration(items[i], b.items[i])
    case Obj(keys, items) =>
      b.Obj? && |items| == |keys|
      && (forall i :: 0 <= i < |items| && keys[i] != DURATION ==>
            HasKey(b, keys[i]) && SameButDuration(items[i], Get(b, keys[i]).value))
      && (forall j :: 0 <= j < |b.keys| && b.keys[j] != DURATION ==> HasKey(a, b.keys[j]))
    case _ => a == b
  }

  lemma {:induction false} StableAllAt(items: seq<Value>, i: nat)
    requires i < |items|
    ensures StableAll(items)[i] == Stable(items[i])
    decreases |items|
  {
    if i > 0 { StableAllAt(items[1..], i - 1); }
  }

  /** The stabilised object has exactly the other keys, each with its stabilised item. */
  lemma {:induction false} StableGet(keys: seq<string>, items: seq<Value>, k: string)
    requires |keys| == |items|
    ensures var g, h := Get(Obj(keys, items), k), Get(Obj(KeptKeys(keys, items), StableKept(keys, items)), k);
            if k == DURATION then h == None
            else if g.None? then h == None
            else h == Some(Stable(g.value))
    decreases |keys|
  {
    hide Stable;
    if keys != [] {
      StableGet(keys[1..], items[1..], k);
      GetCons(keys, items, k);
      if keys[0] != DURATION {
        var kk, ii := KeptKeys(keys, items), StableKept(keys, items);
        assert kk[1..] == KeptKeys(keys[1..], items[1..]) && ii[1..] == StableKept(keys[1..], items[1..]);
        GetCons(kk, ii, k);
      } else {
        assert KeptKeys(keys, items) == KeptKeys(keys[1..], items[1..]);
        assert StableKept(keys, items) == StableKept(keys[1..], items[1..]);
      }
    }
  }

  lemma {:induction false} GetCons(keys: seq<string>, items: seq<Value>, k: string)
    requires |keys| == |items| && keys != []
    ensures Get(Obj(keys, items), k) == if keys[0] == k then Some(items[0]) else Get(Obj(keys[1..], items[1..]), k)
  {
  }

  lemma {:induction false} KeptKeysAreKeys(keys: seq<string>, items: seq<Value>)
    requires |keys| == |items|
    ensures forall k :: k in KeptKeys(keys, items) <==> k in keys && k != DURATION
    ensures HasUniqueKeys(keys) ==> HasUniqueKeys(KeptKeys(keys, items))
    decreases |keys|
  {
    if keys != [] {
      KeptKeysAreKeys(keys[1..], items[1..]);
      assert keys == [keys[0]] + keys[1..];
      var rest := KeptKeys(keys[1..], items[1..]);
      if HasUniqueKeys(keys) {
        assert HasUniqueKeys(keys[1..]);
        assert keys[0] !in keys[1..];
        assert keys[0] !in rest;
      }
    }
  }

  lemma {:induction false} KeyIsFound(keys: seq<string>, items: seq<Value>, k: string)
    requires |keys| == |items|
    ensures HasKey(Obj(keys, items), k) <==> k in keys
  {
    var i := IndexOf(keys, k);
    if k in keys {
      var j :| 0 <= j < |keys| && keys[j] == k;
      assert i <= j;
    }
  }

  lemma {:induction false} StableWellFormed(v: Value)
    requires WellFormed(v)
    ensures WellFormed(Stable(v))
    decreases Nodes(v), 1, 0
  {
    match v
    case Arr(items) =>
      forall i | 0 <= i < |items|
        ensures WellFormed(StableAll(items)[i])
      {
        ItemIsSmaller(items, i);
        StableAllAt(items, i);
        StableWellFormed(items[i]);
      }
    case Obj(keys, items) =>
      KeptKeysAreKeys(keys, items);
      StableKeptWellFormed(keys, items);
    case _ =>
  }

  lemma {:induction false} StableKeptWellFormed(keys: seq<string>, items: seq<Value>)
    requires |keys| == |items| && AllWellFormed(items)
    ensures AllWellFormed(StableKept(keys, items))
    decreases NodesOf(items), 2, |items|
  {
    hide WellFormed, Stable;
    if keys != [] {
      StableWellFormed(items[0]);
      StableKeptWellFormed(keys[1..], items[1..]);
    }
  }

  /** Both objects keep the same keys. */
  lemma {:induction false} KeptAlike(a: Value, b: Value)
    requires a.Obj? && b.Obj? && WellFormed(a) && WellFormed(b)
    requires forall k :: k != DURATION ==> (k in a.keys <==> k in b.keys)
    ensures |KeptKeys(a.keys, a.items)| == |KeptKeys(b.keys, b.items)|
  {
    var ka, kb := KeptKeys(a.keys, a.items), KeptKeys(b.keys, b.items);
    KeptKeysAreKeys(a.keys, a.items);
    KeptKeysAreKeys(b.keys, b.items);
    UniqueCardinality(ka);
    UniqueCardinality(kb);
    assert (set k | k in ka) == (set k | k in kb);
  }

  /** The item of a kept key, on both sides of stabilising. */
  lemma {:induction false} StableField(v: Value, k: string)
    requires v.Obj? && WellFormed(v) && k in v.keys && k != DURATION
    ensures HasKey(v, k) && Get(Stable(v), k) == Some(Stable(Get(v, k).value)) && WellFormed(Get(v, k).value)
  {
    assert v == Obj(v.keys, v.items);
    KeyIsFound(v.keys, v.items, k);
    StableGet(v.keys, v.items, k);
    var i :| 0 <= i < |v.items| && Get(v, k).value == v.items[i];
  }

  /** The items of an object, found again by their keys. */
  lemma {:induction false} OwnFields(a: Value)
    requires a.Obj? && WellFormed(a)
    ensures |a.keys| == |a.items| && forall i :: 0 <= i < |a.keys| ==> Get(a, a.keys[i]) == Some(a.items[i])
  {
    FieldsWellFormed(a);
    forall i | 0 <= i < |a.keys|
      ensures Get(a, a.keys[i]) == Some(a.items[i])
    {
      GetUnique(a.keys, a.items, i);
      assert a == Obj(a.keys, a.items);
    }
  }

  ghost predicate SameAt(a: Value, b: Value, k: string) {
    HasKey(b, k) && HasKey(a, k) && Same(Get(a, k).value, Get(b, k).value)
  }

  lemma {:induction false} SameFields(a: Value, b: Value)
    requires a.Obj? && b.Obj? && WellFormed(a) && WellFormed(b)
    ensures Same(a, b) <==> |a.keys| == |b.keys| && forall k :: k in a.keys ==> SameAt(a, b, k)
  {
    hide WellFormed, Get, Same, SameAt;
    FieldsWellFormed(a);
    SameUnfolds(a, b);
    forall i | 0 <= i < |a.keys|
      ensures SameAt(a, b, a.keys[i]) <==> HasKey(b, a.keys[i]) && Same(a.items[i], Get(b, a.keys[i]).value)
    {
      SameAtOwnKey(a, b, i);
    }
    AllKeys(a, b);
  }

  lemma {:induction false} SameAtOwnKey(a: Value, b: Value, i: nat)
    requires a.Obj? && b.Obj? && WellFormed(a) && WellFormed(b) && |a.keys| == |a.items| && i < |a.keys|
    ensures SameAt(a, b, a.keys[i]) <==> HasKey(b, a.keys[i]) && Same(a.items[i], Get(b, a.keys[i]).value)
  {
    OwnFields(a);
    hide WellFormed, Get, Same;
  }

  lemma {:induction false} AllKeys(a: Value, b: Value)
    requires a.Obj? && b.Obj?
    ensures (forall k :: k in a.keys ==> SameAt(a, b, k)) <==> forall i :: 0 <= i < |a.keys| ==> SameAt(a, b, a.keys[i])
  {
    hide SameAt;
  }

  lemma {:induction false} SameUnfolds(a: Value, b: Value)
    requires a.Obj? && b.Obj? && |a.keys| == |a.items|
    ensures Same(a, b) <==>
              |a.keys| == |b.keys|
              && forall i :: 0 <= i < |a.items| ==> HasKey(b, a.keys[i]) && Same(a.items[i], Get(b, a.keys[i]).value)
  {
    hide Get;
  }

  lemma {:induction false} FieldsWellFormed(a: Value)
    requires a.Obj? && WellFormed(a)
    ensures |a.keys| == |a.items| && HasUniqueKeys(a.keys)
  {
  }

  ghost predicate SameButDurationAt(a: Value, b: Value, k: string)
    requires a.Obj? && b.Obj?
  {
    (k in a.keys <==> k in b.keys)
    && (k in a.keys ==> HasKey(a, k) && HasKey(b, k) && SameButDuration(Get(a, k).value, Get(b, k).value))
  }

  lemma {:induction false} SameButDurationUnfolds(a: Value, b: Value)
    requires a.Obj? && b.Obj? && |a.keys| == |a.items|
    ensures SameButDuration(a, b) <==>
              (forall i :: 0 <= i < |a.items| && a.keys[i] != DURATION ==>
                 HasKey(b, a.keys[i]) && SameButDuration(a.items[i], Get(b, a.keys[i]).value))
              && (forall j :: 0 <= j < |b.keys| && b.keys[j] != DURATION ==> HasKey(a, b.keys[j]))
  {
    hide Get;
  }

  lemma {:induction false} SameButDurationFields(a: Value, b: Value)
    requires a.Obj? && b.Obj? && WellFormed(a) && WellFormed(b)
    ensures SameButDuration(a, b) <==> forall k :: k != DURATION ==> SameButDurationAt(a, b, k)
  {
    OwnFields(a);
    FieldsWellFormed(b);
    SameButDurationUnfolds(a, b);
    forall k
      ensures (HasKey(a, k) <==> k in a.keys) && (HasKey(b, k) <==> k in b.keys)
    {
      assert a == Obj(a.keys, a.items) && b == Obj(b.keys, b.items);
      KeyIsFound(a.keys, a.items, k);
      KeyIsFound(b.keys, b.items, k);
    }
    hide WellFormed, Get, SameButDuration, HasKey;
    if SameButDuration(a, b) {
      forall k | k != DURATION
        ensures SameButDurationAt(a, b, k)
      {
      }
    }
    if forall k :: k != DURATION ==> SameButDurationAt(a, b, k) {
      forall i | 0 <= i < |a.items| && a.keys[i] != DURATION
        ensures HasKey(b, a.keys[i]) && SameButDuration(a.items[i], Get(b, a.keys[i]).value)
      {
        assert SameButDurationAt(a, b, a.keys[i]);
      }
      forall j | 0 <= j < |b.keys| && b.keys[j] != DURATION
        ensures HasKey(a, b.keys[j])
      {
        assert SameButDurationAt(a, b, b.keys[j]);
      }
    }
  }

  /** Stabilised outputs are equal exactly when the outputs are, but for duration_ms fields. */
  lemma {:induction false} StableForgetsDuration(a: Value, b: Value)
    requires WellFormed(a) && WellFormed(b)
    ensures Same(Stable(a), Stable(b)) <==> SameButDuration(a, b)
    decreases Nodes(a), 1, 0
  {
    if a.Arr? && b.Arr? {
      StableArrays(a, b);
    } else if a.Obj? && b.Obj? {
      StableObjects(a, b);
    }
  }

  lemma {:induction false} StableArrays(a: Value, b: Value)
    requires WellFormed(a) && WellFormed(b) && a.Arr? && b.Arr?
    ensures Same(Stable(a), Stable(b)) <==> SameButDuration(a, b)
    decreases Nodes(a), 0, 0
  {
    if |a.items| == |b.items| {
      forall i | 0 <= i < |a.items|
        ensures Same(StableAll(a.items)[i], StableAll(b.items)[i]) <==> SameButDuration(a.items[i], b.items[i])
      {
        ItemIsSmaller(a.items, i);
        StableAllAt(a.items, i);
        StableAllAt(b.items, i);
        StableForgetsDuration(a.items[i], b.items[i]);
      }
    }
  }

  lemma {:induction false} StableObjects(a: Value, b: Value)
    requires WellFormed(a) && WellFormed(b) && a.Obj? && b.Obj?
    ensures Same(Stable(a), Stable(b)) <==> SameButDuration(a, b)
    decreases Nodes(a), 0, 0
  {
    var s, t := Stable(a), Stable(b);
    StableWellFormed(a);
    StableWellFormed(b);
    KeptKeysAreKeys(a.keys, a.items);
    KeptKeysAreKeys(b.keys, b.items);
    assert s.keys == KeptKeys(a.keys, a.items) && t.keys == KeptKeys(b.keys, b.items);
    SameFields(s, t);
    SameButDurationFields(a, b);
    FieldsWellFormed(s);
    FieldsWellFormed(t);
    hide Stable, KeptKeys, Same, SameButDuration, WellFormed, Get, HasUniqueKeys;
    forall k | k != DURATION && k in a.keys && k in b.keys
      ensures SameAt(s, t, k) <==> SameButDurationAt(a, b, k)
    {
      StableField(a, k);
      StableField(b, k);
      StableForgetsDuration(Get(a, k).value, Get(b, k).value);
    }
    hide HasKey;
    if Same(s, t) {
      SameKeys(s, t);
      forall k | k != DURATION
        ensures SameButDurationAt(a, b, k)
      {
        assert k in a.keys <==> k in s.keys;
        assert k in b.keys <==> k in t.keys;
        if k in a.keys { assert SameAt(s, t, k); }
      }
    }
    if SameButDuration(a, b) {
      forall k | k != DURATION
        ensures k in a.keys <==> k in b.keys
      {
        assert SameButDurationAt(a, b, k);
      }
      KeptAlike(a, b);
      forall k | k in s.keys
        ensures SameAt(s, t, k)
      {
        assert SameButDurationAt(a, b, k);
      }
    }
  }

  /** Objects that are the same have the same keys. */
  lemma {:induction false} SameKeys(s: Value, t: Value)
    requires s.Obj? && t.Obj? && WellFormed(s) && WellFormed(t) && Same(s, t)
    ensures forall k :: k in s.keys <==> k in t.keys
  {
    SameFields(s, t);
    FieldsWellFormed(s);
    FieldsWellFormed(t);
    hide WellFormed, Same;
    forall k | k in s.keys
      ensures k in t.keys
    {
      assert SameAt(s, t, k);
      KeyIsFound(t.keys, t.items, k);
      assert t == Obj(t.keys, t.items);
    }
    UniqueKeysCover(s.keys, t.keys);
  }
}
