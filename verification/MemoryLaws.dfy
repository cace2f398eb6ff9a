/**
 The memory file by its spelling: which characters are white space, what a header line of a key and a value
 looks like with either line end, and which files are read as having a provenance.
 */
module MemoryLaws {
  import opened ByteStrings
  import opened Chars
  import Scalars
  import opened MemoryFile

  // ---------------------------------------------------------------- white space

  /** The code points of the property White_Space, one by one. */
  const SPACES: set<int> := {
    0x9, 0xA, 0xB, 0xC, 0xD, 0x20, 0x85, 0xA0, 0x1680, 0x2000, 0x2001, 0x2002, 0x2003, 0x2004, 0x2005, 0x2006,
    0x2007, 0x2008, 0x2009, 0x200A, 0x2028, 0x2029, 0x202F, 0x205F, 0x3000
  }

  predicate IsBlank(s: string) { forall i :: 0 <= i < |s| ==> s[i] as int in SPACES }

  /** No white space at either end. */
  predicate IsTight(s: string) { s != "" ==> s[0] as int !in SPACES && s[|s| - 1] as int !in SPACES }

  lemma {:induction false} SpaceMeans(c: char)
    ensures IsWhitespace(c) <==> c as int in SPACES
  {
  }

  lemma {:induction false} AllSpacesMean()
    ensures forall c {:trigger IsWhitespace(c)} :: IsWhitespace(c) <==> c as int in SPACES
  {
    forall c: char ensures IsWhitespace(c) <==> c as int in SPACES { SpaceMeans(c); }
  }

  lemma {:induction false} TrimStartSplits(s: string) returns (space: string)
    ensures s == space + TrimStart(s) && IsBlank(space)
    ensures TrimStart(s) != "" ==> TrimStart(s)[0] as int !in SPACES
    decreases |s|
  {
    AllSpacesMean();
    hide IsWhitespace;
    space := "";
    if s != "" && IsWhitespace(s[0]) {
      var more := TrimStartSplits(s[1..]);
      space := [s[0]] + more;
    }
  }

  lemma {:induction false} TrimEndSplits(s: string) returns (space: string)
    ensures s == TrimEnd(s) + space && IsBlank(space)
    ensures TrimEnd(s) != "" ==> TrimEnd(s)[|TrimEnd(s)| - 1] as int !in SPACES
    decreases |s|
  {
    AllSpacesMean();
    hide IsWhitespace;
    space := "";
    if s != "" && IsWhitespace(s[|s| - 1]) {
      var more := TrimEndSplits(s[..|s| - 1]);
      space := more + [s[|s| - 1]];
      assert s == s[..|s| - 1] + [s[|s| - 1]];
    }
  }

  lemma {:induction false} TrimSplits(s: string) returns (a: string, b: string)
    ensures s == a + Trim(s) + b && IsBlank(a) && IsBlank(b) && IsTight(Trim(s))
  {
    hide TrimStart, TrimEnd;
    a := TrimStartSplits(s);
    b := TrimEndSplits(TrimStart(s));
    var t := TrimStart(s);
    assert Trim(s) != "" ==> Trim(s)[0] == t[0];
  }

  lemma {:induction false} TrimEndDrops(t: string, b: string)
    requires IsBlank(b) && (t != "" ==> t[|t| - 1] as int !in SPACES)
    ensures TrimEnd(t + b) == t
    decreases |b|
  {
    AllSpacesMean();
    hide IsWhitespace;
    if b == "" {
      assert t + b == t;
    } else {
      var s := t + b;
      assert s[|s| - 1] == b[|b| - 1] && s[..|s| - 1] == t + b[..|b| - 1];
      TrimEndDrops(t, b[..|b| - 1]);
    }
  }

  lemma {:induction false} TrimStartDrops(a: string, t: string)
    requires IsBlank(a) && (t != "" ==> t[0] as int !in SPACES)
    ensures TrimStart(a + t) == t
    decreases |a|
  {
    AllSpacesMean();
    hide IsWhitespace;
    if a == "" {
      assert a + t == t;
    } else {
      assert (a + t)[1..] == a[1..] + t;
      TrimStartDrops(a[1..], t);
    }
  }

  /** Trimming takes away exactly the white space at both ends. */
  lemma {:induction false} TrimMeans(s: string, t: string)
    ensures Trim(s) == t <==> IsTight(t) && exists a, b :: IsBlank(a) && IsBlank(b) && s == a + t + b
  {
    if Trim(s) == t {
      var a, b := TrimSplits(s);
    }
    forall a, b | IsTight(t) && IsBlank(a) && IsBlank(b) && s == a + t + b ensures Trim(s) == t {
      Trimmed(a, t, b);
    }
  }

  lemma {:induction false} Trimmed(a: string, t: string, b: string)
    requires IsBlank(a) && IsTight(t) && IsBlank(b)
    ensures Trim(a + t + b) == t
  {
    hide TrimStart, TrimEnd;
    if t == "" {
      assert a + t + b == (a + b) + "";
      TrimStartDrops(a + b, "");
      assert "" + "" == "";
      TrimEndDrops("", "");
    } else {
      assert a + t + b == a + (t + b);
      TrimStartDrops(a, t + b);
      TrimEndDrops(t, b);
    }
  }

  // ---------------------------------------------------------------- lines

  /** A fence, with a line feed, with a carriage return and a line feed, or unfinished. */
  lemma {:induction false} FenceMeans(line: string)
    ensures TrimLineEnding(line) == "---" <==> line == "---\n" || line == "---\r\n" || line == "---" || line == "---\r"
  {
    var s := StripSuffix(line, '\n');
    assert line == s || line == s + "\n";
    assert TrimLineEnding(line) == s || s == TrimLineEnding(line) + "\r";
    assert "---\n"[..3] == "---" && "---\r"[..3] == "---" && "---\r\n"[..4] == "---\r";
  }

  /** White space, the key, white space, a colon, white space, the value, white space. */
  ghost predicate Spells(line: string, key: string, value: string) {
    exists a, b, c, d :: IsSpelled(line, key, value, a, b, c, d)
  }

  predicate IsSpelled(line: string, key: string, value: string, a: string, b: string, c: string, d: string) {
    && IsBlank(a) && IsBlank(b) && IsBlank(c) && IsBlank(d) && value != "" && IsTight(value)
    && line == (a + key + b) + ":" + (c + value + d)
  }

  predicate HasNoColon(s: string) { forall i :: 0 <= i < |s| ==> s[i] != ':' }

  lemma {:induction false} BlankHasNoColon(s: string)
    requires IsBlank(s)
    ensures HasNoColon(s)
  {
  }

  /** What is taken off the end of a line is white space. */
  lemma {:induction false} EndingIsBlank(line: string) returns (e: string)
    ensures line == TrimLineEnding(line) + e && IsBlank(e)
  {
    var s := StripSuffix(line, '\n');
    e := line[|TrimLineEnding(line)|..];
    assert line == s || line == s + "\n";
    assert TrimLineEnding(line) == s || s == TrimLineEnding(line) + "\r";
  }

  /** A key without a colon, and a value: the line is read as this field. */
  lemma {:induction false} SpelledIsSplit(line: string, key: string, value: string, a: string, b: string, c: string,
                                          d: string)
    requires IsSpelled(line, key, value, a, b, c, d) && HasNoColon(key) && IsTight(key)
    ensures var s := TrimLineEnding(line);
            var n := ColonAt(s);
            n < |s| && Trim(s[..n]) == key && Trim(s[n + 1..]) == value
  {
    var s, front, back := TrimLineEnding(line), a + key + b, c + value + d;
    var e := EndingIsBlank(line);
    hide TrimLineEnding, Trim, ColonAt;
    EndingIsInTail(s, e, front, c, value, d);
    var m := |d| - |e|;
    BlankHasNoColon(a);
    BlankHasNoColon(b);
    assert s == front + ":" + (c + value + d[..m]);
    ColonOfConcat(front, c + value + d[..m]);
    assert s[..|front|] == front && s[|front| + 1..] == c + value + d[..m];
    Trimmed(a, key, b);
    Trimmed(c, value, d[..m]);
  }

  lemma {:induction false} EndingIsInTail(s: string, e: string, front: string, c: string, value: string, d: string)
    requires s + e == front + ":" + (c + value + d) && IsBlank(e) && value != "" && IsTight(value)
    ensures |e| <= |d| && s == front + ":" + (c + value + d[..|d| - |e|])
  {
    var line, last := s + e, |front| + 1 + |c| + |value| - 1;
    assert line[last] == value[|value| - 1];
    assert forall k :: |s| <= k < |line| ==> line[k] as int in SPACES;
    assert s == line[..|s|];
  }

  /** And a line that is read as a field is spelled so. */
  lemma {:induction false} SplitIsSpelled(line: string)
    requires var s := TrimLineEnding(line); ColonAt(s) < |s| && Trim(s[ColonAt(s) + 1..]) != ""
    ensures var s := TrimLineEnding(line);
            Spells(line, Trim(s[..ColonAt(s)]), Trim(s[ColonAt(s) + 1..]))
  {
    var s := TrimLineEnding(line);
    var n := ColonAt(s);
    var e := EndingIsBlank(line);
    var a, b := TrimSplits(s[..n]);
    var c, d := TrimSplits(s[n + 1..]);
    hide TrimLineEnding, Trim;
    var key, value := Trim(s[..n]), Trim(s[n + 1..]);
    assert s == s[..n] + ":" + s[n + 1..];
    assert line == (a + key + b) + ":" + (c + value + (d + e));
    assert IsSpelled(line, key, value, a, b, c, d + e);
  }

  /** The fields of a header line are exactly those that are spelled in it. */
  lemma {:induction false} FieldMeans(line: string, value: string)
    ensures ReadField(line) == Root(value) <==> Spells(line, "project_root", value)
    ensures ReadField(line) == Created(value) <==> Spells(line, "created", value)
  {
    hide TrimLineEnding, Trim, ColonAt, IsSpelled;
    KeysAreTight();
    var s := TrimLineEnding(line);
    if ColonAt(s) < |s| && Trim(s[ColonAt(s) + 1..]) != "" {
      SplitIsSpelled(line);
    }
    if Spells(line, "project_root", value) {
      var a, b, c, d :| IsSpelled(line, "project_root", value, a, b, c, d);
      SpelledIsSplit(line, "project_root", value, a, b, c, d);
      SpelledHasValue(line, "project_root", value, a, b, c, d);
    }
    if Spells(line, "created", value) {
      var a, b, c, d :| IsSpelled(line, "created", value, a, b, c, d);
      SpelledIsSplit(line, "created", value, a, b, c, d);
      SpelledHasValue(line, "created", value, a, b, c, d);
    }
  }

  lemma {:induction false} SpelledHasValue(line: string, key: string, value: string, a: string, b: string, c: string,
                                           d: string)
    requires IsSpelled(line, key, value, a, b, c, d)
    ensures value != ""
  {
  }

  lemma {:induction false} KeysAreTight()
    ensures HasNoColon("project_root") && IsTight("project_root") && HasNoColon("created") && IsTight("created")
    ensures "created" != "project_root"
  {
    assert "created"[0] != "project_root"[0];
  }

  // ---------------------------------------------------------------- files

  /** One line with its line feed, and no other line feed in it. */
  predicate IsWholeLine(s: string) {
    s != "" && s[|s| - 1] == '\n' && forall i :: 0 <= i < |s| - 1 ==> s[i] != '\n'
  }

  /** A fence, a line that spells the root and one that spells the time, in either order, a fence, and the content. */
  ghost predicate HasHeader(file: string, root: string, created: string, content: string) {
    exists open, a, b, close :: IsHeader(open, a, b, close, root, created, content)
                                && file == open + (a + (b + (close + content)))
  }

  ghost predicate IsHeader(open: string, a: string, b: string, close: string, root: string, created: string,
                           content: string) {
    && (open == "---\n" || open == "---\r\n")
    && IsWholeLine(a) && IsWholeLine(b)
    && (|| (Spells(a, "project_root", root) && Spells(b, "created", created))
        || (Spells(a, "created", created) && Spells(b, "project_root", root)))
    && (close == "---\n" || close == "---\r\n" || (content == "" && (close == "---" || close == "---\r")))
  }

  lemma {:induction false} HeaderMeans(open: string, a: string, b: string, close: string, parsed: Parsed,
                                       isTimestamp: string -> bool)
    requires parsed.provenance.Known?
    ensures IsFile(open, a, b, close, parsed, isTimestamp) <==>
              IsHeader(open, a, b, close, parsed.provenance.projectRoot, parsed.provenance.created, parsed.content)
              && isTimestamp(parsed.provenance.created)
  {
    FencesMean(open, close, parsed.content);
    FieldsMean(a, b, parsed.provenance.projectRoot, parsed.provenance.created);
    assert IsLine(a) == IsWholeLine(a) && IsLine(b) == IsWholeLine(b);
    hide TrimLineEnding, AreFields, Spells, IsLine, IsWholeLine, IsLineBefore;
  }

  lemma {:induction false} FencesMean(open: string, close: string, content: string)
    ensures IsLine(open) && TrimLineEnding(open) == FENCE <==> open == "---\n" || open == "---\r\n"
    ensures IsLineBefore(close, content) && TrimLineEnding(close) == FENCE <==>
              close == "---\n" || close == "---\r\n" || (content == "" && (close == "---" || close == "---\r"))
  {
    FenceMeans(open);
    FenceMeans(close);
    FenceLines();
    hide TrimLineEnding, IsLine;
  }

  lemma {:induction false} FieldsMean(a: string, b: string, root: string, created: string)
    ensures AreFields(a, b, root, created) <==>
              (Spells(a, "project_root", root) && Spells(b, "created", created))
              || (Spells(a, "created", created) && Spells(b, "project_root", root))
  {
    FieldMeans(a, root);
    FieldMeans(a, created);
    FieldMeans(b, root);
    FieldMeans(b, created);
    hide ReadField, Spells;
  }

  lemma {:induction false} FenceLines()
    ensures IsLine("---\n") && IsLine("---\r\n") && !IsLine("---") && !IsLine("---\r")
    ensures forall i :: 0 <= i < 3 ==> "---"[i] != '\n'
    ensures forall i :: 0 <= i < 4 ==> "---\r"[i] != '\n'
  {
  }

  /** A file is read as known exactly when its header spells the root and a time; everything else is all content. */
  lemma {:induction false} FileMeans(file: string, isTimestamp: string -> bool)
    ensures forall root, created, content ::
              Parse(file, isTimestamp) == Parsed(content, Known(root, created)) <==>
                HasHeader(file, root, created, content) && isTimestamp(created)
    ensures Parse(file, isTimestamp).provenance.Unknown? ==> Parse(file, isTimestamp).content == file
  {
    hide *;
    forall root, created, content
      ensures Parse(file, isTimestamp) == Parsed(content, Known(root, created)) <==>
                HasHeader(file, root, created, content) && isTimestamp(created)
    {
      KnownIsSpelled(file, root, created, content, isTimestamp);
    }
    if Parse(file, isTimestamp).provenance.Unknown? { UnknownIsWhole(file, isTimestamp); }
  }

  lemma {:induction false} KnownIsSpelled(file: string, root: string, created: string, content: string,
                                          isTimestamp: string -> bool)
    ensures Parse(file, isTimestamp) == Parsed(content, Known(root, created)) <==>
              HasHeader(file, root, created, content) && isTimestamp(created)
  {
    hide Parse, IsFile, IsHeader;
    var parsed := Parsed(content, Known(root, created));
    KnownMeansFile(file, isTimestamp, parsed);
    forall open, a, b, close
      ensures IsFile(open, a, b, close, parsed, isTimestamp) <==>
                IsHeader(open, a, b, close, root, created, content) && isTimestamp(created)
    {
      HeaderMeans(open, a, b, close, parsed, isTimestamp);
    }
  }

  // ---------------------------------------------------------------- files with other line ends

  /** One line `key: value` with a line end. */
  function FieldLine(key: string, value: string, crlf: bool): string {
    key + ": " + value + (if crlf then "\r\n" else "\n")
  }

  function FenceLine(crlf: bool): string { if crlf then "---\r\n" else "---\n" }

  lemma {:induction false} FieldLineSpells(key: string, value: string, crlf: bool)
    requires value != "" && IsTight(value)
    ensures Spells(FieldLine(key, value, crlf), key, value)
  {
    hide IsTight;
    var e := if crlf then "\r\n" else "\n";
    var line := FieldLine(key, value, crlf);
    EndsAreBlank();
    assert line == ("" + key + "") + ":" + (" " + value + e);
    hide IsBlank, FieldLine;
    assert IsSpelled(line, key, value, "", "", " ", e);
  }

  lemma {:induction false} EndsAreBlank()
    ensures IsBlank("") && IsBlank(" ") && IsBlank("\n") && IsBlank("\r\n")
  {
  }

  lemma {:induction false} FieldLineIsWhole(key: string, value: string, crlf: bool)
    requires !HasLineBreak(value) && !HasLineBreak(key)
    ensures IsWholeLine(FieldLine(key, value, crlf))
  {
    var line := FieldLine(key, value, crlf);
    assert forall i :: 0 <= i < |key| ==> line[i] == key[i];
    assert forall i :: 0 <= i < |value| ==> line[|key| + 2 + i] == value[i];
  }

  /** Carriage returns in front of the line feeds of a header, on any of its four lines, change nothing. */
  lemma {:induction false} LineEndsDoNotMatter(root: string, created: string, content: string,
                                               isTimestamp: string -> bool, crlf: (bool, bool, bool, bool))
    requires root != "" && IsTight(root) && !HasLineBreak(root)
    requires created != "" && IsTight(created) && !HasLineBreak(created) && isTimestamp(created)
    ensures Parse(FenceLine(crlf.0) + (FieldLine("project_root", root, crlf.1)
                                       + (FieldLine("created", created, crlf.2) + (FenceLine(crlf.3) + content))),
                  isTimestamp)
            == Parsed(content, Known(root, created))
  {
    hide HasLineBreak, Parse;
    KeysAreOneLine();
    FieldLineSpells("project_root", root, crlf.1);
    FieldLineSpells("created", created, crlf.2);
    FieldLineIsWhole("project_root", root, crlf.1);
    FieldLineIsWhole("created", created, crlf.2);
    hide FieldLine, Spells, IsWholeLine;
    var open, a, b := FenceLine(crlf.0), FieldLine("project_root", root, crlf.1), FieldLine("created", created, crlf.2);
    var close := FenceLine(crlf.3);
    assert IsHeader(open, a, b, close, root, created, content);
    KnownIsSpelled(open + (a + (b + (close + content))), root, created, content, isTimestamp);
  }

  lemma {:induction false} KeysAreOneLine()
    ensures !HasLineBreak("project_root") && !HasLineBreak("created")
  {
  }

  // ---------------------------------------------------------------- remembering

  /** The Unicode scalar values of a text. */
  function ScalarsOf(s: string): Scalars.text {
    seq(|s|, i requires 0 <= i < |s| => ScalarOf(s[i]))
  }

  function ScalarOf(c: char): Scalars.scalar { c as int }

  /** Lengths are those of the UTF-8 encoding. */
  lemma {:induction false} LengthMeans(s: string)
    ensures Utf8Bytes(s) == |Scalars.Utf8Of(ScalarsOf(s))|
    decreases |s|
  {
    if s != "" {
      LengthMeans(s[1..]);
      assert ScalarsOf(s)[1..] == ScalarsOf(s[1..]);
      assert Scalars.Width(ScalarsOf(s)[0]) == Utf8Length(s[0]);
    }
  }

  /** What is refused and what is written: the blank, the root of more than one line, the file over 65536 bytes. */
  lemma {:induction false} RememberMeans(content: string, root: string, created: string)
    ensures var file := "---\nproject_root: " + root + "\ncreated: " + created + "\n---\n" + content;
            Remember(content, root, created) ==
            if IsBlank(content) then Err(EmptyContent)
            else if '\n' in root || '\r' in root then Err(UnrepresentableRoot)
            else if |Scalars.Utf8Of(ScalarsOf(file))| > 65536 then Err(TooLarge)
            else Ok((file, Entry(content, Known(root, created), |Scalars.Utf8Of(ScalarsOf(file))|)))
  {
    var file := "---\nproject_root: " + root + "\ncreated: " + created + "\n---\n" + content;
    BlankMeans(content);
    RenderMeans(root, created, content);
    LengthMeans(file);
    hide Trim, Utf8Bytes, Scalars.Utf8Of, IsBlank, Render, ScalarsOf;
  }

  lemma {:induction false} RenderMeans(root: string, created: string, content: string)
    ensures Render(root, created, content) ==
              "---\nproject_root: " + root + "\ncreated: " + created + "\n---\n" + content
  {
    assert "---\n" + "project_root: " == "---\nproject_root: ";
    assert "\n" + "created: " == "\ncreated: ";
    assert "\n" + "---\n" == "\n---\n";
  }

  lemma {:induction false} BlankMeans(s: string)
    ensures Trim(s) == "" <==> IsBlank(s)
  {
    if Trim(s) == "" {
      var a, b := TrimSplits(s);
      assert s == a + b;
    }
    if IsBlank(s) {
      Trimmed(s, "", "");
      assert s + "" + "" == s;
    }
  }

  /** A file is shown unless it is over 65536 bytes. */
  lemma {:induction false} ShowMeans(file: string, isTimestamp: string -> bool)
    ensures Show(file, isTimestamp) ==
            if |Scalars.Utf8Of(ScalarsOf(file))| > 65536 then Err(TooLarge)
            else Ok(Entry(Parse(file, isTimestamp).content, Parse(file, isTimestamp).provenance,
                          |Scalars.Utf8Of(ScalarsOf(file))|))
  {
    LengthMeans(file);
    hide Parse, Utf8Bytes, Scalars.Utf8Of, ScalarsOf;
  }
}
