/**
 The memory file: three header lines and the content. What is written is read back exactly when
 the project root has no white space around it, and reading never loses a character.
 */
module MemoryFile {
  import opened ByteStrings
  import opened Chars

  const MAX_FILE_BYTES: nat := 64 * 1024

  datatype Provenance = Unknown | Known(projectRoot: string, created: string)

  datatype Parsed = Parsed(content: string, provenance: Provenance)

  function TrimStart(s: string): string {
    if s != "" && IsWhitespace(s[0]) then TrimStart(s[1..]) else s
  }

  function TrimEnd(s: string): string {
    if s != "" && IsWhitespace(s[|s| - 1]) then TrimEnd(s[..|s| - 1]) else s
  }

  function Trim(s: string): string { TrimEnd(TrimStart(s)) }

  /** The length of the first piece of `split_inclusive('\n')`. */
  function LineLength(s: string): (n: nat)
    requires s != ""
    ensures 1 <= n <= |s|
    ensures forall i :: 0 <= i < n - 1 ==> s[i] != '\n'
    ensures n < |s| ==> s[n - 1] == '\n'
  {
    if s[0] == '\n' || |s| == 1 then 1 else 1 + LineLength(s[1..])
  }

  function StripSuffix(s: string, c: char): string {
    if s != "" && s[|s| - 1] == c then s[..|s| - 1] else s
  }

  function TrimLineEnding(line: string): string { StripSuffix(StripSuffix(line, '\n'), '\r') }

  /** Where the first colon is. */
  function ColonAt(s: string): (n: nat)
    ensures n <= |s| && (forall i :: 0 <= i < n ==> s[i] != ':') && (n < |s| ==> s[n] == ':')
  {
    if s == "" || s[0] == ':' then 0 else 1 + ColonAt(s[1..])
  }

  datatype Field = Root(value: string) | Created(value: string) | NoField

  /** A header line read as a field with a value. */
  function ReadField(line: string): Field {
    var s := TrimLineEnding(line);
    var n := ColonAt(s);
    if n == |s| || Trim(s[n + 1..]) == "" then NoField
    else if Trim(s[..n]) == "project_root" then Root(Trim(s[n + 1..]))
    else if Trim(s[..n]) == "created" then Created(Trim(s[n + 1..]))
    else NoField
  }

  const FENCE: string := "---"

  /** What a closed header stands for. */
  function Finished(rest: string, root: Option<string>, created: Option<string>, isTimestamp: string -> bool)
    : Option<Parsed> {
    if root.Some? && created.Some? && isTimestamp(created.value)
    then Some(Parsed(rest, Known(root.value, created.value)))
    else None
  }

  /** The header lines after the first, up to the closing fence. */
  function ReadHeader(s: string, root: Option<string>, created: Option<string>, isTimestamp: string -> bool)
    : Option<Parsed> {
    if s == "" then None
    else
      var line, rest := s[..LineLength(s)], s[LineLength(s)..];
      if TrimLineEnding(line) == FENCE then Finished(rest, root, created, isTimestamp)
      else
        match ReadField(line)
        case Root(value) => if root.None? then ReadHeader(rest, Some(value), created, isTimestamp) else None
        case Created(value) => if created.None? then ReadHeader(rest, root, Some(value), isTimestamp) else None
        case NoField => None
  }

  /** `parse_memory_file` */
  function Parse(file: string, isTimestamp: string -> bool): Parsed {
    if file == "" || TrimLineEnding(file[..LineLength(file)]) != FENCE then Parsed(file, Unknown)
    else
      match ReadHeader(file[LineLength(file)..], None, None, isTimestamp)
      case Some(parsed) => parsed
      case None => Parsed(file, Unknown)
  }

  function Render(root: string, created: string, content: string): string {
    "---\n" + (RootLine(root) + (CreatedLine(created) + ("---\n" + content)))
  }

  function RootLine(root: string): string { "project_root: " + root + "\n" }

  function CreatedLine(created: string): string { "created: " + created + "\n" }

  /** The parser as the source runs it, one line at a time. */
  method ParseMemoryFile(file: string, isTimestamp: string -> bool) returns (parsed: Parsed)
    ensures parsed == Parse(file, isTimestamp)
  {
    hide ReadField, TrimLineEnding, ReadHeader, LineLength;
    var legacy := Parsed(file, Unknown);
    if file == "" { return legacy; }
    var consumed := LineLength(file);
    if TrimLineEnding(file[..consumed]) != FENCE { return legacy; }
    var root, created: Option<string>, closed := None, None, false;
    ghost var header := ReadHeader(file[consumed..], None, None, isTimestamp);
    assert Parse(file, isTimestamp) == if header.Some? then header.value else legacy;
    hide Parse;
    while consumed < |file| && !closed
      invariant consumed <= |file|
      invariant !closed ==> header == ReadHeader(file[consumed..], root, created, isTimestamp)
      invariant closed ==> header == Finished(file[consumed..], root, created, isTimestamp)
      decreases |file| - consumed, !closed
    {
      var n := LineLength(file[consumed..]);
      var line := file[consumed..][..n];
      ReadOneLine(file, consumed, root, created, isTimestamp);
      consumed := consumed + n;
      if TrimLineEnding(line) == FENCE {
        closed := true;
      } else {
        var field := ReadField(line);
        if field.Root? && root.None? {
          root := Some(field.value);
        } else if field.Created? && created.None? {
          created := Some(field.value);
        } else {
          return legacy;
        }
      }
    }
    if !closed { NoHeaderAtEnd(root, created, isTimestamp); }
    if root.None? || created.None? || !closed || !isTimestamp(created.value) { return legacy; }
    return Parsed(file[consumed..], Known(root.value, created.value));
  }

  lemma {:induction false} ReadOneLine(file: string, at: nat, root: Option<string>, created: Option<string>,
                                       isTimestamp: string -> bool)
    requires at < |file|
    ensures var n := LineLength(file[at..]);
            var line, rest := file[at..][..n], file[at + n..];
            ReadHeader(file[at..], root, created, isTimestamp) ==
            if TrimLineEnding(line) == FENCE then Finished(rest, root, created, isTimestamp)
            else if ReadField(line).Root? && root.None?
            then ReadHeader(rest, Some(ReadField(line).value), created, isTimestamp)
            else if ReadField(line).Created? && created.None?
            then ReadHeader(rest, root, Some(ReadField(line).value), isTimestamp)
            else None
  {
    hide ReadField, TrimLineEnding, LineLength;
    assert file[at..][LineLength(file[at..])..] == file[at + LineLength(file[at..])..];
  }

  lemma {:induction false} NoHeaderAtEnd(root: Option<string>, created: Option<string>, isTimestamp: string -> bool)
    ensures ReadHeader("", root, created, isTimestamp) == None
  {
  }

  // ---------------------------------------------------------------- the language of the header

  /** One line with its line feed. */
  predicate IsLine(s: string) {
    s != "" && s[|s| - 1] == '\n' && forall i :: 0 <= i < |s| - 1 ==> s[i] != '\n'
  }

  /** A line, or an unfinished last one. */
  predicate IsLineBefore(s: string, rest: string) {
    IsLine(s) || (rest == "" && s != "" && forall i :: 0 <= i < |s| ==> s[i] != '\n')
  }

  predicate AreFields(a: string, b: string, root: string, created: string) {
    || (ReadField(a) == Root(root) && ReadField(b) == Created(created))
    || (ReadField(a) == Created(created) && ReadField(b) == Root(root))
  }

  /** A fence, the two fields in either order, a fence, and the content. */
  ghost predicate IsFile(open: string, a: string, b: string, close: string, parsed: Parsed, isTimestamp: string -> bool)
    requires parsed.provenance.Known?
  {
    && IsLine(open) && TrimLineEnding(open) == FENCE
    && IsLine(a) && IsLine(b) && AreFields(a, b, parsed.provenance.projectRoot, parsed.provenance.created)
    && IsLineBefore(close, parsed.content) && TrimLineEnding(close) == FENCE
    && isTimestamp(parsed.provenance.created)
  }

  lemma {:induction false} FirstLine(s: string, rest: string)
    requires IsLineBefore(s, rest)
    ensures LineLength(s + rest) == |s| && (s + rest)[..|s|] == s && (s + rest)[|s|..] == rest
  {
    var n := LineLength(s + rest);
    assert forall i :: 0 <= i < |s| ==> (s + rest)[i] == s[i];
  }

  lemma {:induction false} FieldsAreNoFence(line: string)
    ensures TrimLineEnding(line) == FENCE ==> ReadField(line) == NoField
  {
    if TrimLineEnding(line) == FENCE {
      assert forall i :: 0 <= i < 3 ==> FENCE[i] == '-';
      assert ColonAt(FENCE) == 3;
    }
  }

  /** A closing fence ends the header. */
  lemma {:induction false} ReadClose(close: string, content: string, root: string, created: string,
                                     isTimestamp: string -> bool)
    requires IsLineBefore(close, content) && TrimLineEnding(close) == FENCE && isTimestamp(created)
    ensures ReadHeader(close + content, Some(root), Some(created), isTimestamp) ==
              Some(Parsed(content, Known(root, created)))
  {
    FirstLine(close, content);
  }

  lemma {:induction false} ReadOneField(line: string, rest: string, root: Option<string>, created: Option<string>,
                                        isTimestamp: string -> bool)
    requires IsLine(line)
    ensures ReadField(line).Root? && root.None? ==>
              ReadHeader(line + rest, root, created, isTimestamp) ==
                  ReadHeader(rest, Some(ReadField(line).value), created, isTimestamp)
    ensures ReadField(line).Created? && created.None? ==>
              ReadHeader(line + rest, root, created, isTimestamp) ==
                  ReadHeader(rest, root, Some(ReadField(line).value), isTimestamp)
  {
    hide ReadField, TrimLineEnding;
    FirstLine(line, rest);
    FieldsAreNoFence(line);
  }

  lemma {:induction false} FileIsParsed(open: string, a: string, b: string, close: string, parsed: Parsed,
                                        isTimestamp: string -> bool)
    requires parsed.provenance.Known? && IsFile(open, a, b, close, parsed, isTimestamp)
    ensures Parse(open + (a + (b + (close + parsed.content))), isTimestamp) == parsed
  {
    hide ReadField, TrimLineEnding, IsLine, LineLength, ReadHeader;
    var Known(root, created) := parsed.provenance;
    var afterB := close + parsed.content;
    FirstLine(open, a + (b + afterB));
    ReadClose(close, parsed.content, root, created, isTimestamp);
    ReadOneField(a, b + afterB, None, None, isTimestamp);
    ReadOneField(b, afterB, Some(root), None, isTimestamp);
    ReadOneField(b, afterB, None, Some(created), isTimestamp);
  }

  /** The last line of the header, read backwards. */
  lemma {:induction false} CloseIsThere(s: string, root: Option<string>, created: Option<string>,
                                        isTimestamp: string -> bool) returns (close: string)
    requires root.Some? && created.Some? && ReadHeader(s, root, created, isTimestamp).Some?
    ensures var parsed := ReadHeader(s, root, created, isTimestamp).value;
            && s == close + parsed.content && IsLineBefore(close, parsed.content) && TrimLineEnding(close) == FENCE
            && parsed.provenance == Known(root.value, created.value) && isTimestamp(created.value)
  {
    close := s[..LineLength(s)];
    hide ReadField, TrimLineEnding;
    assert s == close + s[LineLength(s)..];
  }

  /** One field line of a header that can be read. */
  lemma {:induction false} FieldIsThere(s: string, root: Option<string>, created: Option<string>,
                                        isTimestamp: string -> bool) returns (line: string, rest: string)
    requires (root.None? || created.None?) && ReadHeader(s, root, created, isTimestamp).Some?
    ensures s == line + rest && IsLine(line)
    ensures ReadField(line).Root? || ReadField(line).Created?
    ensures ReadField(line).Root? ==> root.None?
                                      && ReadHeader(s, root, created, isTimestamp) ==
                                           ReadHeader(rest, Some(ReadField(line).value), created, isTimestamp)
    ensures ReadField(line).Created? ==> created.None?
                                         && ReadHeader(s, root, created, isTimestamp) ==
                                              ReadHeader(rest, root, Some(ReadField(line).value), isTimestamp)
  {
    hide ReadField, TrimLineEnding;
    line, rest := s[..LineLength(s)], s[LineLength(s)..];
    assert s == line + rest;
    forall r, c ensures ReadHeader("", r, c, isTimestamp) == None { NoHeaderAtEnd(r, c, isTimestamp); }
    assert rest != "";
  }

  /**
   Exactly the files of this shape are read as having a known provenance: each known result comes
   from such a file, and each such file gives that result.
   */
  lemma {:induction false} KnownMeansFile(file: string, isTimestamp: string -> bool, parsed: Parsed)
    requires parsed.provenance.Known?
    ensures Parse(file, isTimestamp) == parsed <==>
            exists open, a, b, close :: IsFile(open, a, b, close, parsed, isTimestamp)
                                        && file == open + (a + (b + (close + parsed.content)))
  {
    hide ReadField, TrimLineEnding, ReadHeader, IsLine, IsLineBefore;
    if Parse(file, isTimestamp) == parsed {
      var open, s := file[..LineLength(file)], file[LineLength(file)..];
      assert s != "" by { NoHeaderAtEnd(None, None, isTimestamp); }
      assert IsLine(open) by { OpenIsLine(file); }
      var a, afterA := FieldIsThere(s, None, None, isTimestamp);
      var fieldA := ReadField(a);
      var root := if fieldA.Root? then Some(fieldA.value) else None;
      var created := if fieldA.Created? then Some(fieldA.value) else None;
      var b, afterB := FieldIsThere(afterA, root, created, isTimestamp);
      var fieldB := ReadField(b);
      root := if fieldB.Root? then Some(fieldB.value) else root;
      created := if fieldB.Created? then Some(fieldB.value) else created;
      var close := CloseIsThere(afterB, root, created, isTimestamp);
      assert file == open + s;
      assert IsFile(open, a, b, close, parsed, isTimestamp);
    }
    forall open, a, b, close | IsFile(open, a, b, close, parsed, isTimestamp)
      && file == open + (a + (b + (close + parsed.content)))
      ensures Parse(file, isTimestamp) == parsed
    {
      FileIsParsed(open, a, b, close, parsed, isTimestamp);
    }
  }

  lemma {:induction false} OpenIsLine(file: string)
    requires file != "" && file[LineLength(file)..] != ""
    ensures IsLine(file[..LineLength(file)])
  {
  }

  /** Reading loses nothing: the content of a file is all of it, or what follows the header that was read. */
  lemma {:induction false} ParsingIsLossless(file: string, isTimestamp: string -> bool)
    ensures var parsed := Parse(file, isTimestamp);
            if parsed.provenance.Unknown? then parsed.content == file
            else exists header :: file == header + parsed.content
  {
    hide *;
    var parsed := Parse(file, isTimestamp);
    if parsed.provenance.Known? {
      KnownMeansFile(file, isTimestamp, parsed);
      var open, a, b, close :| IsFile(open, a, b, close, parsed, isTimestamp)
        && file == open + (a + (b + (close + parsed.content)));
      assert file == (open + a + b + close) + parsed.content;
    } else {
      UnknownIsWhole(file, isTimestamp);
    }
  }

  lemma {:induction false} HeaderKnowsProvenance(s: string, root: Option<string>, created: Option<string>,
                                                 isTimestamp: string -> bool)
    ensures var r := ReadHeader(s, root, created, isTimestamp); r.Some? ==> r.value.provenance.Known?
    decreases |s|
  {
    hide ReadField, TrimLineEnding;
    if s != "" {
      var rest := s[LineLength(s)..];
      var field := ReadField(s[..LineLength(s)]);
      if field.Root? { HeaderKnowsProvenance(rest, Some(field.value), created, isTimestamp); }
      if field.Created? { HeaderKnowsProvenance(rest, root, Some(field.value), isTimestamp); }
    }
  }

  lemma {:induction false} UnknownIsWhole(file: string, isTimestamp: string -> bool)
    requires Parse(file, isTimestamp).provenance.Unknown?
    ensures Parse(file, isTimestamp).content == file
  {
    hide ReadField, TrimLineEnding, ReadHeader;
    if file != "" { HeaderKnowsProvenance(file[LineLength(file)..], None, None, isTimestamp); }
  }

  // ---------------------------------------------------------------- the round trip

  lemma {:induction false} TrimLeft(space: string, s: string)
    requires forall i :: 0 <= i < |space| ==> IsWhitespace(space[i])
    ensures Trim(space + s) == Trim(s)
    decreases |space|
  {
    hide IsWhitespace;
    if space == "" {
      assert space + s == s;
    } else {
      assert (space + s)[1..] == space[1..] + s;
      TrimLeft(space[1..], s);
    }
  }

  lemma {:induction false} ColonOfConcat(key: string, rest: string)
    requires forall i :: 0 <= i < |key| ==> key[i] != ':'
    ensures ColonAt(key + ":" + rest) == |key|
  {
    var s := key + ":" + rest;
    assert s[|key|] == ':';
    assert forall i :: 0 <= i < |key| ==> s[i] == key[i];
  }

  /** A line `key: value` whose value has no line break. */
  lemma {:induction false} FieldOfLine(key: string, value: string)
    requires (forall i :: 0 <= i < |key| ==> key[i] != ':')
             && (forall i :: 0 <= i < |value| ==> value[i] != '\n' && value[i] != '\r')
    ensures var s := TrimLineEnding(key + ": " + value + "\n");
            && s == key + ":" + (" " + value) && ColonAt(s) == |key| < |s| && s[..|key|] == key
            && Trim(s[|key| + 1..]) == Trim(value)
  {
    hide Trim, IsWhitespace, ColonAt;
    var line, s := key + ": " + value + "\n", key + ": " + value;
    assert StripSuffix(line, '\n') == s;
    assert s[|s| - 1] != '\r';
    assert s == key + ":" + (" " + value);
    ColonOfConcat(key, " " + value);
    assert s[|key| + 1..] == " " + value;
    TrimLeft(" ", value) by { assert IsWhitespace(' ') by { SpaceIsWhitespace(); } }
  }

  lemma {:induction false} SpaceIsWhitespace()
    ensures IsWhitespace(' ')
  {
  }

  lemma {:induction false} KeysAreTrimmed()
    ensures Trim("project_root") == "project_root" && Trim("created") == "created" && "created" != "project_root"
    ensures forall i :: 0 <= i < |"project_root"| ==> "project_root"[i] != ':'
    ensures forall i :: 0 <= i < |"created"| ==> "created"[i] != ':'
  {
    assert "created"[0] != "project_root"[0];
  }

  /** A line break in a text. */
  predicate HasLineBreak(s: string) { exists i :: 0 <= i < |s| && (s[i] == '\n' || s[i] == '\r') }

  lemma {:induction false} RootLineField(root: string)
    requires !HasLineBreak(root)
    ensures IsLine(RootLine(root))
    ensures ReadField(RootLine(root)) == if Trim(root) == "" then NoField else Root(Trim(root))
  {
    hide Trim, ColonAt, TrimLineEnding;
    KeysAreTrimmed();
    FieldOfLine("project_root", root);
    assert RootLine(root) == "project_root" + ": " + root + "\n";
  }

  lemma {:induction false} CreatedLineField(created: string)
    requires !HasLineBreak(created) && Trim(created) != ""
    ensures IsLine(CreatedLine(created)) && ReadField(CreatedLine(created)) == Created(Trim(created))
  {
    hide Trim, ColonAt, TrimLineEnding;
    KeysAreTrimmed();
    FieldOfLine("created", created);
    assert CreatedLine(created) == "created" + ": " + created + "\n";
  }

  /** Text that a timestamp can be written as: one line, nothing to trim, and accepted by the reader. */
  ghost predicate IsWrittenTimestamp(created: string, isTimestamp: string -> bool) {
    !HasLineBreak(created) && created != "" && Trim(created) == created && isTimestamp(created)
  }

  /**
   The round trip. A rendered file gives back the trimmed root, the timestamp and the content
   character for character exactly when the root is more than white space; if it is not, the
   whole file is taken for content of unknown provenance.
   */
  lemma {:induction false} RenderedIsParsed(root: string, created: string, content: string, isTimestamp: string -> bool)
    requires !HasLineBreak(root) && IsWrittenTimestamp(created, isTimestamp)
    ensures var file := Render(root, created, content);
            Parse(file, isTimestamp) ==
            if Trim(root) == "" then Parsed(file, Unknown) else Parsed(content, Known(Trim(root), created))
  {
    hide Trim, ReadField, ReadHeader, HasLineBreak, RootLine, CreatedLine;
    var fence, rest := "---\n", CreatedLine(created) + ("---\n" + content);
    assert IsLine(fence) && TrimLineEnding(fence) == FENCE;
    hide TrimLineEnding, IsLine, LineLength;
    RootLineField(root);
    CreatedLineField(created);
    if Trim(root) == "" {
      FirstLine(fence, RootLine(root) + rest);
      NoFieldNoHeader(RootLine(root), rest, isTimestamp);
    } else {
      var parsed := Parsed(content, Known(Trim(root), created));
      assert IsFile(fence, RootLine(root), CreatedLine(created), fence, parsed, isTimestamp);
      FileIsParsed(fence, RootLine(root), CreatedLine(created), fence, parsed, isTimestamp);
    }
  }

  lemma {:induction false} NoFieldNoHeader(line: string, rest: string, isTimestamp: string -> bool)
    requires IsLine(line) && ReadField(line) == NoField
    ensures ReadHeader(line + rest, None, None, isTimestamp) == None
  {
    hide ReadField, TrimLineEnding;
    FirstLine(line, rest);
  }

  // ---------------------------------------------------------------- remembering and showing

  datatype MemoryError = EmptyContent | UnrepresentableRoot | TooLarge

  datatype Entry = Entry(content: string, provenance: Provenance, bytes: nat)

  /** The file `remember` writes and the entry it answers with. */
  function Remember(content: string, root: string, created: string): Result<(string, Entry), MemoryError> {
    if Trim(content) == "" then Err(EmptyContent)
    else if HasLineBreak(root) then Err(UnrepresentableRoot)
    else
      var file := Render(root, created, content);
      if Utf8Bytes(file) > MAX_FILE_BYTES then Err(TooLarge)
      else Ok((file, Entry(content, Known(root, created), Utf8Bytes(file))))
  }

  function Show(file: string, isTimestamp: string -> bool): Result<Entry, MemoryError> {
    if Utf8Bytes(file) > MAX_FILE_BYTES then Err(TooLarge)
    else
      var parsed := Parse(file, isTimestamp);
      Ok(Entry(parsed.content, parsed.provenance, Utf8Bytes(file)))
  }

  /**
   What was remembered is shown again as the same entry exactly when the root has no white space around it
   and is not empty.
   */
  lemma {:induction false} RememberedIsShown(content: string, root: string, created: string,
                                             isTimestamp: string -> bool)
    requires IsWrittenTimestamp(created, isTimestamp) && Remember(content, root, created).Ok?
    ensures var (file, entry) := Remember(content, root, created).value;
            Show(file, isTimestamp) == Ok(entry) <==> root != "" && Trim(root) == root
  {
    hide Trim, Parse, Render, Utf8Bytes, HasLineBreak;
    RenderedIsParsed(root, created, content, isTimestamp);
    TrimOfNothing();
  }

  lemma {:induction false} TrimOfNothing()
    ensures Trim("") == ""
  {
  }

  /** A directory whose name ends in a space: the entry is shown again with another root than was remembered. */
  lemma {:induction false} SpacedRootIsTrimmed(created: string, isTimestamp: string -> bool)
    requires IsWrittenTimestamp(created, isTimestamp) && Utf8Bytes(Render("/p ", created, "x")) <= MAX_FILE_BYTES
    ensures Remember("x", "/p ", created).Ok?
    ensures var (file, entry) := Remember("x", "/p ", created).value;
            && entry.provenance == Known("/p ", created)
            && Show(file, isTimestamp) == Ok(entry.(provenance := Known("/p", created)))
  {
    assert Trim("x") == "x" && Trim("/p ") == "/p" && !HasLineBreak("/p ") by { TrimExamples(); }
    hide Parse, Render, Utf8Bytes, Trim, HasLineBreak;
    RenderedIsParsed("/p ", created, "x", isTimestamp);
  }

  lemma {:induction false} TrimExamples()
    ensures Trim("x") == "x" && Trim("/p ") == "/p" && !HasLineBreak("/p ")
  {
    assert "/p "[..2] == "/p";
  }

  /**
   `remember` also accepts a root of one space, which no canonical path is; its file is read back as if it
   had no header.
   */
  lemma {:induction false} BlankRootIsForgotten(created: string, isTimestamp: string -> bool)
    requires IsWrittenTimestamp(created, isTimestamp) && Utf8Bytes(Render(" ", created, "x")) <= MAX_FILE_BYTES
    ensures Remember("x", " ", created).Ok?
    ensures var file := Remember("x", " ", created).value.0;
            Show(file, isTimestamp) == Ok(Entry(file, Unknown, Utf8Bytes(file)))
  {
    hide Parse, Render, Utf8Bytes;
    RenderedIsParsed(" ", created, "x", isTimestamp);
  }
}
