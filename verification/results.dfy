/**
 * The results page: it renders the stored file changes, the explanation and the review
 * message as HTML text, and builds the text that the copy button puts on the clipboard.
 * The DOM writes, the clipboard and the button captions' timers are left out; a rendering
 * is the string the page assigns to `innerHTML`.
 */
module Results {
  import opened Wrappers
  import opened JsText
  import opened JsonValue
  import opened Diff
  import opened Explanations
  import AzureHandler

  // ---------------------------------------------------------------- escaping

  /** `s.replace(/c/g, rep)` for a one-character pattern. */
  function ReplaceAll(s: string, c: char, rep: string): string {
    if s == [] then []
    else (if s[0] == c then rep else [s[0]]) + ReplaceAll(s[1..], c, rep)
  }

  lemma {:induction false} ReplaceAllAppend(a: string, b: string, c: char, rep: string)
    ensures ReplaceAll(a + b, c, rep) == ReplaceAll(a, c, rep) + ReplaceAll(b, c, rep)
  {
    if a != [] {
      assert (a + b)[1..] == a[1..] + b;
      ReplaceAllAppend(a[1..], b, c, rep);
    } else {
      assert a + b == b;
    }
  }

  lemma {:induction false} ReplaceAllAbsent(s: string, c: char, rep: string)
    requires c !in s
    ensures ReplaceAll(s, c, rep) == s
  {
    if s != [] {
      ReplaceAllAbsent(s[1..], c, rep);
    }
  }

  lemma ReplaceAllSingle(c: char, x: char, rep: string)
    ensures ReplaceAll([c], x, rep) == if c == x then rep else [c]
  {
    assert [c][1..] == [];
  }

  /** The five replacements of `escapeHtml`, in the source's order: `&` first. */
  function Escape(s: string): string {
    var s1 := ReplaceAll(s, '&', "&amp;");
    var s2 := ReplaceAll(s1, '<', "&lt;");
    var s3 := ReplaceAll(s2, '>', "&gt;");
    var s4 := ReplaceAll(s3, '"', "&quot;");
    ReplaceAll(s4, '\'', "&#039;")
  }

  /** The entity of one character: the reference definition of escaping. */
  function EscapeChar(c: char): (r: string)
    ensures r != []
  {
    match c
    case '&' => "&amp;"
    case '<' => "&lt;"
    case '>' => "&gt;"
    case '"' => "&quot;"
    case '\'' => "&#039;"
    case _ => [c]
  }

  /** Escaping character by character. */
  function EscapeEach(s: string): string {
    if s == [] then [] else EscapeChar(s[0]) + EscapeEach(s[1..])
  }

  /** `escapeHtml` on a string */
  function EscapeHtml(v: Json): (r: string)
    ensures !v.JStr? ==> r == ""
    ensures v.JStr? ==> Unescape(r) == v.s
  {
    if v.JStr? then
      UnescapeEscape(v.s);
      Escape(v.s)
    else ""
  }

  lemma EscapeAppend(a: string, b: string)
    ensures Escape(a + b) == Escape(a) + Escape(b)
  {
    var a1, b1 := ReplaceAll(a, '&', "&amp;"), ReplaceAll(b, '&', "&amp;");
    ReplaceAllAppend(a, b, '&', "&amp;");
    var a2, b2 := ReplaceAll(a1, '<', "&lt;"), ReplaceAll(b1, '<', "&lt;");
    ReplaceAllAppend(a1, b1, '<', "&lt;");
    var a3, b3 := ReplaceAll(a2, '>', "&gt;"), ReplaceAll(b2, '>', "&gt;");
    ReplaceAllAppend(a2, b2, '>', "&gt;");
    var a4, b4 := ReplaceAll(a3, '"', "&quot;"), ReplaceAll(b3, '"', "&quot;");
    ReplaceAllAppend(a3, b3, '"', "&quot;");
    ReplaceAllAppend(a4, b4, '\'', "&#039;");
  }

  /** A single character: the entities inserted by one pass hold none of the characters the
      later passes replace, and `&` is replaced before any entity exists. */
  lemma EscapeSingle(c: char)
    ensures Escape([c]) == EscapeChar(c)
  {
    ReplaceAllSingle(c, '&', "&amp;");
    if c == '&' {
      AmpEntityStays();
    } else {
      ReplaceAllSingle(c, '<', "&lt;");
      if c == '<' {
        LtEntityStays();
      } else {
        ReplaceAllSingle(c, '>', "&gt;");
        if c == '>' {
          GtEntityStays();
        } else {
          ReplaceAllSingle(c, '"', "&quot;");
          if c == '"' {
            QuotEntityStays();
          } else {
            ReplaceAllSingle(c, '\'', "&#039;");
          }
        }
      }
    }
  }

  /** A named entity: `&`, lower-case letters, `;`. */
  predicate IsNamedEntity(e: string) {
    |e| >= 3 && e[0] == '&' && e[|e| - 1] == ';' && forall i :: 1 <= i < |e| - 1 ==> 'a' <= e[i] <= 'z'
  }

  /** A named entity holds none of the characters that the later passes replace. */
  lemma NamedEntityStays(e: string, c: char, rep: string)
    requires IsNamedEntity(e)
    requires c == '<' || c == '>' || c == '"' || c == '\''
    ensures ReplaceAll(e, c, rep) == e
  {
    forall i | 0 <= i < |e| ensures e[i] != c {
      if 1 <= i < |e| - 1 {
        assert 'a' <= e[i] <= 'z';
      }
    }
    ReplaceAllAbsent(e, c, rep);
  }

  /** `&amp;` passes unchanged through the four later replacements. */
  lemma AmpEntityStays()
    ensures ReplaceAll("&amp;", '<', "&lt;") == "&amp;"
    ensures ReplaceAll("&amp;", '>', "&gt;") == "&amp;"
    ensures ReplaceAll("&amp;", '"', "&quot;") == "&amp;"
    ensures ReplaceAll("&amp;", '\'', "&#039;") == "&amp;"
  {
    var e := "&amp;";
    assert IsNamedEntity(e);
    NamedEntityStays(e, '<', "&lt;");
    NamedEntityStays(e, '>', "&gt;");
    NamedEntityStays(e, '"', "&quot;");
    NamedEntityStays(e, '\'', "&#039;");
  }

  /** `&lt;` passes unchanged through the three later replacements. */
  lemma LtEntityStays()
    ensures ReplaceAll("&lt;", '>', "&gt;") == "&lt;"
    ensures ReplaceAll("&lt;", '"', "&quot;") == "&lt;"
    ensures ReplaceAll("&lt;", '\'', "&#039;") == "&lt;"
  {
    var e := "&lt;";
    assert IsNamedEntity(e);
    NamedEntityStays(e, '>', "&gt;");
    NamedEntityStays(e, '"', "&quot;");
    NamedEntityStays(e, '\'', "&#039;");
  }

  /** `&gt;` passes unchanged through the two later replacements. */
  lemma GtEntityStays()
    ensures ReplaceAll("&gt;", '"', "&quot;") == "&gt;"
    ensures ReplaceAll("&gt;", '\'', "&#039;") == "&gt;"
  {
    var e := "&gt;";
    assert IsNamedEntity(e);
    NamedEntityStays(e, '"', "&quot;");
    NamedEntityStays(e, '\'', "&#039;");
  }

  /** `&quot;` passes unchanged through the last replacement. */
  lemma QuotEntityStays()
    ensures ReplaceAll("&quot;", '\'', "&#039;") == "&quot;"
  {
    var e := "&quot;";
    assert IsNamedEntity(e);
    NamedEntityStays(e, '\'', "&#039;");
  }

  /** The chain of replacements escapes each character on its own: no entity is escaped twice. */
  lemma {:induction false} EscapeIsEach(s: string)
    ensures Escape(s) == EscapeEach(s)
  {
    if s != [] {
      assert s == [s[0]] + s[1..];
      EscapeAppend([s[0]], s[1..]);
      EscapeSingle(s[0]);
      EscapeIsEach(s[1..]);
    } else {
      assert ReplaceAll([], '&', "&amp;") == [];
    }
  }

  /** Reading the entities back. */
  function Unescape(s: string): string
    decreases |s|
  {
    if s == [] then []
    else if StartsWith(s, "&amp;") then "&" + Unescape(s[5..])
    else if StartsWith(s, "&lt;") then "<" + Unescape(s[4..])
    else if StartsWith(s, "&gt;") then ">" + Unescape(s[4..])
    else if StartsWith(s, "&quot;") then "\"" + Unescape(s[6..])
    else if StartsWith(s, "&#039;") then "'" + Unescape(s[6..])
    else [s[0]] + Unescape(s[1..])
  }

  lemma UnescapeChar(c: char, rest: string)
    ensures Unescape(EscapeChar(c) + rest) == [c] + Unescape(rest)
  {
    var e := EscapeChar(c);
    var s := e + rest;
    assert s[..|e|] == e && s[|e|..] == rest;
    if c == '&' {
      assert StartsWith(s, "&amp;");
    } else if c == '<' {
      NotStartsWithAt(s, "&amp;", 1);
      assert StartsWith(s, "&lt;");
    } else if c == '>' {
      NotStartsWithAt(s, "&amp;", 1);
      NotStartsWithAt(s, "&lt;", 1);
      assert StartsWith(s, "&gt;");
    } else if c == '"' {
      NotStartsWithAt(s, "&amp;", 1);
      NotStartsWithAt(s, "&lt;", 1);
      NotStartsWithAt(s, "&gt;", 1);
      assert StartsWith(s, "&quot;");
    } else if c == '\'' {
      NotStartsWithAt(s, "&amp;", 1);
      NotStartsWithAt(s, "&lt;", 1);
      NotStartsWithAt(s, "&gt;", 1);
      NotStartsWithAt(s, "&quot;", 1);
      assert StartsWith(s, "&#039;");
    } else {
      assert s[0] == c;
      NotStartsWithAt(s, "&amp;", 0);
      NotStartsWithAt(s, "&lt;", 0);
      NotStartsWithAt(s, "&gt;", 0);
      NotStartsWithAt(s, "&quot;", 0);
      NotStartsWithAt(s, "&#039;", 0);
      assert s[1..] == rest;
    }
  }

  /** Unescaping undoes escaping: the rendering loses nothing of the text. */
  lemma {:induction false} UnescapeEscape(s: string)
    ensures Unescape(Escape(s)) == s
  {
    EscapeIsEach(s);
    UnescapeEach(s);
  }

  lemma {:induction false} UnescapeEach(s: string)
    ensures Unescape(EscapeEach(s)) == s
  {
    if s != [] {
      UnescapeChar(s[0], EscapeEach(s[1..]));
      UnescapeEach(s[1..]);
    }
  }

  /** The characters that `escapeHtml` removes from its output. */
  predicate Markup(c: char) {
    c == '<' || c == '>' || c == '"' || c == '\''
  }

  /** No markup character survives escaping. */
  lemma {:induction false} EscapeRemovesMarkup(s: string)
    ensures forall i :: 0 <= i < |Escape(s)| ==> !Markup(Escape(s)[i])
  {
    EscapeIsEach(s);
    EscapeEachRemovesMarkup(s);
  }

  lemma {:induction false} EscapeEachRemovesMarkup(s: string)
    ensures forall i :: 0 <= i < |EscapeEach(s)| ==> !Markup(EscapeEach(s)[i])
  {
    if s != [] {
      EscapeEachRemovesMarkup(s[1..]);
      var head, tail := EscapeChar(s[0]), EscapeEach(s[1..]);
      assert forall i :: 0 <= i < |head| ==> !Markup(head[i]);
      assert forall i :: 0 <= i < |head + tail| ==> (head + tail)[i] == if i < |head| then head[i] else tail[i - |head|];
    }
  }

  /** Text without `&<>"'` is left unchanged. */
  lemma EscapeKeepsPlainText(s: string)
    requires '&' !in s && '<' !in s && '>' !in s && '"' !in s && '\'' !in s
    ensures Escape(s) == s
  {
    ReplaceAllAbsent(s, '&', "&amp;");
    ReplaceAllAbsent(s, '<', "&lt;");
    ReplaceAllAbsent(s, '>', "&gt;");
    ReplaceAllAbsent(s, '"', "&quot;");
    ReplaceAllAbsent(s, '\'', "&#039;");
  }

  // ---------------------------------------------------------------- code lines

  /** The CSS class of a line of the given type. */
  function LineClass(kind: LineType): string {
    match kind
    case Added => "added"
    case Removed => "removed"
    case Unchanged => ""
  }

  /** The sign shown before a line of the given type. */
  function LinePrefix(kind: LineType): string {
    match kind
    case Added => "+"
    case Removed => "-"
    case Unchanged => " "
  }

  /** `s.replace(/^word\s+/, "")`: a leading `word` followed by at least one whitespace
      character is removed together with all the whitespace that follows it. */
  function StripMarker(s: string, word: string): (r: string)
    ensures |r| <= |s| && r == s[|s| - |r|..]
    ensures r != s <==> StartsWith(s, word) && |s| > |word| && IsSpace(s[|word|])
    ensures r != s ==> (r == [] || !IsSpace(r[0])) && |r| < |s| - |word|
  {
    if StartsWith(s, word) && |s| > |word| && IsSpace(s[|word|]) then
      var rest := s[|word|..];
      assert IsSpace(rest[0]);
      TrimStartSuffix(rest);
      TrimStart(rest)
    else s
  }

  /** The text shown for a line: "Plus" first, then "Minus". */
  function LineText(content: string): string {
    StripMarker(StripMarker(content, "Plus"), "Minus")
  }

  /** `formatCodeLine` */
  function FormatCodeLine(change: Change): string {
    "<div class=\"code-line " + LineClass(change.kind) + "\"><span class=\"prefix\">"
    + LinePrefix(change.kind) + "</span>" + Escape(LineText(change.content)) + "</div>"
  }

  /** The class and the sign always agree with the line's type and tell the types apart. */
  lemma LineStylesDistinct(a: LineType, b: LineType)
    ensures LineClass(a) == LineClass(b) <==> a == b
    ensures LinePrefix(a) == LinePrefix(b) <==> a == b
  {
  }

  /** Text that starts with neither marker is shown as it is. */
  lemma LineTextPlain(content: string)
    requires !StartsWith(content, "Plus") && !StartsWith(content, "Minus")
    ensures LineText(content) == content
  {
  }

  /** A line's markup shows its text escaped, and reading the entities back gives the text
      with the markers removed. */
  lemma CodeLineShowsText(change: Change)
    ensures var open := "<div class=\"code-line " + LineClass(change.kind) + "\"><span class=\"prefix\">"
      + LinePrefix(change.kind) + "</span>";
      var html := FormatCodeLine(change);
      && |open| + 6 <= |html|
      && Unescape(html[|open|..|html| - 6]) == LineText(change.content)
  {
    var open := "<div class=\"code-line " + LineClass(change.kind) + "\"><span class=\"prefix\">"
      + LinePrefix(change.kind) + "</span>";
    var body := Escape(LineText(change.content));
    var html := FormatCodeLine(change);
    assert html == open + body + "</div>";
    assert html[|open|..|html| - 6] == body;
    UnescapeEscape(LineText(change.content));
  }

  // ---------------------------------------------------------------- file changes

  /** `file.changes.map(formatCodeLine).join("")` */
  function CodeLines(changes: seq<Change>): string {
    if changes == [] then "" else FormatCodeLine(changes[0]) + CodeLines(changes[1..])
  }

  /** `formatSingleFileChanges` for a file that has its classified lines. */
  function FormatSingleFileChanges(f: FileLines): string {
    "\n    <div class=\"file-changes\">\n      <div class=\"file-name\">" + Escape(f.fileName)
    + "</div>\n      <div class=\"code-changes\">" + CodeLines(f.changes) + "</div>\n    </div>\n  "
  }

  /** `formatFileChanges` */
  function FormatFileChanges(files: seq<FileLines>): string {
    if files == [] then "" else FormatSingleFileChanges(files[0]) + FormatFileChanges(files[1..])
  }

  /** The rendering of a list of files is the renderings of its parts, in order. */
  lemma {:induction false} FormatFileChangesAppend(a: seq<FileLines>, b: seq<FileLines>)
    ensures FormatFileChanges(a + b) == FormatFileChanges(a) + FormatFileChanges(b)
  {
    if a == [] {
      assert a + b == b;
    } else {
      assert (a + b)[1..] == a[1..] + b;
      FormatFileChangesAppend(a[1..], b);
    }
  }

  /** The rendering of the lines of a file is the renderings of its parts, in order. */
  lemma {:induction false} CodeLinesAppend(a: seq<Change>, b: seq<Change>)
    ensures CodeLines(a + b) == CodeLines(a) + CodeLines(b)
  {
    if a == [] {
      assert a + b == b;
    } else {
      assert (a + b)[1..] == a[1..] + b;
      CodeLinesAppend(a[1..], b);
    }
  }

  const NoCodeChanges: string := "No code changes available"
  const ErrorDisplayingChanges: string := "Error displaying code changes"

  /** `displayEmptyState` */
  function EmptyState(message: string): string {
    "<div class=\"empty-state\">" + message + "</div>"
  }

  /** The record a handler reports, as the page reads it back from storage. */
  function StoredRecord(f: FileChanges): Json {
    JObj(map["fileName" := JStr(f.fileName), "removed" := JArr(Strings(f.removed)), "added" := JArr(Strings(f.added))])
  }

  function Strings(ss: seq<string>): seq<Json> {
    if ss == [] then [] else [JStr(ss[0])] + Strings(ss[1..])
  }

  function StoredRecords(files: seq<FileChanges>): (r: seq<Json>)
    ensures |r| == |files|
  {
    if files == [] then [] else [StoredRecord(files[0])] + StoredRecords(files[1..])
  }

  /** A change object as `formatCodeLine` reads it: None where reading `content.replace`
      throws. */
  function ChangeOf(v: Json): Option<Change> {
    var content := Get(v, "content");
    if content.None? || !content.value.JStr? then None
    else
      var kind := Get(v, "type");
      Some(Change(if kind == Some(JStr("added")) then Added
                  else if kind == Some(JStr("removed")) then Removed
                  else Unchanged, content.value.s))
  }

  function ChangesOf(items: seq<Json>): Option<seq<Change>> {
    if items == [] then Some([])
    else
      var head, tail := ChangeOf(items[0]), ChangesOf(items[1..]);
      if head.None? || tail.None? then None else Some([head.value] + tail.value)
  }

  /** `formatSingleFileChanges` as written, on what storage holds: it reads `file.changes`,
      and None is the TypeError thrown when that is not an array. */
  function FormatStoredFileAsWritten(file: Json): Option<string> {
    var changes := Get(file, "changes");
    if changes.None? || !changes.value.JArr? then None
    else
      var lines := ChangesOf(changes.value.items);
      if lines.None? then None
      else
        var name := Get(file, "fileName");
        Some("\n    <div class=\"file-changes\">\n      <div class=\"file-name\">"
          + (if name.Some? then EscapeHtml(name.value) else "")
          + "</div>\n      <div class=\"code-changes\">" + CodeLines(lines.value) + "</div>\n    </div>\n  ")
  }

  function FormatStoredAsWritten(files: seq<Json>): Option<string> {
    if files == [] then Some("")
    else
      var head, tail := FormatStoredFileAsWritten(files[0]), FormatStoredAsWritten(files[1..]);
      if head.None? || tail.None? then None else Some(head.value + tail.value)
  }

  /** `displayFileChanges` as written, given `data.fileChanges`. */
  function DisplayFileChangesAsWritten(stored: Option<Json>): string {
    if stored.None? || !Truthy(stored.value) || !stored.value.JArr? || stored.value.items == [] then
      EmptyState(NoCodeChanges)
    else
      var html := FormatStoredAsWritten(stored.value.items);
      if html.None? then EmptyState(ErrorDisplayingChanges) else html.value
  }

  /** The stored records carry no `changes`: every non-empty list of them is shown as the error
      state, whatever it holds. */
  lemma AsWrittenShowsError(files: seq<FileChanges>)
    requires files != []
    ensures DisplayFileChangesAsWritten(Some(JArr(StoredRecords(files)))) == EmptyState(ErrorDisplayingChanges)
  {
    assert "changes" !in StoredRecord(files[0]).fields;
    assert FormatStoredFileAsWritten(StoredRecords(files)[0]).None?;
  }

  /** A concrete list: one file with one added line. */
  lemma AsWrittenCounterexample()
    ensures DisplayFileChangesAsWritten(Some(JArr([StoredRecord(FileChanges("app.js", [], ["x=1;"]))])))
         == EmptyState(ErrorDisplayingChanges)
  {
    AsWrittenShowsError([FileChanges("app.js", [], ["x=1;"])]);
  }

  /** Lines of one type. */
  function Uniform(lines: seq<string>, kind: LineType): (r: seq<Change>)
    ensures |r| == |lines|
  {
    if lines == [] then [] else [Change(kind, lines[0])] + Uniform(lines[1..], kind)
  }

  /** The lines of a reported record, removed lines first, as `formatCodeLine` expects them. */
  function ToFileLines(f: FileChanges): (r: FileLines)
    ensures r.fileName == f.fileName && |r.changes| == |f.removed| + |f.added|
  {
    FileLines(f.fileName, Uniform(f.removed, Removed) + Uniform(f.added, Added))
  }

  lemma {:induction false} ContentsOfUniform(lines: seq<string>, kind: LineType, other: LineType)
    requires kind != other
    ensures AzureHandler.ContentsOf(Uniform(lines, kind), kind) == lines
    ensures AzureHandler.ContentsOf(Uniform(lines, kind), other) == []
  {
    if lines != [] {
      ContentsOfUniform(lines[1..], kind, other);
      AzureHandler.ContentsOfAppend([Change(kind, lines[0])], Uniform(lines[1..], kind), kind);
      AzureHandler.ContentsOfAppend([Change(kind, lines[0])], Uniform(lines[1..], kind), other);
      assert [Change(kind, lines[0])][..0] == [];
      assert lines == [lines[0]] + lines[1..];
    }
  }

  /** Turning a record into lines loses nothing: the Azure projection gives the record back. */
  lemma ToFileLinesRoundTrip(f: FileChanges)
    ensures AzureHandler.ProjectFile(ToFileLines(f)) == f
  {
    var rs, adds := Uniform(f.removed, Removed), Uniform(f.added, Added);
    ContentsOfUniform(f.removed, Removed, Added);
    ContentsOfUniform(f.added, Added, Removed);
    AzureHandler.ContentsOfAppend(rs, adds, Removed);
    AzureHandler.ContentsOfAppend(rs, adds, Added);
    assert f.removed + [] == f.removed;
  }

  function FileLinesOf(files: seq<FileChanges>): (r: seq<FileLines>)
    ensures |r| == |files|
  {
    if files == [] then [] else [ToFileLines(files[0])] + FileLinesOf(files[1..])
  }

  /** `displayFileChanges` with the stored records rendered through their lines. */
  function DisplayFileChanges(stored: Option<seq<FileChanges>>): (r: string)
    ensures stored.None? || stored.value == [] ==> r == EmptyState(NoCodeChanges)
  {
    if stored.None? || stored.value == [] then EmptyState(NoCodeChanges)
    else FormatFileChanges(FileLinesOf(stored.value))
  }

  /** The name `formatCodeLine` compares a line's `type` with. */
  function TypeName(kind: LineType): string {
    match kind
    case Added => "added"
    case Removed => "removed"
    case Unchanged => "unchanged"
  }

  /** `{type, content}` as the Azure extraction builds it. */
  function ChangeRecord(c: Change): Json {
    JObj(map["type" := JStr(TypeName(c.kind)), "content" := JStr(c.content)])
  }

  function ChangeRecords(cs: seq<Change>): seq<Json> {
    if cs == [] then [] else [ChangeRecord(cs[0])] + ChangeRecords(cs[1..])
  }

  /** `{fileName, changes}`: the record `formatSingleFileChanges` was written for. */
  function LinesRecord(f: FileLines): Json {
    JObj(map["fileName" := JStr(f.fileName), "changes" := JArr(ChangeRecords(f.changes))])
  }

  function LinesRecords(files: seq<FileLines>): seq<Json> {
    if files == [] then [] else [LinesRecord(files[0])] + LinesRecords(files[1..])
  }

  lemma {:induction false} ChangesOfRecords(cs: seq<Change>)
    ensures ChangesOf(ChangeRecords(cs)) == Some(cs)
  {
    if cs != [] {
      ChangesOfRecords(cs[1..]);
      var c := cs[0];
      assert ChangeOf(ChangeRecord(c)) == Some(c) by {
        assert Get(ChangeRecord(c), "type") == Some(JStr(TypeName(c.kind)));
      }
      assert ChangeRecords(cs)[1..] == ChangeRecords(cs[1..]);
      assert cs == [c] + cs[1..];
    }
  }

  /** The as-written rendering is the corrected one on the records it was written for. */
  lemma {:induction false} AsWrittenRendersLinesRecords(files: seq<FileLines>)
    ensures FormatStoredAsWritten(LinesRecords(files)) == Some(FormatFileChanges(files))
  {
    if files != [] {
      var f := files[0];
      ChangesOfRecords(f.changes);
      assert Get(LinesRecord(f), "fileName") == Some(JStr(f.fileName));
      assert FormatStoredFileAsWritten(LinesRecord(f)) == Some(FormatSingleFileChanges(f));
      assert LinesRecords(files)[1..] == LinesRecords(files[1..]);
      AsWrittenRendersLinesRecords(files[1..]);
    }
  }

  /** The corrected page shows a non-empty list of records exactly as the code as written shows
      the same files given with their lines: the intended rendering, never the error state. */
  lemma DisplayFileChangesIntended(files: seq<FileChanges>)
    requires files != []
    ensures DisplayFileChanges(Some(files)) == DisplayFileChangesAsWritten(Some(JArr(LinesRecords(FileLinesOf(files)))))
  {
    var lines := FileLinesOf(files);
    var records := LinesRecords(lines);
    AsWrittenRendersLinesRecords(lines);
    assert records != [];
    assert Truthy(JArr(records));
    assert DisplayFileChangesAsWritten(Some(JArr(records))) == FormatFileChanges(lines);
  }

  // ---------------------------------------------------------------- explanation

  /** The sections the page shows, in the order it shows them. */
  const SectionOrder: seq<string> := RequiredSections + ["recommendations"]

  /** `toUpperCase` on one character, for the ASCII letters the section names are made of. */
  function UpperAscii(c: char): (r: char)
    ensures 'a' <= c <= 'z' ==> 'A' <= r <= 'Z' && r as int == c as int - 32
    ensures !('a' <= c <= 'z') ==> r == c
  {
    if 'a' <= c <= 'z' then (c as int - 32) as char else c
  }

  /** `name.charAt(0).toUpperCase() + name.slice(1)` */
  function Capitalize(name: string): (r: string)
    ensures |r| == |name|
    ensures name != [] ==> r[0] == UpperAscii(name[0]) && r[1..] == name[1..]
  {
    if name == [] then [] else [UpperAscii(name[0])] + name[1..]
  }

  /** One point of a section: its text escaped (a point that is not a string shows nothing). */
  function PointItem(point: Json): string {
    ItemOpen + EscapeHtml(point) + ItemClose
  }

  const ItemOpen: string := "\n                <li>"
  const ItemClose: string := "</li>\n              "

  /** `points.map(...).join("")` */
  function PointItems(points: seq<Json>): string {
    if points == [] then "" else PointItem(points[0]) + PointItems(points[1..])
  }

  /** The block of one section: nothing unless its value is a non-empty array. The block is
      written in short pieces; its first piece is the line break. */
  function SectionBlock(name: string, value: Option<Json>): (r: string)
    ensures r != "" <==> value.Some? && value.value.JArr? && value.value.items != []
    ensures r != "" ==> r[0] == '\n'
  {
    if value.Some? && value.value.JArr? && value.value.items != [] then
      "\n" + "          <div class=" + "\"explanation-section\"" + " data-section=\"" + name + "\">"
      + "\n            <h3 class=" + "\"section-subtitle\">" + Escape(Capitalize(name)) + "</h3>"
      + "\n            <ul class=" + "\"explanation-points\">" + "\n              "
      + PointItems(value.value.items)
      + "\n            </ul>" + "\n          </div>" + "\n        "
    else ""
  }

  /** The blocks of the named sections, in order, as `forEach` appends them. */
  function SectionsHtml(sections: Option<Json>, names: seq<string>): (r: string)
    ensures r == "" || r[0] == '\n'
  {
    if names == [] then ""
    else
      var prefix := SectionsHtml(sections, names[..|names| - 1]);
      var name := names[|names| - 1];
      prefix + SectionBlock(name, GetOpt(sections, name))
  }

  const TitleOpen: string := "<div class=" + "\"explanation-title\">"

  /** The title line: present only when the title is truthy. */
  function TitleHtml(explanation: Json): (r: string)
    ensures r != "" <==> Present(Get(explanation, "title"))
    ensures r != "" ==> r[0] == '<'
  {
    var title := Get(explanation, "title");
    if Present(title) then TitleOpen + EscapeHtml(title.value) + "</div>" else ""
  }

  /** What `formatExplanation` returns. */
  function ExplanationHtml(explanation: Json): string {
    var sections := Get(explanation, "sections");
    TitleHtml(explanation) + (if Present(sections) then SectionsHtml(sections, SectionOrder) else "")
  }

  /** `formatExplanation`: the title, then each listed section that holds points. */
  method FormatExplanation(explanation: Json) returns (html: string)
    ensures html == ExplanationHtml(explanation)
  {
    html := "";
    var title := Get(explanation, "title");
    if Present(title) {
      html := html + TitleOpen + EscapeHtml(title.value) + "</div>";
    }
    assert html == TitleHtml(explanation);
    var sections := Get(explanation, "sections");
    if Present(sections) {
      html := AppendSections(html, sections, SectionOrder);
    }
  }

  /** The `forEach` over the section names: the block of each name appended in turn. */
  method AppendSections(head: string, sections: Option<Json>, names: seq<string>) returns (html: string)
    ensures html == head + SectionsHtml(sections, names)
  {
    html := head;
    for k := 0 to |names|
      invariant html == head + SectionsHtml(sections, names[..k])
    {
      var block := SectionBlock(names[k], GetOpt(sections, names[k]));
      SectionsHtmlStep(sections, names, k);
      ConcatAssoc(head, SectionsHtml(sections, names[..k]), block);
      html := html + block;
    }
    assert names[..|names|] == names;
  }

  /** One more name adds its block at the end. */
  lemma SectionsHtmlStep(sections: Option<Json>, names: seq<string>, k: nat)
    requires k < |names|
    ensures SectionsHtml(sections, names[..k + 1])
         == SectionsHtml(sections, names[..k]) + SectionBlock(names[k], GetOpt(sections, names[k]))
  {
    assert names[..k + 1][..k] == names[..k];
  }

  /** The rendering opens with the title exactly when the explanation has one: the section
      blocks all begin with a line break. */
  lemma TitleComesFirst(explanation: Json)
    ensures var html := ExplanationHtml(explanation);
      Present(Get(explanation, "title")) <==> html != "" && html[0] == '<'
  {
    var t := TitleHtml(explanation);
    var sections := Get(explanation, "sections");
    var rest := if Present(sections) then SectionsHtml(sections, SectionOrder) else "";
    assert ExplanationHtml(explanation) == t + rest;
    if t != "" {
      assert (t + rest)[0] == t[0];
    } else {
      assert t + rest == rest;
    }
  }

  /** The rendering reads only the listed sections: two explanations that agree on the title and
      on those sections are rendered alike, whatever other keys they carry. */
  lemma {:induction false} SectionsReadOnlyNames(s1: Option<Json>, s2: Option<Json>, names: seq<string>)
    requires forall n :: n in names ==> GetOpt(s1, n) == GetOpt(s2, n)
    ensures SectionsHtml(s1, names) == SectionsHtml(s2, names)
  {
    if names != [] {
      SectionsReadOnlyNames(s1, s2, names[..|names| - 1]);
    }
  }

  lemma OtherKeysIgnored(e1: Json, e2: Json)
    requires Get(e1, "title") == Get(e2, "title")
    requires Present(Get(e1, "sections")) == Present(Get(e2, "sections"))
    requires forall n :: n in SectionOrder ==> GetOpt(Get(e1, "sections"), n) == GetOpt(Get(e2, "sections"), n)
    ensures ExplanationHtml(e1) == ExplanationHtml(e2)
  {
    SectionsReadOnlyNames(Get(e1, "sections"), Get(e2, "sections"), SectionOrder);
  }

  /** Each point of a shown section appears, escaped, in its block. */
  lemma {:induction false} PointItemsShowEach(points: seq<Json>, i: nat)
    requires i < |points|
    ensures Contains(PointItems(points), EscapeHtml(points[i]))
  {
    if i == 0 {
      var e, rest := EscapeHtml(points[0]), PointItems(points[1..]);
      assert PointItems(points) == ItemOpen + e + (ItemClose + rest) by {
        assert (ItemOpen + e + ItemClose) + rest == (ItemOpen + e) + (ItemClose + rest);
      }
      ContainsInfix(ItemOpen, e, ItemClose + rest);
    } else {
      PointItemsShowEach(points[1..], i - 1);
      ContainsSuffix(PointItem(points[0]), PointItems(points[1..]), EscapeHtml(points[i]));
    }
  }

  /** What a string includes, any string with it at the end includes too. */
  lemma {:induction false} ContainsSuffix(a: string, b: string, t: string)
    requires Contains(b, t)
    ensures Contains(a + b, t)
    decreases |a|
  {
    if a == [] {
      assert a + b == b;
    } else {
      assert (a + b)[1..] == a[1..] + b;
      ContainsSuffix(a[1..], b, t);
    }
  }

  const NoExplanation: string := "No explanation available"
  const InvalidExplanation: string := "Invalid explanation format"
  const ErrorDisplayingExplanation: string := "Error displaying explanation"

  /** The explanation panel, given the stored `explanation` and `JSON.parse` (None when it
      throws): the stored text is parsed, and it needs truthy `sections` to be rendered. */
  function DisplayExplanation(stored: Option<Json>, parse: string -> Option<Json>): (r: string)
    ensures !Present(stored) ==> r == EmptyState(NoExplanation)
    ensures Present(stored) && stored.value.JStr? && parse(stored.value.s).None?
      ==> r == EmptyState(ErrorDisplayingExplanation)
    ensures Present(stored) ==>
      var parsed := if stored.value.JStr? then parse(stored.value.s) else Some(stored.value);
      parsed.Some? && (!Truthy(parsed.value) || !Present(Get(parsed.value, "sections")))
      ==> r == EmptyState(InvalidExplanation)
  {
    if !Present(stored) then EmptyState(NoExplanation)
    else
      var parsed := if stored.value.JStr? then parse(stored.value.s) else Some(stored.value);
      if parsed.None? then EmptyState(ErrorDisplayingExplanation)
      else if !Truthy(parsed.value) || !Present(Get(parsed.value, "sections")) then EmptyState(InvalidExplanation)
      else ExplanationHtml(parsed.value)
  }

  /** An explanation object with truthy sections is rendered, never shown as invalid, whether
      it is stored as it is or as a text that parses to it. */
  lemma DisplayExplanationRenders(v: Json, text: string, parse: string -> Option<Json>)
    requires Present(Get(v, "sections"))
    ensures DisplayExplanation(Some(v), parse) == ExplanationHtml(v)
    ensures text != "" && parse(text) == Some(v) ==> DisplayExplanation(Some(JStr(text)), parse) == ExplanationHtml(v)
  {
    assert v.JObj? && Truthy(v) && Present(Some(v));
    if text != "" && parse(text) == Some(v) {
      assert Present(Some(JStr(text)));
    }
  }

  // ---------------------------------------------------------------- review message

  /** One line of the review message: a line whose trimmed text starts with "-" becomes a list
      item holding the rest of it, trimmed; any other non-empty line a paragraph; an empty line
      nothing. */
  function ReviewLineHtml(line: string): (r: string)
    ensures r == "" <==> line == ""
    ensures StartsWith(r, "<li>") <==> StartsWith(Trim(line), "-")
    ensures StartsWith(Trim(line), "-") ==> r == ListItem(Trim(Trim(line)[1..]))
    ensures !StartsWith(Trim(line), "-") && line != "" ==> r == Paragraph(line)
  {
    var t := Trim(line);
    if StartsWith(t, "-") then ListItem(Trim(t[1..]))
    else if line != "" then Paragraph(line)
    else ""
  }

  /** `<li>` around the escaped text: what it encloses decodes to the text. */
  function ListItem(text: string): (r: string)
    ensures StartsWith(r, "<li>")
    ensures |r| >= 9 && r[|r| - 5..] == "</li>"
    ensures Unescape(r[4..|r| - 5]) == text
  {
    var e := Escape(text);
    var r := "<li>" + e + "</li>";
    assert r[..4] == "<li>" && r[4..|r| - 5] == e && r[|r| - 5..] == "</li>";
    UnescapeEscape(text);
    r
  }

  /** `<p>` around the escaped text: never mistaken for a list item, and what it encloses
      decodes to the text. */
  function Paragraph(text: string): (r: string)
    ensures r != "" && !StartsWith(r, "<li>")
    ensures |r| >= 7 && r[..3] == "<p>" && r[|r| - 4..] == "</p>"
    ensures Unescape(r[3..|r| - 4]) == text
  {
    var e := Escape(text);
    var r := "<p>" + e + "</p>";
    assert r[..3] == "<p>" && r[3..|r| - 4] == e && r[|r| - 4..] == "</p>";
    assert |r| >= 4 && r[1] == 'p';
    NotStartsWithAt(r, "<li>", 1);
    UnescapeEscape(text);
    r
  }

  /** The lines rendered one by one and joined with nothing in between. */
  function ReviewLinesHtml(lines: seq<string>): string {
    if lines == [] then "" else ReviewLineHtml(lines[0]) + ReviewLinesHtml(lines[1..])
  }

  /** The message split at its line breaks, each line rendered. */
  function FormatReviewMessage(message: string): string {
    ReviewLinesHtml(Split(message, '\n'))
  }

  /** A line break only separates: the message renders as its first line followed by the
      rest. */
  lemma FormatReviewMessageBreak(first: string, rest: string)
    requires '\n' !in first
    ensures FormatReviewMessage(first + "\n" + rest) == ReviewLineHtml(first) + FormatReviewMessage(rest)
  {
    SplitAtFirst(first, '\n', rest);
    var parts := Split(first + "\n" + rest, '\n');
    assert parts[0] == first && parts[1..] == Split(rest, '\n');
  }

  /** Joining lines with line breaks and rendering the result renders each line. */
  lemma RenderJoinedLines(lines: seq<string>)
    requires |lines| >= 1
    requires forall i :: 0 <= i < |lines| ==> '\n' !in lines[i]
    ensures FormatReviewMessage(Join(lines, "\n")) == ReviewLinesHtml(lines)
  {
    SplitJoin(lines, '\n');
  }

  /** A dash line `"- " + p` for a trimmed, non-empty `p` becomes the list item of `p`. */
  lemma DashLineIsItem(p: string)
    requires p != [] && IsTrimmed(p)
    ensures ReviewLineHtml("- " + p) == ListItem(p)
  {
    DashLineTrimmed(p, "- " + p);
    ItemLine("- " + p);
    TrimLeadingSpace(p);
  }

  lemma DashLineTrimmed(p: string, line: string)
    requires p != [] && IsTrimmed(p)
    requires line == "- " + p
    ensures |line| >= 2 && line[0] == '-' && line[1..] == " " + p
    ensures Trim(line) == line
  {
    assert |line| >= 2 && line[0] == '-' && line[1..] == " " + p;
    assert IsTrimmed(line) by {
      assert line[|line| - 1] == p[|p| - 1];
      assert !IsSpace('-');
    }
    TrimIdentity(line);
  }

  /** A trimmed line that starts with a dash renders as the item of the rest, trimmed. */
  lemma ItemLine(line: string)
    requires Trim(line) == line && line != [] && line[0] == '-'
    ensures ReviewLineHtml(line) == ListItem(Trim(line[1..]))
  {
    assert line[..1] == [line[0]];
    assert StartsWith(line, "-");
  }

  lemma TrimLeadingSpace(p: string)
    requires p != [] && IsTrimmed(p)
    ensures Trim(" " + p) == p
  {
    assert (" " + p)[1..] == p;
    assert TrimStart(" " + p) == TrimStart(p) == p;
    assert TrimEnd(p) == p;
  }

  const NoReviewMessage: string := "No review message available"
  const ErrorDisplayingReview: string := "Error displaying review message"

  /** The review panel, given the stored `reviewMessage`: a message that is not a string has no
      `split` and is shown as the error state. */
  function DisplayReviewMessage(stored: Option<Json>): (r: string)
    ensures !Present(stored) ==> r == EmptyState(NoReviewMessage)
    ensures Present(stored) && !stored.value.JStr? ==> r == EmptyState(ErrorDisplayingReview)
    ensures Present(stored) && stored.value.JStr? ==> r == FormatReviewMessage(stored.value.s)
  {
    if !Present(stored) then EmptyState(NoReviewMessage)
    else if !stored.value.JStr? then EmptyState(ErrorDisplayingReview)
    else FormatReviewMessage(stored.value.s)
  }

  // ---------------------------------------------------------------- copy text

  /** What a click on the copy button leads to: nothing when no explanation is stored, the
      "Copy failed" caption when parsing, reading the summary or the clipboard throws, and
      otherwise the text placed on the clipboard. */
  datatype CopyOutcome = NothingCopied | CopyFailed | Copied(text: string)

  const CopyHeader: seq<string> := [Greeting, "", NeedsReview, "sbod-xxx: ", "", "Summary of changes:"]
  const CopyFooter: seq<string> := ["", Closing]

  /** `- ${point}` */
  function DashLine(point: Json): string {
    "- " + ToJsString(point)
  }

  function DashLines(points: seq<Json>): (r: seq<string>)
    ensures |r| == |points|
    ensures forall i :: 0 <= i < |points| ==> r[i] == DashLine(points[i])
  {
    if points == [] then [] else [DashLine(points[0])] + DashLines(points[1..])
  }

  /** The lines of the copied text around the summary points. */
  function CopyLines(points: seq<Json>): (r: seq<string>)
    ensures |r| == |CopyHeader| + |points| + |CopyFooter|
  {
    CopyHeader + DashLines(points) + CopyFooter
  }

  /** The copy button's handler, given the stored `explanation`, `JSON.parse` (None when it
      throws) and whether the clipboard accepted the text. */
  function CopyText(stored: Option<Json>, parse: string -> Option<Json>, clipboardOk: bool): (r: CopyOutcome)
    ensures !Present(stored) <==> r == NothingCopied
    ensures r.Copied? ==> clipboardOk
  {
    if !Present(stored) then NothingCopied
    else
      var parsed := if stored.value.JStr? then parse(stored.value.s) else Some(stored.value);
      var points := SummaryPoints(parsed);
      if points.None? || !clipboardOk then CopyFailed
      else Copied(Join(CopyLines(points.value), "\n"))
  }

  /** The copied text has the fixed lines and one dash line per summary point, each on its own
      line, provided no point's text holds a line break. */
  lemma CopiedLines(stored: Option<Json>, parse: string -> Option<Json>, points: seq<Json>)
    requires Present(stored)
    requires SummaryPoints(if stored.value.JStr? then parse(stored.value.s) else Some(stored.value)) == Some(points)
    requires forall i :: 0 <= i < |points| ==> '\n' !in ToJsString(points[i])
    ensures CopyText(stored, parse, true).Copied?
    ensures Split(CopyText(stored, parse, true).text, '\n') == CopyHeader + DashLines(points) + CopyFooter
  {
    HeaderUnbroken();
    DashLinesUnbroken(points);
    var lines := CopyLines(points);
    UnbrokenConcat(CopyHeader, DashLines(points), CopyFooter);
    SplitJoin(lines, '\n');
  }

  /** No line in the list holds a line break. */
  predicate Unbroken(lines: seq<string>) {
    forall i :: 0 <= i < |lines| ==> '\n' !in lines[i]
  }

  lemma HeaderUnbroken()
    ensures Unbroken(CopyHeader) && Unbroken(CopyFooter)
  {
    FixedLinesUnbroken();
  }

  lemma DashLinesUnbroken(points: seq<Json>)
    requires forall i :: 0 <= i < |points| ==> '\n' !in ToJsString(points[i])
    ensures Unbroken(DashLines(points))
  {
  }

  lemma UnbrokenConcat(a: seq<string>, b: seq<string>, c: seq<string>)
    requires Unbroken(a) && Unbroken(b) && Unbroken(c)
    ensures Unbroken(a + b + c)
  {
    var l := a + b + c;
    forall i | 0 <= i < |l| ensures '\n' !in l[i] {
      if i < |a| { assert l[i] == a[i]; }
      else if i < |a| + |b| { assert l[i] == b[i - |a|]; }
      else { assert l[i] == c[i - |a| - |b|]; }
    }
  }

  /** Shown on the page as a review message, each summary point of the copied text whose text
      is trimmed and non-empty becomes its list item. */
  lemma CopiedPointsRenderAsItems(points: seq<Json>, i: nat)
    requires i < |points|
    requires ToJsString(points[i]) != [] && IsTrimmed(ToJsString(points[i]))
    ensures ReviewLineHtml(CopyLines(points)[|CopyHeader| + i]) == ListItem(ToJsString(points[i]))
  {
    assert CopyLines(points)[|CopyHeader| + i] == DashLine(points[i]);
    DashLineIsItem(ToJsString(points[i]));
  }
}
