/**
 * The Azure DevOps handler: it walks the file headers of a pull request's Files view,
 * classifies each `repos-line-content` element by its classes, keeps the trimmed, non-empty
 * lines, and projects every file to `{fileName, added, removed}`.
 *
 * The page is abstracted to the sequence of elements a class lookup scans, each with its
 * class list, the text of its file-name element (if it has one) and its line elements.
 */
module AzureHandler {
  import opened Wrappers
  import opened JsText
  import opened Diff

  /** A `repos-line-content` element: its classes and its `textContent`. */
  datatype AzureLine = AzureLine(classes: set<string>, text: string)

  /** An element of the page in document order. */
  datatype AzureElement = AzureElement(classes: set<string>, fileName: Option<string>, lines: seq<AzureLine>)

  /** The class that marks a file header. */
  const HeaderClass: string := "repos-summary-header"

  /** The argument the source passes to `getElementsByClassName`: the selector, dot included. */
  const HeaderClassAsWritten: string := ".repos-summary-header"

  const TabOrViewerMissing: string := "Azure DevOps files tab or viewer not found"

  /** `removed` wins over `added`; a line with neither class is unchanged. */
  function Classify(classes: set<string>): (t: LineType)
    ensures t == Removed <==> "removed" in classes
    ensures t == Added <==> "added" in classes && "removed" !in classes
  {
    if "removed" in classes then Removed
    else if "added" in classes then Added
    else Unchanged
  }

  /** The `{type, content}` records the loop over a header's line elements pushes. */
  function KeptChanges(lines: seq<AzureLine>): (r: seq<Change>)
    ensures |r| <= |lines|
    ensures forall i :: 0 <= i < |r| ==> r[i].content != "" && IsTrimmed(r[i].content)
  {
    if lines == [] then []
    else KeptChanges(lines[..|lines| - 1]) + KeptLine(lines[|lines| - 1])
  }

  /** The record one line element contributes, if any. */
  function KeptLine(l: AzureLine): (r: seq<Change>)
    ensures |r| <= 1
    ensures forall i :: 0 <= i < |r| ==> r[i].content != "" && IsTrimmed(r[i].content)
  {
    var content := Trim(l.text);
    if content != "" then
      var c := Change(Classify(l.classes), content);
      assert c.content != "" && IsTrimmed(c.content);
      [c]
    else []
  }

  /** One line on its own: kept exactly when its trimmed text is non-empty. */
  lemma KeptChangesSingle(l: AzureLine)
    ensures KeptChanges([l]) == if Trim(l.text) != "" then [Change(Classify(l.classes), Trim(l.text))] else []
  {
    assert [l][..0] == [];
  }

  /** Lines are kept in document order: the records of a concatenation are the concatenation
      of the records. */
  lemma {:induction false} KeptChangesAppend(a: seq<AzureLine>, b: seq<AzureLine>)
    ensures KeptChanges(a + b) == KeptChanges(a) + KeptChanges(b)
    decreases |b|
  {
    if b != [] {
      var b' := b[..|b| - 1];
      assert (a + b)[..|a + b| - 1] == a + b';
      KeptChangesAppend(a, b');
    } else {
      assert a + b == a;
    }
  }

  lemma KeptChangesStep(lines: seq<AzureLine>, i: nat)
    requires i < |lines|
    ensures KeptChanges(lines[..i + 1]) == KeptChanges(lines[..i]) +
      (if Trim(lines[i].text) != "" then [Change(Classify(lines[i].classes), Trim(lines[i].text))] else [])
  {
    assert lines[..i + 1][..i] == lines[..i];
  }

  /** `extractAzureFileData`: None for a header without a file-name element; otherwise the
      trimmed file name and the kept lines, possibly none. */
  function FileData(h: AzureElement): (r: Option<FileLines>)
    ensures r.Some? <==> h.fileName.Some?
    ensures r.Some? ==> r.value.fileName == Trim(h.fileName.value) && r.value.changes == KeptChanges(h.lines)
  {
    if h.fileName.None? then None
    else Some(FileLines(Trim(h.fileName.value), KeptChanges(h.lines)))
  }

  method ExtractAzureFileData(h: AzureElement) returns (r: Option<FileLines>)
    ensures r == FileData(h)
  {
    if h.fileName.None? {
      return None;
    }
    var diffContent: seq<Change> := [];
    var i := 0;
    while i < |h.lines|
      invariant 0 <= i <= |h.lines|
      invariant diffContent == KeptChanges(h.lines[..i])
    {
      var code := h.lines[i];
      var kind := Classify(code.classes);
      var content := Trim(code.text);
      if content != "" {
        diffContent := diffContent + [Change(kind, content)];
      }
      KeptChangesStep(h.lines, i);
      i := i + 1;
    }
    assert h.lines[..i] == h.lines;
    r := Some(FileLines(Trim(h.fileName.value), diffContent));
  }

  /** `getElementsByClassName(cls)`: the elements carrying the class token `cls`, in document order. */
  function ElementsByClass(doc: seq<AzureElement>, cls: string): (r: seq<AzureElement>)
    ensures |r| <= |doc|
    ensures forall i :: 0 <= i < |r| ==> cls in r[i].classes && r[i] in doc
    ensures forall e :: e in doc && cls in e.classes ==> e in r
  {
    if doc == [] then []
    else
      var init := doc[..|doc| - 1];
      assert forall e :: e in doc ==> e in init || e == doc[|doc| - 1];
      ElementsByClass(init, cls) + (if cls in doc[|doc| - 1].classes then [doc[|doc| - 1]] else [])
  }

  /** The lookup keeps document order: the elements found in `a + b` are those found in `a`
      followed by those found in `b`. */
  lemma {:induction false} ElementsByClassAppend(a: seq<AzureElement>, b: seq<AzureElement>, cls: string)
    ensures ElementsByClass(a + b, cls) == ElementsByClass(a, cls) + ElementsByClass(b, cls)
    decreases |b|
  {
    if b == [] {
      assert a + b == a;
    } else {
      var b' := b[..|b| - 1];
      assert (a + b)[..|a + b| - 1] == a + b';
      ElementsByClassAppend(a, b', cls);
    }
  }

  /** The headers that have a file-name element, in document order. */
  function Named(headers: seq<AzureElement>): (r: seq<AzureElement>)
    ensures |r| <= |headers|
    ensures forall i :: 0 <= i < |r| ==> r[i].fileName.Some? && r[i] in headers
    ensures forall h :: h in headers && h.fileName.Some? ==> h in r
  {
    if headers == [] then []
    else
      var init := headers[..|headers| - 1];
      assert forall h :: h in headers ==> h in init || h == headers[|headers| - 1];
      Named(init) + (if headers[|headers| - 1].fileName.Some? then [headers[|headers| - 1]] else [])
  }

  /** Named headers keep document order. */
  lemma {:induction false} NamedAppend(a: seq<AzureElement>, b: seq<AzureElement>)
    ensures Named(a + b) == Named(a) + Named(b)
    decreases |b|
  {
    if b == [] {
      assert a + b == a;
    } else {
      var b' := b[..|b| - 1];
      assert (a + b)[..|a + b| - 1] == a + b';
      NamedAppend(a, b');
    }
  }

  /** What the loop of `extractAzureChanges` collects from a list of headers. */
  function AzureChanges(headers: seq<AzureElement>): seq<FileLines>
  {
    if headers == [] then []
    else
      var d := FileData(headers[|headers| - 1]);
      AzureChanges(headers[..|headers| - 1]) + (if d.Some? then [d.value] else [])
  }

  /** One record per header with a file name, in header order, and nothing else. */
  lemma {:induction false} AzureChangesMatchNamed(headers: seq<AzureElement>)
    ensures |AzureChanges(headers)| == |Named(headers)|
    ensures forall i :: 0 <= i < |Named(headers)| ==>
      Some(AzureChanges(headers)[i]) == FileData(Named(headers)[i])
  {
    if headers != [] {
      var init, last := headers[..|headers| - 1], headers[|headers| - 1];
      AzureChangesMatchNamed(init);
      var changes, named := AzureChanges(headers), Named(headers);
      assert changes == AzureChanges(init) + (if FileData(last).Some? then [FileData(last).value] else []);
      assert named == Named(init) + (if last.fileName.Some? then [last] else []);
      forall i | 0 <= i < |named| ensures Some(changes[i]) == FileData(named[i]) {
        if i < |Named(init)| {
          assert changes[i] == AzureChanges(init)[i] && named[i] == Named(init)[i];
        }
      }
    }
  }

  lemma AzureChangesStep(headers: seq<AzureElement>, i: nat)
    requires i < |headers|
    ensures AzureChanges(headers[..i + 1]) == AzureChanges(headers[..i]) +
      (if FileData(headers[i]).Some? then [FileData(headers[i]).value] else [])
  {
    assert headers[..i + 1][..i] == headers[..i];
  }

  method ExtractAzureChanges(doc: seq<AzureElement>) returns (fileNameAndCodes: seq<FileLines>)
    ensures fileNameAndCodes == AzureChanges(ElementsByClass(doc, HeaderClass))
  {
    var headers := ElementsByClass(doc, HeaderClass);
    fileNameAndCodes := [];
    var i := 0;
    while i < |headers|
      invariant 0 <= i <= |headers|
      invariant fileNameAndCodes == AzureChanges(headers[..i])
    {
      var extractedData := ExtractAzureFileData(headers[i]);
      if extractedData.Some? {
        fileNameAndCodes := fileNameAndCodes + [extractedData.value];
      }
      AzureChangesStep(headers, i);
      i := i + 1;
    }
    assert headers[..i] == headers;
  }

  /** The contents of the lines of one kind, in order (`filter` then `map`). */
  function ContentsOf(changes: seq<Change>, kind: LineType): (r: seq<string>)
    ensures |r| <= |changes|
  {
    if changes == [] then []
    else
      var last := changes[|changes| - 1];
      ContentsOf(changes[..|changes| - 1], kind) + (if last.kind == kind then [last.content] else [])
  }

  lemma {:induction false} ContentsOfAppend(a: seq<Change>, b: seq<Change>, kind: LineType)
    ensures ContentsOf(a + b, kind) == ContentsOf(a, kind) + ContentsOf(b, kind)
    decreases |b|
  {
    if b != [] {
      var b' := b[..|b| - 1];
      assert (a + b)[..|a + b| - 1] == a + b';
      ContentsOfAppend(a, b', kind);
    } else {
      assert a + b == a;
    }
  }

  /** Every content selected from lines whose contents are trimmed and non-empty is so too. */
  lemma {:induction false} ContentsOfKeepsTrimmed(changes: seq<Change>, kind: LineType)
    requires forall i :: 0 <= i < |changes| ==> changes[i].content != "" && IsTrimmed(changes[i].content)
    ensures AllTrimmedNonEmpty(ContentsOf(changes, kind))
  {
    if changes != [] {
      ContentsOfKeepsTrimmed(changes[..|changes| - 1], kind);
    }
  }

  /** Every line lands in exactly one of added, removed or the dropped unchanged lines. */
  lemma {:induction false} ContentsOfPartition(changes: seq<Change>)
    ensures |ContentsOf(changes, Added)| + |ContentsOf(changes, Removed)| + |ContentsOf(changes, Unchanged)| == |changes|
  {
    if changes != [] {
      ContentsOfPartition(changes[..|changes| - 1]);
    }
  }

  /** The projection of one file to `{fileName, added, removed}`. */
  function ProjectFile(f: FileLines): FileChanges {
    FileChanges(f.fileName, ContentsOf(f.changes, Removed), ContentsOf(f.changes, Added))
  }

  /** `formattedChanges`: one record per file, same order. */
  function Project(files: seq<FileLines>): (r: seq<FileChanges>)
    ensures |r| == |files|
    ensures forall i :: 0 <= i < |files| ==> r[i] == ProjectFile(files[i])
  {
    seq(|files|, i requires 0 <= i < |files| => ProjectFile(files[i]))
  }

  /** `handleAzureExtraction`, once its timers have fired: the tab and the viewer must exist. */
  function HandleAzureExtraction(filesTab: bool, viewer: bool, doc: seq<AzureElement>): (r: HandlerOutcome)
    ensures r != Threw
    ensures r.Reported? <==> !filesTab || !viewer
    ensures r.Reported? ==> r.message == TabOrViewerMissing
    ensures r.Extracted? ==> |r.changes| == |Named(ElementsByClass(doc, HeaderClass))|
    ensures r.Extracted? ==> forall i :: 0 <= i < |r.changes| ==>
      r.changes[i] == ProjectFile(FileData(Named(ElementsByClass(doc, HeaderClass))[i]).value)
  {
    if !filesTab || !viewer then Reported(TabOrViewerMissing)
    else
      AzureChangesMatchNamed(ElementsByClass(doc, HeaderClass));
      Extracted(Project(AzureChanges(ElementsByClass(doc, HeaderClass))))
  }

  /** Every string the Azure handler reports, added or removed, is trimmed and non-empty, and
      the i-th record is the i-th named header's file. */
  lemma ReportedLinesTrimmed(doc: seq<AzureElement>)
    ensures var r := HandleAzureExtraction(true, true, doc);
      var named := Named(ElementsByClass(doc, HeaderClass));
      r.Extracted? && |r.changes| == |named| &&
      forall i :: 0 <= i < |r.changes| ==>
        && r.changes[i].fileName == Trim(named[i].fileName.value)
        && AllTrimmedNonEmpty(r.changes[i].removed)
        && AllTrimmedNonEmpty(r.changes[i].added)
  {
    var headers := ElementsByClass(doc, HeaderClass);
    AzureChangesMatchNamed(headers);
    var files := AzureChanges(headers);
    forall i | 0 <= i < |files|
      ensures AllTrimmedNonEmpty(ContentsOf(files[i].changes, Removed))
      ensures AllTrimmedNonEmpty(ContentsOf(files[i].changes, Added))
    {
      ContentsOfKeepsTrimmed(files[i].changes, Removed);
      ContentsOfKeepsTrimmed(files[i].changes, Added);
    }
  }

  /** The handler as written looks headers up by the class token ".repos-summary-header". */
  function HandleAzureExtractionAsWritten(filesTab: bool, viewer: bool, doc: seq<AzureElement>): HandlerOutcome
  {
    if !filesTab || !viewer then Reported(TabOrViewerMissing)
    else Extracted(Project(AzureChanges(ElementsByClass(doc, HeaderClassAsWritten))))
  }

  /** On a page whose elements carry no class token with a leading dot, the handler as written
      finds no header and reports an empty list; the corrected lookup reports every named header. */
  lemma AsWrittenFindsNoHeaders(doc: seq<AzureElement>)
    requires forall i :: 0 <= i < |doc| ==> HeaderClassAsWritten !in doc[i].classes
    ensures HandleAzureExtractionAsWritten(true, true, doc) == Extracted([])
  {
    NoElementsWithoutClass(doc, HeaderClassAsWritten);
  }

  lemma {:induction false} NoElementsWithoutClass(doc: seq<AzureElement>, cls: string)
    requires forall i :: 0 <= i < |doc| ==> cls !in doc[i].classes
    ensures ElementsByClass(doc, cls) == []
  {
    if doc != [] {
      NoElementsWithoutClass(doc[..|doc| - 1], cls);
    }
  }

  /** The one-file page of the counterexample. */
  const SampleDoc: seq<AzureElement> := [AzureElement({HeaderClass}, Some("app.js"), [AzureLine({"added"}, "x=1;")])]

  /** On the one-file page the handler as written reports nothing. */
  lemma AsWrittenCounterexample()
    ensures HandleAzureExtractionAsWritten(true, true, SampleDoc) == Extracted([])
  {
    assert HeaderClassAsWritten != HeaderClass;
    AsWrittenFindsNoHeaders(SampleDoc);
  }

  /** On the same page the corrected handler reports the file and its added line. */
  lemma CorrectedFindsSampleFile()
    ensures HandleAzureExtraction(true, true, SampleDoc) == Extracted([FileChanges("app.js", [], ["x=1;"])])
  {
    SampleDocExtracted();
    SampleContents();
    var files := [FileLines("app.js", [Change(Added, "x=1;")])];
    assert ProjectFile(files[0]) == FileChanges("app.js", [], ["x=1;"]);
    assert Project(files) == [FileChanges("app.js", [], ["x=1;"])];
  }

  lemma SampleDocExtracted()
    ensures AzureChanges(ElementsByClass(SampleDoc, HeaderClass)) == [FileLines("app.js", [Change(Added, "x=1;")])]
  {
    SampleHeaderFound();
    SampleFileData();
    assert SampleDoc[..0] == [];
  }

  lemma SampleHeaderFound()
    ensures ElementsByClass(SampleDoc, HeaderClass) == SampleDoc
  {
    assert SampleDoc[..0] == [];
  }

  lemma SampleFileData()
    ensures FileData(SampleDoc[0]) == Some(FileLines("app.js", [Change(Added, "x=1;")]))
  {
    var line := SampleDoc[0].lines[0];
    TrimIdentity("x=1;");
    TrimIdentity("app.js");
    KeptChangesSingle(line);
    assert SampleDoc[0].lines == [line];
  }

  lemma SampleContents()
    ensures ContentsOf([Change(Added, "x=1;")], Removed) == []
    ensures ContentsOf([Change(Added, "x=1;")], Added) == ["x=1;"]
  {
    var changes := [Change(Added, "x=1;")];
    assert changes[..0] == [];
  }
}
