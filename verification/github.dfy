/**
 * The GitHub handler: for every `.file` element of the Files view it reads the `data-path`
 * of its file header and walks the rows of its diff table, collecting the trimmed code of
 * deletion rows and of addition rows; files without such lines are not reported.
 *
 * A row is abstracted to its class list and the `textContent` of its deletion and addition
 * code cells (None when the cell is absent).
 */
module GitHubHandler {
  import opened Wrappers
  import opened JsText
  import opened Diff

  datatype GitHubRow = GitHubRow(classes: set<string>, deletionCode: Option<string>, additionCode: Option<string>)

  /** A `.file` element: the `data-path` of its `.file-header[data-path]` (None when it has no
      such header) and the rows of its diff table in document order. */
  datatype GitHubFile = GitHubFile(path: Option<string>, rows: seq<GitHubRow>)

  const TabOrViewerMissing: string := "GitHub files tab or viewer not found"

  /** `if (code)` on the optional text of a cell: present and not the empty string. */
  predicate HasCode(cell: Option<string>) {
    cell.Some? && cell.value != ""
  }

  /** What a row contributes to `removedLines`. */
  function RowRemoved(row: GitHubRow): seq<string> {
    if "deletion" in row.classes && HasCode(row.deletionCode) then [Trim(row.deletionCode.value)] else []
  }

  /** What a row contributes to `addedLines`: only rows that are not deletions. */
  function RowAdded(row: GitHubRow): seq<string> {
    if "deletion" !in row.classes && "addition" in row.classes && HasCode(row.additionCode)
    then [Trim(row.additionCode.value)] else []
  }

  /** A row lands in at most one of the two lists; deletion takes precedence. */
  lemma RowContributesOnce(row: GitHubRow)
    ensures |RowRemoved(row)| + |RowAdded(row)| <= 1
    ensures RowRemoved(row) != [] <==> "deletion" in row.classes && HasCode(row.deletionCode)
    ensures RowAdded(row) != [] <==> "deletion" !in row.classes && "addition" in row.classes && HasCode(row.additionCode)
  {
  }

  function RemovedOf(rows: seq<GitHubRow>): seq<string>
  {
    if rows == [] then [] else RemovedOf(rows[..|rows| - 1]) + RowRemoved(rows[|rows| - 1])
  }

  function AddedOf(rows: seq<GitHubRow>): seq<string>
  {
    if rows == [] then [] else AddedOf(rows[..|rows| - 1]) + RowAdded(rows[|rows| - 1])
  }

  /** Every reported line is trimmed (it may be empty), and each comes from one row. */
  lemma {:induction false} RowsTrimmed(rows: seq<GitHubRow>)
    ensures forall i :: 0 <= i < |RemovedOf(rows)| ==> IsTrimmed(RemovedOf(rows)[i])
    ensures forall i :: 0 <= i < |AddedOf(rows)| ==> IsTrimmed(AddedOf(rows)[i])
    ensures |RemovedOf(rows)| + |AddedOf(rows)| <= |rows|
  {
    if rows != [] {
      RowsTrimmed(rows[..|rows| - 1]);
      RowContributesOnce(rows[|rows| - 1]);
    }
  }

  /** Row order is kept: the lines of a concatenation of rows are the concatenated lines. */
  lemma RowsAppend(a: seq<GitHubRow>, b: seq<GitHubRow>)
    ensures RemovedOf(a + b) == RemovedOf(a) + RemovedOf(b)
    ensures AddedOf(a + b) == AddedOf(a) + AddedOf(b)
  {
    RemovedOfAppend(a, b);
    AddedOfAppend(a, b);
  }

  lemma {:induction false} RemovedOfAppend(a: seq<GitHubRow>, b: seq<GitHubRow>)
    ensures RemovedOf(a + b) == RemovedOf(a) + RemovedOf(b)
    decreases |b|
  {
    if b != [] {
      var b', last := b[..|b| - 1], b[|b| - 1];
      assert (a + b)[..|a + b| - 1] == a + b' && (a + b)[|a + b| - 1] == last;
      RemovedOfAppend(a, b');
      assert RemovedOf(a + b) == RemovedOf(a + b') + RowRemoved(last);
      assert RemovedOf(b) == RemovedOf(b') + RowRemoved(last);
    } else {
      assert a + b == a;
    }
  }

  lemma {:induction false} AddedOfAppend(a: seq<GitHubRow>, b: seq<GitHubRow>)
    ensures AddedOf(a + b) == AddedOf(a) + AddedOf(b)
    decreases |b|
  {
    if b != [] {
      var b', last := b[..|b| - 1], b[|b| - 1];
      assert (a + b)[..|a + b| - 1] == a + b' && (a + b)[|a + b| - 1] == last;
      AddedOfAppend(a, b');
      assert AddedOf(a + b) == AddedOf(a + b') + RowAdded(last);
      assert AddedOf(b) == AddedOf(b') + RowAdded(last);
    } else {
      assert a + b == a;
    }
  }

  /** A row's cell of whitespace only is reported as the empty string, unlike on Azure. */
  lemma WhitespaceCellKept()
    ensures RemovedOf([GitHubRow({"deletion"}, Some(" "), None)]) == [""]
  {
    var rows := [GitHubRow({"deletion"}, Some(" "), None)];
    assert rows[..0] == [];
    assert TrimStart(" ") == "" by { assert " "[1..] == ""; }
  }

  /** The record a file with a header yields, if it has any removed or added line. */
  function FileEntry(path: string, rows: seq<GitHubRow>): (r: seq<FileChanges>)
    ensures |r| <= 1
    ensures r != [] ==> r[0] == FileChanges(path, RemovedOf(rows), AddedOf(rows))
    ensures r != [] <==> RemovedOf(rows) != [] || AddedOf(rows) != []
  {
    var removed := RemovedOf(rows);
    var added := AddedOf(rows);
    if |removed| > 0 || |added| > 0 then [FileChanges(path, removed, added)] else []
  }

  /** What `extractGitHubChanges` returns; None when a `.file` element has no header, where
      reading `getAttribute` of `null` throws. */
  function GitHubChanges(files: seq<GitHubFile>): Option<seq<FileChanges>>
  {
    if files == [] then Some([])
    else
      var init := GitHubChanges(files[..|files| - 1]);
      var last := files[|files| - 1];
      if init.None? || last.path.None? then None
      else Some(init.value + FileEntry(last.path.value, last.rows))
  }

  /** Every emitted record has at least one removed or added line. */
  lemma {:induction false} GitHubChangesHaveLines(files: seq<GitHubFile>)
    requires GitHubChanges(files).Some?
    ensures forall i :: 0 <= i < |GitHubChanges(files).value| ==>
      GitHubChanges(files).value[i].removed != [] || GitHubChanges(files).value[i].added != []
  {
    if files != [] {
      var init, last := files[..|files| - 1], files[|files| - 1];
      GitHubChangesHaveLines(init);
      var x: seq<FileChanges>, e: seq<FileChanges> := GitHubChanges(init).value, FileEntry(last.path.value, last.rows);
      assert GitHubChanges(files).value == x + e;
      forall i | 0 <= i < |x + e| ensures (x + e)[i].removed != [] || (x + e)[i].added != [] {
        if i >= |x| {
          assert (x + e)[i] == e[0];
        }
      }
    }
  }

  /** The extraction succeeds exactly when every `.file` element has a header. */
  lemma {:induction false} GitHubChangesDefined(files: seq<GitHubFile>)
    ensures GitHubChanges(files).Some? <==> forall i :: 0 <= i < |files| ==> files[i].path.Some?
  {
    if files != [] {
      GitHubChangesDefined(files[..|files| - 1]);
      assert forall i :: 0 <= i < |files| - 1 ==> files[..|files| - 1][i] == files[i];
    }
  }

  /** A `.file` element without a header makes the whole extraction throw. */
  lemma GitHubChangesThrowsAt(files: seq<GitHubFile>, i: nat)
    requires i < |files| && files[i].path.None?
    ensures GitHubChanges(files) == None
  {
    GitHubChangesDefined(files);
  }

  /** Files are reported in document order. */
  lemma {:induction false} GitHubChangesAppend(a: seq<GitHubFile>, b: seq<GitHubFile>)
    requires GitHubChanges(a).Some? && GitHubChanges(b).Some?
    ensures GitHubChanges(a + b) == Some(GitHubChanges(a).value + GitHubChanges(b).value)
    decreases |b|
  {
    if b != [] {
      var b' := b[..|b| - 1];
      var last := b[|b| - 1];
      assert GitHubChanges(b').Some? && last.path.Some?;
      GitHubChangesAppend(a, b');
      assert (a + b)[..|a + b| - 1] == a + b' && (a + b)[|a + b| - 1] == last;
      var x, y, e := GitHubChanges(a).value, GitHubChanges(b').value, FileEntry(last.path.value, last.rows);
      assert GitHubChanges(a + b) == Some((x + y) + e);
      assert GitHubChanges(b) == Some(y + e);
      assert (x + y) + e == x + (y + e);
    } else {
      assert a + b == a;
      assert GitHubChanges(a).value + [] == GitHubChanges(a).value;
    }
  }

  lemma GitHubChangesStep(files: seq<GitHubFile>, i: nat)
    requires i < |files| && GitHubChanges(files[..i]).Some? && files[i].path.Some?
    ensures GitHubChanges(files[..i + 1]) ==
      Some(GitHubChanges(files[..i]).value + FileEntry(files[i].path.value, files[i].rows))
  {
    assert files[..i + 1][..i] == files[..i] && files[..i + 1][i] == files[i];
  }

  lemma RowStep(rows: seq<GitHubRow>, j: nat)
    requires j < |rows|
    ensures RemovedOf(rows[..j + 1]) == RemovedOf(rows[..j]) + RowRemoved(rows[j])
    ensures AddedOf(rows[..j + 1]) == AddedOf(rows[..j]) + RowAdded(rows[j])
  {
    assert rows[..j + 1][..j] == rows[..j];
  }

  /** The inner `forEach` over the rows of one file's diff table. */
  method CollectLines(rows: seq<GitHubRow>) returns (removedLines: seq<string>, addedLines: seq<string>)
    ensures removedLines == RemovedOf(rows)
    ensures addedLines == AddedOf(rows)
  {
    removedLines, addedLines := [], [];
    var j := 0;
    while j < |rows|
      invariant 0 <= j <= |rows|
      invariant removedLines == RemovedOf(rows[..j])
      invariant addedLines == AddedOf(rows[..j])
    {
      var line := rows[j];
      if "deletion" in line.classes {
        var code := line.deletionCode;
        if code.Some? && code.value != "" {
          removedLines := removedLines + [Trim(code.value)];
        }
      } else if "addition" in line.classes {
        var code := line.additionCode;
        if code.Some? && code.value != "" {
          addedLines := addedLines + [Trim(code.value)];
        }
      }
      RowStep(rows, j);
      j := j + 1;
    }
    assert rows[..j] == rows;
  }

  method ExtractGitHubChanges(files: seq<GitHubFile>) returns (r: Option<seq<FileChanges>>)
    ensures r == GitHubChanges(files)
  {
    var changes: seq<FileChanges> := [];
    var i := 0;
    assert files[..0] == [];
    while i < |files|
      invariant 0 <= i <= |files|
      invariant GitHubChanges(files[..i]) == Some(changes)
    {
      var diffElement := files[i];
      if diffElement.path.None? {
        GitHubChangesThrowsAt(files, i);
        return None;
      }
      var fileName := diffElement.path.value;
      var removedLines, addedLines := CollectLines(diffElement.rows);
      GitHubChangesStep(files, i);
      if |removedLines| > 0 || |addedLines| > 0 {
        changes := changes + [FileChanges(fileName, removedLines, addedLines)];
      } else {
        assert changes + FileEntry(fileName, diffElement.rows) == changes;
      }
      i := i + 1;
    }
    assert files[..i] == files;
    r := Some(changes);
  }

  /** `handleGitHubExtraction`, once its timers have fired. */
  function HandleGitHubExtraction(filesTab: bool, viewer: bool, files: seq<GitHubFile>): (r: HandlerOutcome)
    ensures r.Reported? <==> !filesTab || !viewer
    ensures r.Reported? ==> r.message == TabOrViewerMissing
    ensures r == Threw <==> filesTab && viewer && exists i :: 0 <= i < |files| && files[i].path.None?
    ensures r.Extracted? ==> Some(r.changes) == GitHubChanges(files)
  {
    GitHubChangesDefined(files);
    if !filesTab || !viewer then Reported(TabOrViewerMissing)
    else
      var changes := GitHubChanges(files);
      if changes.None? then Threw else Extracted(changes.value)
  }
}
