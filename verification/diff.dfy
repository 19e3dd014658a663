/**
 * Records exchanged between the page handlers, the popup, the background script and the
 * results page.
 */
module Diff {
  import opened JsText

  /** The `type` of an extracted line. */
  datatype LineType = Added | Removed | Unchanged

  /** `{type, content}`: one classified line of a diff. */
  datatype Change = Change(kind: LineType, content: string)

  /** `{fileName, changes}`: a file with its classified lines in document order. */
  datatype FileLines = FileLines(fileName: string, changes: seq<Change>)

  /** `{fileName, removed, added}`: the record both handlers report and the popup stores. */
  datatype FileChanges = FileChanges(fileName: string, removed: seq<string>, added: seq<string>)

  /** How a platform handler ends: its callback gets an error or the changes, or an exception
      escapes from its timer callback and the callback is never called. */
  datatype HandlerOutcome = Reported(message: string) | Extracted(changes: seq<FileChanges>) | Threw

  predicate AllTrimmedNonEmpty(ss: seq<string>) {
    forall i :: 0 <= i < |ss| ==> ss[i] != "" && IsTrimmed(ss[i])
  }
}
