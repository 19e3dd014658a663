/**
 * The popup: it detects the platform of the active tab, runs the extraction script in the
 * page, and reacts to the messages that come back. Its reactions form a small state machine
 * over the tab-opening latch, the extract button and the extension's local storage.
 *
 * The Chrome APIs are left out: a message arrives as a call of `Receive`, the callback of
 * `chrome.storage.local.get` runs as a separate call `RunStorageCallback`, and the outcome of
 * the results-tab handling is a parameter of `FinishResultsTab`.
 */
module Popup {
  import opened Wrappers
  import opened JsText
  import opened JsonValue
  import opened Diff
  import opened Explanations

  datatype Platform = Azure | GitHub

  /** `detectPlatform`: an ordered substring test on the page's URL. */
  function DetectPlatform(url: string): (r: Option<Platform>)
    ensures r == Some(Azure) <==> Contains(url, "dev.azure.com")
    ensures r == Some(GitHub) <==> !Contains(url, "dev.azure.com") && Contains(url, "github.com")
    ensures r == None <==> !Contains(url, "dev.azure.com") && !Contains(url, "github.com")
  {
    if Contains(url, "dev.azure.com") then Some(Azure)
    else if Contains(url, "github.com") then Some(GitHub)
    else None
  }

  /** The platform badge: logo, label and status-dot class. */
  datatype Badge = Badge(logo: string, text: string, dot: string)

  const OfflineBadge: Badge := Badge("images/404.png", "Offline", "status-dot offline")

  /** `updatePlatformStatus`, given the active tab's `url` (None when it is undefined, where
      `url.includes` throws and the catch shows the offline badge). */
  function PlatformStatus(url: Option<string>): (r: Badge)
    ensures url.None? ==> r == OfflineBadge
    ensures url.Some? ==> (r.dot == "status-dot online" <==> DetectPlatform(url.value).Some?)
    ensures url.Some? && DetectPlatform(url.value) == Some(Azure) ==> r.text == "Azure DevOps"
    ensures url.Some? && DetectPlatform(url.value) == Some(GitHub) ==> r.text == "GitHub"
    ensures url.Some? && DetectPlatform(url.value).None? ==> r == OfflineBadge
  {
    if url.None? then OfflineBadge
    else if Contains(url.value, "dev.azure.com") then Badge("images/ado.png", "Azure DevOps", "status-dot online")
    else if Contains(url.value, "github.com") then Badge("images/github.png", "GitHub", "status-dot online")
    else OfflineBadge
  }

  // ---------------------------------------------------------------- review message

  const PrLink: string := "            sbod-xxx: " + "https://github.com/" + "org/repo/pull/xxx"
  const SummaryHeading: string := "            Summary " + "of changes:"
  const ReviewFallback: string := "Review message could not be generated. Please check the changes and explanation sections."

  /** The lines of the generated message before the bullets: the template's escaped and
      literal line breaks, one line each. */
  const ReviewHead: seq<string> := [Greeting, "", NeedsReview, "", PrLink, "", "", SummaryHeading]

  function Bullet(point: Json): string {
    "\U{2022} " + ToJsString(point)
  }

  function Bullets(points: seq<Json>): (r: seq<string>)
    ensures |r| == |points|
    ensures forall i :: 0 <= i < |r| ==> r[i] == Bullet(points[i])
  {
    seq(|points|, i requires 0 <= i < |points| => Bullet(points[i]))
  }

  /** The lines of the message for the given summary points. */
  function ReviewLines(points: seq<Json>): seq<string> {
    ReviewHead + [Join(Bullets(points), "\n")] + ["", Closing]
  }

  /** `generateDefaultReviewMessage` for the string the popup receives: None from `parse` is
      the `JSON.parse` that throws. */
  function GenerateDefaultReviewMessage(explanation: string, parse: string -> Option<Json>): (r: string)
    ensures SummaryPoints(parse(explanation)).None? <==> r == ReviewFallback
  {
    var points := SummaryPoints(parse(explanation));
    if points.None? then ReviewFallback
    else
      var lines := ReviewLines(points.value);
      var r := Join(lines, "\n");
      assert r != ReviewFallback by {
        JoinLast(lines, "\n");
        assert ReviewFallback[|ReviewFallback| - 1] == '.';
      }
      r
  }

  /** A join ends with the last character of its last part. */
  lemma {:induction false} JoinLast(parts: seq<string>, sep: string)
    requires parts != [] && parts[|parts| - 1] != ""
    ensures var j := Join(parts, sep); j != [] && j[|j| - 1] == parts[|parts| - 1][|parts[|parts| - 1]| - 1]
  {
    if |parts| > 1 {
      JoinLast(parts[1..], sep);
    }
  }

  /** Splicing in the joined bullets is joining the bullets themselves, or an empty line when
      there are none. */
  lemma JoinSpliced(head: seq<string>, bullets: seq<string>, tail: seq<string>, sep: string)
    requires head != [] && tail != []
    ensures Join(head + [Join(bullets, sep)] + tail, sep)
         == Join(head + (if bullets == [] then [""] else bullets) + tail, sep)
  {
    var j := Join(bullets, sep);
    var middle := if bullets == [] then [""] else bullets;
    assert head + [j] + tail == head + ([j] + tail);
    assert head + middle + tail == head + (middle + tail);
    JoinAppend(head, [j] + tail, sep);
    JoinAppend(head, middle + tail, sep);
    JoinCons(j, tail, sep);
    JoinAppend(middle, tail, sep);
    assert Join(middle, sep) == j;
    assert Join([j] + tail, sep) == Join(middle + tail, sep);
  }

  /** No line of the message holds a line break when no summary point does. */
  lemma ReviewLinesUnbroken(pts: seq<Json>)
    requires forall i :: 0 <= i < |pts| ==> '\n' !in ToJsString(pts[i])
    ensures var lines := ReviewHead + (if pts == [] then [""] else Bullets(pts)) + ["", Closing];
      forall i :: 0 <= i < |lines| ==> '\n' !in lines[i]
  {
    var bullets := Bullets(pts);
    FixedLinesUnbroken();
    assert '\n' !in PrLink by {
      assert '\n' !in "            sbod-xxx: " && '\n' !in "https://github.com/" && '\n' !in "org/repo/pull/xxx";
    }
    assert '\n' !in SummaryHeading by {
      assert '\n' !in "            Summary " && '\n' !in "of changes:";
    }
    forall i | 0 <= i < |bullets| ensures '\n' !in bullets[i] {
      assert bullets[i] == "\U{2022} " + ToJsString(pts[i]);
    }
    var middle := if pts == [] then [""] else bullets;
    var lines := ReviewHead + middle + ["", Closing];
    forall i | 0 <= i < |lines| ensures '\n' !in lines[i] {
      if i >= |ReviewHead| && i < |ReviewHead| + |middle| {
        assert lines[i] == middle[i - |ReviewHead|];
      }
    }
  }

  /** The generated message, line by line: the fixed head, one bullet per summary point in
      order (one empty line when there are none), then an empty line and the closing. */
  lemma ReviewMessageLines(explanation: string, parse: string -> Option<Json>)
    requires SummaryPoints(parse(explanation)).Some?
    requires var pts := SummaryPoints(parse(explanation)).value;
      forall i :: 0 <= i < |pts| ==> '\n' !in ToJsString(pts[i])
    ensures var pts := SummaryPoints(parse(explanation)).value;
      Split(GenerateDefaultReviewMessage(explanation, parse), '\n') ==
        ReviewHead + (if pts == [] then [""] else Bullets(pts)) + ["", Closing]
  {
    var pts := SummaryPoints(parse(explanation)).value;
    ReviewLinesUnbroken(pts);
    JoinSpliced(ReviewHead, Bullets(pts), ["", Closing], "\n");
    SplitJoin(ReviewHead + (if pts == [] then [""] else Bullets(pts)) + ["", Closing], '\n');
  }

  // ---------------------------------------------------------------- extraction script

  /** The runtime messages the popup's listener sees. */
  datatype Message =
    | StatusUpdate(text: string)
    | FileChangesMsg(fileNames: Option<seq<FileChanges>>)
    | ExplainChanges(changes: seq<FileChanges>, platform: Platform)
    | ErrorMsg(text: string)
    | ExplanationToPopup(explanation: string)
    | OtherMsg

  const UnsupportedPlatform: string := "\U{274C} Unsupported platform - please use Azure DevOps or GitHub"
  const HandlerNotFound: string := "\U{274C} Platform handler not found"
  const Collecting: string := "\U{1F4D1} Collecting file changes..."

  /** The messages `createExtractionScript`'s function sends, in order. The platform handler is
      called twice: once by the script, and once more by `extractFileNames` from the first
      call's callback; `first` and `second` are how those calls end. A handler whose timer
      callback throws never calls back, and the script then sends nothing more. */
  function ExtractionScriptMessages(url: string, handlerPresent: bool,
                                    first: HandlerOutcome, second: HandlerOutcome): (r: seq<Message>)
    ensures DetectPlatform(url).None? ==> r == [ErrorMsg(UnsupportedPlatform)]
    ensures DetectPlatform(url).Some? && !handlerPresent ==> r == [ErrorMsg(HandlerNotFound)]
  {
    match DetectPlatform(url)
    case None => [ErrorMsg(UnsupportedPlatform)]
    case Some(platform) =>
      if !handlerPresent then [ErrorMsg(HandlerNotFound)]
      else
        match first
        case Reported(message) => [ErrorMsg(message)]
        case Threw => []
        case Extracted(_) =>
          [StatusUpdate(Collecting)] +
          match second
          case Reported(message) => [ErrorMsg(message)]
          case Threw => []
          case Extracted(changes) => [FileChangesMsg(Some(changes)), ExplainChanges(changes, platform)]
  }

  /** On an unsupported page no handler runs: what is sent does not depend on how the handlers
      would have ended. */
  lemma UnsupportedRunsNoHandler(url: string, present1: bool, present2: bool,
                                 first1: HandlerOutcome, second1: HandlerOutcome,
                                 first2: HandlerOutcome, second2: HandlerOutcome)
    requires DetectPlatform(url).None?
    ensures ExtractionScriptMessages(url, present1, first1, second1)
         == ExtractionScriptMessages(url, present2, first2, second2)
    ensures |ExtractionScriptMessages(url, present1, first1, second1)| == 1
  {
  }

  /** An error ends the script, file changes are always followed by the request to explain the
      same changes, and they are sent only when both handler calls extracted. */
  lemma ExtractionScriptOrder(url: string, handlerPresent: bool, first: HandlerOutcome, second: HandlerOutcome)
    ensures var r := ExtractionScriptMessages(url, handlerPresent, first, second);
      && (forall i :: 0 <= i < |r| && r[i].ErrorMsg? ==> i == |r| - 1)
      && (forall i :: 0 <= i < |r| && r[i].FileChangesMsg? ==>
            i + 1 < |r| && r[i + 1].ExplainChanges? && r[i].fileNames == Some(r[i + 1].changes))
      && ((exists i :: 0 <= i < |r| && r[i].FileChangesMsg?) <==>
            DetectPlatform(url).Some? && handlerPresent && first.Extracted? && second.Extracted?)
  {
    var r := ExtractionScriptMessages(url, handlerPresent, first, second);
    if DetectPlatform(url).Some? && handlerPresent && first.Extracted? && second.Extracted? {
      assert r[1].FileChangesMsg?;
    }
  }

  // ---------------------------------------------------------------- message handling

  /**
   * The popup's state. `pendingReads` holds the explanations of the `chrome.storage.local.get`
   * calls whose callbacks have not run yet, oldest first; `tabsInFlight` counts the callbacks
   * that set the latch and have not reached their `finally` yet.
   */
  class PopupState {
    var isTabOpening: bool
    var buttonReady: bool
    var storedFileChanges: Option<seq<FileChanges>>
    var storedExplanation: Option<string>
    var storedReviewMessage: Option<string>
    var pendingReads: seq<string>
    var tabsInFlight: nat
    const parse: string -> Option<Json>

    /** The latch is only held by a callback in flight; such a callback found the file changes
        stored and stored the explanation; and the stored review message is the one generated
        from the stored explanation. */
    predicate Valid()
      reads this
    {
      && (isTabOpening ==> tabsInFlight > 0)
      && (tabsInFlight > 0 ==> storedFileChanges.Some? && storedExplanation.Some?)
      && (storedExplanation.Some? <==> storedReviewMessage.Some?)
      && (storedExplanation.Some? ==>
            storedReviewMessage.value == GenerateDefaultReviewMessage(storedExplanation.value, parse))
    }

    /** The popup opens (`DOMContentLoaded`) over what the extension's storage already holds. */
    constructor(parse: string -> Option<Json>, fileChanges: Option<seq<FileChanges>>,
                explanation: Option<string>)
      ensures Valid()
      ensures this.parse == parse && !isTabOpening && buttonReady
      ensures storedFileChanges == fileChanges && storedExplanation == explanation
      ensures pendingReads == [] && tabsInFlight == 0
    {
      this.parse := parse;
      isTabOpening := false;
      buttonReady := true;
      storedFileChanges := fileChanges;
      storedExplanation := explanation;
      storedReviewMessage := if explanation.Some? then Some(GenerateDefaultReviewMessage(explanation.value, parse)) else None;
      pendingReads := [];
      tabsInFlight := 0;
    }

    /** `handleExtraction`: the button is disabled, and reset again when querying or reloading
        the tab fails. */
    method StartExtraction(tabFailed: bool)
      requires Valid()
      modifies this
      ensures Valid()
      ensures buttonReady == tabFailed
      ensures isTabOpening == old(isTabOpening) && tabsInFlight == old(tabsInFlight)
      ensures pendingReads == old(pendingReads) && storedFileChanges == old(storedFileChanges)
      ensures storedExplanation == old(storedExplanation) && storedReviewMessage == old(storedReviewMessage)
    {
      buttonReady := false;
      if tabFailed {
        buttonReady := true;
      }
    }

    /** `handleIncomingMessages` */
    method Receive(message: Message)
      requires Valid()
      modifies this
      ensures Valid()
      ensures message.ErrorMsg? ==> !isTabOpening && buttonReady
      ensures !message.ErrorMsg? ==> isTabOpening == old(isTabOpening) && buttonReady == old(buttonReady)
      ensures storedFileChanges ==
        if message.FileChangesMsg? && message.fileNames.Some? && message.fileNames.value != []
        then message.fileNames else old(storedFileChanges)
      ensures pendingReads ==
        if message.ExplanationToPopup? && message.explanation != "" && !old(isTabOpening)
        then old(pendingReads) + [message.explanation] else old(pendingReads)
      ensures tabsInFlight == old(tabsInFlight)
      ensures storedExplanation == old(storedExplanation) && storedReviewMessage == old(storedReviewMessage)
    {
      match message
      case FileChangesMsg(fileNames) =>
        if fileNames.Some? && fileNames.value != [] {
          storedFileChanges := fileNames;
        }
      case ErrorMsg(_) =>
        buttonReady := true;
        isTabOpening := false;
      case ExplanationToPopup(explanation) =>
        if explanation != "" && !isTabOpening {
          pendingReads := pendingReads + [explanation];
        }
      case _ =>
    }

    /** The oldest pending `chrome.storage.local.get` callback runs. Without stored file
        changes it only reports that it is waiting; otherwise it sets the latch and stores the
        explanation with the review message generated from it, and the results tab is opened. */
    method RunStorageCallback()
      requires Valid() && pendingReads != []
      modifies this
      ensures Valid()
      ensures pendingReads == old(pendingReads[1..])
      ensures old(storedFileChanges).None? ==>
        && isTabOpening == old(isTabOpening) && tabsInFlight == old(tabsInFlight)
        && storedExplanation == old(storedExplanation) && storedReviewMessage == old(storedReviewMessage)
      ensures old(storedFileChanges).Some? ==>
        && isTabOpening && tabsInFlight == old(tabsInFlight) + 1
        && storedExplanation == Some(old(pendingReads[0]))
        && storedReviewMessage == Some(GenerateDefaultReviewMessage(old(pendingReads[0]), parse))
      ensures buttonReady == old(buttonReady) && storedFileChanges == old(storedFileChanges)
    {
      var explanation := pendingReads[0];
      pendingReads := pendingReads[1..];
      if storedFileChanges.None? {
        return;
      }
      isTabOpening := true;
      var reviewMessage := GenerateDefaultReviewMessage(explanation, parse);
      storedExplanation := Some(explanation);
      storedReviewMessage := Some(reviewMessage);
      tabsInFlight := tabsInFlight + 1;
    }

    /** A callback's results-tab handling ends: on success the button is reset, and in either
        case the `finally` clears the latch. */
    method FinishResultsTab(succeeded: bool)
      requires Valid() && tabsInFlight > 0
      modifies this
      ensures Valid()
      ensures !isTabOpening && tabsInFlight == old(tabsInFlight) - 1
      ensures buttonReady == (old(buttonReady) || succeeded)
      ensures pendingReads == old(pendingReads) && storedFileChanges == old(storedFileChanges)
      ensures storedExplanation == old(storedExplanation) && storedReviewMessage == old(storedReviewMessage)
    {
      if succeeded {
        buttonReady := true;
      }
      isTabOpening := false;
      tabsInFlight := tabsInFlight - 1;
    }
  }

  /** Two explanations that arrive before the first storage callback has run are both
      accepted: the latch is tested when a message arrives but only set in the callback. */
  method TwoExplanationsBeforeCallback(parse: string -> Option<Json>, changes: seq<FileChanges>,
                                       e1: string, e2: string) returns (tabsOpened: nat)
    requires changes != [] && e1 != "" && e2 != ""
    ensures tabsOpened == 2
  {
    var popup := new PopupState(parse, Some(changes), None);
    popup.Receive(ExplanationToPopup(e1));
    popup.Receive(ExplanationToPopup(e2));
    popup.RunStorageCallback();
    popup.RunStorageCallback();
    tabsOpened := popup.tabsInFlight;
  }
}
