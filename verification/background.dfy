/**
 * The background script: it serialises the extracted changes into the review prompt,
 * checks and repairs the model's answer, and maps failures onto the fixed user messages.
 * The `.env` file that supplies the API key is parsed here as well.
 *
 * The network is left out: the `.env` text, the HTTP status of the availability probe and
 * the status and JSON body of the review request are parameters, and `JSON.parse` is the
 * parameter `parse` (None when it throws).
 */
module Background {
  import opened Wrappers
  import opened JsText
  import opened JsonValue
  import opened Diff
  import Explanations

  // ---------------------------------------------------------------- error messages

  const InvalidApiKey: string := "Error: Invalid API key. Please check your Gemini API key in .env file."
  const RateLimit: string := "Error: Rate limit exceeded. Please try again later."
  const ConnectionFailed: string := "Error: Failed to connect to Gemini API. Please check your internet connection."
  const ApiKeyNotFound: string := "Error: GEMINI_API_KEY not found in .env file. Please add your API key."
  const InvalidResponse: string := "Error: Received invalid response format. Please try again."
  const UnexpectedError: string := "An unexpected error occurred."

  /** `Object.values(ERROR_MESSAGES)`, in declaration order. */
  const ErrorMessages: seq<string> := [InvalidApiKey, RateLimit, ConnectionFailed, ApiKeyNotFound, InvalidResponse, UnexpectedError]

  /** The first of `msgs` that `text` includes. */
  function FirstIncluded(msgs: seq<string>, text: string): (r: Option<string>)
    ensures r.Some? ==> r.value in msgs && Contains(text, r.value)
    ensures r.None? <==> forall i :: 0 <= i < |msgs| ==> !Contains(text, msgs[i])
  {
    if msgs == [] then None
    else if Contains(text, msgs[0]) then Some(msgs[0])
    else FirstIncluded(msgs[1..], text)
  }

  /** The message the listener sends for a failure whose `error.message` is `text`. */
  function MapError(text: string): (r: string)
    ensures r in ErrorMessages
    ensures r == UnexpectedError || Contains(text, r)
  {
    FirstIncluded(ErrorMessages, text).GetOr(UnexpectedError)
  }

  /** The first message in declaration order wins. */
  lemma {:induction false} FirstIncludedIsFirst(msgs: seq<string>, text: string, i: nat)
    requires i < |msgs| && Contains(text, msgs[i])
    requires forall j :: 0 <= j < i ==> !Contains(text, msgs[j])
    ensures FirstIncluded(msgs, text) == Some(msgs[i])
  {
    if i > 0 {
      FirstIncludedIsFirst(msgs[1..], text, i - 1);
    }
  }

  /** MapError picks the first included message, and falls back only when none is included. */
  lemma MapErrorFirst(text: string, i: nat)
    requires i < |ErrorMessages| && Contains(text, ErrorMessages[i])
    requires forall j :: 0 <= j < i ==> !Contains(text, ErrorMessages[j])
    ensures MapError(text) == ErrorMessages[i]
  {
    FirstIncludedIsFirst(ErrorMessages, text, i);
  }

  /** A text that lacks '.' includes none of the messages, which all end with one. */
  lemma NoPeriodIsUnexpected(text: string)
    requires '.' !in text
    ensures MapError(text) == UnexpectedError
  {
    forall i | 0 <= i < |ErrorMessages| ensures !Contains(text, ErrorMessages[i]) {
      var m := ErrorMessages[i];
      assert m[|m| - 1] == '.';
      NotContainsByChar(text, m, '.');
    }
  }

  // ---------------------------------------------------------------- prompt

  /** One file's block of the prompt, line by line: an empty line, the file name, the
      removed lines, the added lines, and the closing indent. */
  function FileBlock(f: FileChanges): string {
    "\n" + ("      File: " + f.fileName) + "\n" + "      Removed lines:"
    + "\n" + ("      " + Join(f.removed, "\n")) + "\n" + "      Added lines:"
    + "\n" + ("      " + Join(f.added, "\n")) + "\n" + "    "
  }

  /** `formatChanges` */
  function FormatChanges(changes: seq<FileChanges>): string {
    Join(seq(|changes|, i requires 0 <= i < |changes| => FileBlock(changes[i])), "\n\n")
  }

  /** The blocks of a concatenation of file lists are the blocks of each, joined by a blank line. */
  lemma FormatChangesAppend(a: seq<FileChanges>, b: seq<FileChanges>)
    requires a != [] && b != []
    ensures FormatChanges(a + b) == FormatChanges(a) + "\n\n" + FormatChanges(b)
  {
    var ba := seq(|a|, i requires 0 <= i < |a| => FileBlock(a[i]));
    var bb := seq(|b|, i requires 0 <= i < |b| => FileBlock(b[i]));
    assert seq(|a + b|, i requires 0 <= i < |a + b| => FileBlock((a + b)[i])) == ba + bb;
    JoinAppend(ba, bb, "\n\n");
  }

  /** A single file is serialised as its block alone. */
  lemma FormatChangesSingle(f: FileChanges)
    ensures FormatChanges([f]) == FileBlock(f)
  {
    assert seq(1, i requires 0 <= i < 1 => FileBlock([f][i])) == [FileBlock(f)];
  }

  /** `"      " + lines.join("\n")` split back into lines: the first line carries the indent. */
  function IndentFirst(lines: seq<string>): seq<string> {
    if lines == [] then ["      "] else ["      " + lines[0]] + lines[1..]
  }

  /** The lines of a file's block, read as text: an empty line, the file name, the removed
      lines, the added lines and the closing indent, in that order. */
  function BlockLines(f: FileChanges): seq<string> {
    ["", "      File: " + f.fileName, "      Removed lines:"] + IndentFirst(f.removed)
    + ["      Added lines:"] + IndentFirst(f.added) + ["    "]
  }

  lemma IndentFirstJoin(lines: seq<string>)
    ensures Join(IndentFirst(lines), "\n") == "      " + Join(lines, "\n")
  {
    if |lines| > 1 {
      assert IndentFirst(lines) == ["      " + lines[0]] + lines[1..];
    }
  }

  lemma JoinBlockShape(l0: string, l1: string, l2: string, r: seq<string>, l3: string, a: seq<string>, l4: string, sep: string)
    requires r != [] && a != []
    ensures Join([l0, l1, l2] + r + [l3] + a + [l4], sep)
         == l0 + sep + l1 + sep + l2 + sep + Join(r, sep) + sep + l3 + sep + Join(a, sep) + sep + l4
  {
    var p1 := [l0] + [l1];
    JoinAppend([l0], [l1], sep);
    var p2 := p1 + [l2];
    JoinAppend(p1, [l2], sep);
    var p3 := p2 + r;
    JoinAppend(p2, r, sep);
    var p4 := p3 + [l3];
    JoinAppend(p3, [l3], sep);
    var p5 := p4 + a;
    JoinAppend(p4, a, sep);
    JoinAppend(p5, [l4], sep);
    assert [l0, l1, l2] == p2;
  }

  lemma BlockIsJoinOfLines(f: FileChanges)
    ensures FileBlock(f) == Join(BlockLines(f), "\n")
  {
    var name := "      File: " + f.fileName;
    var r, a := IndentFirst(f.removed), IndentFirst(f.added);
    IndentFirstJoin(f.removed);
    IndentFirstJoin(f.added);
    JoinBlockShape("", name, "      Removed lines:", r, "      Added lines:", a, "    ", "\n");
    assert BlockLines(f) == ["", name, "      Removed lines:"] + r + ["      Added lines:"] + a + ["    "];
    assert "" + "\n" == "\n";
  }

  /** The indented lines hold no line break when the lines hold none. */
  lemma IndentFirstUnbroken(lines: seq<string>)
    requires forall i :: 0 <= i < |lines| ==> '\n' !in lines[i]
    ensures forall i :: 0 <= i < |IndentFirst(lines)| ==> '\n' !in IndentFirst(lines)[i]
  {
    var ind := IndentFirst(lines);
    forall i | 0 <= i < |ind| ensures '\n' !in ind[i] {
      if lines != [] && i > 0 {
        assert ind[i] == lines[i];
      }
    }
  }

  /** When the file name and the lines hold no line break, the block read line by line is
      exactly BlockLines: the name first, removed lines before added lines. */
  lemma BlockLineStructure(f: FileChanges)
    requires '\n' !in f.fileName
    requires forall i :: 0 <= i < |f.removed| ==> '\n' !in f.removed[i]
    requires forall i :: 0 <= i < |f.added| ==> '\n' !in f.added[i]
    ensures Split(FileBlock(f), '\n') == BlockLines(f)
  {
    BlockIsJoinOfLines(f);
    var name := "      File: " + f.fileName;
    var r, a := IndentFirst(f.removed), IndentFirst(f.added);
    var head := ["", name, "      Removed lines:"];
    var lines := head + r + ["      Added lines:"] + a + ["    "];
    assert lines == BlockLines(f);
    IndentFirstUnbroken(f.removed);
    IndentFirstUnbroken(f.added);
    forall i | 0 <= i < |lines| ensures '\n' !in lines[i] {
      if i < 3 {
        assert lines[i] == head[i];
      } else if i < 3 + |r| {
        assert lines[i] == r[i - 3];
      } else if i > 3 + |r| && i < 4 + |r| + |a| {
        assert lines[i] == a[i - 4 - |r|];
      }
    }
    SplitJoin(lines, '\n');
  }

  /** The text of `PROMPT_TEMPLATE` before the changes. */
  const PromptPreamble: string := "You are a code review assistant. Please analyze the following code changes and provide a response in valid JSON format with exactly these fields:\n{\n  \"title\": \"A concise one-line summary of the main changes\",\n  \"sections\": {\n    \"summary\": [\"Key points about the overall changes\"],\n    \"implementation\": [\"Technical implementation details\"],\n    \"impact\": [\"Breaking changes\", \"Dependencies affected\"],\n    \"testing\": [\"Testing requirements\", \"Areas to focus testing\"]\n  }\n}\n\nIMPORTANT: \n- Your response must be ONLY the JSON object, nothing else.\n- Do not include any explanations or markdown formatting.\n- The response must be valid JSON that can be parsed with JSON.parse().\n- Keep each point concise and actionable.\n- Limit each section to 2-3 key points.\n\nExample response:\n{\n  \"title\": \"Added user authentication system\",\n  \"sections\": {\n    \"summary\": [\"Implements JWT-based authentication\", \"Adds user login/signup endpoints\"],\n    \"implementation\": [\"Uses bcrypt for password hashing\", \"JWT tokens expire in 24h\"],\n    \"impact\": [\"Requires environment variables for JWT_SECRET\", \"Updates to user model schema\"],\n    \"testing\": [\"Add tests for auth middleware\", \"Verify token expiration handling\"]\n  }\n}\n\nChanges to analyze:\n"

  /** `GEMINI_CONFIG.PROMPT_TEMPLATE(formatChanges(changes))` */
  function Prompt(changes: seq<FileChanges>): (r: string)
    ensures |r| == |PromptPreamble| + |FormatChanges(changes)|
    ensures r[..|PromptPreamble|] == PromptPreamble
    ensures r[|PromptPreamble|..] == FormatChanges(changes)
  {
    PromptPreamble + FormatChanges(changes)
  }

  // ---------------------------------------------------------------- response text

  const LeftQuote: char := '\U{201C}'
  const RightQuote: char := '\U{201D}'

  /** `.replace(/```json\n?|\n?```/g, "")`: at each position the first alternative that
      matches, with the optional line break taken when present, is removed. */
  function StripFences(s: string): (r: string)
    ensures forall i :: 0 <= i < |r| ==> r[i] in s
    decreases |s|
  {
    if s == [] then []
    else if StartsWith(s, "```json\n") then StripFences(s[8..])
    else if StartsWith(s, "```json") then StripFences(s[7..])
    else if StartsWith(s, "\n```") then StripFences(s[4..])
    else if StartsWith(s, "```") then StripFences(s[3..])
    else [s[0]] + StripFences(s[1..])
  }

  /** Text without backquotes passes unchanged, when it does not end in a line break that
      would join a following fence. */
  lemma {:induction false} StripFencesPrefix(body: string, t: string)
    requires '`' !in body
    requires body == [] || body[|body| - 1] != '\n'
    ensures StripFences(body + t) == body + StripFences(t)
    decreases |body|
  {
    if body != [] {
      var s := body + t;
      assert s[0] == body[0];
      NotStartsWithAt(s, "```json\n", 0);
      NotStartsWithAt(s, "```json", 0);
      NotStartsWithAt(s, "```", 0);
      if |body| > 1 {
        assert s[1] == body[1];
        NotStartsWithAt(s, "\n```", 1);
      } else {
        NotStartsWithAt(s, "\n```", 0);
      }
      assert StripFences(s) == [s[0]] + StripFences(s[1..]);
      assert s[1..] == body[1..] + t;
      StripFencesPrefix(body[1..], t);
      assert body == [body[0]] + body[1..];
    } else {
      assert body + t == t;
    }
  }

  /** The closing fence alone is removed entirely. */
  lemma StripClosingFence()
    ensures StripFences("\n```") == []
  {
    assert StartsWith("\n```", "\n```");
    NotStartsWithAt("\n```", "```json\n", 0);
    NotStartsWithAt("\n```", "```json", 0);
  }

  /** The body of a fenced answer is what remains once the fences are stripped. */
  lemma StripFencedBody(body: string)
    requires '`' !in body
    requires body == [] || body[|body| - 1] != '\n'
    ensures StripFences("```json\n" + body + "\n```") == body
  {
    var s := "```json\n" + body + "\n```";
    assert s[..8] == "```json\n";
    assert s[8..] == body + "\n```";
    StripFencesPrefix(body, "\n```");
    StripClosingFence();
    assert body + [] == body;
  }

  /** `.replace(/[“”]/g, '"')` */
  function StraightenQuotes(s: string): (r: string)
    ensures |r| == |s|
    ensures forall i :: 0 <= i < |r| ==> r[i] != LeftQuote && r[i] != RightQuote
    ensures forall i :: 0 <= i < |s| ==> r[i] == if s[i] == LeftQuote || s[i] == RightQuote then '"' else s[i]
  {
    seq(|s|, i requires 0 <= i < |s| => if s[i] == LeftQuote || s[i] == RightQuote then '"' else s[i])
  }

  /** Text without curly quotes is left as it is. */
  lemma StraightenQuotesIdentity(s: string)
    requires LeftQuote !in s && RightQuote !in s
    ensures StraightenQuotes(s) == s
  {
    var r := StraightenQuotes(s);
    forall i | 0 <= i < |s| ensures r[i] == s[i] {
      assert s[i] != LeftQuote && s[i] != RightQuote;
    }
  }

  /** The cleanup applied to the model's text before `JSON.parse`. */
  function CleanResponseText(text: string): (r: string)
    ensures LeftQuote !in r && RightQuote !in r
  {
    var q := StraightenQuotes(StripFences(Trim(text)));
    TrimKeepsAbsence(q, LeftQuote);
    TrimKeepsAbsence(q, RightQuote);
    Trim(q)
  }

  /** Trimming adds no characters. */
  lemma TrimKeepsAbsence(s: string, c: char)
    requires c !in s
    ensures c !in Trim(s)
  {
    var t := TrimStart(s);
    TrimStartSuffix(s);
    forall i | 0 <= i < |t| ensures t[i] != c {
      assert t[i] == s[|s| - |t| + i];
    }
    var r := TrimEnd(t);
    TrimEndPrefix(t);
    forall i | 0 <= i < |r| ensures r[i] != c {
      assert r[i] == t[i];
    }
  }

  /** The cleanup of a text that is already trimmed and holds no fences or curly quotes. */
  lemma CleanTrimmedPlain(s: string, stripped: string)
    requires IsTrimmed(s) && StripFences(s) == stripped
    requires IsTrimmed(stripped) && LeftQuote !in stripped && RightQuote !in stripped
    ensures CleanResponseText(s) == stripped
  {
    TrimIdentity(s);
    StraightenQuotesIdentity(stripped);
    TrimIdentity(stripped);
  }

  /** A fenced answer is unwrapped to its body: the cleanup undoes ```json ... ``` framing. */
  lemma FencedResponse(body: string)
    requires '`' !in body && IsTrimmed(body)
    requires LeftQuote !in body && RightQuote !in body
    ensures CleanResponseText("```json\n" + body + "\n```") == body
  {
    var s := "```json\n" + body + "\n```";
    assert IsTrimmed(s) by { assert s[0] == '`' && s[|s| - 1] == '`'; }
    assert body == [] || body[|body| - 1] != '\n' by {
      assert body == [] || !IsSpace(body[|body| - 1]);
    }
    StripFencedBody(body);
    CleanTrimmedPlain(s, body);
  }

  // ---------------------------------------------------------------- validation and repair

  /** `[v]` unless `v` is already an array. */
  function AsArray(v: Json): Json {
    if v.JArr? then v else JArr([v])
  }

  /** The sections after the `forEach` that wraps every non-array value. */
  function CoercedSections(sections: map<string, Json>): (r: map<string, Json>)
    ensures r.Keys == sections.Keys
    ensures forall k :: k in r ==> r[k].JArr?
  {
    map k | k in sections :: AsArray(sections[k])
  }

  /** The in-place coercion of the sections object, one key at a time. */
  method CoerceSections(sections: map<string, Json>) returns (r: map<string, Json>)
    ensures r.Keys == sections.Keys
    ensures forall k :: k in sections && sections[k].JArr? ==> r[k] == sections[k]
    ensures forall k :: k in sections && !sections[k].JArr? ==> r[k] == JArr([sections[k]])
    ensures r == CoercedSections(sections)
  {
    r := sections;
    var keys := sections.Keys;
    while keys != {}
      invariant keys <= sections.Keys && r.Keys == sections.Keys
      invariant forall k :: k in sections && k !in keys ==> r[k] == AsArray(sections[k])
      invariant forall k :: k in keys ==> r[k] == sections[k]
      decreases keys
    {
      var key :| key in keys;
      if !r[key].JArr? {
        r := r[key := JArr([r[key]])];
      }
      keys := keys - {key};
    }
  }

  /** The four checks of the validation: a truthy title, truthy sections, and each required
      section present and truthy. */
  predicate HasRequiredFields(v: Json) {
    && Present(Get(v, "title"))
    && Present(Get(v, "sections"))
    && forall i :: 0 <= i < |Explanations.RequiredSections| ==>
         Present(Get(v.fields["sections"], Explanations.RequiredSections[i]))
  }

  /** What a successful call returns: an object with a truthy title and a sections object in
      which every value is an array and the four required sections exist. */
  predicate IsExplanation(v: Json) {
    && v.JObj? && "title" in v.fields && Truthy(v.fields["title"])
    && "sections" in v.fields && v.fields["sections"].JObj?
    && (forall k :: k in v.fields["sections"].fields ==> v.fields["sections"].fields[k].JArr?)
    && (forall i :: 0 <= i < |Explanations.RequiredSections| ==> Explanations.RequiredSections[i] in v.fields["sections"].fields)
  }

  /** Validation and repair of the parsed answer; None where the source throws "Missing
      required fields in response" (or a TypeError on `null`). */
  function RepairExplanation(v: Json): (r: Option<Json>)
    ensures r.Some? <==> HasRequiredFields(v)
    ensures r.Some? ==> IsExplanation(r.value)
    ensures r.Some? ==> r.value.fields.Keys == v.fields.Keys
    ensures r.Some? ==> forall k :: k in v.fields && k != "sections" ==> r.value.fields[k] == v.fields[k]
    ensures r.Some? ==> r.value.fields["sections"].fields == CoercedSections(v.fields["sections"].fields)
  {
    if !HasRequiredFields(v) then None
    else
      assert Present(Get(v.fields["sections"], Explanations.RequiredSections[0]));
      var sections := v.fields["sections"].fields;
      var r := JObj(v.fields["sections" := JObj(CoercedSections(sections))]);
      assert forall i :: 0 <= i < |Explanations.RequiredSections| ==> Explanations.RequiredSections[i] in sections by {
        forall i | 0 <= i < |Explanations.RequiredSections|
          ensures Explanations.RequiredSections[i] in sections
        {
          assert Present(Get(v.fields["sections"], Explanations.RequiredSections[i]));
        }
      }
      Some(r)
  }

  /** Repairing a repaired answer changes nothing. */
  lemma RepairIdempotent(v: Json)
    requires HasRequiredFields(v)
    ensures HasRequiredFields(RepairExplanation(v).value)
    ensures RepairExplanation(RepairExplanation(v).value) == RepairExplanation(v)
  {
    var r := RepairExplanation(v).value;
    var sections := r.fields["sections"].fields;
    forall i | 0 <= i < |Explanations.RequiredSections|
      ensures Present(Get(r.fields["sections"], Explanations.RequiredSections[i]))
    {
      assert Explanations.RequiredSections[i] in sections;
    }
    assert CoercedSections(sections) == sections;
    assert r.fields["sections" := JObj(sections)] == r.fields;
  }

  // ---------------------------------------------------------------- the review call

  /** The review request's answer: its HTTP status and the body `response.json()` yields. */
  datatype HttpResponse = HttpResponse(status: nat, body: Json)

  /** `response.ok` */
  predicate StatusOk(status: nat) {
    200 <= status <= 299
  }

  function HttpError(status: nat): string {
    "HTTP error! status: " + NatToString(status)
  }

  const UnknownError: string := "Unknown error"
  // The longer texts below are written in pieces, so that the characters they lack can be
  // checked piece by piece.
  const InvalidStructure: string := "Invalid response " + "structure from Gemini API"
  const FailedToParse: string := "Failed to parse " + "Gemini API response"
  /** V8's message for reading `data.error` when the body is `null`. */
  const NullBodyError: string := "Cannot read properties " + "of null (reading 'error')"
  /** V8's message for calling `trim` on a truthy `text` that is not a string. */
  const TextNotString: string := "data.candidates[0]." + "content.parts[0].text" + ".trim is not a function"

  /** `new Error(data.error.message || "Unknown error").message` */
  function ServerErrorText(error: Json): string {
    var message := Get(error, "message");
    if Present(message) then ToJsString(message.value) else UnknownError
  }

  /** `data.candidates[0]?.content?.parts?.[0]?.text` */
  function AnswerText(data: Json): Option<Json> {
    GetOpt(Index0(GetOpt(GetOpt(Index0(Get(data, "candidates")), "content"), "parts")), "text")
  }

  /** The body names no error of its own and holds a truthy answer text. */
  predicate AnswerPresent(data: Json) {
    !data.JNull? && !Present(Get(data, "error")) && Present(Get(data, "candidates")) && Present(AnswerText(data))
  }

  /** The answer's text: the checks that run before any parsing. Each check has its own
      failure, and only a truthy string text gets through. */
  function ResponseText(data: Json): (r: Result<string, string>)
    ensures data.JNull? ==> r == Err(NullBodyError)
    ensures !data.JNull? && Present(Get(data, "error")) ==> r == Err(ServerErrorText(data.fields["error"]))
    ensures !data.JNull? && !Present(Get(data, "error")) && !AnswerPresent(data) ==> r == Err(InvalidStructure)
    ensures AnswerPresent(data) && !AnswerText(data).value.JStr? ==> r == Err(TextNotString)
    ensures r.Ok? <==> AnswerPresent(data) && AnswerText(data).value.JStr?
    ensures r.Ok? ==> r.value == AnswerText(data).value.s && r.value != ""
  {
    if data.JNull? then Err(NullBodyError)
    else if Present(Get(data, "error")) then Err(ServerErrorText(data.fields["error"]))
    else
      var candidates := Get(data, "candidates");
      var text := AnswerText(data);
      if !Present(candidates) || !Present(text) then Err(InvalidStructure)
      else if !text.value.JStr? then Err(TextNotString)
      else Ok(text.value.s)
  }

  /** The part of `getCodeReview` after the availability probe. */
  function ReviewResponse(resp: HttpResponse, parse: string -> Option<Json>): (r: Result<Json, string>)
    ensures !StatusOk(resp.status) ==> r == Err(HttpError(resp.status))
    ensures r.Ok? ==> IsExplanation(r.value)
    ensures r.Err? && StatusOk(resp.status) && ResponseText(resp.body).Ok? ==> r.error == FailedToParse
    ensures StatusOk(resp.status) && ResponseText(resp.body).Err? ==> r == Err(ResponseText(resp.body).error)
    ensures StatusOk(resp.status) && ResponseText(resp.body).Ok? ==>
      var parsed := parse(CleanResponseText(ResponseText(resp.body).value));
      && (r.Ok? <==> parsed.Some? && HasRequiredFields(parsed.value))
      && (r.Ok? ==> r.value == RepairExplanation(parsed.value).value)
  {
    if !StatusOk(resp.status) then Err(HttpError(resp.status))
    else
      var text := ResponseText(resp.body);
      if text.Err? then Err(text.error)
      else
        var parsed := parse(CleanResponseText(text.value));
        if parsed.None? then Err(FailedToParse)
        else
          var repaired := RepairExplanation(parsed.value);
          if repaired.None? then Err(FailedToParse) else Ok(repaired.value)
  }

  /** Failures of the status and shape checks do not depend on the parser: they happen before
      any parsing. */
  lemma ShapeFailuresPrecedeParsing(resp: HttpResponse, p1: string -> Option<Json>, p2: string -> Option<Json>)
    requires !StatusOk(resp.status) || ResponseText(resp.body).Err?
    ensures ReviewResponse(resp, p1) == ReviewResponse(resp, p2)
    ensures ReviewResponse(resp, p1).Err?
  {
  }

  // ---------------------------------------------------------------- .env

  /** The entry a line of the `.env` file contributes: the raw parts before the first '='
      and between the first and second '=' must both be non-empty; both are trimmed. */
  function EnvEntry(line: string): (r: Option<(string, string)>)
  {
    var parts := Split(line, '=');
    if |parts| >= 2 && parts[0] != "" && parts[1] != "" then Some((Trim(parts[0]), Trim(parts[1]))) else None
  }

  /** The raw key is the text before the first '=', the raw value the text up to the next. */
  lemma EnvEntryOfLine(key: string, value: string, rest: string)
    requires '=' !in key && '=' !in value
    requires rest == [] || rest[0] == '='
    ensures EnvEntry(key + "=" + value + rest) ==
      if key != "" && value != "" then Some((Trim(key), Trim(value))) else None
  {
    var line := key + "=" + value + rest;
    SplitAtFirst(key, '=', value + rest);
    assert line == key + ['='] + (value + rest);
    var parts := Split(line, '=');
    assert parts == [key] + Split(value + rest, '=');
    if rest == [] {
      assert value + rest == value;
      assert Split(value, '=') == [value];
    } else {
      SplitAtFirst(value, '=', rest[1..]);
      assert value + rest == value + ['='] + rest[1..];
    }
    assert |parts| >= 2 && parts[0] == key && parts[1] == value;
  }

  /** The `reduce` over the entries: each entry overwrites the key it names. */
  function Assign(entries: seq<Option<(string, string)>>): map<string, string> {
    if entries == [] then map[]
    else
      var acc := Assign(entries[..|entries| - 1]);
      var e := entries[|entries| - 1];
      if e.Some? then acc[e.value.0 := e.value.1] else acc
  }

  /** The entries of the lines, in order. */
  function Entries(lines: seq<string>): (r: seq<Option<(string, string)>>)
    ensures |r| == |lines|
    ensures forall i :: 0 <= i < |lines| ==> r[i] == EnvEntry(lines[i])
  {
    seq(|lines|, i requires 0 <= i < |lines| => EnvEntry(lines[i]))
  }

  function EnvVars(lines: seq<string>): map<string, string> {
    Assign(Entries(lines))
  }

  function ParseEnv(text: string): map<string, string> {
    EnvVars(Split(text, '\n'))
  }

  /** The entry names key `k`. */
  predicate Names(e: Option<(string, string)>, k: string) {
    e.Some? && e.value.0 == k
  }

  lemma {:induction false} AssignKeys(entries: seq<Option<(string, string)>>, k: string)
    ensures k in Assign(entries) <==> exists i :: 0 <= i < |entries| && Names(entries[i], k)
  {
    if entries != [] {
      var init := entries[..|entries| - 1];
      AssignKeys(init, k);
      if k in Assign(init) {
        var i :| 0 <= i < |init| && Names(init[i], k);
        assert entries[i] == init[i];
      }
      if exists i :: 0 <= i < |entries| && Names(entries[i], k) {
        var i :| 0 <= i < |entries| && Names(entries[i], k);
        if i < |init| {
          assert init[i] == entries[i];
        }
      }
    }
  }

  lemma {:induction false} AssignLastWins(entries: seq<Option<(string, string)>>, i: nat)
    requires i < |entries| && entries[i].Some?
    requires forall j :: i < j < |entries| ==> !Names(entries[j], entries[i].value.0)
    ensures entries[i].value.0 in Assign(entries)
    ensures Assign(entries)[entries[i].value.0] == entries[i].value.1
  {
    var init := entries[..|entries| - 1];
    if i < |entries| - 1 {
      assert init[i] == entries[i];
      AssignLastWins(init, i);
    }
  }

  /** The line contributes an entry for key `k`. */
  predicate Defines(line: string, k: string) {
    Names(EnvEntry(line), k)
  }

  /** A key is defined exactly when some line defines it. */
  lemma EnvVarsKeys(lines: seq<string>, k: string)
    ensures k in EnvVars(lines) <==> exists i :: 0 <= i < |lines| && Defines(lines[i], k)
  {
    var entries := Entries(lines);
    AssignKeys(entries, k);
    if k in EnvVars(lines) {
      var i :| 0 <= i < |entries| && Names(entries[i], k);
      assert Defines(lines[i], k);
    }
  }

  /** The value of a key is the one given by the last line that defines it. */
  lemma EnvVarsLastWins(lines: seq<string>, i: nat)
    requires i < |lines| && EnvEntry(lines[i]).Some?
    requires forall j :: i < j < |lines| ==> !Defines(lines[j], EnvEntry(lines[i]).value.0)
    ensures EnvEntry(lines[i]).value.0 in EnvVars(lines)
    ensures EnvVars(lines)[EnvEntry(lines[i]).value.0] == EnvEntry(lines[i]).value.1
  {
    var entries := Entries(lines);
    assert forall j :: i < j < |entries| ==> !Names(entries[j], entries[i].value.0);
    AssignLastWins(entries, i);
  }

  const ApiKeyName: string := "GEMINI_API_KEY"
  const KeyNotFound: string := "GEMINI_API_KEY not found"

  /** `envVars.GEMINI_API_KEY` */
  function EnvApiKey(envText: string): Option<string> {
    var env := ParseEnv(envText);
    if ApiKeyName in env then Some(env[ApiKeyName]) else None
  }

  predicate KeyPresent(key: Option<string>) {
    key.Some? && key.value != ""
  }

  /** The outcome of the whole `getCodeReview` for a background script whose key is or is not
      loaded yet. */
  function CodeReview(keyLoaded: bool, envText: string, probeStatus: nat, resp: HttpResponse,
                      parse: string -> Option<Json>): (r: Result<Json, string>)
    ensures r.Ok? ==> IsExplanation(r.value)
    ensures !keyLoaded && !KeyPresent(EnvApiKey(envText)) ==> r == Err(KeyNotFound)
    ensures (keyLoaded || KeyPresent(EnvApiKey(envText))) && !StatusOk(probeStatus) ==> r == Err(HttpError(probeStatus))
    ensures (keyLoaded || KeyPresent(EnvApiKey(envText))) && StatusOk(probeStatus) ==> r == ReviewResponse(resp, parse)
  {
    if !keyLoaded && !KeyPresent(EnvApiKey(envText)) then Err(KeyNotFound)
    else if !StatusOk(probeStatus) then Err(HttpError(probeStatus))
    else ReviewResponse(resp, parse)
  }

  /** A failure text the code itself raises: none of them holds a period, except V8's
      message for a non-string answer text. */
  predicate RaisedLocally(e: string) {
    e == TextNotString || '.' !in e
  }

  lemma TextNotStringLacks(c: char)
    requires c == 'l' || c == 'y' || c == 'g' || c == 'A'
    ensures c !in TextNotString
  {
    var p1, p2, p3 := "data.candidates[0].", "content.parts[0].text", ".trim is not a function";
    forall i | 0 <= i < |p1| ensures p1[i] != c {}
    forall i | 0 <= i < |p2| ensures p2[i] != c {}
    forall i | 0 <= i < |p3| ensures p3[i] != c {}
    assert TextNotString == p1 + p2 + p3;
  }

  /** The message holds the character `c`, which V8's message for a non-string answer text
      lacks, at `k` places from its end. */
  lemma TextNotStringLacksMessage(m: string, k: nat, c: char)
    requires c == 'l' || c == 'y' || c == 'g' || c == 'A'
    requires 0 < k <= |m| && m[|m| - k] == c
    ensures !Contains(TextNotString, m)
  {
    TextNotStringLacks(c);
    NotContainsByChar(TextNotString, m, c);
  }

  /** V8's message for a non-string answer text includes none of the listed messages: each
      of them holds a character that the text lacks. */
  lemma TextNotStringIsUnexpected()
    ensures MapError(TextNotString) == UnexpectedError
  {
    assert InvalidApiKey[|InvalidApiKey| - 3] == 'l';
    TextNotStringLacksMessage(InvalidApiKey, 3, 'l');
    assert RateLimit[|RateLimit| - 6] == 'l';
    TextNotStringLacksMessage(RateLimit, 6, 'l');
    assert ConnectionFailed[|ConnectionFailed| - 25] == 'y';
    TextNotStringLacksMessage(ConnectionFailed, 25, 'y');
    assert ApiKeyNotFound[|ApiKeyNotFound| - 2] == 'y';
    TextNotStringLacksMessage(ApiKeyNotFound, 2, 'y');
    assert InvalidResponse[|InvalidResponse| - 5] == 'g';
    TextNotStringLacksMessage(InvalidResponse, 5, 'g');
    assert UnexpectedError[0] == 'A';
    TextNotStringLacksMessage(UnexpectedError, |UnexpectedError|, 'A');
    forall i | 0 <= i < |ErrorMessages| ensures !Contains(TextNotString, ErrorMessages[i]) {
    }
  }

  /** A locally raised text includes none of the listed messages. */
  lemma RaisedLocallyIsUnexpected(e: string)
    requires RaisedLocally(e)
    ensures MapError(e) == UnexpectedError
  {
    if e == TextNotString {
      TextNotStringIsUnexpected();
    } else {
      NoPeriodIsUnexpected(e);
    }
  }

  lemma HttpErrorRaisedLocally(status: nat)
    ensures RaisedLocally(HttpError(status))
  {
    var digits := NatToString(status);
    var e := HttpError(status);
    assert forall i :: 0 <= i < |digits| ==> digits[i] != '.';
    assert forall i :: 0 <= i < |e| ==> e[i] != '.' by {
      forall i | 0 <= i < |e| ensures e[i] != '.' {
        if i >= 20 {
          assert e[i] == digits[i - 20];
        }
      }
    }
  }

  /** Every failure of the answer's checks, except an error the server names itself, is
      raised locally. */
  lemma ReviewFailuresRaisedLocally(resp: HttpResponse, parse: string -> Option<Json>)
    requires !Present(Get(resp.body, "error"))
    requires ReviewResponse(resp, parse).Err?
    ensures RaisedLocally(ReviewResponse(resp, parse).error)
  {
    if !StatusOk(resp.status) {
      HttpErrorRaisedLocally(resp.status);
    } else if ResponseText(resp.body).Err? {
      ResponseTextFailuresRaisedLocally(resp.body);
    } else {
      FixedFailuresRaisedLocally();
    }
  }

  /** The fixed failure texts hold no period. */
  lemma FixedFailuresRaisedLocally()
    ensures RaisedLocally(NullBodyError) && RaisedLocally(InvalidStructure) && RaisedLocally(FailedToParse)
  {
    assert '.' !in "Cannot read properties " && '.' !in "of null (reading 'error')";
    assert '.' !in "Invalid response " && '.' !in "structure from Gemini API";
    assert '.' !in "Failed to parse " && '.' !in "Gemini API response";
  }

  /** A failure of the shape checks, when the server names no error, is raised locally. */
  lemma ResponseTextFailuresRaisedLocally(data: Json)
    requires !Present(Get(data, "error")) && ResponseText(data).Err?
    ensures RaisedLocally(ResponseText(data).error)
  {
    FixedFailuresRaisedLocally();
  }

  /** Unless the server's body names an error of its own, every failure reaches the user as
      the generic message: none of the texts the code raises includes a listed message. */
  lemma LocalFailuresAreUnexpected(keyLoaded: bool, envText: string, probeStatus: nat,
                                   resp: HttpResponse, parse: string -> Option<Json>)
    requires !Present(Get(resp.body, "error"))
    requires CodeReview(keyLoaded, envText, probeStatus, resp, parse).Err?
    ensures MapError(CodeReview(keyLoaded, envText, probeStatus, resp, parse).error) == UnexpectedError
  {
    var e := CodeReview(keyLoaded, envText, probeStatus, resp, parse).error;
    if !keyLoaded && !KeyPresent(EnvApiKey(envText)) {
      assert RaisedLocally(KeyNotFound);
    } else if !StatusOk(probeStatus) {
      HttpErrorRaisedLocally(probeStatus);
    } else {
      ReviewFailuresRaisedLocally(resp, parse);
    }
    RaisedLocallyIsUnexpected(e);
  }

  /** What the listener sends back for `EXPLAIN_CHANGES`. */
  datatype Reply = Explained(explanation: Json) | Failed(message: string)

  /**
   * The background script's state: the module-level `GEMINI_API_KEY`, loaded from `.env`
   * on first use and kept while it is truthy.
   */
  class BackgroundScript {
    var apiKey: Option<string>

    constructor()
      ensures apiKey == None
    {
      apiKey := None;
    }

    /** `loadApiKey`: the key is assigned even when it is missing, then checked. */
    method LoadApiKey(envText: string) returns (r: Result<string, string>)
      modifies this
      ensures apiKey == EnvApiKey(envText)
      ensures r == if KeyPresent(apiKey) then Ok(apiKey.value) else Err(KeyNotFound)
    {
      var envVars := ParseEnv(envText);
      apiKey := if ApiKeyName in envVars then Some(envVars[ApiKeyName]) else None;
      if !KeyPresent(apiKey) {
        return Err(KeyNotFound);
      }
      return Ok(apiKey.value);
    }

    /** `testGeminiAvailability`: load the key if needed, then require a 2xx probe. */
    method TestGeminiAvailability(envText: string, probeStatus: nat) returns (r: Result<bool, string>)
      modifies this
      ensures KeyPresent(old(apiKey)) ==> apiKey == old(apiKey)
      ensures !KeyPresent(old(apiKey)) ==> apiKey == EnvApiKey(envText)
      ensures r.Ok? <==> KeyPresent(apiKey) && StatusOk(probeStatus)
      ensures r.Err? ==> r.error == if KeyPresent(apiKey) then HttpError(probeStatus) else KeyNotFound
    {
      if !KeyPresent(apiKey) {
        var loaded := LoadApiKey(envText);
        if loaded.Err? {
          return Err(loaded.error);
        }
      }
      if !StatusOk(probeStatus) {
        return Err(HttpError(probeStatus));
      }
      return Ok(true);
    }

    /** `getCodeReview`: also returns the prompt it sends, None when it fails before sending. */
    method GetCodeReview(envText: string, probeStatus: nat, changes: seq<FileChanges>,
                         resp: HttpResponse, parse: string -> Option<Json>)
      returns (sent: Option<string>, r: Result<Json, string>)
      modifies this
      ensures r == CodeReview(KeyPresent(old(apiKey)), envText, probeStatus, resp, parse)
      ensures sent.Some? <==> KeyPresent(apiKey) && StatusOk(probeStatus)
      ensures sent.Some? ==> sent.value == Prompt(changes)
    {
      var available := TestGeminiAvailability(envText, probeStatus);
      if available.Err? {
        return None, Err(available.error);
      }
      var prompt := Prompt(changes);
      return Some(prompt), ReviewResponse(resp, parse);
    }

    /** The listener's handling of `EXPLAIN_CHANGES`. */
    method OnExplainChanges(envText: string, probeStatus: nat, changes: seq<FileChanges>,
                            resp: HttpResponse, parse: string -> Option<Json>)
      returns (reply: Reply)
      modifies this
      ensures reply.Failed? ==> reply.message in ErrorMessages
      ensures reply.Explained? ==> IsExplanation(reply.explanation)
      ensures reply.Failed? && !Present(Get(resp.body, "error")) ==> reply.message == UnexpectedError
      ensures reply == match CodeReview(KeyPresent(old(apiKey)), envText, probeStatus, resp, parse)
        case Ok(explanation) => Explained(explanation)
        case Err(message) => Failed(MapError(message))
    {
      var loaded := KeyPresent(apiKey);
      var _, review := GetCodeReview(envText, probeStatus, changes, resp, parse);
      match review
      case Ok(explanation) =>
        reply := Explained(explanation);
      case Err(message) =>
        if !Present(Get(resp.body, "error")) {
          LocalFailuresAreUnexpected(loaded, envText, probeStatus, resp, parse);
        }
        reply := Failed(MapError(message));
    }
  }
}
