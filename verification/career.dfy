/**
 * The career controller: the resume upload rule, resume analysis (the
 * checks, the prompt wrapped around the extracted text, the mapping of
 * failures to replies) and career tips (the prompt assembled from the
 * request body). PDF text extraction and the Gemini call are parameters:
 * an `Attempt` is a promise that either resolves or rejects with an
 * error's message.
 */
module Career {
  import opened Options
  import opened Text
  import opened Json
  import opened Http

  datatype Attempt<T> = Ok(value: T) | Failed(message: string)

  // ---------------------------------------------------------------- upload

  const PdfType: string := "application/pdf"
  const NotPdfMessage: string := "Not a PDF! Please upload a PDF file."
  /** Multer's `limits.fileSize` for resumes: 5 MiB. */
  const ResumeSizeLimit: nat := 5 * 1024 * 1024

  /** What Multer makes of an upload: the filter runs first, the size limit while the file streams in. */
  datatype Upload = Received | FilterError(message: string) | TooLarge

  function ResumeUpload(mimetype: string, size: nat): (r: Upload)
    ensures r.Received? <==> mimetype == PdfType && size <= ResumeSizeLimit
    ensures mimetype != PdfType ==> r == FilterError(NotPdfMessage)
    ensures r == TooLarge ==> mimetype == PdfType && size > 5242880
  {
    if mimetype != PdfType then FilterError(NotPdfMessage)
    else if size > ResumeSizeLimit then TooLarge
    else Received
  }

  // ---------------------------------------------------------------- resume analysis

  const ResumeHead: string :=
    "Analyze the following resume text and provide constructive feedback and suggestions for improvement. "
    + "Focus on clarity, impact, and common resume best practices. Highlight strengths and areas for development. "
    + "Format the output clearly, perhaps with sections for suggestions, strengths, and areas to improve.:"
    + "\n\n---\n"
  const ResumeTail: string := "\n---\nSuggestions:"

  /** The prompt sent for a resume: the fixed instructions, the text verbatim between rules, the cue. */
  function ResumePrompt(text: string): string {
    ResumeHead + text + ResumeTail
  }

  /** The resume text a prompt carries, when it has the resume prompt's shape. */
  function ResumeTextOf(prompt: string): (r: Option<string>)
    ensures r.Some? ==> |r.value| + |ResumeHead| + |ResumeTail| == |prompt|
  {
    if |ResumeHead| + |ResumeTail| <= |prompt| && StartsWith(prompt, ResumeHead) && EndsWith(prompt, ResumeTail)
    then Some(prompt[|ResumeHead|..|prompt| - |ResumeTail|])
    else None
  }

  /** The model receives exactly the extracted text: the prompt gives it back. */
  lemma ResumePromptRoundTrip(text: string)
    ensures ResumeTextOf(ResumePrompt(text)) == Some(text)
  {
    var p := ResumePrompt(text);
    assert p[..|ResumeHead|] == ResumeHead;
    assert p[|p| - |ResumeTail|..] == ResumeTail;
    assert p[|ResumeHead|..|p| - |ResumeTail|] == text;
  }

  /** Every prompt of that shape is the prompt of the text it carries. */
  lemma ResumeTextOfInverse(prompt: string)
    requires ResumeTextOf(prompt).Some?
    ensures ResumePrompt(ResumeTextOf(prompt).value) == prompt
  {
    var t := ResumeTextOf(prompt).value;
    assert prompt == prompt[..|ResumeHead|] + t + prompt[|prompt| - |ResumeTail|..];
  }

  const AiSuggestionsPrefix: string := "Failed to get suggestions from AI service: "

  predicate IsAiServiceError(message: string) {
    Contains(message, "Gemini API Error") || Contains(message, "Gemini API key is not configured")
  }

  /**
   * The catch block of `analyzeResume`: upload errors keep their text with
   * 400, AI-service errors get 500 with their own prefix, the rest 500.
   */
  function ResumeErrorReply(message: string): (r: Response)
    ensures r.status == 400 <==> StartsWith(message, "Not a PDF!") || StartsWith(message, "File is too large")
    ensures r.status == 400 || r.status == 500
    ensures r.status == 400 ==> MessageOf(r) == message
    ensures r.status == 500 && IsAiServiceError(message) ==> MessageOf(r) == AiSuggestionsPrefix + message
    ensures EndsWith(MessageOf(r), message)
  {
    if StartsWith(message, "Not a PDF!") || StartsWith(message, "File is too large") then Message(400, message)
    else if IsAiServiceError(message) then Message(500, AiSuggestionsPrefix + message)
    else Message(500, "Error processing resume. " + message)
  }

  /**
   * `analyzeResume`. `parsed` is the outcome of extracting the uploaded PDF's
   * text, None when no file was uploaded; `generate` is the AI call.
   */
  function AnalyzeResume(parsed: Option<Attempt<string>>, generate: string -> Attempt<string>): (r: Response)
    ensures parsed.None? ==> r == Message(400, "No resume file uploaded.")
    ensures parsed.Some? && parsed.value.Ok? && AllSpace(parsed.value.value) ==>
      r == Message(400, "Could not extract text from PDF or PDF is empty.")
    ensures r.status == 200 <==>
      (parsed.Some? && parsed.value.Ok? && !AllSpace(parsed.value.value)
       && generate(ResumePrompt(parsed.value.value)).Ok?)
    ensures r.status == 200 ==>
      r.body == JObj(map["suggestions" := JStr(generate(ResumePrompt(parsed.value.value)).value)])
  {
    match parsed
    case None => Message(400, "No resume file uploaded.")
    case Some(Failed(m)) => ResumeErrorReply(m)
    case Some(Ok(text)) =>
      if text == "" || |Trim(text)| == 0 then Message(400, "Could not extract text from PDF or PDF is empty.")
      else match generate(ResumePrompt(text))
        case Ok(suggestions) => Response(200, JObj(map["suggestions" := JStr(suggestions)]))
        case Failed(m) => ResumeErrorReply(m)
  }

  /** A failing AI call on a readable resume is reported with the AI-service prefix. */
  lemma AnalyzeResumeAiFailure(text: string, generate: string -> Attempt<string>)
    requires !AllSpace(text)
    requires generate(ResumePrompt(text)).Failed?
    requires IsAiServiceError(generate(ResumePrompt(text)).message)
    requires !StartsWith(generate(ResumePrompt(text)).message, "Not a PDF!")
    requires !StartsWith(generate(ResumePrompt(text)).message, "File is too large")
    ensures AnalyzeResume(Some(Ok(text)), generate)
      == Message(500, AiSuggestionsPrefix + generate(ResumePrompt(text)).message)
  {
  }

  // ---------------------------------------------------------------- career tips

  const TipsIntro: string := "Provide career tips for someone interested in the following fields: "
  const TipsSuffix: string :=
    " Offer actionable advice, potential career paths, skills to develop, and resources for learning."

  /** `interests.join(', ')`: each element as `String` would give it, `null` as the empty string. */
  function InterestList(items: seq<Json>): string {
    Join(InterestTexts(items), ", ")
  }

  function InterestTexts(items: seq<Json>): (r: seq<string>)
    ensures |r| == |items|
    ensures forall i :: 0 <= i < |items| ==> r[i] == if items[i].JNull? then "" else ToJsString(items[i])
  {
    seq(|items|, i requires 0 <= i < |items| => if items[i].JNull? then "" else ToJsString(items[i]))
  }

  /** The texts `join(', ')` puts between its separators are the ones `String(interests)` joins with `,`. */
  lemma InterestTextsAreStringParts(items: seq<Json>)
    ensures Join(InterestTexts(items), ",") == ToJsString(JArr(items))
  {
    assert InterestTexts(items) == seq(|items|, i requires 0 <= i < |items| =>
      if items[i].JNull? then "" else ToJsString(items[i]));
  }

  /** `interests` is present, an array, and not empty. */
  predicate HasInterests(interests: Option<Json>) {
    interests.Some? && interests.value.JArr? && |interests.value.items| > 0
  }

  function RoleSentence(role: Json): string {
    " Their current role is " + ToJsString(role) + "."
  }

  function LevelSentence(level: Json): string {
    " Their experience level is " + ToJsString(level) + "."
  }

  /** The opening sentence of the tips prompt. */
  function TipsHead(items: seq<Json>): string {
    TipsIntro + InterestList(items) + "."
  }

  /** `if (currentRole) prompt += ...`. */
  function WithRole(prompt: string, role: Option<Json>): string {
    if Given(role) then prompt + RoleSentence(role.value) else prompt
  }

  /** `if (experienceLevel) prompt += ...`. */
  function WithLevel(prompt: string, level: Option<Json>): string {
    if Given(level) then prompt + LevelSentence(level.value) else prompt
  }

  /** The tips prompt: the interests sentence, the optional sentences, the suffix. */
  function TipsPrompt(items: seq<Json>, role: Option<Json>, level: Option<Json>): string {
    WithLevel(WithRole(TipsHead(items), role), level) + TipsSuffix
  }

  const AiTipsPrefix: string := "Failed to get tips from AI service: "

  /** The catch block of `getCareerTips`: always 500, the AI-service prefix on AI errors. */
  function TipsErrorReply(message: string): (r: Response)
    ensures r.status == 500
    ensures IsAiServiceError(message) ==> MessageOf(r) == AiTipsPrefix + message
    ensures !IsAiServiceError(message) ==> MessageOf(r) == "Error generating career tips. " + message
  {
    if IsAiServiceError(message) then Message(500, AiTipsPrefix + message)
    else Message(500, "Error generating career tips. " + message)
  }

  /** The reply of `getCareerTips`, given the prompt it sends. */
  function TipsReply(interests: Option<Json>, role: Option<Json>, level: Option<Json>,
                     generate: string -> Attempt<string>): (r: Response)
    ensures !HasInterests(interests) ==> r == Message(400, "Please provide a list of interests.")
    ensures r.status == 200 <==>
      HasInterests(interests) && generate(TipsPrompt(interests.value.items, role, level)).Ok?
    ensures r.status == 200 ==>
      r.body == JObj(map["tips" := JStr(generate(TipsPrompt(interests.value.items, role, level)).value)])
  {
    if !HasInterests(interests) then Message(400, "Please provide a list of interests.")
    else match generate(TipsPrompt(interests.value.items, role, level))
      case Ok(tips) => Response(200, JObj(map["tips" := JStr(tips)]))
      case Failed(m) => TipsErrorReply(m)
  }

  /** `getCareerTips`, which builds the prompt sentence by sentence. */
  method GetCareerTips(interests: Option<Json>, currentRole: Option<Json>, experienceLevel: Option<Json>,
                       generate: string -> Attempt<string>) returns (r: Response)
    ensures r == TipsReply(interests, currentRole, experienceLevel, generate)
  {
    if interests.None? || !Truthy(interests.value) || !interests.value.JArr? || |interests.value.items| == 0 {
      return Message(400, "Please provide a list of interests.");
    }
    var items := interests.value.items;
    var prompt := TipsHead(items);
    if currentRole.Some? && Truthy(currentRole.value) {
      prompt := prompt + RoleSentence(currentRole.value);
    }
    if experienceLevel.Some? && Truthy(experienceLevel.value) {
      prompt := prompt + LevelSentence(experienceLevel.value);
    }
    prompt := prompt + TipsSuffix;
    assert prompt == TipsPrompt(items, currentRole, experienceLevel);
    var answer := generate(prompt);
    match answer
    case Ok(tips) => r := Response(200, JObj(map["tips" := JStr(tips)]));
    case Failed(m) => r := TipsErrorReply(m);
  }

  /**
   * The layout of the tips prompt: the interests sentence first, the
   * suffix last, and between them the role sentence exactly when a role is
   * given, followed by the experience sentence exactly when a level is given.
   */
  lemma TipsPromptLayout(items: seq<Json>, role: Option<Json>, level: Option<Json>)
    ensures var p := TipsPrompt(items, role, level);
      && EndsWith(p, TipsSuffix)
      && |p| == |TipsHead(items)| + |TipsSuffix|
           + (if Given(role) then |RoleSentence(role.value)| else 0)
           + (if Given(level) then |LevelSentence(level.value)| else 0)
      && StartsWith(p, TipsHead(items)
           + (if Given(role) then RoleSentence(role.value) else "")
           + (if Given(level) then LevelSentence(level.value) else ""))
  {
    var p := TipsPrompt(items, role, level);
    var h := TipsHead(items);
    var rs := if Given(role) then RoleSentence(role.value) else "";
    var ls := if Given(level) then LevelSentence(level.value) else "";
    assert WithRole(h, role) == h + rs;
    assert WithLevel(h + rs, level) == h + rs + ls;
    StartsWithConcat(h + rs + ls, TipsSuffix);
    assert p[|p| - |TipsSuffix|..] == TipsSuffix;
  }

  /** Every interest given as a string appears in the tips prompt. */
  lemma TipsPromptNamesInterests(items: seq<Json>, role: Option<Json>, level: Option<Json>, i: nat)
    requires i < |items| && items[i].JStr?
    ensures Contains(TipsPrompt(items, role, level), items[i].s)
  {
    var part := items[i].s;
    var parts := InterestTexts(items);
    assert parts[i] == part;
    JoinContainsElements(parts, ", ", i);
    ContainsWithin(TipsIntro, InterestList(items), ".", part);
    var p1 := WithRole(TipsHead(items), role);
    if Given(role) { ContainsExtend(TipsHead(items), RoleSentence(role.value), part); }
    assert Contains(p1, part);
    var p2 := WithLevel(p1, level);
    if Given(level) { ContainsExtend(p1, LevelSentence(level.value), part); }
    assert Contains(p2, part);
    ContainsExtend(p2, TipsSuffix, part);
  }
}
