/**
  The AI endpoints of the backend (backend/controllers/aiController.js): reading
  the generated text out of the service's response envelope, stripping markdown
  code fences from it, and the two request handlers.

  The generative-AI service is a parameter `oracle` from the prompt to the
  response value it returns, and `JSON.parse` is a parameter `parseJson` that
  gives None where the real one throws.
 */
module AiController {
  import opened Wrappers
  import opened Text
  import opened JsValues
  import opened Prompts

  // ---------------------------------------------------------------------------
  // Reading the response envelope

  /** `response?.candidates?.[0]?.content?.parts?.[0]?.text` */
  function TextAtPath(response: JsValue): JsValue {
    Member(First(Member(Member(First(Member(response, "candidates")), "content"), "parts")), "text")
  }

  /** `extractTextFromResponse`: the text at the path when it is truthy, otherwise "".
      Optional chaining cannot throw on these values, so the `catch` is never taken. */
  function ExtractTextFromResponse(response: JsValue): (r: JsValue)
    ensures Truthy(r) <==> Truthy(TextAtPath(response))
    ensures Truthy(r) ==> r == TextAtPath(response)
    ensures !Truthy(r) ==> r == Str("")
  {
    Or(TextAtPath(response), Str(""))
  }

  /** The envelope the service answers with: the text sits in the first part of the
      first candidate. Every object on the path may carry further properties (`role`,
      `finishReason`, `usageMetadata`, ...), given here as the maps `top`,
      `candidate`, `content` and `part`; further candidates and parts may follow. */
  function Envelope(
    text: JsValue, top: map<string, JsValue>, candidate: map<string, JsValue>,
    content: map<string, JsValue>, part: map<string, JsValue>,
    moreCandidates: seq<JsValue>, moreParts: seq<JsValue>): JsValue
  {
    var parts := Arr([Obj(part["text" := text])] + moreParts);
    var first := Obj(candidate["content" := Obj(content["parts" := parts])]);
    Obj(top["candidates" := Arr([first] + moreCandidates)])
  }

  /** Extraction undoes the envelope: a truthy text comes back unchanged, whatever
      else the objects on the path hold, and only the first part of the first
      candidate is read. */
  lemma ExtractFromEnvelope(
    text: JsValue, top: map<string, JsValue>, candidate: map<string, JsValue>,
    content: map<string, JsValue>, part: map<string, JsValue>,
    moreCandidates: seq<JsValue>, moreParts: seq<JsValue>)
    ensures ExtractTextFromResponse(Envelope(text, top, candidate, content, part, moreCandidates, moreParts))
            == (if Truthy(text) then text else Str(""))
  {
    var parts := Arr([Obj(part["text" := text])] + moreParts);
    var first := Obj(candidate["content" := Obj(content["parts" := parts])]);
    var env := Envelope(text, top, candidate, content, part, moreCandidates, moreParts);
    assert Member(env, "candidates") == Arr([first] + moreCandidates);
    assert First(Arr([first] + moreCandidates)) == first;
    assert Member(first, "content") == Obj(content["parts" := parts]);
    assert First(parts) == Obj(part["text" := text]);
  }

  /** Soft failure: a response without a `candidates` property, or whose path leads to
      nothing, yields "" instead of an error. */
  lemma ExtractFromMalformed(response: JsValue)
    requires !Truthy(TextAtPath(response))
    ensures ExtractTextFromResponse(response) == Str("")
  {
  }

  // ---------------------------------------------------------------------------
  // Fence stripping

  const Fence := "```"

  /** "json" in any letter case. Without the `u` flag the `i` flag folds ASCII letters
      only, so no other character matches. */
  predicate IsJsonTag(t: string) {
    |t| == 4 && (t[0] == 'j' || t[0] == 'J') && (t[1] == 's' || t[1] == 'S')
    && (t[2] == 'o' || t[2] == 'O') && (t[3] == 'n' || t[3] == 'N')
  }

  /** `/^```json/i`: three backticks and the tag at index 0. */
  predicate StartsWithJsonFence(s: string) {
    |s| >= 7 && s[..3] == Fence && IsJsonTag(s[3..7])
  }

  /** `.replace(/^```json\s*\/i, '')`: the opening fence and all white space after it. */
  function StripLeadingFence(s: string): string {
    if StartsWithJsonFence(s) then TrimStart(s[7..]) else s
  }

  /** `.replace(/```$/g, '')`: `$` without the `m` flag matches only at the very end,
      so at most the last three characters go. */
  function StripTrailingFence(s: string): string {
    if EndsWith(s, Fence) then s[..|s| - 3] else s
  }

  /** `cleanJsonString`. */
  function CleanJsonString(text: string): (r: string)
    ensures Trimmed(r)
    ensures |r| <= |text|
  {
    Trim(StripTrailingFence(StripLeadingFence(text)))
  }

  /** Without fences the cleaner is plain `trim`. */
  lemma CleanWithoutFences(s: string)
    requires !StartsWithJsonFence(s) && !EndsWith(s, Fence)
    ensures CleanJsonString(s) == Trim(s)
  {
  }

  /** An opening fence is recognised in any letter case and removed with the white
      space after it. */
  lemma StripOpeningFence(tag: string, rest: string)
    requires IsJsonTag(tag)
    ensures StripLeadingFence(Fence + tag + rest) == TrimStart(rest)
  {
    var s := Fence + tag + rest;
    assert s[..3] == Fence;
    assert s[3..7] == tag;
    assert s[7..] == rest;
  }

  lemma StripOpeningFenceOfBlock(tag: string, w: string, body: string)
    requires IsJsonTag(tag) && AllSpace(w)
    ensures StripLeadingFence(Fence + tag + w + body + Fence) == TrimStart(body) + Fence
  {
    var r := w + (body + Fence);
    assert Fence + tag + w + body + Fence == Fence + tag + r;
    StripOpeningFence(tag, r);
    TrimStartOfSpacePrefix(w, body + Fence);
    assert TrimStart(r) == TrimStart(body + Fence);
    assert Fence[0] == '`';
    TrimStartAppend(body, Fence);
  }

  /** A fenced block, "```json" in any letter case, white space, a body and a closing
      "```", cleans to the trimmed body. */
  lemma CleanFenced(tag: string, w: string, body: string)
    requires IsJsonTag(tag) && AllSpace(w)
    ensures CleanJsonString(Fence + tag + w + body + Fence) == Trim(body)
  {
    var t := TrimStart(body);
    StripOpeningFenceOfBlock(tag, w, body);
    assert StripTrailingFence(t + Fence) == t by {
      assert (t + Fence)[..|t + Fence| - 3] == t;
    }
    // trimming the body's leading white space first changes nothing
    assert TrimStart(t) == t;
  }

  /** A fenced block whose body is a trimmed text followed by white space cleans to
      that text. */
  lemma CleanFencedTrimmed(tag: string, w: string, body: string, w2: string)
    requires IsJsonTag(tag) && AllSpace(w) && AllSpace(w2) && Trimmed(body)
    ensures CleanJsonString(Fence + tag + w + (body + w2) + Fence) == body
  {
    CleanFenced(tag, w, body + w2);
    assert body + w2 == "" + body + w2;
    TrimSurrounded("", body, w2);
    TrimOfTrimmed(body);
  }

  const ExampleBody := "[{\"a\":1}]"

  /** A fenced JSON array, as the service tends to answer, cleans to the bare array. */
  lemma CleanExample()
    ensures CleanJsonString("```json\n[{\"a\":1}]\n```") == ExampleBody
  {
    ExampleBodyTrimmed();
    ExampleBlock();
    CleanFencedTrimmed("json", "\n", ExampleBody, "\n");
  }

  lemma ExampleBodyTrimmed()
    ensures Trimmed(ExampleBody)
  {
    assert ExampleBody[0] == '[' && ExampleBody[|ExampleBody| - 1] == ']';
  }

  lemma ExampleBlock()
    ensures "```json\n[{\"a\":1}]\n```" == Fence + "json" + "\n" + (ExampleBody + "\n") + Fence
  {
  }

  /** A closing fence followed by white space (a trailing newline, say) is kept. */
  lemma TrailingFenceBeforeSpaceKept(body: string, w: string)
    requires !StartsWithJsonFence(body + Fence + w)
    requires |w| > 0 && AllSpace(w)
    ensures EndsWith(CleanJsonString(body + Fence + w), Fence)
  {
    var s := body + Fence + w;
    assert s[|s| - 1] == w[|w| - 1];
    assert !EndsWith(s, Fence);
    assert s == "" + (body + Fence) + w;
    TrimSurrounded("", body + Fence, w);
    assert (body + Fence)[|body|] == '`';
    TrimKeepsEnd(body + Fence, Fence);
  }

  /** The usual answer, a fenced block followed by a line break, keeps its closing
      fence too: the opening fence goes, but `$` still does not reach past the
      trailing white space. */
  lemma FencedBlockBeforeSpaceKept(tag: string, w: string, body: string, w2: string)
    requires IsJsonTag(tag) && AllSpace(w)
    requires |w2| > 0 && AllSpace(w2)
    ensures EndsWith(CleanJsonString(Fence + tag + w + body + Fence + w2), Fence)
  {
    var t := TrimStart(body);
    StripOpeningFenceBeforeSpace(tag, w, body, w2);
    var s := t + Fence + w2;
    assert StripLeadingFence(Fence + tag + w + body + Fence + w2) == s;
    assert s[|s| - 1] == w2[|w2| - 1];
    assert !EndsWith(s, Fence);
    assert CleanJsonString(Fence + tag + w + body + Fence + w2) == Trim(s);
    assert s == "" + (t + Fence) + w2;
    TrimSurrounded("", t + Fence, w2);
    assert (t + Fence)[|t|] == '`';
    TrimKeepsEnd(t + Fence, Fence);
  }

  lemma StripOpeningFenceBeforeSpace(tag: string, w: string, body: string, w2: string)
    requires IsJsonTag(tag) && AllSpace(w)
    ensures StripLeadingFence(Fence + tag + w + body + Fence + w2) == TrimStart(body) + (Fence + w2)
  {
    var r := w + (body + (Fence + w2));
    assert Fence + tag + w + body + Fence + w2 == Fence + tag + r;
    StripOpeningFence(tag, r);
    TrimStartOfSpacePrefix(w, body + (Fence + w2));
    assert (Fence + w2)[0] == '`';
    TrimStartAppend(body, Fence + w2);
  }

  /** Cleaning is not idempotent: a doubled closing fence loses one fence per pass. */
  lemma CleanNotIdempotent()
    ensures CleanJsonString("``````") == "```"
    ensures CleanJsonString(CleanJsonString("``````")) == ""
  {
    assert !StartsWithJsonFence("``````");
    assert ("``````")[..3] == "```";
    TrimOfTrimmed("```");
    assert !StartsWithJsonFence("```");
  }

  // ---------------------------------------------------------------------------
  // Handlers

  /** The outcome of a handler: the HTTP status and what the JSON body carries.
      BadRequest is 400 ("Please provide all the required fields." / "Missing required
      fields"), Questions and Explanation are 200 with `success: true`, and ServerError
      is the 500 of the error caught at the handler boundary. */
  datatype Reply =
    | BadRequest
    | Questions(questions: JsValue)
    | Explanation(text: string)
    | ServerError

  /** The fields of the question-generation request body. */
  datatype QuestionRequest = QuestionRequest(
    role: JsValue, experience: JsValue, topicsToFocus: JsValue, numberOfQuestions: JsValue)

  /** All four fields must be truthy: 0 and "" are rejected, an empty array is not. */
  predicate HasRequiredFields(req: QuestionRequest) {
    Truthy(req.role) && Truthy(req.experience) && Truthy(req.topicsToFocus)
    && Truthy(req.numberOfQuestions)
  }

  /** An array of topics is joined with ", "; anything else goes to the prompt as is. */
  function TopicsString(topics: JsValue): JsValue {
    if topics.Arr? then Str(ArrayJoin(topics.items, ", ")) else topics
  }

  /** The prompt the handler sends for a request. */
  function QuestionPrompt(req: QuestionRequest): string {
    QuestionAnswerPrompt(req.role, req.experience, TopicsString(req.topicsToFocus), req.numberOfQuestions)
  }

  /** The text the service answered a prompt with, as `extractTextFromResponse` reads it. */
  function AnswerText(oracle: string -> JsValue, prompt: string): JsValue {
    ExtractTextFromResponse(oracle(prompt))
  }

  /** The cleaned answer parses: a string text whose cleaned form `JSON.parse` accepts. */
  predicate AnswerParses(raw: JsValue, parseJson: string -> Option<JsValue>) {
    raw.Str? && parseJson(CleanJsonString(raw.s)).Some?
  }

  /** `generateInterviewQuestions`. A non-string text makes `text.replace` throw, and a
      failing `JSON.parse` throws; both end in the 500 branch. */
  function GenerateInterviewQuestions(
    req: QuestionRequest, oracle: string -> JsValue, parseJson: string -> Option<JsValue>)
    : (r: Reply)
    ensures r.BadRequest? <==> !HasRequiredFields(req)
    ensures !r.Explanation?
    ensures r.Questions? <==>
              HasRequiredFields(req) && AnswerParses(AnswerText(oracle, QuestionPrompt(req)), parseJson)
    ensures r.ServerError? <==>
              HasRequiredFields(req) && !AnswerParses(AnswerText(oracle, QuestionPrompt(req)), parseJson)
    ensures r.Questions? ==>
              parseJson(CleanJsonString(AnswerText(oracle, QuestionPrompt(req)).s)) == Some(r.questions)
  {
    if !HasRequiredFields(req) then BadRequest
    else
      var raw := AnswerText(oracle, QuestionPrompt(req));
      if !raw.Str? then ServerError
      else
        match parseJson(CleanJsonString(raw.s))
        case None => ServerError
        case Some(v) => Questions(v)
  }

  /** An answer of the service whose text parses gives those questions, whatever
      else the answer carries. */
  lemma GenerateFromEnvelope(
    req: QuestionRequest, oracle: string -> JsValue, parseJson: string -> Option<JsValue>,
    text: string, parsed: JsValue,
    top: map<string, JsValue>, candidate: map<string, JsValue>,
    content: map<string, JsValue>, part: map<string, JsValue>,
    moreCandidates: seq<JsValue>, moreParts: seq<JsValue>)
    requires HasRequiredFields(req) && text != ""
    requires oracle(QuestionPrompt(req))
             == Envelope(Str(text), top, candidate, content, part, moreCandidates, moreParts)
    requires parseJson(CleanJsonString(text)) == Some(parsed)
    ensures GenerateInterviewQuestions(req, oracle, parseJson) == Questions(parsed)
  {
    ExtractFromEnvelope(Str(text), top, candidate, content, part, moreCandidates, moreParts);
  }

  /** An envelope without text yields "", which `JSON.parse` rejects: the result is a
      500, not a crash. */
  lemma GenerateFromEmptyText(
    req: QuestionRequest, oracle: string -> JsValue, parseJson: string -> Option<JsValue>)
    requires HasRequiredFields(req)
    requires !Truthy(TextAtPath(oracle(QuestionPrompt(req))))
    requires parseJson("") == None
    ensures GenerateInterviewQuestions(req, oracle, parseJson) == ServerError
  {
    assert CleanJsonString("") == "";
  }

  /** An array of topic strings reaches the prompt joined with ", ", so every topic
      occurs in the prompt; an empty array passes the check and gives an empty list. */
  lemma TopicsInPrompt(req: QuestionRequest, topics: seq<string>)
    requires req.topicsToFocus == Arr(seq(|topics|, i requires 0 <= i < |topics| => Str(topics[i])))
    ensures IsInnerLine("- Focus Topics: " + Join(topics, ", "), QuestionPrompt(req))
    ensures forall k :: 0 <= k < |topics| ==> IsInfix(topics[k], QuestionPrompt(req))
  {
    TopicsLine(req, topics);
    forall k | 0 <= k < |topics|
      ensures IsInfix(topics[k], QuestionPrompt(req))
    {
      PartOfInnerLine("- Focus Topics: ", topics, ", ", k, QuestionPrompt(req));
    }
  }

  /** An array of topic strings becomes the ", "-joined topics on the Focus Topics line. */
  lemma TopicsLine(req: QuestionRequest, topics: seq<string>)
    requires req.topicsToFocus == Arr(seq(|topics|, i requires 0 <= i < |topics| => Str(topics[i])))
    ensures IsInnerLine("- Focus Topics: " + Join(topics, ", "), QuestionPrompt(req))
  {
    ArrayJoinOfStrings(topics, ", ");
    TopicsStringLine(req, Join(topics, ", "));
  }

  /** The joined topics stand on the Focus Topics line of the prompt. */
  lemma TopicsStringLine(req: QuestionRequest, joined: string)
    requires TopicsString(req.topicsToFocus) == Str(joined)
    ensures IsInnerLine("- Focus Topics: " + joined, QuestionPrompt(req))
  {
    QuestionPromptDetails(req.role, req.experience, Str(joined), req.numberOfQuestions);
  }

  /** Each part of a list joined after a heading on a line of a text occurs in the text. */
  lemma PartOfInnerLine(heading: string, parts: seq<string>, sep: string, k: int, text: string)
    requires 0 <= k < |parts|
    requires IsInnerLine(heading + Join(parts, sep), text)
    ensures IsInfix(parts[k], text)
  {
    JoinContainsPart(parts, sep, k);
    var pre, post :| Join(parts, sep) == pre + parts[k] + post;
    var line := heading + Join(parts, sep);
    assert "\n" + line + "\n" == ("\n" + heading + pre) + parts[k] + (post + "\n");
    InfixTransitive(parts[k], "\n" + line + "\n", text);
  }

  /** `generateConceptExplanation`: the explanation is the cleaned text, not parsed. */
  function GenerateConceptExplanation(question: JsValue, oracle: string -> JsValue): (r: Reply)
    ensures r.BadRequest? <==> !Truthy(question)
    ensures !r.Questions?
    ensures r.ServerError? <==> Truthy(question) && !AnswerText(oracle, ConceptExplainPrompt(question)).Str?
    ensures r.Explanation? ==>
              r.text == CleanJsonString(AnswerText(oracle, ConceptExplainPrompt(question)).s)
    ensures r.Explanation? ==> Trimmed(r.text)
  {
    if !Truthy(question) then BadRequest
    else
      var raw := AnswerText(oracle, ConceptExplainPrompt(question));
      if !raw.Str? then ServerError else Explanation(CleanJsonString(raw.s))
  }

  /** Unlike the question handler, a response without text is a success carrying an
      empty explanation. */
  lemma ExplanationOfEmptyText(question: JsValue, oracle: string -> JsValue)
    requires Truthy(question)
    requires !Truthy(TextAtPath(oracle(ConceptExplainPrompt(question))))
    ensures GenerateConceptExplanation(question, oracle) == Explanation("")
  {
    assert CleanJsonString("") == "";
  }

  /** An answer of the service gives its cleaned text as the explanation, whatever
      else the answer carries. */
  lemma ExplanationFromEnvelope(
    question: JsValue, oracle: string -> JsValue, text: string,
    top: map<string, JsValue>, candidate: map<string, JsValue>,
    content: map<string, JsValue>, part: map<string, JsValue>,
    moreCandidates: seq<JsValue>, moreParts: seq<JsValue>)
    requires Truthy(question) && text != ""
    requires oracle(ConceptExplainPrompt(question))
             == Envelope(Str(text), top, candidate, content, part, moreCandidates, moreParts)
    ensures GenerateConceptExplanation(question, oracle) == Explanation(CleanJsonString(text))
  {
    ExtractFromEnvelope(Str(text), top, candidate, content, part, moreCandidates, moreParts);
  }
}
