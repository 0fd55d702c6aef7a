/**
  The two instruction texts sent to the generative-AI service
  (backend/utils/prompts.js). Each template literal is written as its list of
  lines joined with "\n"; every `${x}` hole inserts `String(x)`.
 */
module Prompts {
  import opened Text
  import opened JsValues

  const InterviewerPreamble := "You are an AI trained as a technical interviewer."
  const TutorPreamble := "You are an AI tutor who helps candidates prepare for technical interviews."
  const QuestionClosing := "Keep the questions thoughtful, and the answers concise but informative."
  const ExplainClosing := "Begin your explanation now:"
  const CountLineTail :=
    " high-quality, real-world technical interview questions and answers in **strict JSON format**."

  /** The opening lines of `questionAnswerPrompt`: the preamble, the requested
      count and the three details. */
  function QuestionHeadLines(role: JsValue, experience: JsValue, topics: JsValue, count: JsValue)
    : (lines: seq<string>)
    ensures |lines| == 8 && lines[0] == InterviewerPreamble
    ensures lines[2] == "Generate exactly " + ToJsString(count) + CountLineTail
    ensures lines[5] == "- Role: " + ToJsString(role)
    ensures lines[6] == "- Experience Level: " + ToJsString(experience)
    ensures lines[7] == "- Focus Topics: " + ToJsString(topics)
  {
    [ InterviewerPreamble,
      "",
      "Generate exactly " + ToJsString(count) + CountLineTail,
      "",
      "Details:",
      "- Role: " + ToJsString(role),
      "- Experience Level: " + ToJsString(experience),
      "- Focus Topics: " + ToJsString(topics) ]
  }

  /** The fixed instructions that close `questionAnswerPrompt`. */
  const QuestionInstructionLines: seq<string> :=
    [ "",
      "Instructions:",
      "- Respond ONLY with a **pure JSON array** like this:",
      "[",
      "  {",
      "    \"question\": \"Explain X in context of Y?\",",
      "    \"answer\": \"X is ... and it helps Y by ...\"",
      "  },",
      "  ...",
      "]",
      "- Do NOT include:",
      "  - Markdown syntax (e.g., ```json)",
      "  - Introductory or trailing text",
      "  - Explanations outside the JSON structure",
      "- Ensure:",
      "  - No trailing commas",
      "  - The response is directly parseable using JSON.parse()",
      "",
      QuestionClosing ]

  /** The lines of `questionAnswerPrompt(role, experience, topicToFocus, numberOfQuestions)`. */
  function QuestionAnswerLines(role: JsValue, experience: JsValue, topics: JsValue, count: JsValue)
    : (lines: seq<string>)
    ensures |lines| == 27
    ensures lines[0] == InterviewerPreamble && lines[26] == QuestionClosing
    ensures lines[2] == "Generate exactly " + ToJsString(count) + CountLineTail
    ensures lines[5] == "- Role: " + ToJsString(role)
    ensures lines[6] == "- Experience Level: " + ToJsString(experience)
    ensures lines[7] == "- Focus Topics: " + ToJsString(topics)
  {
    QuestionHeadLines(role, experience, topics, count) + QuestionInstructionLines
  }

  function QuestionAnswerPrompt(role: JsValue, experience: JsValue, topics: JsValue, count: JsValue)
    : string
  {
    Join(QuestionAnswerLines(role, experience, topics, count), "\n")
  }

  /** The lines of `conceptExplainPrompt(question)`. */
  function ConceptExplainLines(question: JsValue): (lines: seq<string>)
    ensures |lines| == 13
  {
    [ TutorPreamble,
      "",
      "Explain the following concept in simple, clear language for a beginner:",
      "",
      "\"" + ToJsString(question) + "\"",
      "",
      "Instructions:",
      "- Focus on clarity, structure, and depth.",
      "- Include examples or analogies if helpful.",
      "- Make it conversational and easy to understand.",
      "- Do NOT include markdown or code fences like ```.",
      "",
      ExplainClosing ]
  }

  function ConceptExplainPrompt(question: JsValue): string {
    Join(ConceptExplainLines(question), "\n")
  }

  /** The question prompt opens with the interviewer preamble on a line of its own and
      closes with the closing instruction, whatever the arguments. */
  lemma QuestionPromptFrame(role: JsValue, experience: JsValue, topics: JsValue, count: JsValue)
    ensures StartsWith(QuestionAnswerPrompt(role, experience, topics, count), InterviewerPreamble + "\n")
    ensures EndsWith(QuestionAnswerPrompt(role, experience, topics, count), "\n" + QuestionClosing)
  {
    var lines := QuestionAnswerLines(role, experience, topics, count);
    JoinFirst(lines, "\n");
    JoinLast(lines, "\n");
  }

  /** The requested count follows "Generate exactly " on a line of its own. */
  lemma QuestionPromptCount(role: JsValue, experience: JsValue, topics: JsValue, count: JsValue)
    ensures IsInnerLine("Generate exactly " + ToJsString(count) + CountLineTail,
                        QuestionAnswerPrompt(role, experience, topics, count))
  {
    JoinInnerPart(QuestionAnswerLines(role, experience, topics, count), "\n", 2);
  }

  /** Role, experience level and focus topics each stand on their own labelled line. */
  lemma QuestionPromptDetails(role: JsValue, experience: JsValue, topics: JsValue, count: JsValue)
    ensures IsInnerLine("- Role: " + ToJsString(role), QuestionAnswerPrompt(role, experience, topics, count))
    ensures IsInnerLine("- Experience Level: " + ToJsString(experience),
                        QuestionAnswerPrompt(role, experience, topics, count))
    ensures IsInnerLine("- Focus Topics: " + ToJsString(topics),
                        QuestionAnswerPrompt(role, experience, topics, count))
  {
    InnerLineOfQuestionPrompt(role, experience, topics, count, 5);
    InnerLineOfQuestionPrompt(role, experience, topics, count, 6);
    InnerLineOfQuestionPrompt(role, experience, topics, count, 7);
  }

  /** Any line of the question prompt other than the first and last stands on its own. */
  lemma InnerLineOfQuestionPrompt(role: JsValue, experience: JsValue, topics: JsValue, count: JsValue, k: nat)
    requires 0 < k < 26
    ensures IsInnerLine(QuestionAnswerLines(role, experience, topics, count)[k],
                        QuestionAnswerPrompt(role, experience, topics, count))
  {
    JoinInnerPart(QuestionAnswerLines(role, experience, topics, count), "\n", k);
  }

  /** The explanation prompt opens with the tutor preamble, closes with
      "Begin your explanation now:", and carries the question in double quotes on a
      line of its own. */
  lemma ExplainPromptShape(question: JsValue)
    ensures StartsWith(ConceptExplainPrompt(question), TutorPreamble + "\n")
    ensures EndsWith(ConceptExplainPrompt(question), "\n" + ExplainClosing)
    ensures IsInnerLine("\"" + ToJsString(question) + "\"", ConceptExplainPrompt(question))
  {
    var lines := ConceptExplainLines(question);
    JoinFirst(lines, "\n");
    JoinLast(lines, "\n");
    JoinInnerPart(lines, "\n", 4);
  }
}
