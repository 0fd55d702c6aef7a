/**
  The two-step session-creation wizard (frontend/.../pages/CreateSessionPage.jsx):
  its own step schemas, its default values, and the handlers that move between
  the steps and build what is sent to the server. The page's step schemas are
  not those of validationSchema.js; the lemmas below say where they differ.
 */
module CreateSessionPage {
  import opened Wrappers
  import opened JsValues
  import opened ValidationSchema

  /** The page's `step1Schema`: as the shared one, but every topic must also be
      non-empty. */
  predicate PageStep1Valid(f: Step1Form) {
    |f.role| >= 3 && |f.experience| >= 1 && |f.topicsToFocus| >= 1
    && (forall k :: 0 <= k < |f.topicsToFocus| ==> |f.topicsToFocus[k]| >= 1)
    && MinQuestions <= f.numberOfQuestions <= MaxQuestions
  }

  /** The page's `step2Schema`: any description, of any length, or none. */
  predicate PageStep2Valid(f: Step2Form) {
    f.description.None? || f.description.Some?
  }

  /** The page's step 1 is stricter than the shared schema: everything it accepts
      the shared schema accepts, and a form with an empty topic shows the converse
      fails. */
  lemma PageStep1Stricter(f: Step1Form)
    ensures PageStep1Valid(f) ==> Step1Valid(f)
    ensures var g := f.(role := "abc", experience := "x", topicsToFocus := [""], numberOfQuestions := 5);
            Step1Valid(g) && !PageStep1Valid(g)
  {
    var g := f.(role := "abc", experience := "x", topicsToFocus := [""], numberOfQuestions := 5);
    assert |g.topicsToFocus[0]| == 0;
  }

  /** The page's step 2 is laxer than the shared schema: a description of 301
      characters passes the page and fails the shared schema. */
  lemma PageStep2Laxer(f: Step2Form, d: string)
    requires |d| == MaxDescription + 1
    ensures Step2Valid(f) ==> PageStep2Valid(f)
    ensures PageStep2Valid(Step2Form(Some(d))) && !Step2Valid(Step2Form(Some(d)))
  {
  }

  /** The step-1 form's default values. */
  const DefaultStep1 := Step1Form("", "", [], 5)

  /** The step-2 form's default values. */
  const DefaultStep2 := Step2Form(Some(""))

  /** The question slider: 3 to 15 in steps of 1. */
  const SliderMin := 3
  const SliderMax := 15
  const SliderStep := 1

  predicate OnSlider(v: int) {
    SliderMin <= v <= SliderMax && (v - SliderMin) % SliderStep == 0
  }

  /** The slider offers exactly the counts both step-1 schemas accept, the default
      count is one of them, and the untouched step-1 form is still rejected (no role,
      experience or topic) while the untouched step-2 form is accepted. */
  lemma DefaultsAndSlider()
    ensures forall v :: OnSlider(v) <==> MinQuestions <= v <= MaxQuestions
    ensures OnSlider(DefaultStep1.numberOfQuestions)
    ensures !Step1Valid(DefaultStep1) && !PageStep1Valid(DefaultStep1)
    ensures Step2Valid(DefaultStep2) && PageStep2Valid(DefaultStep2)
  {
  }

  /** What react-hook-form hands to the step-1 handler. */
  function Step1Data(f: Step1Form): (d: map<string, JsValue>)
    ensures d.Keys == {"role", "experience", "topicsToFocus", "numberOfQuestions"}
    ensures d["topicsToFocus"].Arr? && |d["topicsToFocus"].items| == |f.topicsToFocus|
  {
    map["role" := Str(f.role), "experience" := Str(f.experience),
        "topicsToFocus" := Arr(seq(|f.topicsToFocus|, i requires 0 <= i < |f.topicsToFocus| => Str(f.topicsToFocus[i]))),
        "numberOfQuestions" := Num(f.numberOfQuestions)]
  }

  /** What react-hook-form hands to the step-2 handler. */
  function Step2Data(f: Step2Form): (d: map<string, JsValue>)
    ensures "description" in d <==> f.description.Some?
  {
    if f.description.Some? then map["description" := Str(f.description.value)] else map[]
  }

  /** The wizard's state: the visible step (0 or 1) and the data gathered so far. */
  class Wizard {
    var activeStep: int
    var sessionData: map<string, JsValue>

    ghost predicate Valid()
      reads this
    {
      activeStep == 0 || activeStep == 1
    }

    constructor ()
      ensures Valid() && activeStep == 0 && sessionData == map[]
    {
      activeStep := 0;
      sessionData := map[];
    }

    /** Submitting step 1. A form the page's schema rejects changes nothing and
        sends nothing; otherwise `sessionData` becomes the form data (anything
        gathered before, generated questions included, is dropped) and that data is
        sent to the question generator. */
    method SubmitStep1(f: Step1Form) returns (sent: Option<map<string, JsValue>>)
      requires Valid()
      modifies this
      ensures Valid() && activeStep == old(activeStep)
      ensures !PageStep1Valid(f) ==> sent.None? && sessionData == old(sessionData)
      ensures PageStep1Valid(f) ==> sent == Some(Step1Data(f)) && sessionData == Step1Data(f)
      ensures PageStep1Valid(f) ==> "questions" !in sessionData
    {
      if !PageStep1Valid(f) {
        return None;
      }
      sessionData := Step1Data(f);
      sent := Some(sessionData);
    }

    /** The generator answered: its `questions` join the data and step 2 shows. */
    method OnGenerateSuccess(response: JsValue)
      requires Valid()
      modifies this
      ensures Valid() && activeStep == 1
      ensures sessionData == old(sessionData)["questions" := Member(response, "questions")]
    {
      sessionData := sessionData["questions" := Member(response, "questions")];
      activeStep := 1;
    }

    /** The generator failed: only a notice is shown. */
    method OnGenerateError()
      requires Valid()
      modifies this
      ensures Valid() && activeStep == old(activeStep) && sessionData == old(sessionData)
    {
    }

    /** Submitting step 2 sends the gathered data with the step-2 fields laid over
        it; the wizard's own state does not change. */
    method SubmitStep2(f: Step2Form) returns (sent: Option<map<string, JsValue>>)
      requires Valid()
      ensures PageStep2Valid(f) && sent.Some?
      ensures sent.value.Keys == sessionData.Keys + Step2Data(f).Keys
      ensures forall k :: k in Step2Data(f) ==> sent.value[k] == Step2Data(f)[k]
      ensures forall k :: k in sessionData && k !in Step2Data(f) ==> sent.value[k] == sessionData[k]
    {
      sent := Some(sessionData + Step2Data(f));
    }

    /** The Back button, which only the second step shows. */
    method HandleBack()
      requires Valid() && activeStep == 1
      modifies this
      ensures Valid() && activeStep == old(activeStep) - 1 && sessionData == old(sessionData)
    {
      activeStep := activeStep - 1;
    }
  }
}
