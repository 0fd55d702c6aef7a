/**
  The form schemas of frontend/.../utils/validationSchema.js as predicates on
  the form values. String lengths count characters; whether an address is an
  e-mail address is the parameter `isEmail`.
 */
module ValidationSchema {
  import opened Wrappers

  datatype LoginForm = LoginForm(email: string, password: string)

  /** `loginSchema`: a valid e-mail and a non-empty password. */
  predicate LoginValid(f: LoginForm, isEmail: string -> bool) {
    isEmail(f.email) && |f.password| >= 1
  }

  /** The registration form; the profile image is accepted whatever it is, so the
      model does not carry it. */
  datatype RegisterForm = RegisterForm(name: string, email: string, password: string)

  /** `registerSchema`: a name of at least 2, a valid e-mail and a password of at
      least 6 characters. */
  predicate RegisterValid(f: RegisterForm, isEmail: string -> bool) {
    |f.name| >= 2 && isEmail(f.email) && |f.password| >= 6
  }

  /** Anyone who could register can sign in with the same e-mail and password. */
  lemma RegisterThenLogin(f: RegisterForm, isEmail: string -> bool)
    requires RegisterValid(f, isEmail)
    ensures LoginValid(LoginForm(f.email, f.password), isEmail)
  {
  }

  datatype Step1Form = Step1Form(role: string, experience: string, topicsToFocus: seq<string>, numberOfQuestions: int)

  const MinQuestions := 3
  const MaxQuestions := 15

  /** `createSessionStep1Schema`: a role of at least 3 characters, an experience,
      at least one topic (which may be empty) and 3 to 15 questions. */
  predicate Step1Valid(f: Step1Form) {
    |f.role| >= 3 && |f.experience| >= 1 && |f.topicsToFocus| >= 1
    && MinQuestions <= f.numberOfQuestions <= MaxQuestions
  }

  datatype Step2Form = Step2Form(description: Option<string>)

  const MaxDescription := 300

  /** `createSessionStep2Schema`: no description, or one of at most 300 characters. */
  predicate Step2Valid(f: Step2Form) {
    f.description.None? || |f.description.value| <= MaxDescription
  }
}
