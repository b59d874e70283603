/** The sign-up page: a three-step form (basic information, academic profile, preferences) whose
    Next button validates the basic information on the first step, whose Back button steps back,
    and whose last step submits once the terms are accepted. The submission itself is a mock that
    marks the browser as signed in and opens the dashboard. */
module Registration {
  import opened Seqs

  /** `steps.length`. */
  const StepCount: nat := 3
  const LastStep: nat := StepCount - 1
  const MinPasswordLength: nat := 8

  const MissingFieldsError := "Please fill in all required fields"
  const MismatchError := "Passwords do not match"
  const ShortPasswordError := "Password must be at least 8 characters"
  const TermsError := "Please agree to the terms and conditions"

  /** The fields of the first step that `handleNext` checks. */
  datatype BasicInfo = BasicInfo(firstName: string, lastName: string, email: string, password: string, confirmPassword: string)

  predicate Filled(b: BasicInfo) {
    b.firstName != [] && b.lastName != [] && b.email != [] && b.password != []
  }

  /** The first-step checks in their order: required fields, then matching passwords, then the
      length of the password. */
  function BasicInfoError(b: BasicInfo): (r: Option<string>)
    ensures r.None? <==> Filled(b) && b.password == b.confirmPassword && |b.password| >= MinPasswordLength
    ensures r == Some(MissingFieldsError) <==> !Filled(b)
    ensures r == Some(MismatchError) <==> Filled(b) && b.password != b.confirmPassword
    ensures r == Some(ShortPasswordError) <==> Filled(b) && b.password == b.confirmPassword && |b.password| < MinPasswordLength
  {
    if !Filled(b) then Some(MissingFieldsError)
    else if b.password != b.confirmPassword then Some(MismatchError)
    else if |b.password| < MinPasswordLength then Some(ShortPasswordError)
    else None
  }

  /** A short password that is also mistyped is reported as a mismatch, and an empty first name
      hides every other problem. */
  lemma CheckOrderExamples()
    ensures BasicInfoError(BasicInfo("Ada", "L", "a@b.c", "abc", "abd")) == Some(MismatchError)
    ensures BasicInfoError(BasicInfo("", "L", "a@b.c", "abc", "abd")) == Some(MissingFieldsError)
  {
    assert "abc" != "abd" by { assert "abc"[2] != "abd"[2]; }
    assert "Ada" != [];
  }

  datatype BasicField = FirstName | LastName | Email | Password | ConfirmPassword

  /** `handleInputChange(field, value)` on one of the first step's fields. */
  function WithBasicField(b: BasicInfo, f: BasicField, value: string): BasicInfo {
    match f
    case FirstName => b.(firstName := value)
    case LastName => b.(lastName := value)
    case Email => b.(email := value)
    case Password => b.(password := value)
    case ConfirmPassword => b.(confirmPassword := value)
  }

  class RegistrationForm {
    var activeStep: int
    var error: string
    var loading: bool
    var info: BasicInfo
    var agreeToTerms: bool
    /** `localStorage` holds `isAuthenticated`. */
    var authenticated: bool
    /** The page navigated to the dashboard. */
    var onDashboard: bool

    /** What the buttons keep true: the step is one of the three, and every step after the first
        was reached with basic information that passed the checks. */
    predicate Valid()
      reads this
    {
      0 <= activeStep <= LastStep && (activeStep > 0 ==> BasicInfoError(info).None?)
    }

    constructor ()
      ensures Valid()
      ensures activeStep == 0 && error == "" && !loading && !agreeToTerms && !authenticated && !onDashboard
      ensures info == BasicInfo("", "", "", "", "")
    {
      activeStep := 0;
      error := "";
      loading := false;
      info := BasicInfo("", "", "", "", "");
      agreeToTerms := false;
      authenticated := false;
      onDashboard := false;
    }

    /** `handleNext`: on the first step a failed check sets its message and keeps the step;
        otherwise the error is cleared and the step advances by one. */
    method Next()
      modifies this
      ensures old(activeStep) == 0 && BasicInfoError(old(info)).Some? ==>
                error == BasicInfoError(old(info)).value && activeStep == old(activeStep)
      ensures !(old(activeStep) == 0 && BasicInfoError(old(info)).Some?) ==>
                error == "" && activeStep == old(activeStep) + 1
      ensures info == old(info) && agreeToTerms == old(agreeToTerms) && loading == old(loading)
      ensures authenticated == old(authenticated) && onDashboard == old(onDashboard)
    {
      if activeStep == 0 {
        var e := BasicInfoError(info);
        if e.Some? {
          error := e.value;
          return;
        }
      }
      error := "";
      activeStep := activeStep + 1;
    }

    /** `handleBack`. */
    method Back()
      modifies this
      ensures activeStep == old(activeStep) - 1
      ensures error == old(error) && info == old(info) && agreeToTerms == old(agreeToTerms) && loading == old(loading)
      ensures authenticated == old(authenticated) && onDashboard == old(onDashboard)
    {
      activeStep := activeStep - 1;
    }

    /** `handleSubmit`: refused with a message until the terms are accepted; otherwise the mock
        registration signs the browser in and opens the dashboard. */
    method Submit()
      modifies this
      ensures !old(agreeToTerms) ==>
                error == TermsError && loading == old(loading) &&
                authenticated == old(authenticated) && onDashboard == old(onDashboard)
      ensures old(agreeToTerms) ==> error == "" && !loading && authenticated && onDashboard
      ensures activeStep == old(activeStep) && info == old(info) && agreeToTerms == old(agreeToTerms)
    {
      if !agreeToTerms {
        error := TermsError;
        return;
      }
      loading := true;
      error := "";
      authenticated := true;
      onDashboard := true;
      loading := false;
    }

    /** Typing into a first-step field; the fields are only on screen on the first step. */
    method EditBasicInfo(f: BasicField, value: string)
      requires Valid()
      modifies this
      ensures Valid()
      ensures info == if old(activeStep) == 0 then WithBasicField(old(info), f, value) else old(info)
      ensures activeStep == old(activeStep) && error == old(error) && agreeToTerms == old(agreeToTerms)
      ensures loading == old(loading) && authenticated == old(authenticated) && onDashboard == old(onDashboard)
    {
      if activeStep == 0 {
        info := WithBasicField(info, f, value);
      }
    }

    /** Ticking or clearing the terms box. */
    method SetAgreeToTerms(agree: bool)
      requires Valid()
      modifies this
      ensures Valid()
      ensures agreeToTerms == agree
      ensures activeStep == old(activeStep) && error == old(error) && info == old(info)
      ensures loading == old(loading) && authenticated == old(authenticated) && onDashboard == old(onDashboard)
    {
      agreeToTerms := agree;
    }

    /** The right-hand button: Create Account on the last step, Next before it. */
    method PressForward()
      requires Valid()
      modifies this
      ensures Valid()
      ensures old(activeStep) < LastStep ==>
                activeStep == (if old(activeStep) == 0 && BasicInfoError(old(info)).Some? then 0 else old(activeStep) + 1)
      ensures old(activeStep) == LastStep ==> activeStep == LastStep && (authenticated <==> old(authenticated) || old(agreeToTerms))
      ensures authenticated && !old(authenticated) ==> BasicInfoError(info).None? && agreeToTerms
    {
      if activeStep == LastStep {
        Submit();
      } else {
        Next();
      }
    }

    /** The Back button, disabled on the first step. */
    method PressBack()
      requires Valid()
      modifies this
      ensures Valid()
      ensures activeStep == if old(activeStep) == 0 then 0 else old(activeStep) - 1
      ensures error == old(error) && info == old(info) && authenticated == old(authenticated)
    {
      if activeStep != 0 {
        Back();
      }
    }
  }
}
