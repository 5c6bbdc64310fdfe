/** The sign-up form's validation: a three-way decision taken when "Registrarse" is pressed. */
module RegisterScreen {
  import opened Wrappers
  import opened Text

  const MismatchError: string := "Las contraseñas no coinciden."
  const RequiredError: string := "Todos los campos son obligatorios."

  /** The form's state: the four text fields and the error line shown under them. */
  datatype SignupForm = SignupForm(
    username: string, email: string, password: string, confirmPassword: string,
    errorText: Option<string>)

  /** The screen opens with every field empty and no error. */
  function InitialForm(): (f: SignupForm)
    ensures f.errorText == None
    ensures |f.username| == 0 && |f.email| == 0 && |f.password| == 0 && |f.confirmPassword| == 0
  {
    SignupForm("", "", "", "", None)
  }

  /**
   * The error the button sets: a password mismatch wins over blank fields, blank
   * (empty or whitespace-only) username, email or password comes next, and otherwise none.
   */
  function Validate(username: string, email: string, password: string, confirmPassword: string)
    : (r: Option<string>)
    ensures password != confirmPassword ==> r == Some(MismatchError)
    ensures password == confirmPassword ==>
      (r == Some(RequiredError) <==> IsBlank(username) || IsBlank(email) || IsBlank(password))
    ensures r == None <==>
      password == confirmPassword && !IsBlank(username) && !IsBlank(email) && !IsBlank(password)
    ensures r == None ==> !IsBlank(confirmPassword)
  {
    if password != confirmPassword then Some(MismatchError)
    else if IsBlank(username) || IsBlank(email) || IsBlank(password) then Some(RequiredError)
    else None
  }

  /** Pressing the button replaces the error line and leaves the four fields as typed. */
  function OnRegisterClick(form: SignupForm): (r: SignupForm)
    ensures r.username == form.username && r.email == form.email
    ensures r.password == form.password && r.confirmPassword == form.confirmPassword
    ensures r.errorText == Validate(form.username, form.email, form.password, form.confirmPassword)
  {
    form.(errorText := Validate(form.username, form.email, form.password, form.confirmPassword))
  }

  /** The priority and blankness rules on concrete inputs. */
  lemma ValidateExamples()
    ensures Validate("", "", "a", "b") == Some(MismatchError)
    ensures Validate("   ", "ana@example.com", "secret", "secret") == Some(RequiredError)
    ensures Validate("ana", "ana@example.com", "\t", "\t") == Some(RequiredError)
    ensures Validate("ana", "ana@example.com", "secret", "secret") == None
    ensures InitialForm().errorText == None && OnRegisterClick(InitialForm()).errorText == Some(RequiredError)
  {
    assert IsBlank("   ");
    assert !IsBlank("ana") by { assert !IsWhitespace("ana"[0]); }
    assert !IsBlank("ana@example.com") by { assert !IsWhitespace("ana@example.com"[0]); }
    assert !IsBlank("secret") by { assert !IsWhitespace("secret"[0]); }
  }
}
