/**
 * The registration form (frontend/src/components/RegisterForm.jsx): two password checks
 * in a fixed order, then a call to `register(username, email, password)`, whose result is
 * a parameter. JavaScript's `password.length` counts UTF-16 code units.
 */
module Register {
  import opened Wrappers
  import opened Text

  /** `formData`. */
  datatype RegisterFields = RegisterFields(username: string, email: string, password: string, confirmPassword: string)

  /** The `name` attribute of the input that fired `onChange`. */
  datatype Field = Username | Email | Password | ConfirmPassword

  /** What `register` resolves to: `{ success: true }` or `{ success: false, message }`. */
  datatype RegisterResult = Registered | Rejected(message: string)

  /** The arguments `register` is called with. */
  datatype Credentials = Credentials(username: string, email: string, password: string)

  const MismatchMessage: string := "Passwords do not match"
  const TooShortMessage: string := "Password must be at least 6 characters long"
  const MinPasswordLength: nat := 6

  /** The first failing check, in the order the handler makes them, or `None` when both pass. */
  function PasswordProblem(password: string, confirmPassword: string): Option<string> {
    if password != confirmPassword then Some(MismatchMessage)
    else if Utf16Length(password) < MinPasswordLength then Some(TooShortMessage)
    else None
  }

  /** `{ ...formData, [name]: value }`. */
  function WithField(fields: RegisterFields, name: Field, value: string): RegisterFields {
    match name
    case Username => fields.(username := value)
    case Email => fields.(email := value)
    case Password => fields.(password := value)
    case ConfirmPassword => fields.(confirmPassword := value)
  }

  /**
   * Both checks pass exactly when the passwords are equal and at least 6 long; a mismatch is
   * reported first, whatever the length; a matching short password is reported as too short.
   */
  lemma PasswordChecks(password: string, confirmPassword: string)
    ensures PasswordProblem(password, confirmPassword).None? <==>
      password == confirmPassword && Utf16Length(password) >= 6
    ensures password != confirmPassword ==>
      PasswordProblem(password, confirmPassword) == Some("Passwords do not match")
    ensures password == confirmPassword && Utf16Length(password) < 6 ==>
      PasswordProblem(password, confirmPassword) == Some("Password must be at least 6 characters long")
  {
  }

  /** For a password within the Basic Multilingual Plane the length check counts characters. */
  lemma BmpPasswordLength(password: string)
    requires forall i :: 0 <= i < |password| ==> password[i] as int <= 0xFFFF
    ensures PasswordProblem(password, password).None? <==> |password| >= 6
  {
    Utf16LengthOfBmp(password);
  }

  /** A change replaces the named field and leaves the other three as they were. */
  lemma WithFieldOnlyNamed(fields: RegisterFields, name: Field, value: string)
    ensures var f := WithField(fields, name, value);
      && f.username == (if name == Username then value else fields.username)
      && f.email == (if name == Email then value else fields.email)
      && f.password == (if name == Password then value else fields.password)
      && f.confirmPassword == (if name == ConfirmPassword then value else fields.confirmPassword)
  {
  }

  /** The component's state. */
  class RegisterForm {
    var formData: RegisterFields
    var loading: bool
    var message: string

    /** The initial `useState` values. */
    constructor ()
      ensures formData == RegisterFields([], [], [], []) && !loading && message == []
    {
      formData := RegisterFields([], [], [], []);
      loading := false;
      message := [];
    }

    /** `handleChange(e)`. */
    method HandleChange(name: Field, value: string)
      modifies this
      ensures formData == WithField(old(formData), name, value)
      ensures loading == old(loading) && message == old(message)
    {
      formData := WithField(formData, name, value);
    }

    /**
     * `handleSubmit(e)`. Returns the call made to `register`, if any: one exactly when both
     * checks pass. The message is the failing check's, else the rejection's, else empty;
     * `loading` is false on every exit.
     */
    method HandleSubmit(result: RegisterResult) returns (call: Option<Credentials>)
      modifies this
      ensures formData == old(formData) && !loading
      ensures var problem := PasswordProblem(old(formData).password, old(formData).confirmPassword);
        && (call.Some? <==> problem.None?)
        && (call.Some? ==> call.value == Credentials(old(formData).username, old(formData).email, old(formData).password))
        && message == (if problem.Some? then problem.value
                       else if result.Rejected? then result.message
                       else [])
    {
      call := None;
      loading := true;
      message := [];
      if formData.password != formData.confirmPassword {
        message := MismatchMessage;
        loading := false;
        return;
      }
      if Utf16Length(formData.password) < MinPasswordLength {
        message := TooShortMessage;
        loading := false;
        return;
      }
      call := Some(Credentials(formData.username, formData.email, formData.password));
      if result.Rejected? {
        message := result.message;
      }
      loading := false;
    }
  }
}
