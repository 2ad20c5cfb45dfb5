/** The registration form component (src/components/RegistrationForm/RegistrationForm.js):
    its props, the password-quality meter, validation and the submit latch. */
module Registration {
  import opened Wrappers
  import JsText

  datatype Props = Props(confirmationMessage: string, minPasswordLength: int)

  const DefaultConfirmationMessage := "Thanks for registering!"
  const DefaultMinPasswordLength := 8

  /** React fills each prop the caller leaves out from `defaultProps`. */
  function WithDefaults(confirmationMessage: Option<string>, minPasswordLength: Option<int>): (p: Props)
    ensures p.confirmationMessage == (if confirmationMessage.Some? then confirmationMessage.value else "Thanks for registering!")
    ensures p.minPasswordLength == (if minPasswordLength.Some? then minPasswordLength.value else 8)
  {
    Props(
      match confirmationMessage case Some(m) => m case None => DefaultConfirmationMessage,
      match minPasswordLength case Some(n) => n case None => DefaultMinPasswordLength)
  }

  /** `passwordQuality(password)`: `null` for an empty password, otherwise the
      share of the minimum length typed so far, as a whole percentage capped at 100.
      `password.length` counts UTF-16 code units. */
  function PasswordQuality(password: string, minPasswordLength: int): (q: Option<int>)
    ensures q.None? <==> password == ""
    ensures password != "" && JsText.Utf16Length(password) >= minPasswordLength ==> q == Some(100)
    ensures var length := JsText.Utf16Length(password);
            password != "" && length < minPasswordLength ==>
              q.Some? && 0 <= q.value <= 99
              && q.value * minPasswordLength <= length * 100 < (q.value + 1) * minPasswordLength
  {
    var length := JsText.Utf16Length(password);
    if password == "" then None
    else if length >= minPasswordLength then Some(100)
    else
      var percentOfMinLength := JsText.Truncate((length as real / minPasswordLength as real) * 100.0);
      TruncatedPercent(length, minPasswordLength);
      PercentBounds(length, minPasswordLength);
      Some(percentOfMinLength)
  }

  /** JavaScript's `(length / min) * 100`, truncated, is the integer quotient
      `length * 100 / min` when both are positive and arithmetic is exact. */
  lemma TruncatedPercent(length: nat, minLength: int)
    requires minLength > 0
    ensures JsText.Truncate((length as real / minLength as real) * 100.0) == length * 100 / minLength
  {
    var n, d := length * 100, minLength;
    var q, r := n / d, n % d;
    var x := (length as real / d as real) * 100.0;
    ScaleQuotient(length as real, d as real);
    assert length as real * 100.0 == n as real;
    assert x == n as real / d as real;
    assert n == q * d + r;
    SplitQuotient(q, r, d);
    FractionBelowOne(r, d);
    FloorOfSum(q, r as real / d as real);
    assert x == q as real + r as real / d as real;
  }

  lemma ScaleQuotient(a: real, d: real)
    requires d > 0.0
    ensures (a / d) * 100.0 == (a * 100.0) / d
  {
  }

  lemma SplitQuotient(q: int, r: int, d: int)
    requires d > 0
    ensures ((q * d + r) as real) / (d as real) == q as real + (r as real) / (d as real)
  {
    assert ((q * d + r) as real) == (q as real) * (d as real) + r as real;
  }

  lemma FractionBelowOne(r: int, d: int)
    requires 0 <= r < d
    ensures 0.0 <= (r as real) / (d as real) < 1.0
  {
  }

  /** A non-negative whole number plus a fraction in [0, 1) truncates to that number. */
  lemma FloorOfSum(q: int, f: real)
    requires 0 <= q && 0.0 <= f < 1.0
    ensures JsText.Truncate(q as real + f) == q
  {
    var t := JsText.Truncate(q as real + f);
    assert t as real <= q as real + f < t as real + 1.0;
  }

  /** The integer percentage of a length below the minimum lies in 0..99 and
      is the largest `q` with `q * min <= length * 100`. */
  lemma PercentBounds(length: nat, minLength: int)
    requires 0 < length < minLength
    ensures var q := length * 100 / minLength;
            0 <= q <= 99 && q * minLength <= length * 100 < (q + 1) * minLength
  {
    var n, d := length * 100, minLength;
    var q := n / d;
    assert n == q * d + n % d;
  }

  /** A password with at least as many code units never shows a lower quality. */
  lemma QualityMonotonic(shorter: string, longer: string, minPasswordLength: int)
    requires shorter != "" && JsText.Utf16Length(shorter) <= JsText.Utf16Length(longer)
    ensures longer != ""
    ensures PasswordQuality(shorter, minPasswordLength).value <= PasswordQuality(longer, minPasswordLength).value
  {
    var m := minPasswordLength;
    var a, b := PasswordQuality(shorter, m).value, PasswordQuality(longer, m).value;
    if JsText.Utf16Length(longer) < m {
      QuotientOrder(a, b, JsText.Utf16Length(shorter) * 100, JsText.Utf16Length(longer) * 100, m);
    }
  }

  /** Two whole percentages bracketing ordered numerators are ordered. */
  lemma QuotientOrder(a: int, b: int, x: int, y: int, m: int)
    requires m > 0 && a * m <= x <= y < (b + 1) * m
    ensures a <= b
  {
    assert a * m < (b + 1) * m;
  }

  /** Typing more characters (one `onChange` per keystroke appends them) never lowers the quality. */
  lemma TypingNeverLowersQuality(password: string, typed: string, minPasswordLength: int)
    requires password != ""
    ensures PasswordQuality(password, minPasswordLength).value <= PasswordQuality(password + typed, minPasswordLength).value
  {
    JsText.Utf16LengthAppend(password, typed);
    QualityMonotonic(password, password + typed, minPasswordLength);
  }

  /** The quality is the exact integer percentage `length * 100 / min` (rounded down). */
  lemma QualityIsIntegerPercentage(password: string, minPasswordLength: int)
    requires password != "" && JsText.Utf16Length(password) < minPasswordLength
    ensures PasswordQuality(password, minPasswordLength) ==
              Some(JsText.Utf16Length(password) * 100 / minPasswordLength)
  {
    TruncatedPercent(JsText.Utf16Length(password), minPasswordLength);
  }

  /** Four emoji are eight UTF-16 code units: they meet the default minimum
      length, so the meter is full and no password error is raised. */
  lemma FourEmojiMeetDefaultMinimum()
    ensures JsText.Utf16Length("\U{1F600}\U{1F600}\U{1F600}\U{1F600}") == 8
    ensures PasswordQuality("\U{1F600}\U{1F600}\U{1F600}\U{1F600}", DefaultMinPasswordLength) == Some(100)
    ensures "password" !in ValidationErrors("a@b.c", "\U{1F600}\U{1F600}\U{1F600}\U{1F600}", DefaultMinPasswordLength)
  {
    var e := "\U{1F600}";
    assert "\U{1F600}\U{1F600}\U{1F600}\U{1F600}" == e + e + e + e;
    assert JsText.Utf16Length(e) == 2 by { assert e[..0] == []; }
    JsText.Utf16LengthAppend(e, e);
    JsText.Utf16LengthAppend(e + e, e);
    JsText.Utf16LengthAppend(e + e + e, e);
  }

  /** The error map `validate` builds: an `email` entry exactly when the email
      is empty, a `password` entry exactly when the password is too short. */
  function ValidationErrors(email: string, password: string, minPasswordLength: int): (errors: map<string, string>)
    ensures "email" in errors <==> email == ""
    ensures "password" in errors <==> JsText.Utf16Length(password) < minPasswordLength
    ensures errors.Keys <= {"email", "password"}
    ensures "email" in errors ==> errors["email"] == "Email required"
    ensures "password" in errors ==>
              errors["password"] == "Password must be at least " + JsText.IntToString(minPasswordLength) + " characters"
  {
    var withEmail := if email == "" then map["email" := "Email required"] else map[];
    if JsText.Utf16Length(password) < minPasswordLength then
      withEmail["password" := "Password must be at least " + JsText.IntToString(minPasswordLength) + " characters"]
    else withEmail
  }

  /** The form is valid exactly when an email is given and the password is long enough. */
  lemma ValidIff(email: string, password: string, minPasswordLength: int)
    ensures ValidationErrors(email, password, minPasswordLength) == map[] <==>
              email != "" && JsText.Utf16Length(password) >= minPasswordLength
  {
    var errors := ValidationErrors(email, password, minPasswordLength);
    if email == "" { assert "email" in errors; }
    if JsText.Utf16Length(password) < minPasswordLength { assert "password" in errors; }
  }

  /** What `render` shows: the confirmation message once submitted, otherwise
      the two inputs with their values, errors and the password quality. */
  datatype View =
    | Confirmation(message: string)
    | Form(email: string, password: string, emailError: Option<string>, passwordError: Option<string>, quality: Option<int>)

  class RegistrationForm {
    const props: Props
    var user: map<string, string>
    var errors: map<string, string>
    var submitted: bool

    /** The user object always has its two fields: `onChange` only ever adds or overwrites. */
    ghost predicate Valid()
      reads this
    {
      "email" in user && "password" in user
    }

    constructor (props: Props)
      ensures Valid()
      ensures this.props == props
      ensures user == map["email" := "", "password" := ""]
      ensures errors == map[] && !submitted
    {
      this.props := props;
      user := map["email" := "", "password" := ""];
      errors := map[];
      submitted := false;
    }

    /** `onChange(e)`: `user[e.target.name] = e.target.value`. */
    method OnChange(name: string, value: string)
      requires Valid()
      modifies this
      ensures Valid()
      ensures user == old(user)[name := value]
      ensures forall k :: k in old(user) && k != name ==> k in user && user[k] == old(user)[k]
      ensures errors == old(errors) && submitted == old(submitted)
    {
      user := user[name := value];
    }

    /** `validate({email, password})`: replaces `errors` with a freshly built map
      and reports whether it is empty. */
    method Validate(email: string, password: string) returns (formIsValid: bool)
      modifies this
      ensures errors == ValidationErrors(email, password, props.minPasswordLength)
      ensures formIsValid <==> email != "" && JsText.Utf16Length(password) >= props.minPasswordLength
      ensures user == old(user) && submitted == old(submitted)
    {
      var newErrors: map<string, string> := map[];
      if email == "" {
        newErrors := newErrors["email" := "Email required"];
      }
      if JsText.Utf16Length(password) < props.minPasswordLength {
        newErrors := newErrors["password" := "Password must be at least " + JsText.IntToString(props.minPasswordLength) + " characters"];
      }
      errors := newErrors;
      formIsValid := |newErrors.Keys| == 0;
      assert errors == ValidationErrors(email, password, props.minPasswordLength);
      ValidIff(email, password, props.minPasswordLength);
    }

    /** `onSubmit()`: validates the current user; only when valid is the
        `onSubmit` callback given the user (`submittedUser`) and the form latched
        as submitted. */
    method OnSubmit() returns (submittedUser: Option<map<string, string>>)
      requires Valid()
      modifies this
      ensures Valid()
      ensures errors == ValidationErrors(old(user)["email"], old(user)["password"], props.minPasswordLength)
      ensures submittedUser.Some? <==> errors == map[]
      ensures submittedUser.Some? ==> submittedUser.value == old(user) && submitted
      ensures submittedUser.None? ==> submitted == old(submitted)
      ensures user == old(user)
    {
      var formIsValid := Validate(user["email"], user["password"]);
      ValidIff(user["email"], user["password"], props.minPasswordLength);
      if formIsValid {
        submittedUser := Some(user);
        submitted := true;
      } else {
        submittedUser := None;
      }
    }

    /** The branch of `render` on `submitted`; `errors.email` is `undefined`
        (here `None`) when the map has no such entry. */
    function Render(): (v: View)
      requires Valid()
      reads this
      ensures v.Confirmation? <==> submitted
      ensures v.Confirmation? ==> v.message == props.confirmationMessage
      ensures v.Form? ==> && v.email == user["email"] && v.password == user["password"]
                          && v.quality == PasswordQuality(user["password"], props.minPasswordLength)
                          && (v.emailError.Some? <==> "email" in errors)
                          && (v.emailError.Some? ==> v.emailError.value == errors["email"])
                          && (v.passwordError.Some? <==> "password" in errors)
                          && (v.passwordError.Some? ==> v.passwordError.value == errors["password"])
    {
      if submitted then Confirmation(props.confirmationMessage)
      else Form(user["email"], user["password"],
                if "email" in errors then Some(errors["email"]) else None,
                if "password" in errors then Some(errors["password"]) else None,
                PasswordQuality(user["password"], props.minPasswordLength))
    }
  }
}
