/**
 * The browser-side checks of static/script.js: the password strength score and
 * its label, the email pattern, the 128-character cap of the password field, and
 * the submit-time validation of a form. The DOM is reduced to what these read and
 * write: an input's type, id, `required` flag and value, the error message shown
 * beside it, and the strength indicator under the password field. JavaScript
 * strings are taken as sequences of characters (see README).
 */
module ClientValidation {
  import opened Wrappers
  import opened Text

  const CLIENT_MIN_PASSWORD := 8
  const CLIENT_MAX_PASSWORD := 128

  const REQUIRED_MESSAGE := "Bu sahə mütləqdir"
  const EMAIL_MESSAGE := "E-mail formatı düzgün deyil"
  const TOO_SHORT_MESSAGE := "Şifrə ən az 8 simvol olmalıdır"
  const TOO_LONG_MESSAGE := "Şifrə maksimum 128 simvol ola bilər"

  // ---------------------------------------------------------------- strength

  predicate IsAsciiLower(c: char) { 'a' <= c <= 'z' }
  predicate IsAsciiUpper(c: char) { 'A' <= c <= 'Z' }
  predicate IsAsciiDigit(c: char) { '0' <= c <= '9' }

  /** What `[^a-zA-Z0-9]` matches. */
  predicate IsOtherChar(c: char) { !IsAsciiLower(c) && !IsAsciiUpper(c) && !IsAsciiDigit(c) }

  predicate HasLower(p: string) { exists i :: 0 <= i < |p| && IsAsciiLower(p[i]) }
  predicate HasUpper(p: string) { exists i :: 0 <= i < |p| && IsAsciiUpper(p[i]) }
  predicate HasDigit(p: string) { exists i :: 0 <= i < |p| && IsAsciiDigit(p[i]) }
  predicate HasOther(p: string) { exists i :: 0 <= i < |p| && IsOtherChar(p[i]) }

  /** The five criteria of `getPasswordStrength`, in the order it tests them. */
  function Criteria(p: string): seq<bool> {
    [|p| >= 8, HasLower(p), HasUpper(p), HasDigit(p), HasOther(p)]
  }

  /** How many of `xs` hold. */
  function CountTrue(xs: seq<bool>): (n: int)
    ensures 0 <= n <= |xs|
  {
    if xs == [] then 0 else CountTrue(xs[..|xs| - 1]) + (if xs[|xs| - 1] then 1 else 0)
  }

  /** The count is the length exactly when all hold, and zero exactly when none does. */
  lemma {:induction false} CountTrueExtremes(xs: seq<bool>)
    ensures CountTrue(xs) == |xs| <==> forall i :: 0 <= i < |xs| ==> xs[i]
    ensures CountTrue(xs) == 0 <==> forall i :: 0 <= i < |xs| ==> !xs[i]
  {
    if xs != [] {
      var init := xs[..|xs| - 1];
      CountTrueExtremes(init);
      assert forall i :: 0 <= i < |init| ==> init[i] == xs[i];
    }
  }

  /** The score the strength indicator shows: the number of criteria met. */
  function Score(p: string): int {
    CountTrue(Criteria(p))
  }

  /** Counting one more criterion adds one exactly when it holds. */
  lemma CountTrueSnoc(xs: seq<bool>, b: bool)
    ensures CountTrue(xs + [b]) == CountTrue(xs) + (if b then 1 else 0)
  {
    assert (xs + [b])[..|xs|] == xs;
  }

  /** Five conditions counted one by one. */
  lemma {:induction false} CountTrueFive(a: bool, b: bool, c: bool, d: bool, e: bool)
    ensures CountTrue([a, b, c, d, e]) ==
      (if a then 1 else 0) + (if b then 1 else 0) + (if c then 1 else 0) + (if d then 1 else 0) + (if e then 1 else 0)
  {
    CountTrueSnoc([], a);
    CountTrueSnoc([a], b);
    CountTrueSnoc([a, b], c);
    CountTrueSnoc([a, b, c], d);
    CountTrueSnoc([a, b, c, d], e);
    assert [] + [a] == [a] && [a] + [b] == [a, b] && [a, b] + [c] == [a, b, c];
    assert [a, b, c] + [d] == [a, b, c, d] && [a, b, c, d] + [e] == [a, b, c, d, e];
  }

  /** The score as a sum of one point per criterion met. */
  lemma ScoreAsSum(p: string)
    ensures Score(p) ==
      (if |p| >= 8 then 1 else 0) + (if HasLower(p) then 1 else 0) + (if HasUpper(p) then 1 else 0) +
      (if HasDigit(p) then 1 else 0) + (if HasOther(p) then 1 else 0)
  {
    CountTrueFive(|p| >= 8, HasLower(p), HasUpper(p), HasDigit(p), HasOther(p));
  }

  /** `getPasswordStrength` (static/script.js:65-73). */
  method GetPasswordStrength(password: string) returns (strength: int)
    ensures strength == Score(password)
  {
    strength := 0;
    if |password| >= 8 { strength := strength + 1; }
    if HasLower(password) { strength := strength + 1; }
    if HasUpper(password) { strength := strength + 1; }
    if HasDigit(password) { strength := strength + 1; }
    if HasOther(password) { strength := strength + 1; }
    ScoreAsSum(password);
  }

  /** The score lies in 0..5, and is 5 exactly when every criterion holds. */
  lemma ScoreRange(p: string)
    ensures 0 <= Score(p) <= 5
    ensures Score(p) == 5 <==> |p| >= 8 && HasLower(p) && HasUpper(p) && HasDigit(p) && HasOther(p)
  {
    var c := Criteria(p);
    CountTrueExtremes(c);
    assert c[0] == (|p| >= 8) && c[1] == HasLower(p) && c[2] == HasUpper(p);
    assert c[3] == HasDigit(p) && c[4] == HasOther(p);
  }

  /** The empty password meets no criterion. */
  lemma EmptyScoresZero()
    ensures Score("") == 0
  {
    CountTrueExtremes(Criteria(""));
  }

  // ------------------------------------------------------------------ labels

  datatype Label = Label(message: string, color: string)

  /**
   * The `switch` of `showPasswordStrength` (static/script.js:96-118). A score
   * outside 0..5 matches no case and leaves the label undefined.
   */
  function StrengthLabel(strength: int): (r: Option<Label>)
    ensures r.Some? <==> 0 <= strength <= 5
  {
    if strength == 0 || strength == 1 then Some(Label("Çox zəif", "#dc3545"))
    else if strength == 2 then Some(Label("Zəif", "#ffc107"))
    else if strength == 3 then Some(Label("Orta", "#17a2b8"))
    else if strength == 4 then Some(Label("Güclü", "#28a745"))
    else if strength == 5 then Some(Label("Çox güclü", "#155724"))
    else None
  }

  /** Scores 0 and 1 share the weakest label. */
  lemma WeakestLabelShared()
    ensures StrengthLabel(0) == StrengthLabel(1) == Some(Label("Çox zəif", "#dc3545"))
  {
  }

  /** Scores 1 to 5 have five different messages and five different colours. */
  lemma LabelsDistinct(i: int, j: int)
    requires 1 <= i < j <= 5
    ensures StrengthLabel(i).value.message != StrengthLabel(j).value.message
    ensures StrengthLabel(i).value.color != StrengthLabel(j).value.color
  {
  }

  /** The strength box under the password field. */
  datatype Indicator = Indicator(text: string, color: string, background: string, border: string)

  /** How a template literal or `+` renders a possibly undefined string. */
  function Shown(v: Option<string>): string {
    if v.Some? then v.value else "undefined"
  }

  /**
   * `showPasswordStrength(strength)` for a field holding `value`: no box for an
   * empty field, otherwise the label's text and colour (the colour with alpha
   * `20` as background and `40` on the border).
   */
  function IndicatorOf(value: string, strength: int): (r: Option<Indicator>)
    ensures r.None? <==> value == ""
  {
    if value == "" then None
    else
      var chosen := StrengthLabel(strength);
      var message := Shown(if chosen.Some? then Some(chosen.value.message) else None);
      var color := Shown(if chosen.Some? then Some(chosen.value.color) else None);
      Some(Indicator("Şifrə gücü: " + message, color, color + "20", "1px solid " + color + "40"))
  }

  /** The box a non-empty password gets always names one of the five labels. */
  lemma IndicatorNamesLabel(value: string)
    requires value != ""
    ensures StrengthLabel(Score(value)).Some?
    ensures IndicatorOf(value, Score(value)).Some?
    ensures IndicatorOf(value, Score(value)).value.text == "Şifrə gücü: " + StrengthLabel(Score(value)).value.message
    ensures IndicatorOf(value, Score(value)).value.color == StrengthLabel(Score(value)).value.color
  {
    ScoreRange(value);
  }

  // -------------------------------------------------------------- truncation

  /**
   * `password.substring(0, 128)` when the value is longer than 128: the longest
   * prefix of at most 128 characters.
   */
  function Truncate(s: string): (r: string)
    ensures |r| <= CLIENT_MAX_PASSWORD
    ensures |r| <= |s| && r == s[..|r|]
    ensures |s| <= CLIENT_MAX_PASSWORD ==> r == s
    ensures |s| > CLIENT_MAX_PASSWORD ==> |r| == CLIENT_MAX_PASSWORD
  {
    if |s| > CLIENT_MAX_PASSWORD then s[..CLIENT_MAX_PASSWORD] else s
  }

  /** The `#password` field with its error message and strength box. */
  class PasswordField {
    var value: string
    var error: Option<string>
    var indicator: Option<Indicator>

    constructor (v: string)
      ensures value == v && error == None && indicator == None
    {
      value := v;
      error := None;
      indicator := None;
    }

    /** `showPasswordStrength`: replaces the strength box. */
    method ShowPasswordStrength(strength: int)
      modifies this
      ensures value == old(value) && error == old(error)
      ensures indicator == IndicatorOf(value, strength)
    {
      indicator := None;
      if value == "" {
        return;
      }
      indicator := IndicatorOf(value, strength);
    }

    /**
     * The `input` listener (static/script.js:12-26). A value over 128
     * characters is cut to 128 and flagged, leaving the strength box as it was;
     * otherwise the error is cleared and the box shows the value's strength.
     */
    method OnInput()
      modifies this
      ensures value == Truncate(old(value))
      ensures |old(value)| > CLIENT_MAX_PASSWORD ==>
        error == Some(TOO_LONG_MESSAGE) && indicator == old(indicator)
      ensures |old(value)| <= CLIENT_MAX_PASSWORD ==>
        error == None && indicator == IndicatorOf(value, Score(value))
    {
      var password := value;
      if |password| > CLIENT_MAX_PASSWORD {
        value := password[..CLIENT_MAX_PASSWORD];
        error := Some(TOO_LONG_MESSAGE);
        return;
      }
      error := None;
      var strength := GetPasswordStrength(password);
      ShowPasswordStrength(strength);
    }
  }

  // ------------------------------------------------------------------- email

  /** A run of `[^\s@]`. */
  predicate EmailPart(t: string) {
    forall i :: 0 <= i < |t| ==> !IsJsSpace(t[i]) && t[i] != '@'
  }

  /**
   * `isValidEmail` (static/script.js:128-131): the whole string matches
   * `^[^\s@]+@[^\s@]+\.[^\s@]+$`, split at its '@' and at one later '.'.
   */
  predicate IsValidEmail(s: string) {
    exists at, dot ::
      && 0 < at < |s| && 0 < dot < |s| && at + 1 < dot && dot + 1 < |s|
      && s[at] == '@' && s[dot] == '.'
      && EmailPart(s[..at]) && EmailPart(s[at + 1..dot]) && EmailPart(s[dot + 1..])
  }

  /**
   * The same condition stated directly: no whitespace, exactly one '@', something
   * before it, and a '.' in the part after it that is neither that part's first
   * nor its last character.
   */
  predicate WellFormedEmail(s: string) {
    && (forall i :: 0 <= i < |s| ==> !IsJsSpace(s[i]))
    && exists at ::
      && 0 < at < |s| && s[at] == '@'
      && (forall k :: 0 <= k < |s| && s[k] == '@' ==> k == at)
      && exists dot :: at + 1 < dot < |s| - 1 && s[dot] == '.'
  }

  /** A slice is a run of `[^\s@]` exactly when each of its characters is one. */
  lemma EmailPartSlice(s: string, lo: int, hi: int)
    requires 0 <= lo <= hi <= |s|
    ensures EmailPart(s[lo..hi]) <==> forall i :: lo <= i < hi ==> !IsJsSpace(s[i]) && s[i] != '@'
  {
    if EmailPart(s[lo..hi]) {
      forall i | lo <= i < hi
        ensures !IsJsSpace(s[i]) && s[i] != '@'
      {
        assert s[lo..hi][i - lo] == s[i];
      }
    }
  }

  lemma PatternIsWellFormed(s: string)
    requires IsValidEmail(s)
    ensures WellFormedEmail(s)
  {
    var at, dot :|
      && 0 < at < |s| && 0 < dot < |s| && at + 1 < dot && dot + 1 < |s|
      && s[at] == '@' && s[dot] == '.'
      && EmailPart(s[..at]) && EmailPart(s[at + 1..dot]) && EmailPart(s[dot + 1..]);
    EmailPartSlice(s, 0, at);
    assert s[..at] == s[0..at];
    EmailPartSlice(s, at + 1, dot);
    EmailPartSlice(s, dot + 1, |s|);
    assert s[dot + 1..] == s[dot + 1..|s|];
    forall i | 0 <= i < |s|
      ensures !IsJsSpace(s[i]) && (s[i] == '@' ==> i == at)
    {
      if i < at {
      } else if i == at {
      } else if i < dot {
      } else if i == dot {
      } else {
      }
    }
  }

  lemma WellFormedIsPattern(s: string)
    requires WellFormedEmail(s)
    ensures IsValidEmail(s)
  {
    var at :|
      && 0 < at < |s| && s[at] == '@'
      && (forall k :: 0 <= k < |s| && s[k] == '@' ==> k == at)
      && exists dot :: at + 1 < dot < |s| - 1 && s[dot] == '.';
    var dot :| at + 1 < dot < |s| - 1 && s[dot] == '.';
    EmailPartSlice(s, 0, at);
    assert s[..at] == s[0..at];
    EmailPartSlice(s, at + 1, dot);
    EmailPartSlice(s, dot + 1, |s|);
    assert s[dot + 1..] == s[dot + 1..|s|];
  }

  lemma EmailCharacterisation(s: string)
    ensures IsValidEmail(s) <==> WellFormedEmail(s)
  {
    if IsValidEmail(s) {
      PatternIsWellFormed(s);
    }
    if WellFormedEmail(s) {
      WellFormedIsPattern(s);
    }
  }

  // -------------------------------------------------------------------- form

  /** An `<input>` of a form, as far as `validateForm` looks at it. */
  datatype Input = Input(inputType: string, id: string, required: bool, value: string)

  predicate IsEmailInput(i: Input) { i.inputType == "email" }

  predicate IsPasswordElement(i: Input) { i.id == "password" }

  /** `form.querySelector(...)`: the first input, in document order, that `p` selects. */
  function FirstIndex(inputs: seq<Input>, p: Input -> bool): (r: Option<nat>)
    ensures r.Some? ==> r.value < |inputs| && p(inputs[r.value])
    ensures r.Some? ==> forall j :: 0 <= j < r.value ==> !p(inputs[j])
    ensures r.None? <==> forall j :: 0 <= j < |inputs| ==> !p(inputs[j])
  {
    if inputs == [] then None
    else if p(inputs[0]) then Some(0)
    else
      match FirstIndex(inputs[1..], p)
      case None => None
      case Some(k) => Some(k + 1)
  }

  /** A required input whose value trims to nothing. */
  predicate RequiredBlank(i: Input) {
    i.required && JsTrim(i.value) == ""
  }

  /** The rule for the first email input: a non-empty value must match the pattern. */
  function EmailError(v: string): (r: Option<string>)
    ensures r.Some? <==> v != "" && !IsValidEmail(v)
    ensures r.Some? ==> r.value == EMAIL_MESSAGE
  {
    if v != "" && !IsValidEmail(v) then Some(EMAIL_MESSAGE) else None
  }

  /** The length check of the `#password` element. */
  function PasswordLengthError(v: string): (r: Option<string>)
    ensures r.None? <==> CLIENT_MIN_PASSWORD <= |v| <= CLIENT_MAX_PASSWORD
    ensures |v| < CLIENT_MIN_PASSWORD ==> r == Some(TOO_SHORT_MESSAGE)
    ensures |v| > CLIENT_MAX_PASSWORD ==> r == Some(TOO_LONG_MESSAGE)
  {
    if |v| < CLIENT_MIN_PASSWORD then Some(TOO_SHORT_MESSAGE)
    else if |v| > CLIENT_MAX_PASSWORD then Some(TOO_LONG_MESSAGE)
    else None
  }

  /**
   * When a form may be submitted: no required input is blank, the first email
   * input is empty or well formed, and the `#password` element, if any, holds 8
   * to 128 characters.
   */
  predicate FormValid(inputs: seq<Input>) {
    && (forall k :: 0 <= k < |inputs| ==> !RequiredBlank(inputs[k]))
    && (forall k :: 0 <= k < |inputs| && FirstIndex(inputs, IsEmailInput) == Some(k) ==>
          inputs[k].value == "" || WellFormedEmail(inputs[k].value))
    && (forall k :: 0 <= k < |inputs| && FirstIndex(inputs, IsPasswordElement) == Some(k) ==>
          CLIENT_MIN_PASSWORD <= |inputs[k].value| <= CLIENT_MAX_PASSWORD)
  }

  /**
   * The message next to input `k` once `validateForm` has run, `prev` being the
   * one shown before. Later checks overwrite earlier ones; an input no check
   * touches keeps its message.
   */
  function ErrorAfterValidation(inputs: seq<Input>, k: nat, prev: Option<string>): Option<string>
    requires k < |inputs|
  {
    var v := inputs[k].value;
    var afterRequired :=
      if RequiredBlank(inputs[k]) then Some(REQUIRED_MESSAGE)
      else if inputs[k].required then None
      else prev;
    var afterEmail :=
      if FirstIndex(inputs, IsEmailInput) == Some(k) && EmailError(v).Some? then EmailError(v)
      else afterRequired;
    if FirstIndex(inputs, IsPasswordElement) == Some(k) && PasswordLengthError(v).Some? then PasswordLengthError(v)
    else afterEmail
  }

  /** A form: its inputs in document order and the message shown beside each. */
  class Form {
    const inputs: seq<Input>
    var errors: seq<Option<string>>

    ghost predicate Valid()
      reads this
    {
      |errors| == |inputs|
    }

    constructor (inputs: seq<Input>)
      ensures Valid() && this.inputs == inputs
      ensures forall k :: 0 <= k < |errors| ==> errors[k] == None
    {
      this.inputs := inputs;
      errors := seq(|inputs|, k => None);
    }

    /** The `blur` listener of an email input (static/script.js:32-38). */
    method OnEmailBlur(k: nat)
      requires Valid() && k < |inputs| && IsEmailInput(inputs[k])
      modifies this
      ensures Valid()
      ensures errors == old(errors)[k := EmailError(inputs[k].value)]
    {
      var v := inputs[k].value;
      if v != "" && !IsValidEmail(v) {
        errors := errors[k := Some(EMAIL_MESSAGE)];
      } else {
        errors := errors[k := None];
      }
    }

    /** The first `forEach`: clears the message of every required input. */
    method ClearRequiredErrors()
      requires Valid()
      modifies this
      ensures Valid()
      ensures forall j :: 0 <= j < |inputs| ==>
        errors[j] == if inputs[j].required then None else old(errors)[j]
    {
      for k := 0 to |inputs|
        invariant |errors| == |inputs|
        invariant forall j :: 0 <= j < |inputs| ==>
          errors[j] == if j < k && inputs[j].required then None else old(errors)[j]
      {
        if inputs[k].required {
          errors := errors[k := None];
        }
      }
    }

    /** The second `forEach`: flags every required input that trims to nothing. */
    method FlagBlankRequired() returns (allFilled: bool)
      requires Valid()
      modifies this
      ensures Valid()
      ensures allFilled <==> forall j :: 0 <= j < |inputs| ==> !RequiredBlank(inputs[j])
      ensures forall j :: 0 <= j < |inputs| ==>
        errors[j] == if RequiredBlank(inputs[j]) then Some(REQUIRED_MESSAGE) else old(errors)[j]
    {
      allFilled := true;
      for k := 0 to |inputs|
        invariant |errors| == |inputs|
        invariant forall j :: 0 <= j < |inputs| ==>
          errors[j] == if j < k && RequiredBlank(inputs[j]) then Some(REQUIRED_MESSAGE) else old(errors)[j]
        invariant allFilled <==> forall j :: 0 <= j < k ==> !RequiredBlank(inputs[j])
      {
        if RequiredBlank(inputs[k]) {
          errors := errors[k := Some(REQUIRED_MESSAGE)];
          allFilled := false;
        }
      }
    }

    /** The rule for the first email input (static/script.js:178-182). */
    method CheckFirstEmail() returns (ok: bool)
      requires Valid()
      modifies this
      ensures Valid()
      ensures ok <==> forall k :: 0 <= k < |inputs| && FirstIndex(inputs, IsEmailInput) == Some(k) ==>
                        inputs[k].value == "" || WellFormedEmail(inputs[k].value)
      ensures forall j :: 0 <= j < |inputs| ==>
        errors[j] == if FirstIndex(inputs, IsEmailInput) == Some(j) && EmailError(inputs[j].value).Some?
                     then EmailError(inputs[j].value) else old(errors)[j]
    {
      ok := true;
      var email := FirstIndex(inputs, IsEmailInput);
      if email.Some? {
        var v := inputs[email.value].value;
        EmailCharacterisation(v);
        if v != "" && !IsValidEmail(v) {
          errors := errors[email.value := Some(EMAIL_MESSAGE)];
          ok := false;
        }
      }
    }

    /** The length check of the `#password` element (static/script.js:185-194). */
    method CheckPasswordLength() returns (ok: bool)
      requires Valid()
      modifies this
      ensures Valid()
      ensures ok <==> forall k :: 0 <= k < |inputs| && FirstIndex(inputs, IsPasswordElement) == Some(k) ==>
                        CLIENT_MIN_PASSWORD <= |inputs[k].value| <= CLIENT_MAX_PASSWORD
      ensures forall j :: 0 <= j < |inputs| ==>
        errors[j] == if FirstIndex(inputs, IsPasswordElement) == Some(j) && PasswordLengthError(inputs[j].value).Some?
                     then PasswordLengthError(inputs[j].value) else old(errors)[j]
    {
      ok := true;
      var password := FirstIndex(inputs, IsPasswordElement);
      if password.Some? {
        var v := inputs[password.value].value;
        if |v| < CLIENT_MIN_PASSWORD {
          errors := errors[password.value := Some(TOO_SHORT_MESSAGE)];
          ok := false;
        } else if |v| > CLIENT_MAX_PASSWORD {
          errors := errors[password.value := Some(TOO_LONG_MESSAGE)];
          ok := false;
        }
      }
    }

    /** `validateForm` (static/script.js:162-197). */
    method ValidateForm() returns (isValid: bool)
      requires Valid()
      modifies this
      ensures Valid()
      ensures isValid == FormValid(inputs)
      ensures forall k :: 0 <= k < |inputs| ==> errors[k] == ErrorAfterValidation(inputs, k, old(errors)[k])
    {
      ClearRequiredErrors();
      isValid := FlagBlankRequired();
      var emailOk := CheckFirstEmail();
      if !emailOk {
        isValid := false;
      }
      var passwordOk := CheckPasswordLength();
      if !passwordOk {
        isValid := false;
      }
    }
  }

  /** A form that is refused shows at least one message after validation. */
  lemma RefusedFormShowsError(inputs: seq<Input>, prev: seq<Option<string>>)
    requires |prev| == |inputs|
    requires !FormValid(inputs)
    ensures exists k :: 0 <= k < |inputs| && ErrorAfterValidation(inputs, k, prev[k]).Some?
  {
    if k :| 0 <= k < |inputs| && RequiredBlank(inputs[k]) {
      assert ErrorAfterValidation(inputs, k, prev[k]).Some?;
    } else if k :| 0 <= k < |inputs| && FirstIndex(inputs, IsEmailInput) == Some(k) &&
                   !(inputs[k].value == "" || WellFormedEmail(inputs[k].value)) {
      EmailCharacterisation(inputs[k].value);
      assert ErrorAfterValidation(inputs, k, prev[k]).Some?;
    } else {
      var k :| 0 <= k < |inputs| && FirstIndex(inputs, IsPasswordElement) == Some(k) &&
               !(CLIENT_MIN_PASSWORD <= |inputs[k].value| <= CLIENT_MAX_PASSWORD);
      assert ErrorAfterValidation(inputs, k, prev[k]).Some?;
    }
  }

  /**
   * After a form passes, no required input shows a message, and no input shows
   * one it did not show before.
   */
  lemma AcceptedFormClearsRequired(inputs: seq<Input>, prev: seq<Option<string>>)
    requires |prev| == |inputs|
    requires FormValid(inputs)
    ensures forall k :: 0 <= k < |inputs| && inputs[k].required ==> ErrorAfterValidation(inputs, k, prev[k]) == None
    ensures forall k :: 0 <= k < |inputs| && !inputs[k].required ==> ErrorAfterValidation(inputs, k, prev[k]) == prev[k]
  {
    forall k | 0 <= k < |inputs|
      ensures FirstIndex(inputs, IsEmailInput) == Some(k) ==> EmailError(inputs[k].value).None?
    {
      EmailCharacterisation(inputs[k].value);
    }
  }
}
