/**
 * The stateful logic of the landing page: the e-mail shape check, the contact
 * form's validation on submit, per-field error clearing while typing, the check
 * when the e-mail field loses focus, and the single expanded experience entry.
 */
module ContactForm {
  import opened Basics
  import opened Text

  // ---------------------------------------------------------------------------
  // E-mail shape
  // ---------------------------------------------------------------------------

  /** The regex class `[^\s@]`. */
  predicate Plain(c: char) {
    !IsSpace(c) && c != '@'
  }

  predicate AllPlain(s: string) {
    forall k :: 0 <= k < |s| ==> Plain(s[k])
  }

  /**
   * `/^[^\s@]+@[^\s@]+\.[^\s@]+$/` matches `s` with its `@` at index `i` and the
   * separating `.` at index `j`.
   */
  predicate MatchesAt(s: string, i: int, j: int) {
    0 < i && i + 1 < j && j + 1 < |s| && s[i] == '@' && s[j] == '.' &&
    AllPlain(s[..i]) && AllPlain(s[i + 1..j]) && AllPlain(s[j + 1..])
  }

  /** `validateEmail`: the pattern matches for some choice of the `@` and the `.`. */
  predicate ValidateEmail(email: string) {
    exists i, j | 0 <= i < |email| && 0 <= j < |email| :: MatchesAt(email, i, j)
  }

  /** `s` is `local + "@" + host + "." + tld` with three non-empty parts free of white space and `@`. */
  ghost predicate IsEmailShape(s: string, local: string, host: string, tld: string) {
    s == local + "@" + host + "." + tld &&
    local != [] && host != [] && tld != [] &&
    AllPlain(local) && AllPlain(host) && AllPlain(tld)
  }

  /** A valid address is exactly a concatenation `local@host.tld` of three plain, non-empty parts. */
  lemma ValidateEmailIffShape(s: string)
    ensures ValidateEmail(s) <==> exists local, host, tld :: IsEmailShape(s, local, host, tld)
  {
    if ValidateEmail(s) {
      var i: int, j: int :| MatchesAt(s, i, j);
      assert MatchesAt(s, i, j);
      assert s == s[..i] + "@" + s[i + 1..j] + "." + s[j + 1..];
      assert IsEmailShape(s, s[..i], s[i + 1..j], s[j + 1..]);
    }
    if exists local, host, tld :: IsEmailShape(s, local, host, tld) {
      var local, host, tld :| IsEmailShape(s, local, host, tld);
      var i, j := |local|, |local| + 1 + |host|;
      assert s[..i] == local && s[i + 1..j] == host && s[j + 1..] == tld;
      assert MatchesAt(s, i, j);
    }
  }

  lemma PlainSlice(s: string, lo: int, hi: int)
    requires 0 <= lo <= hi <= |s|
    requires forall m :: lo <= m < hi ==> Plain(s[m])
    ensures AllPlain(s[lo..hi])
  {
    forall m | 0 <= m < hi - lo ensures Plain(s[lo..hi][m]) {
      assert s[lo..hi][m] == s[lo + m];
    }
  }

  /** `k` is the one and only position of `@` in `s`. */
  predicate OnlyAtSign(s: string, k: int) {
    0 <= k < |s| && s[k] == '@' && forall m :: 0 <= m < |s| && m != k ==> s[m] != '@'
  }

  /** The domain `d` has a `.` that is neither its first nor its last character. */
  predicate HasInnerDot(d: string) {
    exists j :: 0 < j < |d| - 1 && d[j] == '.'
  }

  /**
   * A valid address has no white space, exactly one `@`, not at the start, and a
   * domain after it with a `.` that is neither its first nor its last character;
   * and every string of that form is valid.
   */
  lemma ValidateEmailStructure(s: string)
    ensures ValidateEmail(s) <==>
      (forall m :: 0 <= m < |s| ==> !IsSpace(s[m])) &&
      exists k :: 0 < k && OnlyAtSign(s, k) && HasInnerDot(s[k + 1..])
  {
    if ValidateEmail(s) {
      var i: int, j: int :| MatchesAt(s, i, j);
      assert MatchesAt(s, i, j);
      forall m | 0 <= m < |s| ensures !IsSpace(s[m]) && (m != i ==> s[m] != '@') {
        if m < i {
          assert s[m] == s[..i][m];
        } else if i < m < j {
          assert s[m] == s[i + 1..j][m - i - 1];
        } else if j < m {
          assert s[m] == s[j + 1..][m - j - 1];
        }
      }
      assert OnlyAtSign(s, i);
      assert HasInnerDot(s[i + 1..]) by {
        assert s[i + 1..][j - i - 1] == s[j];
      }
    }
    if (forall m :: 0 <= m < |s| ==> !IsSpace(s[m])) && exists k :: 0 < k && OnlyAtSign(s, k) && HasInnerDot(s[k + 1..]) {
      var k :| 0 < k && OnlyAtSign(s, k) && HasInnerDot(s[k + 1..]);
      var d := s[k + 1..];
      var jj :| 0 < jj < |d| - 1 && d[jj] == '.';
      var j := k + 1 + jj;
      assert s[j] == d[jj];
      PlainSlice(s, 0, k);
      PlainSlice(s, k + 1, j);
      PlainSlice(s, j + 1, |s|);
      assert s[..k] == s[0..k] && s[j + 1..] == s[j + 1..|s|];
      assert MatchesAt(s, k, j);
    }
  }

  /** An address with white space at either end is rejected, so the untrimmed input must be exact. */
  lemma ValidateEmailRejectsSurroundingSpace(s: string)
    requires |s| > 0 && (IsSpace(s[0]) || IsSpace(s[|s| - 1]))
    ensures !ValidateEmail(s)
  {
    ValidateEmailStructure(s);
  }

  /** A valid address is never blank. */
  lemma ValidEmailNotBlank(s: string)
    requires ValidateEmail(s)
    ensures !Blank(s)
  {
    ValidateEmailStructure(s);
    BlankIff(s);
    assert !IsSpace(s[0]);
  }

  // ---------------------------------------------------------------------------
  // Form validation
  // ---------------------------------------------------------------------------

  datatype FormData = FormData(name: string, email: string, message: string)

  /** Error messages per field; `Some("")` is an error cleared while typing. */
  datatype FormErrors = FormErrors(name: Option<string>, email: Option<string>)

  const NoErrors: FormErrors := FormErrors(None, None)
  const EmptyForm: FormData := FormData("", "", "")

  const NameRequired: string := "Name is required"
  const EmailRequired: string := "Email is required"
  const InvalidEmail: string := "Please enter a valid email"

  /** The `errors` object `handleFormSubmit` builds from the form contents. */
  function SubmitErrors(data: FormData): FormErrors {
    FormErrors(
      if Blank(data.name) then Some(NameRequired) else None,
      if Blank(data.email) then Some(EmailRequired)
      else if !ValidateEmail(data.email) then Some(InvalidEmail)
      else None)
  }

  /**
   * The name error appears exactly for a blank name; "Email is required" exactly
   * for a blank address and "Please enter a valid email" exactly for a non-blank
   * one that fails the shape check; submission succeeds exactly for a non-blank
   * name and a valid address; the message is never looked at.
   */
  lemma SubmitErrorsSpec(data: FormData)
    ensures SubmitErrors(data).name == (if Blank(data.name) then Some(NameRequired) else None)
    ensures SubmitErrors(data).email == Some(EmailRequired) <==> Blank(data.email)
    ensures SubmitErrors(data).email == Some(InvalidEmail) <==> !Blank(data.email) && !ValidateEmail(data.email)
    ensures SubmitErrors(data).email.None? <==> ValidateEmail(data.email)
    ensures SubmitErrors(data) == NoErrors <==> !Blank(data.name) && ValidateEmail(data.email)
    ensures forall m :: SubmitErrors(data.(message := m)) == SubmitErrors(data)
  {
    if ValidateEmail(data.email) {
      ValidEmailNotBlank(data.email);
    }
  }

  /** The three inputs of the form. */
  datatype Field = Name | Email | Message

  function FieldValue(data: FormData, field: Field): string {
    match field
    case Name => data.name
    case Email => data.email
    case Message => data.message
  }

  /** `{ ...prev, [field]: value }` on the form contents. */
  function WithField(data: FormData, field: Field, value: string): (r: FormData)
    ensures forall g :: FieldValue(r, g) == if g == field then value else FieldValue(data, g)
  {
    match field
    case Name => data.(name := value)
    case Email => data.(email := value)
    case Message => data.(message := value)
  }

  /** `formErrors[field]`; the message field never has an error. */
  function ErrorOf(errors: FormErrors, field: Field): Option<string> {
    match field
    case Name => errors.name
    case Email => errors.email
    case Message => None
  }

  /** The error is truthy: present and non-empty. */
  predicate HasError(errors: FormErrors, field: Field) {
    ErrorOf(errors, field).Some? && ErrorOf(errors, field).value != ""
  }

  /** The errors after a change to `field`: its error, if truthy, becomes `""`; nothing else changes. */
  function ErrorsAfterInput(errors: FormErrors, field: Field): (r: FormErrors)
    ensures HasError(errors, field) ==> ErrorOf(r, field) == Some("")
    ensures !HasError(errors, field) ==> r == errors
    ensures forall g :: g != field ==> ErrorOf(r, g) == ErrorOf(errors, g)
  {
    if !HasError(errors, field) then errors
    else match field
      case Name => errors.(name := Some(""))
      case Email => errors.(email := Some(""))
  }

  /** The errors after the e-mail field loses focus holding `value`. */
  function ErrorsAfterEmailBlur(errors: FormErrors, value: string): (r: FormErrors)
    ensures r.name == errors.name
    ensures value != "" && !ValidateEmail(value) ==> r.email == Some(InvalidEmail)
    ensures value == "" || ValidateEmail(value) ==> r == errors
  {
    if value != "" && !ValidateEmail(value) then errors.(email := Some(InvalidEmail)) else errors
  }

  /** `toggleExperience`: at most one entry is open; clicking the open one closes it. */
  function ToggleExpanded(expanded: Option<int>, index: int): (r: Option<int>)
    ensures r == Some(index) <==> expanded != Some(index)
    ensures r == None <==> expanded == Some(index)
  {
    if expanded == Some(index) then None else Some(index)
  }

  /** Clicking the same entry twice restores the state when it was closed or was the open one. */
  lemma ToggleTwice(expanded: Option<int>, index: int)
    requires expanded == None || expanded == Some(index)
    ensures ToggleExpanded(ToggleExpanded(expanded, index), index) == expanded
  {
  }

  // ---------------------------------------------------------------------------
  // Page state
  // ---------------------------------------------------------------------------

  /** The page component's state: form contents, form errors and the expanded experience entry. */
  class IndexPage {
    var formData: FormData
    var formErrors: FormErrors
    var expandedExperience: Option<int>

    constructor()
      ensures formData == EmptyForm && formErrors == NoErrors && expandedExperience == None
    {
      formData, formErrors, expandedExperience := EmptyForm, NoErrors, None;
    }

    /**
     * `handleFormSubmit`: records the errors of the current contents; when there
     * are none the message is sent and all three fields are cleared.
     */
    method HandleFormSubmit() returns (sent: bool)
      modifies this
      ensures formErrors == SubmitErrors(old(formData))
      ensures sent <==> !Blank(old(formData).name) && ValidateEmail(old(formData).email)
      ensures formData == if sent then EmptyForm else old(formData)
      ensures expandedExperience == old(expandedExperience)
    {
      var errors := SubmitErrors(formData);
      SubmitErrorsSpec(formData);
      formErrors := errors;
      sent := errors == NoErrors;
      if sent {
        formData := EmptyForm;
      }
    }

    /** `handleInputChange`: sets one field and clears that field's error if it showed one. */
    method HandleInputChange(field: Field, value: string)
      modifies this
      ensures formData == WithField(old(formData), field, value)
      ensures formErrors == ErrorsAfterInput(old(formErrors), field)
      ensures expandedExperience == old(expandedExperience)
    {
      formData := WithField(formData, field, value);
      formErrors := ErrorsAfterInput(formErrors, field);
    }

    /** The e-mail input's `onBlur`: a non-empty invalid address sets the e-mail error. */
    method HandleEmailBlur()
      modifies this
      ensures formErrors == ErrorsAfterEmailBlur(old(formErrors), formData.email)
      ensures formErrors.name == old(formErrors.name)
      ensures formData == old(formData) && expandedExperience == old(expandedExperience)
    {
      formErrors := ErrorsAfterEmailBlur(formErrors, formData.email);
    }

    /** `toggleExperience` */
    method ToggleExperience(index: int)
      modifies this
      ensures expandedExperience == ToggleExpanded(old(expandedExperience), index)
      ensures expandedExperience == Some(index) <==> old(expandedExperience) != Some(index)
      ensures formData == old(formData) && formErrors == old(formErrors)
    {
      expandedExperience := ToggleExpanded(expandedExperience, index);
    }
  }
}
