/**
 * The state of the add/edit form: `formData`, `errors`, `touched` and `isSubmitting`, and the
 * handlers that update them. Each handler is one atomic step; the create/update request is a
 * parameter carrying its outcome, and the step returns which request it sent.
 */
module EmployeeFormPage {
  import opened Wrappers
  import opened Text
  import opened Validation
  import opened UseEmployees
  import Seqs

  /** `handleChange`'s sanitising: a phone value keeps only its digits, any other value is kept verbatim. */
  function Sanitize(f: Field, value: string): (r: string)
    ensures f == Phone ==> AllDigits(r) && |r| <= |value|
    ensures f != Phone ==> r == value
  {
    if f == Phone then KeepDigits(value) else value
  }

  /**
   * A sanitised phone number is the input's digits: in their order, each as often as in the
   * input, and nothing else. Sanitising it again changes nothing.
   */
  lemma SanitizedPhoneIsItsDigits(value: string, c: char)
    ensures Seqs.IsSubsequence(Sanitize(Phone, value), value)
    ensures multiset(Sanitize(Phone, value))[c] == if IsDigit(c) then multiset(value)[c] else 0
    ensures Sanitize(Phone, Sanitize(Phone, value)) == Sanitize(Phone, value)
  {
    Seqs.SelectIsSubsequence(value, IsDigit);
    Seqs.SelectCount(value, IsDigit, c);
    KeepDigitsFixesDigits(value);
  }

  /** The request a valid submission sends. */
  datatype Call = CreateCall(data: FormValues) | UpdateCall(id: string, data: FormValues)

  datatype Submission = NotSent | Sent(call: Call)

  /** `err.message.includes('email') && err.message.includes('exists')`. */
  predicate ReportsTakenEmail(message: string) {
    Contains(message, "email") && Contains(message, "exists")
  }

  const EmailTakenMessage: string := "This email is already registered"

  /** The `formData` object `{name, email, position, phone, department}`. */
  function FormOf(name: string, email: string, position: string, phone: string, department: string): (data: FormValues)
    ensures Complete(data)
    ensures data[Name] == name && data[Email] == email && data[Position] == position
    ensures data[Phone] == phone && data[Department] == department
  {
    var data := map[Name := name, Email := email, Position := position, Phone := phone, Department := department];
    assert forall f :: f in data by {
      forall f: Field
        ensures f in data
      {
        AllFieldsListed(f);
      }
    }
    data
  }

  /** The initial `formData`: the five fields, all ''. */
  function EmptyForm(): (data: FormValues)
    ensures Complete(data)
    ensures forall f :: f in data ==> data[f] == ""
  {
    FormOf("", "", "", "", "")
  }

  /** `formData` always holds all five keys. */
  predicate Complete(data: FormValues) {
    forall f :: f in data
  }

  /** Every form field passes its rules. */
  ghost predicate FormAccepts(data: FormValues, emailSyntax: EmailSyntax) {
    forall f :: ValidateField(f, ValueOf(data, f), emailSyntax).None?
  }

  /** `errors[f]` as the page reads it: an absent key shows no error, like null. */
  function ErrorOf(errors: map<Field, Option<string>>, f: Field): Option<string> {
    if f in errors then errors[f] else None
  }

  /** `touched[f]` as the page reads it: an absent key is falsy. */
  predicate IsTouched(touched: map<Field, bool>, f: Field) {
    f in touched && touched[f]
  }

  /** The edit-mode populate step's copy of one field: `employee.x || ''`. */
  function Populated(v: Option<string>): (r: string)
    ensures Truthy(v) ==> r == v.value
    ensures !Truthy(v) ==> r == ""
  {
    v.GetOr("")
  }

  lemma AllFieldsListed(f: Field)
    ensures f in AllFields
  {
  }

  lemma CompleteHasAll(data: FormValues, f: Field)
    requires Complete(data)
    ensures f in data
  {
  }

  /** A per-field validation: the error message for a value, or None when it passes. */
  type Verdict = (Field, Option<string>) -> Option<string>

  /** `validateField` under the given email-syntax test. */
  function FieldVerdict(emailSyntax: EmailSyntax): Verdict {
    (f, v) => ValidateField(f, v, emailSyntax)
  }

  /** Every touched field shows an error exactly when `verdict` rejects its value in `data`. */
  ghost predicate ErrorsMatch(errors: map<Field, Option<string>>, touched: map<Field, bool>,
                              data: FormValues, verdict: Verdict) {
    forall f :: IsTouched(touched, f) ==>
      (ErrorOf(errors, f).Some? <==> verdict(f, ValueOf(data, f)).Some?)
  }

  /** Re-validating a field as its value changes keeps the errors in step with the values. */
  lemma RecheckKeepsMatch(errors: map<Field, Option<string>>, touched: map<Field, bool>,
                          data: FormValues, verdict: Verdict, f: Field, v: string)
    requires ErrorsMatch(errors, touched, data, verdict)
    ensures ErrorsMatch(errors[f := verdict(f, Some(v))], touched, data[f := v], verdict)
  {
    var errors' := errors[f := verdict(f, Some(v))];
    var data' := data[f := v];
    forall g | IsTouched(touched, g)
      ensures ErrorOf(errors', g).Some? <==> verdict(g, ValueOf(data', g)).Some?
    {
      if g != f {
        assert ErrorOf(errors', g) == ErrorOf(errors, g);
        assert ValueOf(data', g) == ValueOf(data, g);
      }
    }
  }

  /** Changing an untouched field's value leaves the other fields' errors in step. */
  lemma UntouchedChangeKeepsMatch(errors: map<Field, Option<string>>, touched: map<Field, bool>,
                                  data: FormValues, verdict: Verdict, f: Field, v: string)
    requires ErrorsMatch(errors, touched, data, verdict) && !IsTouched(touched, f)
    ensures ErrorsMatch(errors, touched, data[f := v], verdict)
  {
    forall g | IsTouched(touched, g)
      ensures ErrorOf(errors, g).Some? <==> verdict(g, ValueOf(data[f := v], g)).Some?
    {
      assert ValueOf(data[f := v], g) == ValueOf(data, g);
    }
  }

  /** Touching a field and validating its current value keeps the errors in step. */
  lemma BlurKeepsMatch(errors: map<Field, Option<string>>, touched: map<Field, bool>,
                       data: FormValues, verdict: Verdict, f: Field)
    requires ErrorsMatch(errors, touched, data, verdict) && f in data
    ensures ErrorsMatch(errors[f := verdict(f, Some(data[f]))], touched[f := true], data, verdict)
  {
    var errors' := errors[f := verdict(f, Some(data[f]))];
    forall g | IsTouched(touched[f := true], g)
      ensures ErrorOf(errors', g).Some? <==> verdict(g, ValueOf(data, g)).Some?
    {
      if g != f {
        assert ErrorOf(errors', g) == ErrorOf(errors, g);
      }
    }
  }

  /** Error entries present exactly for the failing fields, each with a message, are in step with the values. */
  lemma ShownErrorsMatch(shown: map<Field, Option<string>>, touched: map<Field, bool>,
                         data: FormValues, verdict: Verdict)
    requires forall f :: f in shown <==> verdict(f, ValueOf(data, f)).Some?
    requires forall f :: f in shown ==> shown[f].Some?
    ensures ErrorsMatch(shown, touched, data, verdict)
  {
  }

  /**
   * When every field passes and only touched fields carry entries, the entries in step with
   * the values show no error, so touching more fields keeps them in step.
   */
  lemma AcceptedKeepsMatch(errors: map<Field, Option<string>>, touched: map<Field, bool>,
                           touched': map<Field, bool>, data: FormValues, verdict: Verdict)
    requires ErrorsMatch(errors, touched, data, verdict)
    requires forall f :: f in errors ==> IsTouched(touched, f)
    requires forall f :: verdict(f, ValueOf(data, f)).None?
    ensures ErrorsMatch(errors, touched', data, verdict)
  {
    forall g | IsTouched(touched', g)
      ensures ErrorOf(errors, g).Some? <==> verdict(g, ValueOf(data, g)).Some?
    {
      assert verdict(g, ValueOf(data, g)).None?;
      if g in errors {
        assert IsTouched(touched, g);
      }
    }
  }

  /**
   * `errors` is what a failed whole-form validation of `data` stores: an entry exactly for each
   * field whose value fails its rules, carrying a message one of that field's failing checks gives.
   */
  ghost predicate ReportsErrors(errors: map<Field, Option<string>>, data: FormValues, emailSyntax: EmailSyntax) {
    && (forall f :: f in errors <==> ValidateField(f, ValueOf(data, f), emailSyntax).Some?)
    && (forall f :: f in errors ==>
          errors[f].Some? && ReportsFailure(f, ValueOf(data, f), emailSyntax, errors[f].value))
  }

  /** The errors a failed submission stores are in step with the values for every touched field. */
  lemma ReportedErrorsAreCurrent(errors: map<Field, Option<string>>, touched: map<Field, bool>,
                                 data: FormValues, emailSyntax: EmailSyntax)
    requires ReportsErrors(errors, data, emailSyntax)
    ensures ErrorsMatch(errors, touched, data, FieldVerdict(emailSyntax))
  {
    var verdict := FieldVerdict(emailSyntax);
    assert forall f :: verdict(f, ValueOf(data, f)) == ValidateField(f, ValueOf(data, f), emailSyntax);
    ShownErrorsMatch(errors, touched, data, verdict);
  }

  /**
   * The optional fields are tested when they hold '': the phone pattern and the department's
   * minimum length both reject it, so a form that leaves either of them empty, as the initial
   * form does, is never accepted.
   */
  lemma EmptyOptionalFieldBlocksSubmit(data: FormValues, emailSyntax: EmailSyntax)
    requires (Phone in data && data[Phone] == "") || (Department in data && data[Department] == "")
    ensures !FormAccepts(data, emailSyntax)
  {
    assert Trimmed(Some("")) == Some("") by {
      assert |Trim("")| <= 0;
    }
    if Phone in data && data[Phone] == "" {
      PhoneChecks(Some(""), emailSyntax);
      assert !FieldAccepts(Phone, ValueOf(data, Phone), emailSyntax);
      assert ValidateField(Phone, ValueOf(data, Phone), emailSyntax).Some?;
    } else {
      DepartmentChecks(Some(""), emailSyntax);
      assert !FieldAccepts(Department, ValueOf(data, Department), emailSyntax);
      assert ValidateField(Department, ValueOf(data, Department), emailSyntax).Some?;
    }
  }

  /** An accepted form draws no error from the per-field verdict on any field. */
  lemma AcceptsAllFields(data: FormValues, emailSyntax: EmailSyntax)
    requires FormAccepts(data, emailSyntax)
    ensures forall f :: FieldVerdict(emailSyntax)(f, ValueOf(data, f)).None?
  {
    forall f
      ensures FieldVerdict(emailSyntax)(f, ValueOf(data, f)).None?
    {
      assert FieldVerdict(emailSyntax)(f, ValueOf(data, f)) == ValidateField(f, ValueOf(data, f), emailSyntax);
    }
  }

  /** `validateEmployeeForm(data)`, with its errors as `setErrors` stores them. */
  method CheckForm(data: FormValues, emailSyntax: EmailSyntax) returns (accepted: bool, shown: map<Field, Option<string>>)
    ensures accepted <==> FormAccepts(data, emailSyntax)
    ensures ReportsErrors(shown, data, emailSyntax)
  {
    var validation := ValidateEmployeeForm(data, emailSyntax);
    accepted := validation.isValid;
    shown := map f | f in validation.errors :: Some(validation.errors[f]);
  }

  class FormController {
    /** The route parameter: present when editing. */
    const routeId: Option<string>
    /** The email-syntax test the validation schema applies. */
    const emailSyntax: EmailSyntax
    var formData: FormValues
    var errors: map<Field, Option<string>>
    var touched: map<Field, bool>
    var isSubmitting: bool

    /** Between steps: every key is present, no request is in flight, and only touched fields carry an error entry. */
    ghost predicate Valid()
      reads this
    {
      && Complete(formData)
      && !isSubmitting
      && (forall f :: f in errors ==> IsTouched(touched, f))
    }

    /** Every touched field shows an error exactly when its current value fails its rules. */
    ghost predicate ErrorsCurrent()
      reads this
    {
      ErrorsMatch(errors, touched, formData, FieldVerdict(emailSyntax))
    }

    constructor (routeId: Option<string>, emailSyntax: EmailSyntax)
      ensures Valid() && ErrorsCurrent()
      ensures this.routeId == routeId && this.emailSyntax == emailSyntax
      ensures formData == EmptyForm() && errors == map[] && touched == map[]
    {
      this.routeId := routeId;
      this.emailSyntax := emailSyntax;
      formData := EmptyForm();
      errors := map[];
      touched := map[];
      isSubmitting := false;
    }

    /** The populate effect: a fetched employee's five fields replace `formData`, falsy ones as ''. */
    method Populate(employee: Doc)
      requires Valid()
      modifies this
      ensures Valid()
      ensures unchanged(this`errors) && unchanged(this`touched)
      ensures employee.Absent? ==> unchanged(this`formData)
      ensures employee.Obj? ==>
                var e := employee.record;
                formData == FormOf(Populated(e.name), Populated(e.email), Populated(e.position),
                                   Populated(e.phone), Populated(e.department))
    {
      if employee.Obj? {
        var e := employee.record;
        formData := FormOf(Populated(e.name), Populated(e.email), Populated(e.position),
                           Populated(e.phone), Populated(e.department));
      }
    }

    /** `handleChange` for field `f` and input `value`. */
    method HandleChange(f: Field, value: string)
      requires Valid()
      modifies this
      ensures Valid()
      ensures formData == old(formData)[f := Sanitize(f, value)]
      ensures IsTouched(touched, f) ==>
                errors == old(errors)[f := ValidateField(f, Some(Sanitize(f, value)), emailSyntax)]
      ensures !IsTouched(touched, f) ==> unchanged(this`errors)
      ensures unchanged(this`touched)
      ensures old(ErrorsCurrent()) ==> ErrorsCurrent()
    {
      var sanitized := Sanitize(f, value);
      if ErrorsCurrent() {
        if IsTouched(touched, f) {
          RecheckKeepsMatch(errors, touched, formData, FieldVerdict(emailSyntax), f, sanitized);
        } else {
          UntouchedChangeKeepsMatch(errors, touched, formData, FieldVerdict(emailSyntax), f, sanitized);
        }
      }
      formData := formData[f := sanitized];
      if IsTouched(touched, f) {
        var error := ValidateField(f, Some(sanitized), emailSyntax);
        errors := errors[f := error];
      }
    }

    /** `handleBlur` for field `f`; the input is controlled, so its value is `formData[f]`. */
    method HandleBlur(f: Field)
      requires Valid()
      modifies this
      ensures Valid()
      ensures touched == old(touched)[f := true]
      ensures errors == old(errors)[f := ValidateField(f, Some(formData[f]), emailSyntax)]
      ensures unchanged(this`formData)
      ensures old(ErrorsCurrent()) ==> ErrorsCurrent()
    {
      if ErrorsCurrent() {
        BlurKeepsMatch(errors, touched, formData, FieldVerdict(emailSyntax), f);
      }
      touched := touched[f := true];
      var error := ValidateField(f, Some(formData[f]), emailSyntax);
      errors := errors[f := error];
    }

    /** The `reduce` over `Object.keys(formData)` that marks every key touched. */
    method AllTouched() returns (acc: map<Field, bool>)
      requires Valid()
      ensures forall f :: f in acc <==> f in formData
      ensures forall f :: IsTouched(acc, f)
    {
      acc := map[];
      var keys := AllFields;
      for i := 0 to |keys|
        invariant forall j :: 0 <= j < i ==> keys[j] in acc
        invariant forall f :: f in acc ==> acc[f]
      {
        acc := acc[keys[i] := true];
      }
      forall f: Field
        ensures f in acc && f in formData
      {
        AllFieldsListed(f);
        CompleteHasAll(formData, f);
      }
    }

    /** `handleSubmit`'s first step: every field becomes touched. */
    method TouchAll()
      requires Valid()
      modifies this
      ensures Valid() && unchanged(this`formData) && unchanged(this`errors)
      ensures forall f :: IsTouched(touched, f)
    {
      var allTouched := AllTouched();
      touched := allTouched;
    }

    /** `setErrors(validationErrors)` after a failed whole-form validation, with every field touched. */
    method ShowErrors(shown: map<Field, Option<string>>)
      requires Valid() && forall f :: IsTouched(touched, f)
      modifies this
      ensures Valid() && unchanged(this`formData) && unchanged(this`touched)
      ensures errors == shown
    {
      errors := shown;
    }

    /** `handleSubmit` up to the request: mark every field touched and validate the whole form. */
    method CheckSubmission() returns (accepted: bool)
      requires Valid()
      modifies this
      ensures Valid() && unchanged(this`formData)
      ensures forall f :: IsTouched(touched, f)
      ensures accepted <==> FormAccepts(formData, emailSyntax)
      ensures !accepted ==> ReportsErrors(errors, formData, emailSyntax)
      ensures accepted ==> unchanged(this`errors)
      ensures !accepted ==> ErrorsCurrent()
      ensures accepted && old(ErrorsCurrent()) ==> ErrorsCurrent()
    {
      ghost var wasCurrent, oldTouched := ErrorsCurrent(), touched;
      TouchAll();
      var shown;
      accepted, shown := CheckForm(formData, emailSyntax);
      if !accepted {
        ShowErrors(shown);
        ReportedErrorsAreCurrent(errors, touched, formData, emailSyntax);
      } else if wasCurrent {
        AcceptsAllFields(formData, emailSyntax);
        AcceptedKeepsMatch(errors, oldTouched, touched, formData, FieldVerdict(emailSyntax));
      }
    }

    /** `handleSubmit` from the request on: send it, then record a taken email. */
    method SendSubmission(outcome: Outcome) returns (sub: Submission)
      requires Valid() && forall f :: IsTouched(touched, f)
      modifies this
      ensures Valid() && unchanged(this`formData) && unchanged(this`touched)
      ensures sub == Sent(if Truthy(routeId) then UpdateCall(routeId.value, formData) else CreateCall(formData))
      ensures outcome.Failed? && ReportsTakenEmail(outcome.message) ==>
                errors == old(errors)[Email := Some(EmailTakenMessage)]
      ensures !(outcome.Failed? && ReportsTakenEmail(outcome.message)) ==> unchanged(this`errors)
    {
      isSubmitting := true;
      if Truthy(routeId) {
        sub := Sent(UpdateCall(routeId.value, formData));
      } else {
        sub := Sent(CreateCall(formData));
      }
      if outcome.Failed? && ReportsTakenEmail(outcome.message) {
        errors := errors[Email := Some(EmailTakenMessage)];
      }
      isSubmitting := false;
    }

    /**
     * `handleSubmit`: every field becomes touched; an invalid form replaces `errors` with the
     * validation errors and sends nothing; a valid one sends an update when editing and a
     * create otherwise, and a failure reporting a taken email sets only the email error.
     */
    method HandleSubmit(outcome: Outcome) returns (sub: Submission, ghost accepted: bool)
      requires Valid()
      modifies this
      ensures Valid() && unchanged(this`formData)
      ensures forall f :: IsTouched(touched, f)
      ensures accepted <==> FormAccepts(formData, emailSyntax)
      ensures !accepted ==> sub == NotSent && ReportsErrors(errors, formData, emailSyntax)
      ensures accepted ==>
                sub == Sent(if Truthy(routeId) then UpdateCall(routeId.value, formData) else CreateCall(formData))
      ensures accepted && outcome.Failed? && ReportsTakenEmail(outcome.message) ==>
                errors == old(errors)[Email := Some(EmailTakenMessage)]
      ensures accepted && !(outcome.Failed? && ReportsTakenEmail(outcome.message)) ==> unchanged(this`errors)
      ensures !accepted ==> ErrorsCurrent()
      ensures accepted && !(outcome.Failed? && ReportsTakenEmail(outcome.message)) && old(ErrorsCurrent()) ==>
                ErrorsCurrent()
    {
      var valid := CheckSubmission();
      accepted := valid;
      if !valid {
        return NotSent, accepted;
      }
      sub := SendSubmission(outcome);
    }
  }
}
