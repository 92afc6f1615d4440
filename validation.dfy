/**
 * The client's employee validation schema as a table of per-field checks, one generic evaluator
 * for it, `validateField` and `validateEmployeeForm`.
 */
module Validation {
  import opened Wrappers
  import opened Text

  datatype Field = Name | Email | Position | Phone | Department

  const AllFields: seq<Field> := [Name, Email, Position, Phone, Department]

  /**
   * The schema library's own `email()` test. Its regular expression is not part of this
   * model, so every check that needs it receives it as a parameter.
   */
  type EmailSyntax = string -> bool

  datatype Rule =
    | Required
    | MinLength(min: nat)
    | MaxLength(max: nat)
    | LettersAndSpaces  // /^[a-zA-Z\s]+$/
    | EmailFormat
    | TenDigits         // /^\d{10}$/

  datatype Check = Check(rule: Rule, message: string)

  /** The schema, field by field, in the order the checks are declared. */
  function Schema(f: Field): seq<Check> {
    match f
    case Name => [
      Check(MinLength(2), "Name must be at least 2 characters"),
      Check(MaxLength(50), "Name must not exceed 50 characters"),
      Check(Required, "Name is required"),
      Check(LettersAndSpaces, "Name can only contain letters and spaces")]
    case Email => [
      Check(EmailFormat, "Please enter a valid email address"),
      Check(Required, "Email is required"),
      Check(MaxLength(100), "Email must not exceed 100 characters")]
    case Position => [
      Check(MinLength(2), "Position must be at least 2 characters"),
      Check(MaxLength(50), "Position must not exceed 50 characters"),
      Check(Required, "Position is required")]
    case Phone => [
      Check(TenDigits, "Phone number must be exactly 10 digits")]
    case Department => [
      Check(MinLength(2), "Department must be at least 2 characters"),
      Check(MaxLength(50), "Department must not exceed 50 characters")]
  }

  /** The `trim()` transform, applied before any check: null and undefined pass through. */
  function Trimmed(v: Option<string>): Option<string> {
    match v
    case None => None
    case Some(s) => Some(Trim(s))
  }

  predicate LettersAndSpacesOnly(s: string) {
    forall i :: 0 <= i < |s| ==> IsAsciiLetter(s[i]) || IsWhitespace(s[i])
  }

  /**
   * One check against an already trimmed value. Only `required` rejects a missing value
   * (null or undefined); the other checks skip it. The email check also skips ''.
   */
  predicate Passes(rule: Rule, v: Option<string>, emailSyntax: EmailSyntax) {
    match rule
    case Required => v.Some? && v.value != ""
    case MinLength(n) => v.None? || |v.value| >= n
    case MaxLength(n) => v.None? || |v.value| <= n
    case LettersAndSpaces => v.None? || (v.value != "" && LettersAndSpacesOnly(v.value))
    case EmailFormat => v.None? || v.value == "" || emailSyntax(v.value)
    case TenDigits => v.None? || (|v.value| == 10 && AllDigits(v.value))
  }

  /** Field `f` accepts `v`: every check of its schema passes on the trimmed value. */
  predicate FieldAccepts(f: Field, v: Option<string>, emailSyntax: EmailSyntax) {
    AllPass(Schema(f), Trimmed(v), emailSyntax)
  }

  predicate AllPass(checks: seq<Check>, v: Option<string>, emailSyntax: EmailSyntax) {
    forall i :: 0 <= i < |checks| ==> Passes(checks[i].rule, v, emailSyntax)
  }

  /** `message` is the message of a check of field `f` that `v` fails. */
  ghost predicate ReportsFailure(f: Field, v: Option<string>, emailSyntax: EmailSyntax, message: string) {
    exists c :: c in Schema(f) && !Passes(c.rule, Trimmed(v), emailSyntax) && c.message == message
  }

  /** The message of the first check in `checks` that `v` fails, or None when all pass. */
  function FirstFailure(checks: seq<Check>, v: Option<string>, emailSyntax: EmailSyntax): (r: Option<string>)
    ensures r.None? <==> AllPass(checks, v, emailSyntax)
    ensures r.Some? ==> exists c :: c in checks && !Passes(c.rule, v, emailSyntax) && c.message == r.value
  {
    if checks == [] then None
    else if !Passes(checks[0].rule, v, emailSyntax) then Some(checks[0].message)
    else FirstFailure(checks[1..], v, emailSyntax)
  }

  /**
   * `validateField`: null when `v` satisfies field `f`'s rules, else a message of one rule it
   * breaks. Only `f`'s own value is consulted.
   */
  function ValidateField(f: Field, v: Option<string>, emailSyntax: EmailSyntax): (r: Option<string>)
    ensures r.None? <==> FieldAccepts(f, v, emailSyntax)
    ensures r.Some? ==> ReportsFailure(f, v, emailSyntax, r.value)
  {
    FirstFailure(Schema(f), Trimmed(v), emailSyntax)
  }

  /** `name`: present, 2 to 50 characters after trimming, ASCII letters and whitespace only. */
  lemma NameRule(v: Option<string>, emailSyntax: EmailSyntax)
    ensures FieldAccepts(Name, v, emailSyntax) <==>
            v.Some? && 2 <= |Trim(v.value)| <= 50 && LettersAndSpacesOnly(Trim(v.value))
  {
    NameChecks(Trimmed(v), emailSyntax);
  }

  /** The checks of `name` on an already trimmed value. */
  lemma NameChecks(t: Option<string>, emailSyntax: EmailSyntax)
    ensures AllPass(Schema(Name), t, emailSyntax) <==>
            t.Some? && 2 <= |t.value| <= 50 && LettersAndSpacesOnly(t.value)
  {
    AllPassOfFour(Schema(Name), t, emailSyntax);
  }

  /** A schema of four checks passes exactly when each of the four does. */
  lemma AllPassOfFour(checks: seq<Check>, v: Option<string>, emailSyntax: EmailSyntax)
    requires |checks| == 4
    ensures AllPass(checks, v, emailSyntax) <==>
            && Passes(checks[0].rule, v, emailSyntax) && Passes(checks[1].rule, v, emailSyntax)
            && Passes(checks[2].rule, v, emailSyntax) && Passes(checks[3].rule, v, emailSyntax)
  {
    if Passes(checks[0].rule, v, emailSyntax) && Passes(checks[1].rule, v, emailSyntax)
      && Passes(checks[2].rule, v, emailSyntax) && Passes(checks[3].rule, v, emailSyntax)
    {
      forall i | 0 <= i < 4
        ensures Passes(checks[i].rule, v, emailSyntax)
      {
        assert i == 0 || i == 1 || i == 2 || i == 3;
      }
    }
  }

  /** A schema of three checks passes exactly when each of the three does. */
  lemma AllPassOfThree(checks: seq<Check>, v: Option<string>, emailSyntax: EmailSyntax)
    requires |checks| == 3
    ensures AllPass(checks, v, emailSyntax) <==>
            Passes(checks[0].rule, v, emailSyntax) && Passes(checks[1].rule, v, emailSyntax)
            && Passes(checks[2].rule, v, emailSyntax)
  {
    if Passes(checks[0].rule, v, emailSyntax) && Passes(checks[1].rule, v, emailSyntax)
      && Passes(checks[2].rule, v, emailSyntax)
    {
      forall i | 0 <= i < 3
        ensures Passes(checks[i].rule, v, emailSyntax)
      {
        assert i == 0 || i == 1 || i == 2;
      }
    }
  }

  /** A schema of two checks passes exactly when both do. */
  lemma AllPassOfTwo(checks: seq<Check>, v: Option<string>, emailSyntax: EmailSyntax)
    requires |checks| == 2
    ensures AllPass(checks, v, emailSyntax) <==>
            Passes(checks[0].rule, v, emailSyntax) && Passes(checks[1].rule, v, emailSyntax)
  {
    if Passes(checks[0].rule, v, emailSyntax) && Passes(checks[1].rule, v, emailSyntax) {
      forall i | 0 <= i < 2
        ensures Passes(checks[i].rule, v, emailSyntax)
      {
        assert i == 0 || i == 1;
      }
    }
  }

  /** `email`: present after trimming, of email syntax, and at most 100 characters. */
  lemma EmailRule(v: Option<string>, emailSyntax: EmailSyntax)
    ensures FieldAccepts(Email, v, emailSyntax) <==>
            v.Some? && Trim(v.value) != "" && emailSyntax(Trim(v.value)) && |Trim(v.value)| <= 100
  {
    EmailChecks(Trimmed(v), emailSyntax);
  }

  /** The checks of `email` on an already trimmed value. */
  lemma EmailChecks(t: Option<string>, emailSyntax: EmailSyntax)
    ensures AllPass(Schema(Email), t, emailSyntax) <==>
            t.Some? && t.value != "" && emailSyntax(t.value) && |t.value| <= 100
  {
    AllPassOfThree(Schema(Email), t, emailSyntax);
  }

  /** `position`: present, 2 to 50 characters after trimming. */
  lemma PositionRule(v: Option<string>, emailSyntax: EmailSyntax)
    ensures FieldAccepts(Position, v, emailSyntax) <==> v.Some? && 2 <= |Trim(v.value)| <= 50
  {
    PositionChecks(Trimmed(v), emailSyntax);
  }

  /** The checks of `position` on an already trimmed value. */
  lemma PositionChecks(t: Option<string>, emailSyntax: EmailSyntax)
    ensures AllPass(Schema(Position), t, emailSyntax) <==> t.Some? && 2 <= |t.value| <= 50
  {
    AllPassOfThree(Schema(Position), t, emailSyntax);
  }

  /** `phone`: null is accepted; a string must be exactly ten ASCII digits after trimming. */
  lemma PhoneRule(v: Option<string>, emailSyntax: EmailSyntax)
    ensures FieldAccepts(Phone, v, emailSyntax) <==>
            v.None? || (|Trim(v.value)| == 10 && AllDigits(Trim(v.value)))
  {
    PhoneChecks(Trimmed(v), emailSyntax);
  }

  /** The check of `phone` on an already trimmed value. */
  lemma PhoneChecks(t: Option<string>, emailSyntax: EmailSyntax)
    ensures AllPass(Schema(Phone), t, emailSyntax) <==> t.None? || (|t.value| == 10 && AllDigits(t.value))
  {
    assert AllPass(Schema(Phone), t, emailSyntax) <==> Passes(Schema(Phone)[0].rule, t, emailSyntax);
  }

  /** `department`: null is accepted; a string must have 2 to 50 characters after trimming. */
  lemma DepartmentRule(v: Option<string>, emailSyntax: EmailSyntax)
    ensures FieldAccepts(Department, v, emailSyntax) <==> v.None? || 2 <= |Trim(v.value)| <= 50
  {
    DepartmentChecks(Trimmed(v), emailSyntax);
  }

  /** The checks of `department` on an already trimmed value. */
  lemma DepartmentChecks(t: Option<string>, emailSyntax: EmailSyntax)
    ensures AllPass(Schema(Department), t, emailSyntax) <==> t.None? || 2 <= |t.value| <= 50
  {
    AllPassOfTwo(Schema(Department), t, emailSyntax);
  }

  /** The values of a form: a key that is absent reads as undefined. */
  type FormValues = map<Field, string>

  function ValueOf(data: FormValues, f: Field): Option<string> {
    if f in data then Some(data[f]) else None
  }

  /** The checks among `checks` that `v` fails, each tagged with its path `f`, in order. */
  function FailedChecks(f: Field, checks: seq<Check>, v: Option<string>, emailSyntax: EmailSyntax)
    : (r: seq<(Field, Check)>)
    ensures forall j :: 0 <= j < |r| ==> r[j].0 == f && r[j].1 in checks && !Passes(r[j].1.rule, v, emailSyntax)
    ensures r == [] <==> AllPass(checks, v, emailSyntax)
  {
    if checks == [] then []
    else
      var rest := FailedChecks(f, checks[1..], v, emailSyntax);
      assert AllPass(checks, v, emailSyntax) <==>
        Passes(checks[0].rule, v, emailSyntax) && AllPass(checks[1..], v, emailSyntax)
      by {
        assert forall i :: 1 <= i < |checks| ==> checks[i] == checks[1..][i - 1];
      }
      if Passes(checks[0].rule, v, emailSyntax) then rest else [(f, checks[0])] + rest
  }

  /**
   * Every failed check of every field in `fields`, field by field: the inner errors that
   * validation with `abortEarly: false` collects.
   */
  function Violations(fields: seq<Field>, data: FormValues, emailSyntax: EmailSyntax)
    : (r: seq<(Field, Check)>)
    ensures forall j :: 0 <= j < |r| ==>
              && r[j].0 in fields && r[j].1 in Schema(r[j].0)
              && !Passes(r[j].1.rule, Trimmed(ValueOf(data, r[j].0)), emailSyntax)
  {
    if fields == [] then []
    else
      var f := fields[0];
      FailedChecks(f, Schema(f), Trimmed(ValueOf(data, f)), emailSyntax) + Violations(fields[1..], data, emailSyntax)
  }

  /** Every field in `fields` that fails is the path of some inner error. */
  lemma {:induction false} ViolationsCover(fields: seq<Field>, data: FormValues, emailSyntax: EmailSyntax, f: Field)
    requires f in fields && !FieldAccepts(f, ValueOf(data, f), emailSyntax)
    ensures exists j :: 0 <= j < |Violations(fields, data, emailSyntax)| && Violations(fields, data, emailSyntax)[j].0 == f
  {
    var here := FailedChecks(fields[0], Schema(fields[0]), Trimmed(ValueOf(data, fields[0])), emailSyntax);
    var rest := Violations(fields[1..], data, emailSyntax);
    assert Violations(fields, data, emailSyntax) == here + rest;
    if fields[0] == f {
      assert here != [] && (here + rest)[0] == here[0];
    } else {
      ViolationsCover(fields[1..], data, emailSyntax, f);
      var j :| 0 <= j < |rest| && rest[j].0 == f;
      assert (here + rest)[|here| + j] == rest[j];
    }
  }

  /** A field is the path of an inner error exactly when `validateField` reports it. */
  lemma InnerErrorPaths(data: FormValues, emailSyntax: EmailSyntax, f: Field)
    ensures (exists j :: 0 <= j < |Violations(AllFields, data, emailSyntax)| &&
                         Violations(AllFields, data, emailSyntax)[j].0 == f)
            <==> ValidateField(f, ValueOf(data, f), emailSyntax).Some?
  {
    if !FieldAccepts(f, ValueOf(data, f), emailSyntax) {
      assert f in AllFields;
      ViolationsCover(AllFields, data, emailSyntax, f);
    }
  }

  /** Each inner error carries the message of a check its field fails. */
  lemma InnerErrorReports(data: FormValues, emailSyntax: EmailSyntax, j: nat)
    requires j < |Violations(AllFields, data, emailSyntax)|
    ensures var e := Violations(AllFields, data, emailSyntax)[j];
            ReportsFailure(e.0, ValueOf(data, e.0), emailSyntax, e.1.message)
  {
  }

  /** Runs the whole schema and returns its inner errors as `(path, message)` pairs. */
  method InnerErrors(data: FormValues, emailSyntax: EmailSyntax) returns (inner: seq<(Field, string)>)
    ensures forall f :: (exists j :: 0 <= j < |inner| && inner[j].0 == f) <==>
                        ValidateField(f, ValueOf(data, f), emailSyntax).Some?
    ensures forall j :: 0 <= j < |inner| ==>
              ReportsFailure(inner[j].0, ValueOf(data, inner[j].0), emailSyntax, inner[j].1)
  {
    var failed := Violations(AllFields, data, emailSyntax);
    inner := seq(|failed|, j requires 0 <= j < |failed| => (failed[j].0, failed[j].1.message));
    forall f
      ensures (exists j :: 0 <= j < |inner| && inner[j].0 == f) <==>
              ValidateField(f, ValueOf(data, f), emailSyntax).Some?
    {
      InnerErrorPaths(data, emailSyntax, f);
      if j :| 0 <= j < |failed| && failed[j].0 == f {
        assert inner[j].0 == f;
      }
      if j :| 0 <= j < |inner| && inner[j].0 == f {
        assert failed[j].0 == f;
      }
    }
    forall j | 0 <= j < |inner|
      ensures ReportsFailure(inner[j].0, ValueOf(data, inner[j].0), emailSyntax, inner[j].1)
    {
      InnerErrorReports(data, emailSyntax, j);
      assert inner[j] == (failed[j].0, failed[j].1.message);
    }
  }

  /**
   * The `forEach` over the inner errors: `errors[path] = message` for each in turn, so every
   * path gets an entry and a path that occurs several times keeps its last message.
   */
  method CollectErrors(inner: seq<(Field, string)>) returns (errors: map<Field, string>)
    ensures forall f :: f in errors <==> exists j :: 0 <= j < |inner| && inner[j].0 == f
    ensures forall f :: f in errors ==> exists j :: 0 <= j < |inner| && inner[j] == (f, errors[f])
    ensures forall j :: 0 <= j < |inner| && (forall k :: j < k < |inner| ==> inner[k].0 != inner[j].0) ==>
              errors[inner[j].0] == inner[j].1
  {
    errors := map[];
    for i := 0 to |inner|
      invariant forall j :: 0 <= j < i ==> inner[j].0 in errors
      invariant forall f :: f in errors ==> exists j :: 0 <= j < i && inner[j] == (f, errors[f])
      invariant forall j :: 0 <= j < i && (forall k :: j < k < i ==> inner[k].0 != inner[j].0) ==>
                  errors[inner[j].0] == inner[j].1
    {
      errors := errors[inner[i].0 := inner[i].1];
    }
  }

  datatype FormValidation = FormValidation(isValid: bool, errors: map<Field, string>)

  /**
   * `validateEmployeeForm`: valid with no errors when every field passes; otherwise invalid,
   * with one entry for every failing field (holding one of its failure messages) and no other.
   */
  method ValidateEmployeeForm(data: FormValues, emailSyntax: EmailSyntax) returns (result: FormValidation)
    ensures result.isValid <==> result.errors == map[]
    ensures result.isValid <==> forall f :: ValidateField(f, ValueOf(data, f), emailSyntax).None?
    ensures forall f :: f in result.errors <==> ValidateField(f, ValueOf(data, f), emailSyntax).Some?
    ensures forall f :: f in result.errors ==> ReportsFailure(f, ValueOf(data, f), emailSyntax, result.errors[f])
  {
    var inner := InnerErrors(data, emailSyntax);
    if inner == [] {
      return FormValidation(true, map[]);
    }
    var errors := CollectErrors(inner);
    assert inner[0].0 in errors;
    forall f | f in errors
      ensures ReportsFailure(f, ValueOf(data, f), emailSyntax, errors[f])
    {
      var j :| 0 <= j < |inner| && inner[j] == (f, errors[f]);
    }
    return FormValidation(false, errors);
  }
}
