/** The zod schema `requiredBody` of the signup handler (routes/user.js) and
    its `safeParse`: which issues a request body produces. */
module SignupSchema {
  import opened Common
  import opened Text

  /** Bounds of every `z.string().min(3).max(100)` in the schema. */
  const MinLength: nat := 3
  const MaxLength: nat := 100

  /** The custom messages of the three password refinements. */
  const UpperMessage := "Must include an uppercase letter"
  const LowerMessage := "Must include a lowercase letter"
  const SpecialMessage := "Must include a special character"

  datatype Field = Email | Password | FirstName | LastName

  /** The kinds of zod issue the schema can raise. */
  datatype Check =
    | InvalidType                 // the field is absent
    | TooSmall(minimum: nat)      // `min(3)` failed
    | TooBig(maximum: nat)        // `max(100)` failed
    | InvalidEmail                // `email()` failed
    | Refinement(message: string) // a password `refine` failed

  datatype Issue = Issue(path: Field, check: Check)

  /** The four properties of `req.body` the schema reads; `None` is a value
      that is absent (other non-string values are not modelled). */
  datatype SignupBody = SignupBody(
    email: Option<string>,
    password: Option<string>,
    firstName: Option<string>,
    lastName: Option<string>)

  function FieldValue(body: SignupBody, f: Field): Option<string>
  {
    match f
    case Email => body.email
    case Password => body.password
    case FirstName => body.firstName
    case LastName => body.lastName
  }

  // ---------------------------------------------------------------------------
  // Reference definition: what each check demands, stated check by check.

  predicate LengthOk(s: string) { MinLength <= Utf16Length(s) <= MaxLength }

  /** The value `v` of field `f` passes every check the schema puts on `f`. */
  predicate FieldOk(f: Field, v: Option<string>, isEmail: string -> bool)
  {
    && v.Some? && LengthOk(v.value)
    && (f == Email ==> isEmail(v.value))
    && (f == Password ==> HasUpper(v.value) && HasLower(v.value) && HasSpecial(v.value))
  }

  /** The body passes the schema. */
  predicate Valid(body: SignupBody, isEmail: string -> bool)
  {
    && FieldOk(Email, body.email, isEmail)
    && FieldOk(Password, body.password, isEmail)
    && FieldOk(FirstName, body.firstName, isEmail)
    && FieldOk(LastName, body.lastName, isEmail)
  }

  /** The value `v` of field `f` fails check `c`. */
  predicate CheckFails(f: Field, v: Option<string>, isEmail: string -> bool, c: Check)
  {
    match c
    case InvalidType => v.None?
    case TooSmall(n) => n == MinLength && v.Some? && Utf16Length(v.value) < MinLength
    case TooBig(n) => n == MaxLength && v.Some? && Utf16Length(v.value) > MaxLength
    case InvalidEmail => f == Email && v.Some? && !isEmail(v.value)
    case Refinement(m) =>
      && f == Password && v.Some?
      && ((m == UpperMessage && !HasUpper(v.value))
          || (m == LowerMessage && !HasLower(v.value))
          || (m == SpecialMessage && !HasSpecial(v.value)))
  }

  /** `issue` names a check that the body actually fails. */
  predicate Fails(body: SignupBody, isEmail: string -> bool, issue: Issue)
  {
    CheckFails(issue.path, FieldValue(body, issue.path), isEmail, issue.check)
  }

  // ---------------------------------------------------------------------------
  // The parser. Checks on a string are continuable, so every failing check of
  // a present field is reported; a missing field reports only its type.

  function LengthIssues(f: Field, s: string): seq<Issue>
  {
    (if Utf16Length(s) < MinLength then [Issue(f, TooSmall(MinLength))] else [])
    + (if Utf16Length(s) > MaxLength then [Issue(f, TooBig(MaxLength))] else [])
  }

  function RefinementIssues(s: string): seq<Issue>
  {
    (if HasUpper(s) then [] else [Issue(Password, Refinement(UpperMessage))])
    + (if HasLower(s) then [] else [Issue(Password, Refinement(LowerMessage))])
    + (if HasSpecial(s) then [] else [Issue(Password, Refinement(SpecialMessage))])
  }

  /** The issues zod reports for one field of the schema: exactly the checks
      the field's value fails, and none when it passes them all. */
  function FieldIssues(f: Field, v: Option<string>, isEmail: string -> bool): (issues: seq<Issue>)
    ensures forall k :: 0 <= k < |issues| ==>
      issues[k].path == f && CheckFails(f, v, isEmail, issues[k].check)
    ensures forall c :: CheckFails(f, v, isEmail, c) ==> Issue(f, c) in issues
    ensures issues == [] <==> FieldOk(f, v, isEmail)
  {
    match v
    case None => [Issue(f, InvalidType)]
    case Some(s) =>
      LengthIssues(f, s)
      + (if f == Email && !isEmail(s) then [Issue(Email, InvalidEmail)] else [])
      + (if f == Password then RefinementIssues(s) else [])
  }

  /** `requiredBody.safeParse(req.body)`: the issues found, none on success.
      Every reported issue is a check the body fails, every failed check is
      reported, and the body parses exactly when it is `Valid`. */
  function Validate(body: SignupBody, isEmail: string -> bool): (issues: seq<Issue>)
    ensures forall k :: 0 <= k < |issues| ==> Fails(body, isEmail, issues[k])
    ensures forall issue :: Fails(body, isEmail, issue) ==> issue in issues
    ensures issues == [] <==> Valid(body, isEmail)
  {
    var e := FieldIssues(Email, body.email, isEmail);
    var p := FieldIssues(Password, body.password, isEmail);
    var a := FieldIssues(FirstName, body.firstName, isEmail);
    var b := FieldIssues(LastName, body.lastName, isEmail);
    ConcatenatedIssues(body, isEmail, e, p, a, b);
    e + p + a + b
  }

  /** The four per-field reports together describe the whole body. */
  lemma ConcatenatedIssues(body: SignupBody, isEmail: string -> bool,
                           e: seq<Issue>, p: seq<Issue>, a: seq<Issue>, b: seq<Issue>)
    requires e == FieldIssues(Email, body.email, isEmail)
    requires p == FieldIssues(Password, body.password, isEmail)
    requires a == FieldIssues(FirstName, body.firstName, isEmail)
    requires b == FieldIssues(LastName, body.lastName, isEmail)
    ensures forall k :: 0 <= k < |e + p + a + b| ==> Fails(body, isEmail, (e + p + a + b)[k])
    ensures forall issue :: Fails(body, isEmail, issue) ==> issue in e + p + a + b
    ensures e + p + a + b == [] <==> Valid(body, isEmail)
  {
    var issues := e + p + a + b;
    forall k | 0 <= k < |issues|
      ensures Fails(body, isEmail, issues[k])
    {
      var issue := issues[k];
      assert issue in e || issue in p || issue in a || issue in b;
    }
    forall issue | Fails(body, isEmail, issue)
      ensures issue in issues
    {
      match issue.path
      case Email => assert issue in e;
      case Password => assert issue in p;
      case FirstName => assert issue in a;
      case LastName => assert issue in b;
    }
  }

  /** A password is accepted only if its length is within the bounds and it
      holds an upper-case letter, a lower-case letter and a character outside
      `[A-Za-z0-9]`; a password missing any of these yields the matching issue. */
  lemma PasswordRules(body: SignupBody, isEmail: string -> bool, pw: string)
    requires body.password == Some(pw)
    ensures Validate(body, isEmail) == [] ==>
      LengthOk(pw) && HasUpper(pw) && HasLower(pw) && HasSpecial(pw)
    ensures !HasUpper(pw) ==> Issue(Password, Refinement(UpperMessage)) in Validate(body, isEmail)
    ensures !HasLower(pw) ==> Issue(Password, Refinement(LowerMessage)) in Validate(body, isEmail)
    ensures !HasSpecial(pw) ==> Issue(Password, Refinement(SpecialMessage)) in Validate(body, isEmail)
    ensures Utf16Length(pw) < MinLength ==> Issue(Password, TooSmall(MinLength)) in Validate(body, isEmail)
    ensures Utf16Length(pw) > MaxLength ==> Issue(Password, TooBig(MaxLength)) in Validate(body, isEmail)
  {
  }

  /** Any field whose length is below 3 or above 100 code units is rejected
      with the matching issue, and so is a missing field. */
  lemma FieldLengthRules(body: SignupBody, isEmail: string -> bool, f: Field)
    ensures FieldValue(body, f).None? ==> Issue(f, InvalidType) in Validate(body, isEmail)
    ensures FieldValue(body, f).Some? && Utf16Length(FieldValue(body, f).value) < MinLength
      ==> Issue(f, TooSmall(MinLength)) in Validate(body, isEmail)
    ensures FieldValue(body, f).Some? && Utf16Length(FieldValue(body, f).value) > MaxLength
      ==> Issue(f, TooBig(MaxLength)) in Validate(body, isEmail)
    ensures Validate(body, isEmail) == [] ==> FieldValue(body, f).Some? && LengthOk(FieldValue(body, f).value)
  {
  }
}
