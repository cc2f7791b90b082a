/** The form's validation schema: for each of the six fields, the chain of
    yup checks the schema declares, each with its message, and the map from
    failing field to message that the form shows. */
module Schema {
  import Phone
  import Email
  import opened Text

  datatype Option<T> = None | Some(value: T)

  /** A submitted field value: the form either carries it or leaves it
      undefined. */
  datatype Value<T> = Absent | Present(value: T)

  // Messages and bounds

  const RequiredMessage: string := "Required"
  const MaxNameMessage: string := "Max 100 characters"
  const PhoneMessage: string := "Invalid format phone number"
  const EmailMessage: string := "Invalid format email"

  const NameMaxLength: nat := 100

  // Checks

  datatype Pattern = PhonePattern | EmailPattern

  function Matches(p: Pattern, s: string): bool {
    match p
    case PhonePattern => Phone.MatchesPhone(s)
    case EmailPattern => Email.MatchesEmail(s)
  }

  /** The checks of a yup string schema: `.max`, `.required` and `.matches`. */
  datatype StringCheck =
    | MaxLength(limit: nat, message: string)
    | RequiredString(message: string)
    | MatchesPattern(pattern: Pattern, message: string)

  /** The checks of a yup number schema: `.min`, `.max` and `.required`. */
  datatype NumberCheck =
    | AtLeast(bound: int, message: string)
    | AtMost(bound: int, message: string)
    | RequiredNumber(message: string)

  /** Length and pattern checks pass on an undefined value; `required`
      fails on an undefined value and, for strings, on the empty string.
      A string's length is JavaScript's, in UTF-16 code units. */
  predicate StringCheckFails(c: StringCheck, v: Value<string>) {
    match c
    case MaxLength(limit, _) => v.Present? && Utf16Length(v.value) > limit
    case RequiredString(_) => v.Absent? || v.value == ""
    case MatchesPattern(p, _) => v.Present? && !Matches(p, v.value)
  }

  predicate NumberCheckFails(c: NumberCheck, v: Value<int>) {
    match c
    case AtLeast(bound, _) => v.Present? && v.value < bound
    case AtMost(bound, _) => v.Present? && v.value > bound
    case RequiredNumber(_) => v.Absent?
  }

  /** Messages of the failing checks, in the order the chain declares them. */
  function StringFailures(checks: seq<StringCheck>, v: Value<string>): (msgs: seq<string>)
    ensures |msgs| <= |checks|
    ensures forall m :: m in msgs ==> exists c :: c in checks && StringCheckFails(c, v) && c.message == m
  {
    if checks == [] then []
    else (if StringCheckFails(checks[0], v) then [checks[0].message] else []) + StringFailures(checks[1..], v)
  }

  function NumberFailures(checks: seq<NumberCheck>, v: Value<int>): (msgs: seq<string>)
    ensures |msgs| <= |checks|
    ensures forall m :: m in msgs ==> exists c :: c in checks && NumberCheckFails(c, v) && c.message == m
  {
    if checks == [] then []
    else (if NumberCheckFails(checks[0], v) then [checks[0].message] else []) + NumberFailures(checks[1..], v)
  }

  /** Every failing check of a string chain is reported, and the first
      message reported is that of the first check in the chain that fails. */
  lemma {:induction false} StringFailuresComplete(checks: seq<StringCheck>, v: Value<string>)
    ensures forall c :: c in checks && StringCheckFails(c, v) ==> c.message in StringFailures(checks, v)
    ensures StringFailures(checks, v) != [] ==>
      exists n :: 0 <= n < |checks| && StringCheckFails(checks[n], v) &&
        StringFailures(checks, v)[0] == checks[n].message &&
        (forall m :: 0 <= m < n ==> !StringCheckFails(checks[m], v))
  {
    if checks != [] {
      StringFailuresComplete(checks[1..], v);
      forall c | c in checks && StringCheckFails(c, v)
        ensures c.message in StringFailures(checks, v)
      {
        if c != checks[0] {
          assert c in checks[1..];
        }
      }
      if !StringCheckFails(checks[0], v) && StringFailures(checks, v) != [] {
        var n :| 0 <= n < |checks[1..]| && StringCheckFails(checks[1..][n], v) &&
          StringFailures(checks[1..], v)[0] == checks[1..][n].message &&
          (forall m :: 0 <= m < n ==> !StringCheckFails(checks[1..][m], v));
        assert StringCheckFails(checks[n + 1], v);
      }
    }
  }

  /** Every failing check of a number chain is reported, and the first
      message reported is that of the first check in the chain that fails. */
  lemma {:induction false} NumberFailuresComplete(checks: seq<NumberCheck>, v: Value<int>)
    ensures forall c :: c in checks && NumberCheckFails(c, v) ==> c.message in NumberFailures(checks, v)
    ensures NumberFailures(checks, v) != [] ==>
      exists n :: 0 <= n < |checks| && NumberCheckFails(checks[n], v) &&
        NumberFailures(checks, v)[0] == checks[n].message &&
        (forall m :: 0 <= m < n ==> !NumberCheckFails(checks[m], v))
  {
    if checks != [] {
      NumberFailuresComplete(checks[1..], v);
      forall c | c in checks && NumberCheckFails(c, v)
        ensures c.message in NumberFailures(checks, v)
      {
        if c != checks[0] {
          assert c in checks[1..];
        }
      }
      if !NumberCheckFails(checks[0], v) && NumberFailures(checks, v) != [] {
        var n :| 0 <= n < |checks[1..]| && NumberCheckFails(checks[1..][n], v) &&
          NumberFailures(checks[1..], v)[0] == checks[1..][n].message &&
          (forall m :: 0 <= m < n ==> !NumberCheckFails(checks[1..][m], v));
        assert NumberCheckFails(checks[n + 1], v);
      }
    }
  }

  /** A field shows the first message of its failing checks. */
  function FirstMessage(msgs: seq<string>): Option<string> {
    if msgs == [] then None else Some(msgs[0])
  }

  // The schema

  const NameChecks: seq<StringCheck> :=
    [MaxLength(NameMaxLength, MaxNameMessage), RequiredString(RequiredMessage)]
  const CompanyTypeChecks: seq<NumberCheck> :=
    [AtLeast(1, RequiredMessage), AtMost(3, RequiredMessage), RequiredNumber(RequiredMessage)]
  const CompanyPurposeChecks: seq<NumberCheck> :=
    [AtLeast(1, RequiredMessage), AtMost(4, RequiredMessage), RequiredNumber(RequiredMessage)]
  const PhoneChecks: seq<StringCheck> := [MatchesPattern(PhonePattern, PhoneMessage)]
  const EmailChecks: seq<StringCheck> := [MatchesPattern(EmailPattern, EmailMessage)]

  /** `name`: present, not empty and at most 100 UTF-16 code units long;
      "Required" when missing, "Max 100 characters" when too long. */
  function NameError(v: Value<string>): (r: Option<string>)
    ensures r.None? <==> v.Present? && 0 < |v.value| && Utf16Length(v.value) <= NameMaxLength
    ensures r == Some(RequiredMessage) <==> v.Absent? || v.value == ""
    ensures r == Some(MaxNameMessage) <==> v.Present? && Utf16Length(v.value) > NameMaxLength
  {
    assert NameChecks[1..][1..] == [];
    assert StringFailures(NameChecks, v) ==
      (if v.Present? && Utf16Length(v.value) > NameMaxLength then [MaxNameMessage] else []) +
      (if v.Absent? || v.value == "" then [RequiredMessage] else []);
    FirstMessage(StringFailures(NameChecks, v))
  }

  /** `companyType`: a code from 1 to 3; "Required" otherwise. */
  function CompanyTypeError(v: Value<int>): (r: Option<string>)
    ensures r.None? <==> v.Present? && 1 <= v.value <= 3
    ensures r.Some? ==> r.value == RequiredMessage
  {
    assert CompanyTypeChecks[1..][1..][1..] == [];
    assert NumberFailures(CompanyTypeChecks[1..][1..], v) == (if v.Absent? then [RequiredMessage] else []);
    assert NumberFailures(CompanyTypeChecks, v) ==
      (if v.Present? && v.value < 1 then [RequiredMessage] else []) +
      (if v.Present? && v.value > 3 then [RequiredMessage] else []) +
      (if v.Absent? then [RequiredMessage] else []);
    FirstMessage(NumberFailures(CompanyTypeChecks, v))
  }

  /** `companyPurpose`: a code from 1 to 4; "Required" otherwise. */
  function CompanyPurposeError(v: Value<int>): (r: Option<string>)
    ensures r.None? <==> v.Present? && 1 <= v.value <= 4
    ensures r.Some? ==> r.value == RequiredMessage
  {
    assert CompanyPurposeChecks[1..][1..][1..] == [];
    assert NumberFailures(CompanyPurposeChecks[1..][1..], v) == (if v.Absent? then [RequiredMessage] else []);
    assert NumberFailures(CompanyPurposeChecks, v) ==
      (if v.Present? && v.value < 1 then [RequiredMessage] else []) +
      (if v.Present? && v.value > 4 then [RequiredMessage] else []) +
      (if v.Absent? then [RequiredMessage] else []);
    FirstMessage(NumberFailures(CompanyPurposeChecks, v))
  }

  /** The two phone fields: undefined, or a string the phone pattern accepts. */
  function PhoneError(v: Value<string>): (r: Option<string>)
    ensures r.None? <==> v.Absent? || Phone.MatchesPhone(v.value)
    ensures r.Some? ==> r.value == PhoneMessage
  {
    FirstMessage(StringFailures(PhoneChecks, v))
  }

  /** `clientEmail`: undefined, or a string the email pattern accepts. */
  function EmailError(v: Value<string>): (r: Option<string>)
    ensures r.None? <==> v.Absent? || Email.MatchesEmail(v.value)
    ensures r.Some? ==> r.value == EmailMessage
  {
    FirstMessage(StringFailures(EmailChecks, v))
  }

  // The whole form

  datatype Field = Name | CompanyType | CompanyPurpose | ClientPhoneFirst | ClientPhoneSecond | ClientEmail

  const AllFields: set<Field> :=
    {Name, CompanyType, CompanyPurpose, ClientPhoneFirst, ClientPhoneSecond, ClientEmail}

  datatype FormInput = FormInput(
    name: Value<string>,
    companyType: Value<int>,
    companyPurpose: Value<int>,
    clientPhoneFirst: Value<string>,
    clientPhoneSecond: Value<string>,
    clientEmail: Value<string>)

  /** Each field is checked against its own value only. */
  function FieldError(x: FormInput, f: Field): Option<string> {
    match f
    case Name => NameError(x.name)
    case CompanyType => CompanyTypeError(x.companyType)
    case CompanyPurpose => CompanyPurposeError(x.companyPurpose)
    case ClientPhoneFirst => PhoneError(x.clientPhoneFirst)
    case ClientPhoneSecond => PhoneError(x.clientPhoneSecond)
    case ClientEmail => EmailError(x.clientEmail)
  }

  /** The error map: one message for every failing field, none for the others. */
  function Validate(x: FormInput): (errors: map<Field, string>)
    ensures Name !in errors <==>
      x.name.Present? && 0 < |x.name.value| && Utf16Length(x.name.value) <= NameMaxLength
    ensures Name in errors ==>
      errors[Name] == (if x.name.Absent? || x.name.value == "" then RequiredMessage else MaxNameMessage)
    ensures CompanyType !in errors <==> x.companyType.Present? && 1 <= x.companyType.value <= 3
    ensures CompanyPurpose !in errors <==> x.companyPurpose.Present? && 1 <= x.companyPurpose.value <= 4
    ensures forall f :: f in errors && (f == CompanyType || f == CompanyPurpose) ==> errors[f] == RequiredMessage
    ensures ClientPhoneFirst !in errors <==>
      x.clientPhoneFirst.Absent? || Phone.MatchesPhone(x.clientPhoneFirst.value)
    ensures ClientPhoneSecond !in errors <==>
      x.clientPhoneSecond.Absent? || Phone.MatchesPhone(x.clientPhoneSecond.value)
    ensures forall f :: f in errors && (f == ClientPhoneFirst || f == ClientPhoneSecond) ==> errors[f] == PhoneMessage
    ensures ClientEmail !in errors <==> x.clientEmail.Absent? || Email.MatchesEmail(x.clientEmail.value)
    ensures ClientEmail in errors ==> errors[ClientEmail] == EmailMessage
  {
    map f | f in AllFields && FieldError(x, f).Some? :: FieldError(x, f).value
  }

  // The rules against the languages of the two patterns

  /** No value fails more than one check of the `name`, `companyType` or
      `companyPurpose` chain, so the field's message does not depend on which
      failing check is reported. */
  lemma AtMostOneFailure(s: Value<string>, n: Value<int>)
    ensures |StringFailures(NameChecks, s)| <= 1
    ensures |NumberFailures(CompanyTypeChecks, n)| <= 1
    ensures |NumberFailures(CompanyPurposeChecks, n)| <= 1
  {
    assert NameChecks[1..][1..] == [];
    assert |NumberFailures(CompanyTypeChecks[2..], n)| == (if n.Absent? then 1 else 0);
    assert |NumberFailures(CompanyPurposeChecks[2..], n)| == (if n.Absent? then 1 else 0);
  }

  /** A phone field passes exactly when it is undefined or in the language
      of the phone pattern. */
  lemma PhoneErrorLanguage(v: Value<string>)
    ensures PhoneError(v).None? <==> v.Absent? || Phone.InPhoneLanguage(v.value)
  {
    if v.Present? {
      Phone.MatchesPhoneIsLanguage(v.value);
    }
  }

  /** The email field passes exactly when it is undefined or in the language
      of the email pattern. */
  lemma EmailErrorLanguage(v: Value<string>)
    ensures EmailError(v).None? <==> v.Absent? || Email.InEmailLanguage(v.value)
  {
    if v.Present? {
      Email.MatchesEmailIsLanguage(v.value);
    }
  }

  /** A defined but empty phone or email is checked against its pattern,
      and both patterns reject it. */
  lemma EmptyPatternValuesFail()
    ensures PhoneError(Present("")) == Some(PhoneMessage)
    ensures EmailError(Present("")) == Some(EmailMessage)
  {
    Phone.EmptyPhoneRejected();
    Email.EmailNeedsAt("");
  }

  /** The form is valid exactly when every field satisfies its rule, with
      the two patterns read as the languages they denote. */
  lemma ValidateEmptyIff(x: FormInput)
    ensures Validate(x) == map[] <==>
      && x.name.Present? && 0 < |x.name.value| && Utf16Length(x.name.value) <= NameMaxLength
      && x.companyType.Present? && 1 <= x.companyType.value <= 3
      && x.companyPurpose.Present? && 1 <= x.companyPurpose.value <= 4
      && (x.clientPhoneFirst.Absent? || Phone.InPhoneLanguage(x.clientPhoneFirst.value))
      && (x.clientPhoneSecond.Absent? || Phone.InPhoneLanguage(x.clientPhoneSecond.value))
      && (x.clientEmail.Absent? || Email.InEmailLanguage(x.clientEmail.value))
  {
    PhoneErrorLanguage(x.clientPhoneFirst);
    PhoneErrorLanguage(x.clientPhoneSecond);
    EmailErrorLanguage(x.clientEmail);
    var e := Validate(x);
    if e != map[] {
      var f :| f in e;
      assert FieldError(x, f).Some?;
    }
  }

  /** Two forms that agree on a field get the same verdict on that field,
      whatever their other fields hold. */
  predicate SameValue(x: FormInput, y: FormInput, f: Field) {
    match f
    case Name => x.name == y.name
    case CompanyType => x.companyType == y.companyType
    case CompanyPurpose => x.companyPurpose == y.companyPurpose
    case ClientPhoneFirst => x.clientPhoneFirst == y.clientPhoneFirst
    case ClientPhoneSecond => x.clientPhoneSecond == y.clientPhoneSecond
    case ClientEmail => x.clientEmail == y.clientEmail
  }

  lemma ValidateIndependent(x: FormInput, y: FormInput, f: Field)
    requires SameValue(x, y, f)
    ensures f in Validate(x) <==> f in Validate(y)
    ensures f in Validate(x) ==> Validate(x)[f] == Validate(y)[f]
  {
  }

  // The options the form offers for the two categorical fields

  datatype Choice = Choice(caption: string, code: int)

  const CompanyTypeChoices: seq<Choice> :=
    [Choice("No data", 0), Choice("Company", 1), Choice("Government", 2), Choice("School", 3)]
  const CompanyPurposeChoices: seq<Choice> :=
    [Choice("No data", 0), Choice("Demo", 1), Choice("Sell", 3), Choice("Test", 4)]

  predicate Offers(choices: seq<Choice>, code: int) {
    exists c :: c in choices && c.code == code
  }

  /** The "No data" option fails both categorical fields; every other
      offered option passes. */
  lemma OfferedChoices()
    ensures CompanyTypeChoices[0] == Choice("No data", 0) && CompanyPurposeChoices[0] == Choice("No data", 0)
    ensures CompanyTypeError(Present(0)) == Some(RequiredMessage)
    ensures CompanyPurposeError(Present(0)) == Some(RequiredMessage)
    ensures forall c :: c in CompanyTypeChoices ==> (CompanyTypeError(Present(c.code)).None? <==> c.code != 0)
    ensures forall c :: c in CompanyPurposeChoices ==> (CompanyPurposeError(Present(c.code)).None? <==> c.code != 0)
  {
  }

  /** `companyType` accepts exactly the codes of the offered options other
      than "No data". */
  lemma CompanyTypeAcceptsOffered(n: int)
    ensures CompanyTypeError(Present(n)).None? <==> n != 0 && Offers(CompanyTypeChoices, n)
  {
    if 1 <= n <= 3 {
      assert CompanyTypeChoices[n].code == n;
    }
  }

  /** `companyPurpose` accepts the code 2, which no option offers. */
  lemma CompanyPurposeAcceptsUnoffered()
    ensures CompanyPurposeError(Present(2)).None?
    ensures !Offers(CompanyPurposeChoices, 2)
  {
  }

  /** The limit of 100 is on code units: a name of at most 100 characters
      below U+FFFF passes, but 51 characters above U+FFFF (such as emoji)
      are 102 code units and fail. */
  lemma NameLengthInCodeUnits(s: string)
    ensures 0 < |s| <= NameMaxLength && (forall k :: 0 <= k < |s| ==> s[k] <= '\U{FFFF}') ==>
      NameError(Present(s)).None?
    ensures |s| == 51 && (forall k :: 0 <= k < |s| ==> s[k] > '\U{FFFF}') ==>
      NameError(Present(s)) == Some(MaxNameMessage)
  {
    Utf16LengthBounds(s);
  }

  // Whole-form examples

  lemma ValidExample()
    ensures Validate(FormInput(Present("Acme"), Present(1), Present(1), Absent, Absent, Absent)) == map[]
  {
  }

  lemma EmptyRequiredFields()
    ensures Validate(FormInput(Present(""), Present(0), Present(0), Absent, Absent, Absent))
            == map[Name := RequiredMessage, CompanyType := RequiredMessage, CompanyPurpose := RequiredMessage]
  {
  }

  /** An email without at sign, such as "bad-email", is the only error of
      an otherwise valid form. */
  lemma EmailWithoutAtOnly(email: string)
    requires '@' !in email
    ensures Validate(FormInput(Present("Acme"), Present(1), Present(1), Absent, Absent, Present(email)))
            == map[ClientEmail := EmailMessage]
  {
    var x := FormInput(Present("Acme"), Present(1), Present(1), Absent, Absent, Present(email));
    Email.EmailNeedsAt(email);
    assert Validate(x).Keys == {ClientEmail};
  }

  /** Empty strings in the optional fields are errors, unlike undefined ones. */
  lemma EmptyOptionalStrings()
    ensures Validate(FormInput(Present("Acme"), Present(1), Present(1), Present(""), Present(""), Present("")))
            == map[ClientPhoneFirst := PhoneMessage, ClientPhoneSecond := PhoneMessage, ClientEmail := EmailMessage]
  {
    EmptyPatternValuesFail();
  }
}
