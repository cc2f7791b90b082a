# Client registration form: validation rules and submit handler

This project models the core of a small React registration form
(`src/App.tsx`). The form has six fields:

- `name`: a company name, required, at most 100 UTF-16 code units long.
- `companyType` and `companyPurpose`: numeric codes chosen from option lists.
- `clientPhoneFirst` and `clientPhoneSecond`: optional phone numbers.
- `clientEmail`: an optional email address.

A yup schema checks each submission. When the submission passes, the submit
handler replaces every undefined value with the empty string and stores the
result.

The model has four modules:

- `Text` (text.dfy): the character classes `\d` and `\w` of JavaScript
  regular expressions without the `u` flag, character counting, and
  JavaScript's string length in UTF-16 code units.
- `Phone` (phone.dfy): the phone pattern `^(\d{2,3})?[- ]?(\d{3,4})[- ]?(\d{4})$`.
  - `InPhoneLanguage` gives the language declaratively, by its five segments.
  - `MatchesPhone` is a deterministic recogniser that reads right to left.
  - The two are proved equal.
- `Email` (email.dfy): the email pattern `^\w+([\.-]?\w+)*@\w+([\.-]?\w+)*(\.\w{2,3})+$`.
  - The language is a grammar of ghost predicates, one per group of the pattern.
  - `MatchesEmail` is a recogniser. It splits at the first `@` and at the last `.`.
  - The two are proved equal.
- `Schema` (schema.dfy): the yup rule chain of each field with its messages,
  the error map for the whole form, and the option lists of the two
  categorical fields.
- `Submit` (submit.dfy): the submit handler's loop over the submitted
  object. The object is a class whose entry map the loop rewrites in place.
  The handler is proved against the function `Normalised`.

A field value is either `Absent` (undefined) or `Present`. Two yup rules
apply to every check:

- `.max`, `.min` and `.matches` pass on an undefined value.
- `.required` fails on an undefined value, and for a string also on the
  empty string.

When several checks of a field fail, the field shows the message of the
first failing check in the chain. The model proves that no field of this
schema ever has more than one failing check, so the choice never matters
(`Schema.AtMostOneFailure`).

The phone pattern makes its first separator optional independently of the
area code. A number without an area code may therefore begin with a hyphen
or a space (`Phone.LeadingSeparatorAccepted`).

The option lists offer these codes:

- `companyPurpose`: 0, 1, 3 and 4. The rule accepts 1 to 4, so it also
  accepts the code 2, which no option offers
  (`Schema.CompanyPurposeAcceptsUnoffered`).
- `companyType`: 0 to 3. The rule accepts exactly the offered codes other
  than "No data" (`Schema.CompanyTypeAcceptsOffered`).

A defined empty phone or email fails. The schema uses `.matches` without
`excludeEmptyString`, so a defined empty string is tested against the pattern,
and both patterns reject it (`Schema.EmptyOptionalStrings`). Only an
undefined optional field passes.

The email pattern's `\w` admits the underscore, in the final suffix as
everywhere else.

yup's `.max(100)` on a string compares JavaScript's `length`, which counts
UTF-16 code units. A character above U+FFFF, such as an emoji, counts twice
(`Text.Utf16Length`, `Schema.NameLengthInCodeUnits`).

## Model

| member | source | states |
|---|---|---|
| Phone.MatchesPhoneIsLanguage | src/App.tsx:19 | the recogniser accepts a string exactly when the pattern's five segments (2–3 or no area digits, optional separator, 3–4 digits, optional separator, 4 digits) cut it completely |
| Phone.MatchesPhoneSound | src/App.tsx:19 | every string the recogniser accepts can be cut into the pattern's segments |
| Phone.MatchesPhoneCompleteSplit | src/App.tsx:19 | a number whose area code is followed by a separator is accepted |
| Phone.MatchesPhoneCompleteJoined | src/App.tsx:19 | a number whose area code runs straight into the exchange is accepted, whatever the split of the digits |
| Phone.MatchesPhoneComplete | src/App.tsx:19 | every string cut by the pattern's segments is accepted |
| Phone.DigitRunBefore | src/App.tsx:19 | the counted run is made of digits and is preceded by a non-digit or the start of the string |
| Phone.ShapeDigitCount | src/App.tsx:19 | a string cut by the pattern holds exactly the digits of its area code, exchange and line number |
| Phone.AcceptedPhone | src/App.tsx:19 | an accepted number holds only digits, hyphens and spaces, has 7 to 11 digits and ends with a digit |
| Phone.EmptyPhoneRejected | src/App.tsx:19 | the empty string is neither accepted nor in the pattern's language |
| Phone.LeadingSeparatorAccepted | src/App.tsx:19 | "-123-4567" and " 1234567" are accepted, because the first separator does not need an area code |
| Email.MatchesEmailIsLanguage | src/App.tsx:20 | the recogniser accepts a string exactly when the pattern's grammar derives it: word groups, `@`, word groups, one or more `.` suffixes of 2–3 word characters |
| Email.WordsIsIsWords | src/App.tsx:20 | `\w+([\.-]?\w+)*` holds of a range exactly when the range starts with a word character, ends with one, and every joiner is followed by a word character |
| Email.MatchesEmailSound | src/App.tsx:20 | every string the recogniser accepts is derived by the grammar |
| Email.MatchesEmailComplete | src/App.tsx:20 | every string the grammar derives, with its `@` at any position, is accepted |
| Email.DomainCollapse | src/App.tsx:20 | word groups followed by `.` suffixes are word groups up to the last `.`, followed by one suffix of 2–3 word characters |
| Email.AcceptedEmailHasOneAt | src/App.tsx:20 | an accepted address holds exactly one `@` |
| Email.AcceptedEmailEnds | src/App.tsx:20 | an accepted address begins and ends with a word character |
| Email.AcceptedEmailSuffix | src/App.tsx:20 | an accepted address has a `.` whose suffix is 2 or 3 word characters |
| Email.EmailNeedsAt | src/App.tsx:20 | a string without `@`, the empty string among them, is rejected and outside the language |
| Schema.NameError | src/App.tsx:23-26 | no error exactly when the name is defined, non-empty and at most 100 UTF-16 code units long; "Required" exactly when undefined or empty; "Max 100 characters" exactly when longer than 100 code units |
| Schema.CompanyTypeError | src/App.tsx:27-31 | no error exactly when the code is defined and from 1 to 3; every error is "Required" |
| Schema.CompanyPurposeError | src/App.tsx:32-36 | no error exactly when the code is defined and from 1 to 4; every error is "Required" |
| Schema.PhoneError | src/App.tsx:37-42 | no error exactly when the phone is undefined or accepted by the phone pattern; the error is "Invalid format phone number" |
| Schema.EmailError | src/App.tsx:43-45 | no error exactly when the email is undefined or accepted by the email pattern; the error is "Invalid format email" |
| Schema.StringFailures | src/App.tsx:22-46 | each message reported comes from a check of the chain that fails on the value, and there are no more messages than checks |
| Schema.NumberFailures | src/App.tsx:22-46 | each message reported comes from a check of the chain that fails on the value, and there are no more messages than checks |
| Schema.StringFailuresComplete | src/App.tsx:22-46 | every failing check of a string chain is reported, and the first message is that of the first failing check in the chain's order |
| Schema.NumberFailuresComplete | src/App.tsx:22-46 | every failing check of a number chain is reported, and the first message is that of the first failing check in the chain's order |
| Schema.AtMostOneFailure | src/App.tsx:23-36 | no value fails more than one check of the `name`, `companyType` or `companyPurpose` chain |
| Schema.NameLengthInCodeUnits | src/App.tsx:25 | a non-empty name of at most 100 characters below U+FFFF passes; 51 characters above U+FFFF (102 code units) fail with "Max 100 characters" |
| Text.Utf16Length | src/App.tsx:25 | JavaScript's length of a string lies between its number of characters and twice that |
| Text.Utf16LengthBounds | src/App.tsx:25 | a string below U+FFFF has one code unit per character; one made only of characters above U+FFFF has two per character |
| Schema.Validate | src/App.tsx:22-46 | the error map holds a field exactly when that field's rule fails (the name measured in UTF-16 code units), with that field's message |
| Schema.ValidateEmptyIff | src/App.tsx:22-46 | the error map is empty exactly when the name (non-empty, at most 100 UTF-16 code units), both codes, both phones and the email satisfy their rules, with the phones and the email read against the patterns' languages |
| Schema.ValidateIndependent | src/App.tsx:22-46 | a field's verdict and message depend on that field's value only |
| Schema.PhoneErrorLanguage | src/App.tsx:37-42 | a phone field passes exactly when it is undefined or in the phone pattern's language |
| Schema.EmailErrorLanguage | src/App.tsx:43-45 | the email field passes exactly when it is undefined or in the email pattern's language |
| Schema.EmptyPatternValuesFail | src/App.tsx:37-45 | a defined empty phone or email fails with its pattern message |
| Schema.OfferedChoices | src/App.tsx:57-92 | the "No data" option (code 0) fails both categorical fields; every other offered option passes |
| Schema.CompanyTypeAcceptsOffered | src/App.tsx:57-74 | `companyType` accepts a code exactly when an option offers it and it is not "No data" |
| Schema.CompanyPurposeAcceptsUnoffered | src/App.tsx:75-92 | `companyPurpose` accepts the code 2, which no option offers |
| Schema.ValidExample | src/App.tsx:22-46 | a form with name "Acme", codes 1 and 1 and no optional values has no errors |
| Schema.EmptyRequiredFields | src/App.tsx:22-46 | an empty name and codes 0 give "Required" on exactly the three required fields |
| Schema.EmailWithoutAtOnly | src/App.tsx:43-45 | on an otherwise valid form, an email without `@` is the only error, with message "Invalid format email" |
| Schema.EmptyOptionalStrings | src/App.tsx:37-45 | defined empty strings in both phones and the email give exactly the three pattern errors |
| Submit.Normalised | src/App.tsx:97-100 | the handled object has the same keys, no undefined value, every defined value unchanged and every undefined value replaced by the empty string |
| Submit.NormalisedFixedPoints | src/App.tsx:97-100 | the handler leaves an object unchanged exactly when it holds no undefined value |
| Submit.NormalisedIdempotent | src/App.tsx:97-100 | handling an object twice gives the same result as handling it once |
| Submit.SubmittedData.constructor | src/App.tsx:97 | the handler receives the submitted object as it is |
| Submit.SubmittedData.ReplaceUndefined | src/App.tsx:98-100 | after the loop over the keys, the object's entries are the normalised form of the entries before it |
| Submit.Submitted | src/App.tsx:9-17 | the submitted object has exactly the six keys of the form, the keys of the initial state |
| Submit.StoredAfterValidSubmit | src/App.tsx:97-101 | after a valid submission the stored object has the six keys, no undefined value, the entered name and codes, and an empty string for an unset email |

## Left out

- Rendering is not modelled: the MUI components, the JSX layout, the
  `Controller` wiring and the display of error messages under the fields.
- The internals of react-hook-form and of the yup resolver are not
  modelled: registration, re-validation on change, and gathering the form's
  values. The error map is taken to hold the first failing message of each
  field.
- yup's type casting is not modelled. A number field's value is modelled as
  an integer or undefined. An empty or non-numeric entry in a number field
  (yup's `NaN` type error) and non-integer codes are out of scope.
- The `values` state, `setValues`, and the effect that logs `values` to the
  console are left out. The effect is I/O. The state only stores what
  `Submit.Normalised` computes.
- The regular-expression engine is not modelled. Each of the two patterns is
  given as its language and as a recogniser written for that pattern.
- Submit.SubmittedData.ReplaceUndefined: `for ... in` visits keys in
  property order. The loop here takes them in any order; the result does not
  depend on the order.
- Submit.Submitted: the model assumes that the submitted object carries
  the key of every one of the six fields, holding an undefined value for a
  field the user never set. Whether an unset field arrives as a key holding
  undefined or as a missing key is decided by react-hook-form and the yup
  resolver, which are not modelled. The loop over the keys cannot add a
  missing key. So the six keys and the empty string for an unset field in
  Submit.StoredAfterValidSubmit hold under this assumption only. The model
  also assumes no keys beyond the six; the `IFormInput` index signature would
  allow more.
