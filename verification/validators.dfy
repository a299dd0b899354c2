/** The request-body rules of `server/middleware/validators.js` and the
    `handleValidationErrors` gate that ends a request with 400 when any rule
    fails. Each rule chain runs all its checks and records one error per
    failed check; sanitizers (`trim`, `normalizeEmail`) rewrite the body the
    handler later reads. `isEmail`, `normalizeEmail`, `isISO8601` and `isURL`
    are library routines whose definitions lie outside the model and are taken
    as parameters. Lengths count Unicode code points. */
module Validators {

  import opened Common
  import opened Strings
  import opened ItemModel

  datatype FieldError = FieldError(field: string, message: string)

  /** The result of a rule set: the errors it recorded, or the sanitized body
      the handler runs with. */
  datatype Checked<T> = Rejected(errors: seq<FieldError>) | Accepted(value: T)

  /** The library predicates and sanitizer the rules call. */
  datatype Library = Library(
    isEmail: string -> bool,
    normalizeEmail: string -> string,
    isISO8601: string -> bool,
    isURL: string -> bool)

  const ValidationFailed: string := "Validation failed"

  /** A body field as the rules see it: an absent field reads as `''`. */
  function Given(v: Option<string>): string {
    match v
    case Some(s) => s
    case None => ""
  }

  /** One check of a chain: no error when it passes, its message when not. */
  function Check(ok: bool, field: string, message: string): (errs: seq<FieldError>)
    ensures errs == [] <==> ok
  {
    if ok then [] else [FieldError(field, message)]
  }

  /** `trim().notEmpty().isLength({ min, max })` on one field. */
  function TrimmedLengthRule(raw: Option<string>, field: string, min: nat, max: nat,
                             requiredMessage: string, lengthMessage: string): (errs: seq<FieldError>)
    requires 0 < min
    ensures errs == [] <==> min <= |Trim(Given(raw))| <= max
    ensures |errs| <= 2
  {
    var t := Trim(Given(raw));
    Check(|t| > 0, field, requiredMessage) + Check(min <= |t| <= max, field, lengthMessage)
  }

  /** `handleValidationErrors`: any recorded error stops the request;
      otherwise the handler runs with the sanitized body. */
  function HandleValidationErrors<T>(errors: seq<FieldError>, sanitized: T): (c: Checked<T>)
    ensures c.Accepted? <==> errors == []
    ensures c.Rejected? ==> c.errors == errors
    ensures c.Accepted? ==> c.value == sanitized
  {
    if errors != [] then Rejected(errors) else Accepted(sanitized)
  }

  // ---------------------------------------------------------------- register

  predicate NameAccepted(raw: Option<string>) {
    2 <= |Trim(Given(raw))| <= 50
  }

  function NameErrors(raw: Option<string>): (errs: seq<FieldError>)
    ensures errs == [] <==> NameAccepted(raw)
  {
    TrimmedLengthRule(raw, "name", 2, 50, "Name is required", "Name must be between 2 and 50 characters")
  }

  predicate EmailAccepted(lib: Library, raw: Option<string>) {
    var t := Trim(Given(raw));
    |t| > 0 && lib.isEmail(t)
  }

  /** `trim().notEmpty().isEmail()`. */
  function EmailErrors(lib: Library, raw: Option<string>): (errs: seq<FieldError>)
    ensures errs == [] <==> EmailAccepted(lib, raw)
  {
    var t := Trim(Given(raw));
    Check(|t| > 0, "email", "Email is required")
      + Check(lib.isEmail(t), "email", "Please provide a valid email address")
  }

  /** The email the handler reads after `trim()` and `normalizeEmail()`. */
  function SanitizedEmail(lib: Library, raw: Option<string>): string {
    lib.normalizeEmail(Trim(Given(raw)))
  }

  /** The text before the first line terminator: all a `.*` starting at the
      beginning of the string can reach. */
  function FirstLine(p: string): (r: string)
    ensures |r| <= |p| && r == p[..|r|]
    ensures forall k :: 0 <= k < |r| ==> !IsLineTerminator(r[k])
    ensures |r| < |p| ==> IsLineTerminator(p[|r|])
  {
    if p == [] || IsLineTerminator(p[0]) then [] else [p[0]] + FirstLine(p[1..])
  }

  predicate HasLower(s: string) {
    exists k :: 0 <= k < |s| && 'a' <= s[k] <= 'z'
  }

  predicate HasUpper(s: string) {
    exists k :: 0 <= k < |s| && 'A' <= s[k] <= 'Z'
  }

  predicate HasDigit(s: string) {
    exists k :: 0 <= k < |s| && '0' <= s[k] <= '9'
  }

  /** `/^(?=.*[a-z])(?=.*[A-Z])(?=.*\d)/`: the three look-aheads start at the
      beginning and `.` stops at a line terminator, so a lower-case letter,
      an upper-case letter and a digit must all occur on the first line. */
  predicate PasswordPattern(p: string) {
    var line := FirstLine(p);
    HasLower(line) && HasUpper(line) && HasDigit(line)
  }

  predicate PasswordAccepted(raw: Option<string>) {
    |Given(raw)| >= 6 && PasswordPattern(Given(raw))
  }

  /** `notEmpty().isLength({ min: 6 }).matches(...)`, on the untrimmed value. */
  function PasswordErrors(raw: Option<string>): (errs: seq<FieldError>)
    ensures errs == [] <==> PasswordAccepted(raw)
  {
    var p := Given(raw);
    Check(|p| > 0, "password", "Password is required")
      + Check(|p| >= 6, "password", "Password must be at least 6 characters long")
      + Check(PasswordPattern(p), "password",
              "Password must contain at least one uppercase letter, one lowercase letter, and one number")
  }

  /** The first line ends at the first line terminator. */
  lemma FirstLineEndsAt(p: string, n: nat)
    requires n < |p| && IsLineTerminator(p[n])
    requires forall k :: 0 <= k < n ==> !IsLineTerminator(p[k])
    ensures FirstLine(p) == p[..n]
  {
  }

  /** A character class that only appears after a line break does not count:
      `"abcdef\nA1"` is refused although it holds all three classes. */
  lemma PatternStopsAtLineBreak()
    ensures !PasswordAccepted(Some("abcdef\nA1"))
    ensures HasUpper("abcdef\nA1") && HasDigit("abcdef\nA1")
  {
    var p := "abcdef\nA1";
    FirstLineEndsAt(p, 6);
    var line := p[..6];
    assert forall k :: 0 <= k < |line| ==> 'a' <= line[k] <= 'f';
    assert p[7] == 'A';
    assert p[8] == '1';
  }

  datatype RegisterBody = RegisterBody(name: Option<string>, email: Option<string>, password: Option<string>)
  datatype RegisterInput = RegisterInput(name: string, email: string, password: string)

  /** `validateRegister`: the handler runs exactly when the name, the email
      and the password all pass, and it reads the trimmed name and the trimmed,
      normalized email. */
  function ValidateRegister(lib: Library, body: RegisterBody): (c: Checked<RegisterInput>)
    ensures c.Accepted? <==> NameAccepted(body.name) && EmailAccepted(lib, body.email) && PasswordAccepted(body.password)
    ensures c.Accepted? ==>
      && c.value.name == Trim(Given(body.name))
      && c.value.email == SanitizedEmail(lib, body.email)
      && c.value.password == Given(body.password)
    ensures c.Rejected? ==> |c.errors| > 0
  {
    HandleValidationErrors(
      NameErrors(body.name) + EmailErrors(lib, body.email) + PasswordErrors(body.password),
      RegisterInput(Trim(Given(body.name)), SanitizedEmail(lib, body.email), Given(body.password)))
  }

  // ------------------------------------------------------------------- login

  datatype LoginBody = LoginBody(email: Option<string>, password: Option<string>)
  datatype LoginInput = LoginInput(email: string, password: string)

  /** `validateLogin`: a well-formed email and any non-empty password. */
  function ValidateLogin(lib: Library, body: LoginBody): (c: Checked<LoginInput>)
    ensures c.Accepted? <==> EmailAccepted(lib, body.email) && |Given(body.password)| > 0
    ensures c.Accepted? ==>
      && c.value.email == SanitizedEmail(lib, body.email)
      && c.value.password == Given(body.password)
    ensures c.Rejected? ==> |c.errors| > 0
  {
    HandleValidationErrors(
      EmailErrors(lib, body.email) + Check(|Given(body.password)| > 0, "password", "Password is required"),
      LoginInput(SanitizedEmail(lib, body.email), Given(body.password)))
  }

  // ------------------------------------------------------------------- items

  datatype ItemBody = ItemBody(
    title: Option<string>, description: Option<string>, itemType: Option<string>,
    location: Option<string>, date: Option<string>, contact: Option<string>,
    imageUrl: Option<string>, reportedBy: Option<string>)

  /** The body the create handler reads once the rules pass. */
  datatype ItemInput = ItemInput(
    title: string, description: string, itemType: ItemType,
    location: string, date: string, contact: string,
    imageUrl: Option<string>, reportedBy: Option<string>)

  predicate TitleAccepted(raw: Option<string>) { 3 <= |Trim(Given(raw))| <= 100 }
  predicate DescriptionAccepted(raw: Option<string>) { 10 <= |Trim(Given(raw))| <= 500 }
  predicate LocationAccepted(raw: Option<string>) { 3 <= |Trim(Given(raw))| <= 100 }
  predicate ContactAccepted(raw: Option<string>) { 5 <= |Trim(Given(raw))| <= 50 }

  /** `type` is neither trimmed nor case-folded: only `lost` and `found`. */
  predicate TypeAccepted(raw: Option<string>) { ParseType(Given(raw)).Some? }

  predicate DateAccepted(lib: Library, raw: Option<string>) {
    |Given(raw)| > 0 && lib.isISO8601(Given(raw))
  }

  /** `optional().isURL()`: an absent image URL is fine; a present one, even
      `''`, must be a URL. */
  predicate ImageUrlAccepted(lib: Library, raw: Option<string>) {
    raw.None? || lib.isURL(raw.value)
  }

  predicate ItemAccepted(lib: Library, body: ItemBody) {
    && TitleAccepted(body.title)
    && DescriptionAccepted(body.description)
    && TypeAccepted(body.itemType)
    && LocationAccepted(body.location)
    && DateAccepted(lib, body.date)
    && ContactAccepted(body.contact)
    && ImageUrlAccepted(lib, body.imageUrl)
  }

  /** The title, description and type chains, in declaration order. */
  function ItemErrorsFirst(body: ItemBody): (errs: seq<FieldError>)
    ensures errs == [] <==>
      TitleAccepted(body.title) && DescriptionAccepted(body.description) && TypeAccepted(body.itemType)
  {
    var title := TrimmedLengthRule(body.title, "title", 3, 100, "Title is required",
                                   "Title must be between 3 and 100 characters");
    var description := TrimmedLengthRule(body.description, "description", 10, 500, "Description is required",
                                         "Description must be between 10 and 500 characters");
    var itemType := Check(|Given(body.itemType)| > 0, "type", "Type is required")
      + Check(TypeAccepted(body.itemType), "type", "Type must be either \"lost\" or \"found\"");
    assert itemType == [] <==> TypeAccepted(body.itemType);
    title + description + itemType
  }

  /** The location, date, contact and image URL chains, in declaration order. */
  function ItemErrorsRest(lib: Library, body: ItemBody): (errs: seq<FieldError>)
    ensures errs == [] <==>
      && LocationAccepted(body.location) && DateAccepted(lib, body.date)
      && ContactAccepted(body.contact) && ImageUrlAccepted(lib, body.imageUrl)
  {
    var location := TrimmedLengthRule(body.location, "location", 3, 100, "Location is required",
                                      "Location must be between 3 and 100 characters");
    var date := Check(|Given(body.date)| > 0, "date", "Date is required")
      + Check(lib.isISO8601(Given(body.date)), "date", "Date must be a valid ISO 8601 date");
    var contact := TrimmedLengthRule(body.contact, "contact", 5, 50, "Contact information is required",
                                     "Contact must be between 5 and 50 characters");
    var imageUrl := Check(ImageUrlAccepted(lib, body.imageUrl), "imageUrl", "Image URL must be a valid URL");
    assert date == [] <==> DateAccepted(lib, body.date);
    location + date + contact + imageUrl
  }

  function ItemErrors(lib: Library, body: ItemBody): (errs: seq<FieldError>)
    ensures errs == [] <==> ItemAccepted(lib, body)
  {
    ItemErrorsFirst(body) + ItemErrorsRest(lib, body)
  }

  /** The body as the sanitizers leave it: text fields trimmed, the rest as
      sent. */
  function SanitizeItem(body: ItemBody): (v: ItemInput)
    requires TypeAccepted(body.itemType)
    ensures v.title == Trim(Given(body.title)) && v.description == Trim(Given(body.description))
    ensures v.itemType.Name() == Given(body.itemType)
    ensures v.location == Trim(Given(body.location)) && v.contact == Trim(Given(body.contact))
    ensures v.date == Given(body.date) && v.imageUrl == body.imageUrl && v.reportedBy == body.reportedBy
  {
    ItemInput(
      Trim(Given(body.title)), Trim(Given(body.description)),
      ParseType(Given(body.itemType)).value,
      Trim(Given(body.location)), Given(body.date), Trim(Given(body.contact)),
      body.imageUrl, body.reportedBy)
  }

  /** `validateLostFoundItem`: the handler runs exactly when every rule
      passes, and reads trimmed text fields, the parsed type, the date as
      sent, and `imageUrl`/`reportedBy` untouched. */
  function ValidateItem(lib: Library, body: ItemBody): (c: Checked<ItemInput>)
    ensures c.Accepted? <==> ItemAccepted(lib, body)
    ensures c.Accepted? ==> TypeAccepted(body.itemType) && c.value == SanitizeItem(body)
    ensures c.Rejected? ==> |c.errors| > 0
  {
    if ItemAccepted(lib, body) then Accepted(SanitizeItem(body))
    else Rejected(ItemErrors(lib, body))
  }

  /** The type rule does not trim: a padded `" lost"` is refused, while a
      padded title is accepted and stored trimmed. */
  lemma TypeIsNotTrimmed()
    ensures !TypeAccepted(Some(" lost"))
    ensures TypeAccepted(Some("lost"))
  {
  }
}
