/** The validation schema of the controlled form: one rule per field, each
    returning the messages of its failing checks in declaration order, and an
    object-level check that the two passwords agree. */
module FormControl {
  import opened Text
  import opened Issues
  import opened RegexClass

  const FILE_SIZE_LIMIT: nat := 1024 * 1024

  /** The 32 ASCII punctuation characters a password may use as its special character. */
  const SPECIAL_CHARS: string := "!\"#$%&'()*+,-./:;<=>?@[\\]^_`{|}~"

  /** The source text of the special-character regex: the escaped list inside brackets. */
  const SPECIAL_PATTERN: string := "[" + Escape(SPECIAL_CHARS) + "]"

  const NAME_MESSAGE: string := "First letter must be uppercased"
  const AGE_MESSAGE: string := "No negative values"
  /** What the number schema reports for NaN (the library's own wording). */
  const NAN_MESSAGE: string := "Expected number, received nan"
  const EMAIL_MESSAGE: string := "Invalid email address"
  const NUMBER_MESSAGE: string := "Password must contain at least 1 number"
  const UPPERCASE_MESSAGE: string := "Password must contain at least 1 uppercase letter"
  const LOWERCASE_MESSAGE: string := "Password must contain at least 1 lowercase letter"
  const SPECIAL_MESSAGE: string := "Must contain special character: " + SPECIAL_CHARS
  const SEX_MESSAGE: string := "Choose gender"
  const TERMS_MESSAGE: string := "Accept terms"
  const NO_FILES_MESSAGE: string := "No files selected"
  const FILE_TYPE_MESSAGE: string := "Invalid image file type"
  const FILE_SIZE_MESSAGE: string := "File size should not exceed 1MB"
  const COUNTRY_MESSAGE: string := "Choose country"
  const MISMATCH_MESSAGE: string := "Passwords don't match"

  // ---------------------------------------------------------------------------
  // The four password regexes

  /** `/\d/.test(s)`. */
  predicate HasNumber(s: string) { exists i :: 0 <= i < |s| && IsDigit(s[i]) }

  /** `/[A-Z]/.test(s)`. */
  predicate HasUppercase(s: string) { exists i :: 0 <= i < |s| && IsUpper(s[i]) }

  /** `/[a-z]/.test(s)`. */
  predicate HasLowercase(s: string) { exists i :: 0 <= i < |s| && IsLower(s[i]) }

  /** The class built from SPECIAL_PATTERN matches one character. */
  predicate IsSpecial(c: char) {
    match ParseClass(SPECIAL_PATTERN)
    case Some(items) => ClassMatches(items, c)
    case None => false
  }

  /** `hasSpecialChar.test(s)`. */
  predicate HasSpecialChar(s: string) { exists i :: 0 <= i < |s| && IsSpecial(s[i]) }

  /** The only `-` of SPECIAL_CHARS sits between `,` and `.`. */
  lemma DashOfSpecialChars(i: int)
    requires 0 <= i < |SPECIAL_CHARS| && SPECIAL_CHARS[i] == '-'
    ensures i == 12 && SPECIAL_CHARS[11] == ',' && SPECIAL_CHARS[13] == '.'
  {
    var before, after := "!\"#$%&'()*+,", "./:;<=>?@[\\]^_`{|}~";
    assert SPECIAL_CHARS == before + "-" + after;
    assert '-' !in before && '-' !in after;
  }

  /** The built regex matches exactly the characters of SPECIAL_CHARS: the
      escaping neither adds nor drops a member, and the unescaped `,-.` is a
      range covering exactly `,`, `-` and `.`. */
  lemma SpecialClassExact(c: char)
    ensures IsSpecial(c) <==> c in SPECIAL_CHARS
  {
    SpecialCharsConditions();
    ParseEscapedClass(SPECIAL_CHARS);
    ItemsOfCover(SPECIAL_CHARS, SPECIAL_CHARS, c);
  }

  /** The special characters are exactly the 32 printable ASCII characters that
      are neither letters, digits nor the space, each listed once. */
  lemma SpecialCharsPunctuation(c: char)
    ensures |SPECIAL_CHARS| == 32
    ensures c in SPECIAL_CHARS <==> '!' <= c <= '~' && !IsAlnum(c)
  {
  }

  lemma SpecialCharsDistinct()
    ensures forall i, j :: 0 <= i < j < |SPECIAL_CHARS| ==> SPECIAL_CHARS[i] < SPECIAL_CHARS[j]
  {
  }

  /** SPECIAL_CHARS meets the side conditions of the regex-class lemmas. */
  lemma SpecialCharsConditions()
    ensures NoAlnum(SPECIAL_CHARS) && DashRangesOrdered(SPECIAL_CHARS)
    ensures DashRangesClosed(SPECIAL_CHARS, SPECIAL_CHARS)
  {
    SpecialCharsNoAlnum();
    SpecialCharsRangesClosed();
  }

  lemma SpecialCharsNoAlnum()
    ensures NoAlnum(SPECIAL_CHARS)
  {
    var s := SPECIAL_CHARS;
    forall i | 0 <= i < |s| ensures !IsAlnum(s[i]) {
      assert s[i] in s;
    }
  }

  lemma SpecialCharsRangesClosed()
    ensures DashRangesClosed(SPECIAL_CHARS, SPECIAL_CHARS)
  {
    var s := SPECIAL_CHARS;
    forall i | 1 <= i < |s| - 1 && s[i] == '-'
      ensures s[i - 1] <= '-' <= s[i + 1] && RangeWithin(s[i - 1], s[i + 1], s)
    {
      DashOfSpecialChars(i);
      forall x | ',' <= x <= '.' ensures x in s {
        assert x == s[11] || x == s[12] || x == s[13];
      }
    }
  }

  // ---------------------------------------------------------------------------
  // Field rules: each returns the messages of its failing checks, in order

  /** `z.string().min(1).refine(val[0] === val[0]?.toUpperCase())`. On the empty
      string the refine compares `undefined` with `undefined` and passes, so the
      length check alone reports. */
  function NameIssues(name: string): (ms: seq<string>)
    ensures ms == [] <==> |name| > 0 && !IsLower(name[0])
    ensures ms != [] ==> ms == [NAME_MESSAGE]
  {
    (if |name| < 1 then [NAME_MESSAGE] else [])
    + (if |name| > 0 && name[0] != ToUpper(name[0]) then [NAME_MESSAGE] else [])
  }

  /** `z.number().positive(...)` on the coerced age; `None` is NaN. */
  function AgeIssues(age: Option<real>): (ms: seq<string>)
    ensures ms == [] <==> age.Some? && age.value > 0.0
    ensures age.None? ==> ms == [NAN_MESSAGE]
    ensures age.Some? && age.value <= 0.0 ==> ms == [AGE_MESSAGE]
  {
    match age
    case None => [NAN_MESSAGE]
    case Some(n) => if n > 0.0 then [] else [AGE_MESSAGE]
  }

  /** `z.string().email(...)`, with the library's email grammar as the parameter `isEmail`. */
  function EmailIssues(email: string, isEmail: string -> bool): (ms: seq<string>)
    ensures ms == [] <==> isEmail(email)
    ensures ms != [] ==> ms == [EMAIL_MESSAGE]
  {
    if isEmail(email) then [] else [EMAIL_MESSAGE]
  }

  /** The four password categories, in the order the schema checks them. */
  datatype PasswordCheck = NeedsNumber | NeedsUppercase | NeedsLowercase | NeedsSpecial {
    function Rank(): nat {
      match this
      case NeedsNumber => 0
      case NeedsUppercase => 1
      case NeedsLowercase => 2
      case NeedsSpecial => 3
    }

    function Message(): string {
      match this
      case NeedsNumber => NUMBER_MESSAGE
      case NeedsUppercase => UPPERCASE_MESSAGE
      case NeedsLowercase => LOWERCASE_MESSAGE
      case NeedsSpecial => SPECIAL_MESSAGE
    }
  }

  /** Each category has its own message. */
  lemma MessagesDistinct(a: PasswordCheck, b: PasswordCheck)
    ensures a.Message() == b.Message() <==> a == b
  {
  }

  /** The checks in schema order. */
  const PASSWORD_CHECKS: seq<PasswordCheck> := [NeedsNumber, NeedsUppercase, NeedsLowercase, NeedsSpecial]

  /** Whether a password passes the regex behind one check. */
  predicate Passes(check: PasswordCheck, password: string) {
    match check
    case NeedsNumber => HasNumber(password)
    case NeedsUppercase => HasUppercase(password)
    case NeedsLowercase => HasLowercase(password)
    case NeedsSpecial => HasSpecialChar(password)
  }

  /** The checks of `checks` that a password fails, in their given order. */
  function Failing(checks: seq<PasswordCheck>, password: string): (fs: seq<PasswordCheck>)
    requires forall i, j :: 0 <= i < j < |checks| ==> checks[i].Rank() < checks[j].Rank()
    ensures forall k :: k in fs <==> k in checks && !Passes(k, password)
    ensures forall i, j :: 0 <= i < j < |fs| ==> fs[i].Rank() < fs[j].Rank()
  {
    if checks == [] then []
    else
      var rest := Failing(checks[1..], password);
      if Passes(checks[0], password) then rest
      else
        RankBelowAll(checks, rest);
        [checks[0]] + rest
  }

  /** Putting the lowest-ranked check in front of an ordered selection of the rest keeps it ordered. */
  lemma RankBelowAll(checks: seq<PasswordCheck>, rest: seq<PasswordCheck>)
    requires checks != []
    requires forall i, j :: 0 <= i < j < |checks| ==> checks[i].Rank() < checks[j].Rank()
    requires forall k :: k in rest ==> k in checks[1..]
    requires forall i, j :: 0 <= i < j < |rest| ==> rest[i].Rank() < rest[j].Rank()
    ensures forall i, j :: 0 <= i < j < |[checks[0]] + rest| ==>
      ([checks[0]] + rest)[i].Rank() < ([checks[0]] + rest)[j].Rank()
  {
    var fs := [checks[0]] + rest;
    forall i, j | 0 <= i < j < |fs| ensures fs[i].Rank() < fs[j].Rank() {
      assert fs[j] == rest[j - 1] && rest[j - 1] in rest;
      var m :| 0 <= m < |checks[1..]| && checks[1..][m] == rest[j - 1];
      assert checks[m + 1] == rest[j - 1];
      if i > 0 { assert fs[i] == rest[i - 1]; }
    }
  }

  /** The categories a password lacks. Every refine runs, so each missing
      category is reported, in the order number, uppercase, lowercase, special. */
  function PasswordFailures(password: string): (fs: seq<PasswordCheck>)
    ensures forall k :: k in fs <==> !Passes(k, password)
    ensures forall i, j :: 0 <= i < j < |fs| ==> fs[i].Rank() < fs[j].Rank()
  {
    Failing(PASSWORD_CHECKS, password)
  }

  /** The messages of the failing password refines. */
  function PasswordIssues(password: string): (ms: seq<string>)
    ensures |ms| == |PasswordFailures(password)|
    ensures forall i :: 0 <= i < |ms| ==> ms[i] == PasswordFailures(password)[i].Message()
  {
    var fs := PasswordFailures(password);
    seq(|fs|, i requires 0 <= i < |fs| => fs[i].Message())
  }

  /** A password is accepted exactly when it has a digit, an A-Z letter, an a-z
      letter and one of SPECIAL_CHARS. */
  lemma PasswordAccepted(password: string)
    ensures PasswordIssues(password) == [] <==>
      && HasNumber(password) && HasUppercase(password) && HasLowercase(password)
      && HasListedSpecial(password)
  {
    SpecialCharIff(password);
    var fs := PasswordFailures(password);
    assert |PasswordIssues(password)| == |fs|;
    if fs == [] {
      assert Passes(NeedsNumber, password) && Passes(NeedsUppercase, password);
      assert Passes(NeedsLowercase, password) && Passes(NeedsSpecial, password);
    } else {
      assert fs[0] in fs;
    }
  }

  /** Some character of `s` is one of SPECIAL_CHARS. */
  predicate HasListedSpecial(s: string) {
    exists i :: 0 <= i < |s| && s[i] in SPECIAL_CHARS
  }

  /** The special-character regex finds a match exactly when some character is in SPECIAL_CHARS. */
  lemma SpecialCharIff(password: string)
    ensures HasSpecialChar(password) <==> HasListedSpecial(password)
  {
    if HasSpecialChar(password) {
      var i :| 0 <= i < |password| && IsSpecial(password[i]);
      SpecialClassExact(password[i]);
    }
    if exists i :: 0 <= i < |password| && password[i] in SPECIAL_CHARS {
      var i :| 0 <= i < |password| && password[i] in SPECIAL_CHARS;
      SpecialClassExact(password[i]);
    }
  }


  /** `z.string().refine((val) => val !== 'choose')`: only the placeholder is rejected. */
  function SexIssues(sex: string): (ms: seq<string>)
    ensures ms == [] <==> sex != "choose"
    ensures ms != [] ==> ms == [SEX_MESSAGE]
  {
    if sex != "choose" then [] else [SEX_MESSAGE]
  }

  /** `z.boolean().refine((val) => val === true)`. */
  function TermsIssues(terms: bool): (ms: seq<string>)
    ensures ms == [] <==> terms
    ensures ms != [] ==> ms == [TERMS_MESSAGE]
  {
    if terms then [] else [TERMS_MESSAGE]
  }

  /** `z.string().refine((val) => !!val)`: only the empty string is falsy. */
  function CountryIssues(country: string): (ms: seq<string>)
    ensures ms == [] <==> country != ""
    ensures ms != [] ==> ms == [COUNTRY_MESSAGE]
  {
    if country != "" then [] else [COUNTRY_MESSAGE]
  }

  /** One selected file as the browser describes it. */
  datatype FileInfo = FileInfo(mimeType: string, size: nat)

  /** The four members of the image union: a string, a FileList, an ArrayBuffer, null. */
  datatype ImageValue =
    | ImageText(text: string)
    | ImageFiles(files: seq<FileInfo>)
    | ImageBuffer(byteLength: nat)
    | ImageNull

  predicate AllowedType(mimeType: string) {
    mimeType in ["image/png", "image/jpeg"]
  }

  /** The three image refines. Each passes a value that is not a FileList; on a
      FileList they test the list is non-empty, the first file's type, and the
      first file's size (`undefined <= limit` is false, so an empty list fails all three). */
  function ImageIssues(image: ImageValue): (ms: seq<string>)
    ensures !image.ImageFiles? ==> ms == []
    ensures image.ImageFiles? ==>
      (ms == [] <==> |image.files| > 0 && AllowedType(image.files[0].mimeType)
                     && image.files[0].size <= FILE_SIZE_LIMIT)
    ensures image == ImageFiles([]) ==> ms == [NO_FILES_MESSAGE, FILE_TYPE_MESSAGE, FILE_SIZE_MESSAGE]
    ensures image.ImageFiles? && |image.files| > 0 ==> NO_FILES_MESSAGE !in ms
    ensures image.ImageFiles? && |image.files| > 0 ==>
      (FILE_TYPE_MESSAGE in ms <==> !AllowedType(image.files[0].mimeType))
    ensures image.ImageFiles? && |image.files| > 0 ==>
      (FILE_SIZE_MESSAGE in ms <==> image.files[0].size > FILE_SIZE_LIMIT)
    ensures image.ImageFiles? && |image.files| > 0 ==>
      ms == (if !AllowedType(image.files[0].mimeType) then [FILE_TYPE_MESSAGE] else [])
            + (if image.files[0].size > FILE_SIZE_LIMIT then [FILE_SIZE_MESSAGE] else [])
  {
    match image
    case ImageFiles(files) =>
      (if |files| > 0 then [] else [NO_FILES_MESSAGE])
      + (if |files| > 0 && AllowedType(files[0].mimeType) then [] else [FILE_TYPE_MESSAGE])
      + (if |files| > 0 && files[0].size <= FILE_SIZE_LIMIT then [] else [FILE_SIZE_MESSAGE])
    case _ => []
  }

  // ---------------------------------------------------------------------------
  // The schema

  /** The nine fields of the schema, in declaration order. */
  datatype Field = Name | Age | Email | Password | RepeatPassword | Sex | Terms | Image | Country {
    /** The field's key in the form data and in an issue's path. */
    function Key(): string {
      match this
      case Name => "name"
      case Age => "age"
      case Email => "email"
      case Password => "password"
      case RepeatPassword => "repeatPassword"
      case Sex => "sex"
      case Terms => "terms"
      case Image => "image"
      case Country => "country"
    }
  }

  /** The nine fields as the form hands them to the schema; `age` is the raw input text. */
  datatype Candidate = Candidate(
    name: string, age: string, email: string, password: string, repeatPassword: string,
    sex: string, terms: bool, image: ImageValue, country: string)

  /** The object-level refine, reported on `repeatPassword`. The library runs an
      object refine only when no field was aborted by a failed type check; in this
      schema that happens only when the age coerces to NaN. */
  function MatchIssues(aborted: bool, password: string, repeatPassword: string): (r: seq<Issue<Field>>)
    ensures r == [] <==> aborted || password == repeatPassword
    ensures r != [] ==> r == [Issue(RepeatPassword, MISMATCH_MESSAGE)]
  {
    if aborted || password == repeatPassword then [] else [Issue(RepeatPassword, MISMATCH_MESSAGE)]
  }

  /** The refine reports the mismatch on `repeatPassword` and on no other field. */
  lemma RefineAt(aborted: bool, password: string, repeatPassword: string, f: Field)
    ensures MessagesAt(MatchIssues(aborted, password, repeatPassword), f) ==
            if f == RepeatPassword && !aborted && password != repeatPassword then [MISMATCH_MESSAGE] else []
  {
    if !aborted && password != repeatPassword {
      assert MatchIssues(aborted, password, repeatPassword)[1..] == [];
    }
  }

  /** The report of the object schema: each field's messages attached to it, in
      declaration order (`repeatPassword` has no rule of its own), then the issues
      of the object-level refine. */
  function Report(name: seq<string>, age: seq<string>, email: seq<string>, password: seq<string>,
                  sex: seq<string>, terms: seq<string>, image: seq<string>, country: seq<string>,
                  refine: seq<Issue<Field>>): seq<Issue<Field>>
  {
    At(Name, name) + (At(Age, age) + (At(Email, email) + (At(Password, password) + (At(RepeatPassword, [])
    + (At(Sex, sex) + (At(Terms, terms) + (At(Image, image) + (At(Country, country) + refine))))))))
  }

  /** Every issue of the schema. `toNumber` is the unary `+` on the age text (`None` for NaN). */
  function Validate(c: Candidate, isEmail: string -> bool, toNumber: string -> Option<real>): seq<Issue<Field>> {
    Report(NameIssues(c.name), AgeIssues(toNumber(c.age)), EmailIssues(c.email, isEmail),
           PasswordIssues(c.password), SexIssues(c.sex), TermsIssues(c.terms), ImageIssues(c.image),
           CountryIssues(c.country), MatchIssues(toNumber(c.age).None?, c.password, c.repeatPassword))
  }

  /** Reading one field back out of a report gives that field's messages, plus
      whatever the refine reported on it. */
  lemma ReportAt(name: seq<string>, age: seq<string>, email: seq<string>, password: seq<string>,
                 sex: seq<string>, terms: seq<string>, image: seq<string>, country: seq<string>,
                 refine: seq<Issue<Field>>, f: Field)
    ensures MessagesAt(Report(name, age, email, password, sex, terms, image, country, refine), f) ==
      (match f
       case Name => name
       case Age => age
       case Email => email
       case Password => password
       case RepeatPassword => []
       case Sex => sex
       case Terms => terms
       case Image => image
       case Country => country) + MessagesAt(refine, f)
  {
    var r8 := At(Country, country) + refine;
    var r7 := At(Image, image) + r8;
    var r6 := At(Terms, terms) + r7;
    var r5 := At(Sex, sex) + r6;
    var r4 := At(RepeatPassword, []) + r5;
    var r3 := At(Password, password) + r4;
    var r2 := At(Email, email) + r3;
    var r1 := At(Age, age) + r2;
    AtThen(Name, name, r1, f);
    AtThen(Age, age, r2, f);
    AtThen(Email, email, r3, f);
    AtThen(Password, password, r4, f);
    AtThen(RepeatPassword, [], r5, f);
    AtThen(Sex, sex, r6, f);
    AtThen(Terms, terms, r7, f);
    AtThen(Image, image, r8, f);
    AtThen(Country, country, refine, f);
    match f
    case Name =>
    case Age =>
    case Email =>
    case Password =>
    case RepeatPassword =>
    case Sex =>
    case Terms =>
    case Image =>
    case Country =>
  }

  /** The messages the schema reports on one field: its rule's, and for
      `repeatPassword` the mismatch when the age is a number. */
  function RuleMessages(c: Candidate, isEmail: string -> bool, toNumber: string -> Option<real>, f: Field): seq<string> {
    match f
    case Name => NameIssues(c.name)
    case Age => AgeIssues(toNumber(c.age))
    case Email => EmailIssues(c.email, isEmail)
    case Password => PasswordIssues(c.password)
    case RepeatPassword =>
      if toNumber(c.age).Some? && c.password != c.repeatPassword then [MISMATCH_MESSAGE] else []
    case Sex => SexIssues(c.sex)
    case Terms => TermsIssues(c.terms)
    case Image => ImageIssues(c.image)
    case Country => CountryIssues(c.country)
  }

  /** The issues on each field are exactly that field's rule, and the password
      mismatch is reported on `repeatPassword` and nowhere else. */
  lemma FieldMessages(c: Candidate, isEmail: string -> bool, toNumber: string -> Option<real>, f: Field)
    ensures MessagesAt(Validate(c, isEmail, toNumber), f) == RuleMessages(c, isEmail, toNumber, f)
  {
    var refine := MatchIssues(toNumber(c.age).None?, c.password, c.repeatPassword);
    var name, age, email, password := NameIssues(c.name), AgeIssues(toNumber(c.age)), EmailIssues(c.email, isEmail), PasswordIssues(c.password);
    var sex, terms, image, country := SexIssues(c.sex), TermsIssues(c.terms), ImageIssues(c.image), CountryIssues(c.country);
    assert Validate(c, isEmail, toNumber) == Report(name, age, email, password, sex, terms, image, country, refine);
    ReportAt(name, age, email, password, sex, terms, image, country, refine, f);
    RefineAt(toNumber(c.age).None?, c.password, c.repeatPassword, f);
  }

  /** The schema accepts a candidate exactly when every field rule passes and the passwords agree. */
  lemma ValidIff(c: Candidate, isEmail: string -> bool, toNumber: string -> Option<real>)
    ensures Validate(c, isEmail, toNumber) == [] <==>
      && |c.name| > 0 && !IsLower(c.name[0])
      && (toNumber(c.age).Some? && toNumber(c.age).value > 0.0)
      && isEmail(c.email)
      && HasNumber(c.password) && HasUppercase(c.password) && HasLowercase(c.password)
      && HasListedSpecial(c.password)
      && c.sex != "choose"
      && c.terms
      && (c.image.ImageFiles? ==>
            |c.image.files| > 0 && AllowedType(c.image.files[0].mimeType)
            && c.image.files[0].size <= FILE_SIZE_LIMIT)
      && c.country != ""
      && c.password == c.repeatPassword
  {
    PasswordAccepted(c.password);
    ReportEmpty(NameIssues(c.name), AgeIssues(toNumber(c.age)), EmailIssues(c.email, isEmail),
                PasswordIssues(c.password), SexIssues(c.sex), TermsIssues(c.terms), ImageIssues(c.image),
                CountryIssues(c.country), MatchIssues(toNumber(c.age).None?, c.password, c.repeatPassword));
  }

  /** A report is empty exactly when every rule and the refine reported nothing. */
  lemma ReportEmpty(name: seq<string>, age: seq<string>, email: seq<string>, password: seq<string>,
                    sex: seq<string>, terms: seq<string>, image: seq<string>, country: seq<string>,
                    refine: seq<Issue<Field>>)
    ensures Report(name, age, email, password, sex, terms, image, country, refine) == [] <==>
      name == [] && age == [] && email == [] && password == [] && sex == [] && terms == []
      && image == [] && country == [] && refine == []
  {
  }
}
