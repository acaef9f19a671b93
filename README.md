# reactForms validation core in Dafny

This project models the validation and submission core of a small React
application that collects a user record through two forms and keeps the last
submitted record in a Redux store.

- **The controlled form** (`FormControl.tsx`) validates its record with a zod
  object schema. The schema has one rule per field:
  - name;
  - age, coerced from text with unary `+`;
  - email;
  - password, with four regular-expression checks, one of them a character class
    built by escaping a list of special characters;
  - sex, terms, image (a union whose three refines inspect a `FileList`) and
    country;
  - an object-level refine comparing the two passwords.
- **The uncontrolled form** (`FormUncontrol.tsx`) handles `submit` itself:
  1. It builds a record from seven defaults and every element of the form, in
     document order.
  2. It parses the record with a weaker schema.
  3. On success it clears the outputs of the five schema fields and navigates.
  4. On failure it writes the first message for each record key (skipping keys
     that contain `err`) into the matching output. It navigates only if the
     error carried no issues.
- **The store** (`dataSlice.tsx`) has two actions. `addData` shallow-merges a
  payload into the state. `clearData` restores the initial record.

Modules, one file each:

| module | file | contents |
|---|---|---|
| `Text` | `text.dfy` | `Option`; the ASCII character classes of the regular expressions; ASCII `toUpperCase`; the white space that JavaScript's number conversion trims; `includes`. |
| `Values` | `values.dfy` | String, number and boolean values held by the records. |
| `Issues` | `issues.dfy` | Validation issues (path, message) and how a field's messages are read back from a report. |
| `Maps` | `maps.dfy` | Keys assigned one after another, as `obj[key] = value` does in a loop. |
| `RegexClass` | `regex_class.dfy` | The escaping `replace` and a parser for the bracket class it produces. |
| `FormControl` | `form_control.dfy` | The controlled form's constants, field rules and schema. |
| `FormUncontrol` | `form_uncontrol.dfy` | The record-building loop (a method), the weaker schema, the outputs as a class with a writing loop, `submit`, and the rendered form. |
| `DataSlice` | `data_slice.dfy` | The stored record, payloads of optional fields, and the reducer. |

The email grammar and unary `+` on the age text are abstract. They enter as
the function parameters `isEmail` and `toNumber`, and `toNumber` returns `None`
for NaN. Every property below holds for every choice of the two. Unary `+` on a
single password character is defined concretely (`CoercesToNumber`).

Where the two forms differ, lemmas state the difference.
`HintPromisesMore` shows that the uncontrolled password check only asks for a
character that converts to a number, although its message promises four
categories. `RenderedRejectionThrows` shows what happens on the rendered form
when validation fails:
- The keys of the record include the button's name `submit`.
- No `err-submit` output exists.
- So the handler writes the nine field outputs and then throws at `submit`. It
  never reaches the `err.issues.length` test.

## Model

| member | source | states |
|---|---|---|
| Text.ToUpper | src/page/FormControl/FormControl.tsx:35 | Upper-casing turns a lower-case ASCII letter into its upper-case letter (32 code points lower) and leaves every other character unchanged. |
| Text.UpperFixedPoint | src/page/FormUncontrol/FormUncontrol.tsx:44 | A character equals its upper-case form exactly when it is not a lower-case letter; this is the test the name refines make. |
| Issues.FirstMessage | src/page/FormUncontrol/FormUncontrol.tsx:91-93 | `find` over the issues by first path element: none exactly when no issue names the field, otherwise the message of the earliest issue naming it. |
| Issues.MessagesAt | src/page/FormControl/FormControl.tsx:30-108 | A field never has more messages than the report has issues. |
| Issues.MessagesAtAppend | src/page/FormControl/FormControl.tsx:30-108 | The messages on a field in two concatenated reports are those of the first followed by those of the second. |
| Issues.MessagesAtAt | src/page/FormControl/FormControl.tsx:30-108 | One rule's issues carry exactly its messages on its own field and none on any other. |
| Issues.AtThen | src/page/FormControl/FormControl.tsx:30-108 | Reading a field from one rule's issues followed by the rest: the rule's messages come first if it is that field's rule, otherwise only the rest counts. |
| Issues.FirstMessageIsHead | src/page/FormUncontrol/FormUncontrol.tsx:91-93 | The message `find` selects is the first of the field's messages, and there is none when the field has no message. |
| Issues.MessagesAtMembers | src/page/FormUncontrol/FormUncontrol.tsx:91-93 | A message is among a field's messages exactly when some issue on that field carries it. |
| Maps.LastAssigned | src/page/FormUncontrol/FormUncontrol.tsx:32-40 | Gives the position of the last assignment to a key, with no later one to it; none exactly when no assignment names the key. |
| Maps.Assign | src/page/FormUncontrol/FormUncontrol.tsx:32-40 | The map after a run of `obj[key] = value` assignments in order; characterised by `AssignLookup` (a key holds its last assigned value, or its old one). |
| Maps.AssignLookup | src/page/FormUncontrol/FormUncontrol.tsx:32-40 | After a run of assignments a key is present exactly when it was before or was assigned. It holds its last assigned value, or its old value when never assigned. |
| Maps.AssignKeepsKeys | src/page/FormUncontrol/FormUncontrol.tsx:90-104 | Assigning only keys already present keeps the set of keys. |
| Maps.AssignStep | src/page/FormUncontrol/FormUncontrol.tsx:32-40 | Applying the first i+1 assignments is applying the first i and then assignment i. |
| Maps.AssignDistinct | src/page/FormUncontrol/FormUncontrol.tsx:90-104 | When no key is assigned twice, every assigned value is still there at the end. |
| Maps.AssignOther | src/page/FormUncontrol/FormUncontrol.tsx:90-104 | A key no assignment names keeps its old value. |
| Maps.FirstMissing | src/page/FormUncontrol/FormUncontrol.tsx:95-97 | The position of the first write whose target is missing: every earlier target exists and this one does not (or every target exists). |
| Maps.FirstMissingIs | src/page/FormUncontrol/FormUncontrol.tsx:95-97 | Any position with those two properties is the first missing one. |
| RegexClass.EscapeChar | src/page/FormControl/FormControl.tsx:27 | The replacement prefixes a backslash to exactly the fourteen regular-expression metacharacters (dot, star, plus, question mark, caret, dollar, braces, parentheses, pipe, brackets, backslash) and copies every other character. |
| RegexClass.IsMeta | src/page/FormControl/FormControl.tsx:27 | The fourteen characters the escaping pattern matches; `EscapeChar` prefixes a backslash to exactly these. |
| RegexClass.Escape | src/page/FormControl/FormControl.tsx:27 | Escaping at most doubles the length and never shortens. |
| RegexClass.Unescape | src/page/FormControl/FormControl.tsx:27 | Dropping escapes never lengthens a string. |
| RegexClass.UnescapeEscape | src/page/FormControl/FormControl.tsx:27 | Removing the escapes gives back the original text, so the replacement loses no character. |
| RegexClass.ParseAtom | src/page/FormControl/FormControl.tsx:26-28 | A class atom consumes at least one character, is never an unescaped `]`, and leaves a suffix of the input. |
| RegexClass.ParseItem | src/page/FormControl/FormControl.tsx:26-28 | A class item (a single atom or an `a-b` range) consumes at least one character and leaves a suffix. |
| RegexClass.ParseClassBody | src/page/FormControl/FormControl.tsx:26-28 | A class body is read up to its closing bracket and leaves a strict suffix. |
| RegexClass.BodyStep | src/page/FormControl/FormControl.tsx:26-28 | A class body that starts with an item reads as that item followed by the rest of the body. |
| RegexClass.ParseClass | src/page/FormControl/FormControl.tsx:26-28 | A pattern that parses as a class starts with `[` and ends with `]`. |
| RegexClass.ClosingBracketLast | src/page/FormControl/FormControl.tsx:26-28 | A body that parses with nothing left over ends in `]`. |
| RegexClass.ItemsOf | src/page/FormControl/FormControl.tsx:26-28 | The items a character list denotes, with `x-y` read as a range: never more items than characters. |
| RegexClass.ParseEscapedList | src/page/FormControl/FormControl.tsx:26-28 | An escaped list with no letters or digits and ordered dash ranges parses to the items of the unescaped list. |
| RegexClass.ParseEscapedClass | src/page/FormControl/FormControl.tsx:26-28 | The bracketed escaped list parses as a class of exactly those items. |
| RegexClass.EscapedNoCaret | src/page/FormControl/FormControl.tsx:26-28 | The built class never starts with `^`, so it is never negated. |
| RegexClass.ItemsOfCover | src/page/FormControl/FormControl.tsx:26-28 | The class matches every character of the list, and only characters of the enclosing set when every range stays inside it. |
| RegexClass.HeadCovers | src/page/FormControl/FormControl.tsx:26-28 | The first item of a list matches the characters it is read from, and only characters of the enclosing set. |
| FormControl.DashOfSpecialChars | src/page/FormControl/FormControl.tsx:22 | The only `-` among the special characters is at position 12, between `,` and `.`. |
| FormControl.SpecialCharsPunctuation | src/page/FormControl/FormControl.tsx:22 | The list holds 32 characters, and a character is in it exactly when it is printable ASCII and neither a letter, a digit nor the space. |
| FormControl.SpecialCharsDistinct | src/page/FormControl/FormControl.tsx:22 | The list is in strictly increasing order, so no character is listed twice. |
| FormControl.HasNumber | src/page/FormControl/FormControl.tsx:23 | `/\d/.test`: some character is an ASCII digit; used by `PasswordAccepted`. |
| FormControl.HasUppercase | src/page/FormControl/FormControl.tsx:24 | `/[A-Z]/.test`: some character is an upper-case ASCII letter; used by `PasswordAccepted`. |
| FormControl.HasLowercase | src/page/FormControl/FormControl.tsx:25 | `/[a-z]/.test`: some character is a lower-case ASCII letter; used by `PasswordAccepted`. |
| FormControl.IsSpecial | src/page/FormControl/FormControl.tsx:26-28 | One character matches the class parsed from the built pattern; characterised by `SpecialClassExact`. |
| FormControl.HasSpecialChar | src/page/FormControl/FormControl.tsx:54 | The special-character test on a password; characterised by `SpecialCharIff`. |
| FormControl.SpecialClassExact | src/page/FormControl/FormControl.tsx:26-28 | The built class matches a character exactly when it is one of the special characters, although the `,-.` in it reads as a range. |
| FormControl.SpecialCharsConditions | src/page/FormControl/FormControl.tsx:22 | The special characters hold no letter or digit, and their one dash range is ordered and stays inside the list. |
| FormControl.NameIssues | src/page/FormControl/FormControl.tsx:32-37 | No message exactly when the name is non-empty and does not start with a lower-case letter; otherwise the one upper-case message, which the empty string also gets. |
| FormControl.AgeIssues | src/page/FormControl/FormControl.tsx:38-41 | NaN gives the library's NaN message; a non-positive number gives the negative-values message; a positive number passes. |
| FormControl.EmailIssues | src/page/FormControl/FormControl.tsx:42 | No message exactly when the address is valid, otherwise the one invalid-email message. |
| FormControl.MessagesDistinct | src/page/FormControl/FormControl.tsx:43-56 | The four password checks have pairwise different messages. |
| FormControl.Failing | src/page/FormControl/FormControl.tsx:43-56 | Of a list of checks in declaration order, gives exactly those the password fails, keeping the order. |
| FormControl.RankBelowAll | src/page/FormControl/FormControl.tsx:43-56 | A first check followed by later checks is still in declaration order. |
| FormControl.PasswordFailures | src/page/FormControl/FormControl.tsx:43-56 | The failed checks are exactly the checks the password does not pass, in declaration order. |
| FormControl.PasswordIssues | src/page/FormControl/FormControl.tsx:43-56 | One message per failed check, in the same order. |
| FormControl.PasswordAccepted | src/page/FormControl/FormControl.tsx:23-56 | The password has no message exactly when it contains a digit, an upper-case letter, a lower-case letter and one of the special characters. |
| FormControl.SpecialCharIff | src/page/FormControl/FormControl.tsx:54 | The special-character test holds exactly when the password contains a character of the list. |
| FormControl.SexIssues | src/page/FormControl/FormControl.tsx:58-60 | No message exactly when the value is not `choose`, otherwise the one choose-gender message. |
| FormControl.TermsIssues | src/page/FormControl/FormControl.tsx:61-63 | No message exactly when the terms are accepted. |
| FormControl.CountryIssues | src/page/FormControl/FormControl.tsx:101-103 | No message exactly when the country is non-empty. |
| FormControl.ImageIssues | src/page/FormControl/FormControl.tsx:64-100 | A string, buffer or null always passes. A file list passes exactly when it is non-empty and its first file is a PNG or JPEG of at most 1 MiB. An empty list gets all three messages. Otherwise the messages are the type message when the type check fails, then the size message when the size check fails, and nothing else. |
| FormControl.MatchIssues | src/page/FormControl/FormControl.tsx:105-108 | The object refine reports nothing exactly when a field was aborted or the passwords are equal, otherwise one mismatch issue on `repeatPassword`. |
| FormControl.RefineAt | src/page/FormControl/FormControl.tsx:105-108 | The mismatch appears on `repeatPassword` only, and only when it was reported. |
| FormControl.ReportAt | src/page/FormControl/FormControl.tsx:30-104 | Reading a field out of the object report gives that field's rule messages followed by whatever the refine put on it. |
| FormControl.Report | src/page/FormControl/FormControl.tsx:30-104 | The object report: each field's messages on that field in declaration order, then the refine's issues; read back by `ReportAt` and `ReportEmpty`. |
| FormControl.Validate | src/page/FormControl/FormControl.tsx:30-108 | The `formValidation` schema applied to a record; characterised by `ValidIff` (no issue exactly when every rule passes and the passwords agree) and `FieldMessages`. |
| FormControl.RuleMessages | src/page/FormControl/FormControl.tsx:30-108 | The messages one field's rule gives, with the mismatch on `repeatPassword` when the age is a number; `FieldMessages` shows `Validate` reports exactly these. |
| FormControl.FieldMessages | src/page/FormControl/FormControl.tsx:30-108 | The schema's messages on each field are exactly its rule's. `repeatPassword` gets the mismatch exactly when the age is a number and the passwords differ. |
| FormControl.ValidIff | src/page/FormControl/FormControl.tsx:30-108 | The schema reports no issue exactly when every field rule passes and the two passwords are equal. |
| FormControl.ReportEmpty | src/page/FormControl/FormControl.tsx:30-108 | The report is empty exactly when every rule and the refine report nothing. |
| FormUncontrol.Assignments | src/page/FormUncontrol/FormUncontrol.tsx:32-40 | One assignment per form element, in document order: `checked` for `terms`, `value` for every other name. |
| FormUncontrol.Assignment | src/page/FormUncontrol/FormUncontrol.tsx:33-39 | The assignment one element makes: `checked` under `terms`, `value` under any other name; used by `LastElementWins`. |
| FormUncontrol.Built | src/page/FormUncontrol/FormUncontrol.tsx:22-40 | The record the loop builds: the defaults, then every element assigned in order; characterised by `LastElementWins`, `DefaultKept` and `BuiltKeys`. |
| FormUncontrol.KeyOrder | src/page/FormUncontrol/FormUncontrol.tsx:22-40 | The record's keys in insertion order; characterised by `KeyOrderLists` and `KeyOrderIsDomain`. |
| FormUncontrol.BuildFormData | src/page/FormUncontrol/FormUncontrol.tsx:22-40 | The loop builds the record the defaults and the elements define, with its keys in insertion order. |
| FormUncontrol.LastElementWins | src/page/FormUncontrol/FormUncontrol.tsx:32-40 | The record holds the value of the last element of each name. |
| FormUncontrol.DefaultKept | src/page/FormUncontrol/FormUncontrol.tsx:22-30 | A default no element overrides is kept. |
| FormUncontrol.BuiltKeys | src/page/FormUncontrol/FormUncontrol.tsx:22-40 | The record's keys are the seven defaults and the element names. |
| FormUncontrol.KeyOrderLists | src/page/FormUncontrol/FormUncontrol.tsx:22-40 | The insertion order starts with the defaults, never repeats a key, and lists exactly the defaults and element names. |
| FormUncontrol.KeyOrderIsDomain | src/page/FormUncontrol/FormUncontrol.tsx:86 | `Object.keys` of the record lists each of its keys exactly once. |
| FormUncontrol.StringCheck | src/page/FormUncontrol/FormUncontrol.tsx:44-64 | `z.string()` fails fatally, with the library's type message, exactly when the value is not a string; a string gets its refines' messages. |
| FormUncontrol.NameMessages | src/page/FormUncontrol/FormUncontrol.tsx:44-46 | A non-empty name passes exactly when its first character equals its upper-case form; otherwise it gets the upper-case message. |
| FormUncontrol.NameRulesAgree | src/page/FormUncontrol/FormUncontrol.tsx:44-46 | On a non-empty name the uncontrolled and the controlled name rules report the same messages. |
| FormUncontrol.PasswordMessages | src/page/FormUncontrol/FormUncontrol.tsx:52-63 | The password passes exactly when one of its characters converts to a number (a digit or trimmed white space); otherwise it gets the four-category hint. |
| FormUncontrol.CoercesToNumber | src/page/FormUncontrol/FormUncontrol.tsx:55 | `+c` is a number for a one-character string exactly when the character is a digit or trimmed white space; used by `PasswordMessages`. |
| FormUncontrol.HasNumericChar | src/page/FormUncontrol/FormUncontrol.tsx:54-58 | Some character of the password converts to a number; `PasswordMessages` passes exactly these. |
| FormUncontrol.AgeCheck | src/page/FormUncontrol/FormUncontrol.tsx:47-50 | NaN aborts the field. The messages are those of the controlled form's age rule. |
| FormUncontrol.RefineIssues | src/page/FormUncontrol/FormUncontrol.tsx:70-73 | The refine reports nothing exactly when a field was aborted or the passwords are equal, otherwise one mismatch issue on `repeatPassword`. |
| FormUncontrol.ChecksOf | src/page/FormUncontrol/FormUncontrol.tsx:43-64 | The five field schemas applied to the record; read back through `LayoutAt` and `FieldMessages`. |
| FormUncontrol.Layout | src/page/FormUncontrol/FormUncontrol.tsx:42-73 | The report: each field's messages on its path in declaration order, then the refine's; characterised by `LayoutAt` and `LayoutEmpty`. |
| FormUncontrol.FieldIssues | src/page/FormUncontrol/FormUncontrol.tsx:42-73 | The report of a record whose age is a string; characterised by `FieldMessages`. |
| FormUncontrol.Schema | src/page/FormUncontrol/FormUncontrol.tsx:42-76 | `formValidation.parse`: a record that passes, a rejection with issues, or a `TypeError`; characterised by `ParsedIff`, `EmptyNameThrows`, `RejectionHasIssues` and `OnlySchemaFields`. |
| FormUncontrol.SchemaKeysDistinct | src/page/FormUncontrol/FormUncontrol.tsx:43-64 | The five schema keys are pairwise different. |
| FormUncontrol.EmptyNameThrows | src/page/FormUncontrol/FormUncontrol.tsx:44 | Parsing throws a `TypeError` exactly when the name is the empty string. |
| FormUncontrol.RejectionHasIssues | src/page/FormUncontrol/FormUncontrol.tsx:42-76 | A schema rejection always carries at least one issue. |
| FormUncontrol.ParsedIff | src/page/FormUncontrol/FormUncontrol.tsx:42-76 | The record parses exactly when all of these hold: the name is a non-empty string whose first character is upper-case-stable; the age is a string converting to a positive number; the email is valid; the password has a numeric character; both passwords are equal strings. |
| FormUncontrol.LayoutEmpty | src/page/FormUncontrol/FormUncontrol.tsx:42-73 | The report is empty exactly when no field and not the refine reported anything. |
| FormUncontrol.LayoutAt | src/page/FormUncontrol/FormUncontrol.tsx:42-73 | The report's messages on a schema field are its check's followed by the refine's. |
| FormUncontrol.RefineAt | src/page/FormUncontrol/FormUncontrol.tsx:70-73 | The mismatch appears on `repeatPassword` only, when no field was aborted and the passwords differ. |
| FormUncontrol.FieldMessages | src/page/FormUncontrol/FormUncontrol.tsx:42-73 | Each schema field's messages are its own check's. `repeatPassword` also gets the mismatch when nothing was aborted and the passwords differ. |
| FormUncontrol.OnlySchemaFields | src/page/FormUncontrol/FormUncontrol.tsx:42-73 | Every issue of a rejection names one of the five schema fields or has the empty path. |
| FormUncontrol.LayoutPaths | src/page/FormUncontrol/FormUncontrol.tsx:42-73 | The report adds only schema paths to a refine whose paths are schema paths. |
| FormUncontrol.AtThenPaths | src/page/FormUncontrol/FormUncontrol.tsx:42-73 | One field's issues followed by a report of schema paths holds only schema paths. |
| FormUncontrol.AtPaths | src/page/FormUncontrol/FormUncontrol.tsx:42-73 | Every issue of one field's rule carries that field's path. |
| FormUncontrol.OtherKeysIgnored | src/page/FormUncontrol/FormUncontrol.tsx:42-69 | Changing a key the schema does not declare never changes the result of parsing. |
| FormUncontrol.ControlledPasswordPasses | src/page/FormUncontrol/FormUncontrol.tsx:52-63 | Every password the controlled form accepts also passes here. |
| FormUncontrol.NoUppercaseRejected | src/page/FormControl/FormControl.tsx:48-50 | A password without an upper-case letter always fails the controlled form's checks. |
| FormUncontrol.HintPromisesMore | src/page/FormUncontrol/FormUncontrol.tsx:52-63 | `1` and a single space pass here but fail the controlled form's password rule, which the hint describes. |
| FormUncontrol.OutputNameInjective | src/page/FormUncontrol/FormUncontrol.tsx:97 | Two keys have the same `err-` output name exactly when they are equal. |
| FormUncontrol.DataKeys | src/page/FormUncontrol/FormUncontrol.tsx:86-88 | The filter keeps exactly the keys that do not contain `err`, in order, and keeps them distinct. |
| FormUncontrol.DataKeysAppend | src/page/FormUncontrol/FormUncontrol.tsx:86-88 | Filtering distributes over concatenation. |
| FormUncontrol.IssueWrites | src/page/FormUncontrol/FormUncontrol.tsx:90-104 | One write per key, in order: its output gets the key's first message or the empty string; landed by `WritesLand`. |
| FormUncontrol.PlanFor | src/page/FormUncontrol/FormUncontrol.tsx:75-109 | What the handler does after parsing: clear the five schema outputs and navigate, write every data key's output and stay when there are issues, or throw at once on a `TypeError`; used by `RejectedPlanLands` and `RejectedPlanThrows`. |
| FormUncontrol.SubmitPlan | src/page/FormUncontrol/FormUncontrol.tsx:20-109 | The plan for one submission of the form's elements; `Submit` carries it out. |
| FormUncontrol.Run | src/page/FormUncontrol/FormUncontrol.tsx:79-109 | Carrying out a plan: the writes land up to the first missing output, where the handler throws; characterised by `RunLands` and `WritesThenMissing`. |
| FormUncontrol.ErrorOutputs.constructor | src/page/FormUncontrol/FormUncontrol.tsx:114-153 | A form whose named outputs all show the empty string; `SubmitFresh` builds the rendered one. |
| FormUncontrol.ErrorOutputs.WriteAll | src/page/FormUncontrol/FormUncontrol.tsx:90-104 | Writes until the first output that does not exist, where setting `.value` throws. It reports how many writes landed, and the new state is the old one with exactly those writes. |
| FormUncontrol.Submit | src/page/FormUncontrol/FormUncontrol.tsx:20-110 | The handler's effect on the outputs and its outcome are those of the plan the parse result selects. |
| FormUncontrol.WritesLand | src/page/FormUncontrol/FormUncontrol.tsx:90-104 | When every key has an output, every write lands. Each output then shows its key's first message or the empty string, and every other output is unchanged. |
| FormUncontrol.RunLands | src/page/FormUncontrol/FormUncontrol.tsx:90-106 | With every output present, a plan ends in its own outcome with each output showing its message and nothing else changed. |
| FormUncontrol.NavigatesOnlyWhenParsed | src/page/FormUncontrol/FormUncontrol.tsx:75-109 | The handler navigates only when the record parsed. |
| FormUncontrol.ParsedClears | src/page/FormUncontrol/FormUncontrol.tsx:76-83 | A record that parses clears the five schema outputs, navigates, and leaves every other output alone. |
| FormUncontrol.RejectedShowsMessages | src/page/FormUncontrol/FormUncontrol.tsx:84-106 | When every `err-` output exists, a rejection stays on the form. Each data key's output shows its first message or the empty string, and other outputs are unchanged. |
| FormUncontrol.DataKeysDistinct | src/page/FormUncontrol/FormUncontrol.tsx:86-88 | The filtered record keys never repeat. |
| FormUncontrol.RejectedPlanLands | src/page/FormUncontrol/FormUncontrol.tsx:84-106 | A rejection with issues, whose outputs all exist, stays on the form with each output showing its key's first message. |
| FormUncontrol.EmptyNameChangesNothing | src/page/FormUncontrol/FormUncontrol.tsx:91 | With an empty name the handler throws before writing any output. |
| FormUncontrol.OutputNamesFiltered | src/page/FormUncontrol/FormUncontrol.tsx:86-88 | Every output name contains `err`, so the filter drops the outputs' own entries from the record. |
| FormUncontrol.NoErr | src/page/FormUncontrol/FormUncontrol.tsx:87 | A string with no two consecutive `r`s does not contain `err`. |
| FormUncontrol.RenderedKeysKept | src/page/FormUncontrol/FormUncontrol.tsx:115-154 | None of the nine field names, and not `submit`, contains `err`. |
| FormUncontrol.RenderedFieldNames | src/page/FormUncontrol/FormUncontrol.tsx:115-153 | The first eighteen elements of the rendered form are named by the nine fields and their nine outputs and nothing else. |
| FormUncontrol.RenderedNameAt | src/page/FormUncontrol/FormUncontrol.tsx:115-153 | Element m of the first eighteen is field m/2 when m is even and that field's output when m is odd. |
| FormUncontrol.DefaultKeysRendered | src/page/FormUncontrol/FormUncontrol.tsx:22-30 | Every default key is one of the rendered fields. |
| FormUncontrol.RenderedInitKey | src/page/FormUncontrol/FormUncontrol.tsx:115-153 | The keys after the first eighteen elements are exactly the nine fields and their outputs. |
| FormUncontrol.RenderedInitKeys | src/page/FormUncontrol/FormUncontrol.tsx:115-153 | The same, for all keys at once. |
| FormUncontrol.SubmitUnlisted | src/page/FormUncontrol/FormUncontrol.tsx:154 | `submit` is neither a field nor an output name. |
| FormUncontrol.RenderedKeyOrder | src/page/FormUncontrol/FormUncontrol.tsx:114-157 | On the rendered form the record's keys end with `submit`, added by the button. |
| FormUncontrol.RenderedDataKeys | src/page/FormUncontrol/FormUncontrol.tsx:114-157 | The filtered keys of the rendered form are the nine fields followed by `submit`. |
| FormUncontrol.RenderedRejectionThrows | src/page/FormUncontrol/FormUncontrol.tsx:84-157 | On the rendered form a rejection writes each of the nine field outputs its first message and then throws at the missing `err-submit`, so it never reaches the issue-count test. |
| FormUncontrol.RejectedPlanThrows | src/page/FormUncontrol/FormUncontrol.tsx:90-104 | When only the last filtered key lacks an output, a rejection writes all the others and then throws. |
| FormUncontrol.WritesThenMissing | src/page/FormUncontrol/FormUncontrol.tsx:95-97 | Writes to present outputs followed by one to a missing output stop exactly at the missing one. |
| FormUncontrol.RenderedOutputs | src/page/FormUncontrol/FormUncontrol.tsx:116-153 | The nine outputs of the rendered form, `err-` and each field, in document order. |
| FormUncontrol.RenderedOutputsListed | src/page/FormUncontrol/FormUncontrol.tsx:114-157 | Every rendered field has its output, and there is no `err-submit`. |
| FormUncontrol.FreshKeys | src/page/FormUncontrol/FormUncontrol.tsx:114-157 | The freshly rendered form has exactly the nine field outputs. |
| FormUncontrol.SubmitFresh | src/page/FormUncontrol/FormUncontrol.tsx:20-157 | Submitting the rendered form with all outputs empty: it navigates exactly when the record parses and throws otherwise. Afterwards each output shows its field's first message after a rejection, and the empty string after a parse or a `TypeError`. |
| FormUncontrol.FreshOutcome | src/page/FormUncontrol/FormUncontrol.tsx:20-157 | The same facts about running the submission plan on the fresh outputs, which keep their names. |
| DataSlice.LookupExtensional | src/features/dataSlice.tsx:4-14 | Two records that agree on every key are equal. |
| DataSlice.Full | src/features/dataSlice.tsx:32 | A payload built from a whole record provides every key with the record's value. |
| DataSlice.MergeLookup | src/features/dataSlice.tsx:31-33 | After the spread, each key holds the payload's value when provided and the old value otherwise. |
| DataSlice.Merge | src/features/dataSlice.tsx:32 | `{...state, ...action.payload}`; characterised by `MergeLookup`. |
| DataSlice.Reduce | src/features/dataSlice.tsx:27-38 | The reducer: `addData` merges, `clearData` gives the initial record, any other action keeps the state; characterised by the lemmas below. |
| DataSlice.HasData | src/page/Home/Home.tsx:8 | The results view's test that the stored name is non-empty; used by `ShowsDataAfterAdd`. |
| DataSlice.InitialStateBlank | src/features/dataSlice.tsx:15-25 | The initial record is blank: age 0, terms false, every other key empty. It shows no data. |
| DataSlice.ClearResets | src/features/dataSlice.tsx:34-36 | Clearing gives the initial record from any state, and clearing twice is clearing once. |
| DataSlice.PresentFieldsWin | src/features/dataSlice.tsx:31-33 | A key the payload provides takes the payload's value. |
| DataSlice.AbsentFieldsKept | src/features/dataSlice.tsx:31-33 | A key the payload leaves out keeps the state's value. |
| DataSlice.FullPayloadRoundTrip | src/features/dataSlice.tsx:31-33 | Adding a whole record gives back that record, whatever the state was. |
| DataSlice.EmptyPayloadKeeps | src/features/dataSlice.tsx:31-33 | Adding an empty payload changes nothing. |
| DataSlice.AddThenClear | src/features/dataSlice.tsx:31-36 | Adding and then clearing gives the initial record, which shows no data. |
| DataSlice.OverlayProvided | src/features/dataSlice.tsx:32 | Overlaying two payloads provides the second's value where it has one, else the first's. |
| DataSlice.MergesCompose | src/features/dataSlice.tsx:31-33 | Two successive adds equal one add of the overlaid payloads, and adding the same payload twice equals adding it once. |
| DataSlice.OtherActionsIgnored | src/features/dataSlice.tsx:27-38 | Any other action leaves the state unchanged. |
| DataSlice.ShowsDataAfterAdd | src/page/Home/Home.tsx:8 | After an add the results view shows data exactly when the payload's name is non-empty, or, without a name, when the state already showed data. |
| DataSlice.ValidSubmissionShowsData | src/page/FormControl/FormControl.tsx:131-142 | A record the controlled schema accepts, added with its name, is shown by the results view. |

## Left out

- The email grammar of `z.string().email()` and unary `+` on the age text are
  the parameters `isEmail` and `toNumber`. They are not defined, and every
  property holds for all of them.
- FormUncontrol.CoercesToNumber: unary `+` on one password character is
  modelled concretely (a digit or JavaScript white space). Nothing ties it to
  `toNumber`, so a `toNumber` that disagrees with it on one-character strings
  is allowed.
- Numbers are reals. NaN is `None` from `toNumber`. Infinities and the finite
  width of JavaScript numbers are not modelled.
- Text.ToUpper: only ASCII letters are upper-cased. JavaScript's
  `toUpperCase` maps many more characters, and some to several characters.
  Strings are sequences of Unicode scalar values, not UTF-16 code units, so
  `val[0]` is a whole character.
- React Hook Form, the zod resolver and the controlled form's JSX are out of
  scope. Of the uncontrolled form's JSX, only the names and document order of
  its listed elements (`IsRendered`) and its empty outputs (`RenderedOutputs`)
  are modelled. The controlled form's schema is modelled as `Validate`. How the resolver
  chooses which message to display per field is not modelled.
- The controlled form's `onSubmit` is asynchronous. It reads the first file as
  base64 with `FileReader`, dispatches `addData` and navigates. The file reading
  and the navigation are left out. The dispatch is the `AddData` action of
  `DataSlice.Reduce`.
- DataSlice.Merge: a payload key set to `undefined` overwrites with
  `undefined`, and keys outside the nine are copied into the state. The payload
  here provides a value or nothing for each of the nine keys.
- `Object.keys` lists integer-like keys first, and `__proto__` assigns the
  prototype. The model uses plain insertion order for every name.
- The `formRef.current` null check and `console.log` are left out. The ref is
  always attached when the handler runs.
- zod strips unknown keys from `success.data`. Only the resulting key list, the
  five schema keys, is modelled.
- The model follows zod 3 as these semantics: a field whose check aborts (a
  non-string value, a NaN age) makes the object skip its `.refine`, and a
  `preprocess` runs its inner schema even when other fields have already
  reported issues. The sources fix no zod version; on a release whose
  `preprocess` returns early once earlier issues exist, the age messages and
  the refine skip in `FormControl.FieldMessages` and
  `FormUncontrol.FieldMessages` would differ.
- Issues.FirstMessage: it compares an issue's whole path with `[field]`, while
  the source compares only the first element. The two agree because every
  issue's path has at most one element (`FormUncontrol.OnlySchemaFields`).
- `addData` merges the payload over the state (dataSlice.tsx:32), and the
  model does the same. The controlled form accepts a sex of `""`
  (only `choose` fails). In the uncontrolled form a password passes with any
  character `+` turns into a number, including white space. Its object refine
  is skipped when the age is NaN or a field fails its string check.
