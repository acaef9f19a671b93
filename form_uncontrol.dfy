/** The submit handler of the uncontrolled form: it builds a record from the
    named elements of the form, checks five of its fields with a looser schema
    than the controlled form's, writes one message per record key into the
    form's `err-*` outputs and navigates away only when the record passed. */
module FormUncontrol {
  import opened Text
  import opened Issues
  import opened Maps
  import opened Values
  import FormControl

  // ---------------------------------------------------------------------------
  // The record built from the form's elements

  /** One element of the form as the loop sees it: every listed element (inputs,
      the select, the `output`s and the button) has a name, a string value and,
      for a checkbox, a checked state. */
  datatype Element = Element(name: string, value: string, checked: bool)

  /** The record's keys in the order its literal declares them. */
  const DEFAULT_KEYS: seq<string> := ["name", "age", "email", "password", "repeatPassword", "sex", "terms"]

  /** The record before the loop: element values later replace these with
      strings, and the checkbox with a boolean. */
  const DEFAULTS: map<string, Value> :=
    map["name" := Str(""), "age" := Num(0.0), "email" := Str(""), "password" := Str(""),
        "repeatPassword" := Str(""), "sex" := Str(""), "terms" := Bool(false)]

  /** What one element writes: `terms` takes its checked state, every other name its value. */
  function Assignment(e: Element): (string, Value) {
    (e.name, if e.name == "terms" then Bool(e.checked) else Str(e.value))
  }

  function Assignments(els: seq<Element>): (ws: seq<(string, Value)>)
    ensures |ws| == |els|
    ensures forall i :: 0 <= i < |els| ==> ws[i] == Assignment(els[i])
  {
    seq(|els|, i requires 0 <= i < |els| => Assignment(els[i]))
  }

  /** The record once every element has been assigned, in document order. */
  function Built(els: seq<Element>): map<string, Value> {
    Assign(DEFAULTS, Assignments(els))
  }

  /** The order in which the record lists its keys: the declared keys first, then
      each new name in the order it was first assigned. */
  function KeyOrder(keys: seq<string>, els: seq<Element>): seq<string>
    decreases |els|
  {
    if els == [] then keys
    else
      var ks := KeyOrder(keys, els[..|els| - 1]);
      if els[|els| - 1].name in ks then ks else ks + [els[|els| - 1].name]
  }

  predicate Distinct(ks: seq<string>) {
    forall i, j :: 0 <= i < j < |ks| ==> ks[i] != ks[j]
  }

  /** The loop over the form's elements. `keys` is the record's key order, the
      order in which `Object.keys` later lists it. */
  method BuildFormData(els: seq<Element>) returns (data: map<string, Value>, keys: seq<string>)
    ensures data == Built(els)
    ensures keys == KeyOrder(DEFAULT_KEYS, els)
  {
    data, keys := DEFAULTS, DEFAULT_KEYS;
    for i := 0 to |els|
      invariant data == Assign(DEFAULTS, Assignments(els[..i]))
      invariant keys == KeyOrder(DEFAULT_KEYS, els[..i])
    {
      var input := els[i];
      assert els[..i + 1][..i] == els[..i];
      assert Assignments(els[..i + 1]) == Assignments(els[..i]) + [Assignment(input)];
      AssignStep(DEFAULTS, Assignments(els[..i + 1]), i);
      if input.name !in keys {
        keys := keys + [input.name];
      }
      if input.name == "terms" {
        data := data[input.name := Bool(input.checked)];
        continue;
      }
      data := data[input.name := Str(input.value)];
    }
    assert els[..|els|] == els;
  }

  /** The record's value for a name that some element carries: what the last
      such element wrote. */
  lemma LastElementWins(els: seq<Element>, k: string, i: nat)
    requires i < |els| && els[i].name == k
    requires forall j :: i < j < |els| ==> els[j].name != k
    ensures k in Built(els)
    ensures Built(els)[k] == if k == "terms" then Bool(els[i].checked) else Str(els[i].value)
  {
    var ws := Assignments(els);
    AssignLookup(DEFAULTS, ws, k);
    assert ws[i].0 == k;
    assert LastAssigned(ws, k) == Some(i);
  }

  /** A declared key that no element carries keeps its default. */
  lemma DefaultKept(els: seq<Element>, k: string)
    requires k in DEFAULTS
    requires forall j :: 0 <= j < |els| ==> els[j].name != k
    ensures k in Built(els) && Built(els)[k] == DEFAULTS[k]
  {
    var ws := Assignments(els);
    AssignLookup(DEFAULTS, ws, k);
    assert LastAssigned(ws, k).None? by {
      forall j | 0 <= j < |ws| ensures ws[j].0 != k {
        assert ws[j].0 == els[j].name;
      }
    }
  }

  /** The record has exactly the declared keys and the names of the elements. */
  lemma BuiltKeys(els: seq<Element>, k: string)
    ensures k in Built(els) <==> k in DEFAULT_KEYS || exists i :: 0 <= i < |els| && els[i].name == k
  {
    var ws := Assignments(els);
    AssignLookup(DEFAULTS, ws, k);
    if exists i :: 0 <= i < |els| && els[i].name == k {
      var i :| 0 <= i < |els| && els[i].name == k;
      assert ws[i].0 == k;
    }
    assert k in DEFAULTS <==> k in DEFAULT_KEYS;
  }

  /** The key order lists each key once: the declared keys first, then the new
      names, and nothing else. */
  lemma {:induction false} KeyOrderLists(keys: seq<string>, els: seq<Element>)
    requires Distinct(keys)
    ensures Distinct(KeyOrder(keys, els))
    ensures |keys| <= |KeyOrder(keys, els)| && KeyOrder(keys, els)[..|keys|] == keys
    ensures forall k :: k in KeyOrder(keys, els) <==> k in keys || exists i :: 0 <= i < |els| && els[i].name == k
    decreases |els|
  {
    if els != [] {
      var init := els[..|els| - 1];
      KeyOrderLists(keys, init);
      var ks := KeyOrder(keys, init);
      var name := els[|els| - 1].name;
      if name !in ks {
        assert (ks + [name])[..|keys|] == ks[..|keys|];
      }
      forall k ensures k in KeyOrder(keys, els) <==> k in keys || exists i :: 0 <= i < |els| && els[i].name == k {
        if exists i :: 0 <= i < |init| && init[i].name == k {
          var i :| 0 <= i < |init| && init[i].name == k;
          assert els[i].name == k;
        }
        if exists i :: 0 <= i < |els| && els[i].name == k {
          var i :| 0 <= i < |els| && els[i].name == k;
          if i < |init| { assert init[i].name == k; }
        }
      }
    }
  }

  /** `Object.keys` of the built record lists exactly its keys. */
  lemma KeyOrderIsDomain(els: seq<Element>)
    ensures Distinct(KeyOrder(DEFAULT_KEYS, els))
    ensures forall k :: k in KeyOrder(DEFAULT_KEYS, els) <==> k in Built(els)
  {
    KeyOrderLists(DEFAULT_KEYS, els);
    forall k ensures k in KeyOrder(DEFAULT_KEYS, els) <==> k in Built(els) {
      BuiltKeys(els, k);
    }
  }

  // ---------------------------------------------------------------------------
  // The schema

  /** An issue's path: a field's issues name that field, the refine names
      `repeatPassword`, and an error thrown by a nested parse has the empty path. */
  type Path = seq<string>

  const PASSWORD_HINT: string := "1 number, 1 uppercased letter, 1 lowercased letter, 1 special character"

  /** The outcome of `formValidation.parse`: the record passed, the schema threw a
      validation error carrying `issues`, or a refine threw a `TypeError`. */
  datatype ParseResult = Parsed | Rejected(issues: seq<Issue<Path>>) | TypeError

  /** One field's result: its messages, and whether it failed its type check (then
      the library skips the object-level refine). */
  datatype Check = Check(messages: seq<string>, fatal: bool)

  /** The results of the five field schemas, in declaration order. */
  datatype FieldChecks = FieldChecks(name: Check, age: Check, email: Check, password: Check, repeatPassword: Check) {
    predicate Aborted() {
      name.fatal || age.fatal || email.fatal || password.fatal || repeatPassword.fatal
    }

    /** The check of the field called `f`, one of the five. */
    function Of(f: string): Check {
      if f == "name" then name
      else if f == "age" then age
      else if f == "email" then email
      else if f == "password" then password
      else repeatPassword
    }
  }

  function Get(data: map<string, Value>, k: string): Option<Value> {
    if k in data then Some(data[k]) else None
  }

  /** The library's message for a value that is not the string a schema expected. */
  function TypeMessage(v: Option<Value>): string
    requires !(v.Some? && v.value.Str?)
  {
    if v.None? then "Required"
    else if v.value.Num? then "Expected string, received number"
    else "Expected string, received boolean"
  }

  function StrOf(v: Option<Value>): string {
    if v.Some? && v.value.Str? then v.value.s else ""
  }

  /** `z.string()` behind every field: a value that is not a string fails fatally,
      and a string gets the messages of the field's refines. */
  function StringCheck(v: Option<Value>, messages: seq<string>): (c: Check)
    ensures c.fatal <==> !(v.Some? && v.value.Str?)
    ensures !c.fatal ==> c.messages == messages
    ensures c.fatal ==> c.messages == [TypeMessage(v)]
  {
    if v.Some? && v.value.Str? then Check(messages, false) else Check([TypeMessage(v)], true)
  }

  /** `val[0] === val[0].toUpperCase()` on a non-empty string (the empty string throws instead). */
  function NameMessages(s: string): (ms: seq<string>)
    ensures ms == [] <==> |s| > 0 ==> s[0] == ToUpper(s[0])
    ensures ms != [] ==> ms == [FormControl.NAME_MESSAGE]
  {
    if |s| > 0 && s[0] != ToUpper(s[0]) then [FormControl.NAME_MESSAGE] else []
  }

  /** On a non-empty name the two forms' name rules report the same messages. */
  lemma NameRulesAgree(s: string)
    requires |s| > 0
    ensures NameMessages(s) == FormControl.NameIssues(s)
  {
    UpperFixedPoint(s[0]);
  }

  /** `+c` is a number, not NaN, for a one-character string exactly when the
      character is a digit or is white space that the conversion trims away
      (leaving the empty string, which converts to 0). */
  predicate CoercesToNumber(c: char) {
    IsDigit(c) || IsJsWhiteSpace(c)
  }

  /** `password.split('').some((char) => !Number.isNaN(+char))`. */
  predicate HasNumericChar(p: string) {
    exists i :: 0 <= i < |p| && CoercesToNumber(p[i])
  }

  /** The password refine: one hint, whatever category is missing. */
  function PasswordMessages(p: string): (ms: seq<string>)
    ensures ms == [] <==> HasNumericChar(p)
    ensures ms != [] ==> ms == [PASSWORD_HINT]
  {
    if HasNumericChar(p) then [] else [PASSWORD_HINT]
  }

  /** `z.number().positive()` after the coercion; NaN fails the type check. The
      messages are those of the controlled form's age rule. */
  function AgeCheck(n: Option<real>): (c: Check)
    ensures c.fatal <==> n.None?
    ensures c.messages == FormControl.AgeIssues(n)
  {
    match n
    case None => Check([FormControl.NAN_MESSAGE], true)
    case Some(x) => Check(if x > 0.0 then [] else [FormControl.AGE_MESSAGE], false)
  }

  /** The five field schemas applied to the record, given the age text. */
  function ChecksOf(data: map<string, Value>, ageText: string,
                    isEmail: string -> bool, toNumber: string -> Option<real>): FieldChecks
  {
    var name, email := Get(data, "name"), Get(data, "email");
    var password, repeat := Get(data, "password"), Get(data, "repeatPassword");
    FieldChecks(
      StringCheck(name, NameMessages(StrOf(name))),
      AgeCheck(toNumber(ageText)),
      StringCheck(email, FormControl.EmailIssues(StrOf(email), isEmail)),
      StringCheck(password, PasswordMessages(StrOf(password))),
      StringCheck(repeat, []))
  }

  /** The object-level refine: run only when no field was aborted, it reports a
      mismatch of the two parsed passwords on `repeatPassword`. */
  function RefineIssues(data: map<string, Value>, aborted: bool): (r: seq<Issue<Path>>)
    ensures r == [] <==> aborted || Get(data, "password") == Get(data, "repeatPassword")
    ensures r != [] ==> r == [Issue(["repeatPassword"], FormControl.MISMATCH_MESSAGE)]
  {
    if !aborted && Get(data, "password") != Get(data, "repeatPassword")
    then [Issue(["repeatPassword"], FormControl.MISMATCH_MESSAGE)] else []
  }

  /** The report: each field's messages on its path, in declaration order, then the refine's. */
  function Layout(c: FieldChecks, refine: seq<Issue<Path>>): seq<Issue<Path>> {
    At(["name"], c.name.messages) + (At(["age"], c.age.messages) + (At(["email"], c.email.messages)
    + (At(["password"], c.password.messages) + (At(["repeatPassword"], c.repeatPassword.messages) + refine))))
  }

  function FieldIssues(data: map<string, Value>, ageText: string,
                       isEmail: string -> bool, toNumber: string -> Option<real>): seq<Issue<Path>>
  {
    var c := ChecksOf(data, ageText, isEmail, toNumber);
    Layout(c, RefineIssues(data, c.Aborted()))
  }

  /** `formValidation.parse(formData)`. The object schema parses `name` first: on
      the empty string its refine reads `undefined.toUpperCase` and throws. It
      parses `age` next: a value that is not a string makes the inner
      `z.string().parse` throw its own error, with an empty path, in place of
      everything collected so far. */
  function Schema(data: map<string, Value>, isEmail: string -> bool, toNumber: string -> Option<real>): ParseResult {
    var age := Get(data, "age");
    if Get(data, "name") == Some(Str("")) then TypeError
    else if !(age.Some? && age.value.Str?) then Rejected([Issue([], TypeMessage(age))])
    else
      var issues := FieldIssues(data, age.value.s, isEmail, toNumber);
      if issues == [] then Parsed else Rejected(issues)
  }

  /** The five keys the schema reads, in the order its result lists them. */
  const SCHEMA_KEYS: seq<string> := ["name", "age", "email", "password", "repeatPassword"]

  lemma SchemaKeysDistinct()
    ensures Distinct(SCHEMA_KEYS)
  {
  }

  /** The schema throws a `TypeError` exactly when the name is the empty string. */
  lemma EmptyNameThrows(data: map<string, Value>, isEmail: string -> bool, toNumber: string -> Option<real>)
    ensures Schema(data, isEmail, toNumber) == TypeError <==> Get(data, "name") == Some(Str(""))
  {
  }

  /** A rejection always carries at least one issue. */
  lemma RejectionHasIssues(data: map<string, Value>, isEmail: string -> bool, toNumber: string -> Option<real>)
    ensures Schema(data, isEmail, toNumber).Rejected? ==> Schema(data, isEmail, toNumber).issues != []
  {
  }

  /** The record passes exactly when its five checked fields are strings, the name
      starts with a character that upper-casing leaves alone, the age text coerces
      to a positive number, the email is valid, some password character coerces to
      a number, and the two passwords agree. */
  lemma ParsedIff(data: map<string, Value>, isEmail: string -> bool, toNumber: string -> Option<real>)
    ensures Schema(data, isEmail, toNumber) == Parsed <==>
      && Get(data, "name").Some? && Get(data, "name").value.Str?
      && |Get(data, "name").value.s| > 0 && Get(data, "name").value.s[0] == ToUpper(Get(data, "name").value.s[0])
      && Get(data, "age").Some? && Get(data, "age").value.Str?
      && toNumber(Get(data, "age").value.s).Some? && toNumber(Get(data, "age").value.s).value > 0.0
      && Get(data, "email").Some? && Get(data, "email").value.Str? && isEmail(Get(data, "email").value.s)
      && Get(data, "password").Some? && Get(data, "password").value.Str? && HasNumericChar(Get(data, "password").value.s)
      && Get(data, "repeatPassword").Some? && Get(data, "repeatPassword").value.Str?
      && Get(data, "password") == Get(data, "repeatPassword")
  {
    var age := Get(data, "age");
    if Get(data, "name") != Some(Str("")) && age.Some? && age.value.Str? {
      var c := ChecksOf(data, age.value.s, isEmail, toNumber);
      LayoutEmpty(c, RefineIssues(data, c.Aborted()));
    }
  }

  lemma LayoutEmpty(c: FieldChecks, refine: seq<Issue<Path>>)
    ensures Layout(c, refine) == [] <==>
      c.name.messages == [] && c.age.messages == [] && c.email.messages == []
      && c.password.messages == [] && c.repeatPassword.messages == [] && refine == []
  {
  }

  /** Reading one field back out of the report gives that field's messages, then
      the refine's on it. */
  lemma LayoutAt(c: FieldChecks, refine: seq<Issue<Path>>, f: string)
    requires f in SCHEMA_KEYS
    ensures MessagesAt(Layout(c, refine), [f]) == c.Of(f).messages + MessagesAt(refine, [f])
  {
    var r4 := At(["repeatPassword"], c.repeatPassword.messages) + refine;
    var r3 := At(["password"], c.password.messages) + r4;
    var r2 := At(["email"], c.email.messages) + r3;
    var r1 := At(["age"], c.age.messages) + r2;
    AtThen(["name"], c.name.messages, r1, [f]);
    AtThen(["age"], c.age.messages, r2, [f]);
    AtThen(["email"], c.email.messages, r3, [f]);
    AtThen(["password"], c.password.messages, r4, [f]);
    AtThen(["repeatPassword"], c.repeatPassword.messages, refine, [f]);
  }

  /** The refine's issues are on `repeatPassword`, and exist exactly on a mismatch
      of the parsed passwords with no field aborted. */
  lemma RefineAt(data: map<string, Value>, aborted: bool, f: string)
    ensures MessagesAt(RefineIssues(data, aborted), [f]) ==
      if f == "repeatPassword" && !aborted && Get(data, "password") != Get(data, "repeatPassword")
      then [FormControl.MISMATCH_MESSAGE] else []
  {
    var r := RefineIssues(data, aborted);
    if r != [] {
      assert r[1..] == [];
    }
  }

  /** With the age given as text, each checked field carries exactly its own
      schema's messages, and `repeatPassword` also the mismatch of the refine. */
  lemma FieldMessages(data: map<string, Value>, ageText: string,
                      isEmail: string -> bool, toNumber: string -> Option<real>, f: string)
    requires f in SCHEMA_KEYS
    ensures var c := ChecksOf(data, ageText, isEmail, toNumber);
      MessagesAt(FieldIssues(data, ageText, isEmail, toNumber), [f]) ==
      c.Of(f).messages
      + (if f == "repeatPassword" && !c.Aborted() && Get(data, "password") != Get(data, "repeatPassword")
         then [FormControl.MISMATCH_MESSAGE] else [])
  {
    var c := ChecksOf(data, ageText, isEmail, toNumber);
    var refine := RefineIssues(data, c.Aborted());
    RefineAt(data, c.Aborted(), f);
    LayoutAt(c, refine, f);
  }

  /** The paths the schema reports on: a checked field, or the empty path. */
  predicate SchemaPath(path: Path) {
    path == [] || (|path| == 1 && path[0] in SCHEMA_KEYS)
  }

  /** Only the five checked fields (and the empty path of the age error) ever carry
      issues; `sex`, `terms`, `image` and `country` never do. */
  lemma OnlySchemaFields(data: map<string, Value>, isEmail: string -> bool, toNumber: string -> Option<real>)
    ensures Schema(data, isEmail, toNumber).Rejected? ==>
      forall i :: 0 <= i < |Schema(data, isEmail, toNumber).issues| ==>
        SchemaPath(Schema(data, isEmail, toNumber).issues[i].path)
  {
    var age := Get(data, "age");
    if Get(data, "name") != Some(Str("")) && age.Some? && age.value.Str? {
      var c := ChecksOf(data, age.value.s, isEmail, toNumber);
      LayoutPaths(c, RefineIssues(data, c.Aborted()));
    }
  }

  lemma LayoutPaths(c: FieldChecks, refine: seq<Issue<Path>>)
    requires forall i :: 0 <= i < |refine| ==> SchemaPath(refine[i].path)
    ensures forall i :: 0 <= i < |Layout(c, refine)| ==> SchemaPath(Layout(c, refine)[i].path)
  {
    var r4 := At(["repeatPassword"], c.repeatPassword.messages) + refine;
    var r3 := At(["password"], c.password.messages) + r4;
    var r2 := At(["email"], c.email.messages) + r3;
    var r1 := At(["age"], c.age.messages) + r2;
    assert SCHEMA_KEYS[0] == "name" && SCHEMA_KEYS[1] == "age" && SCHEMA_KEYS[2] == "email";
    assert SCHEMA_KEYS[3] == "password" && SCHEMA_KEYS[4] == "repeatPassword";
    AtThenPaths(["repeatPassword"], c.repeatPassword.messages, refine);
    AtThenPaths(["password"], c.password.messages, r4);
    AtThenPaths(["email"], c.email.messages, r3);
    AtThenPaths(["age"], c.age.messages, r2);
    AtThenPaths(["name"], c.name.messages, r1);
  }

  /** Putting one rule's issues in front of issues on schema paths keeps every path a schema path. */
  lemma AtThenPaths(path: Path, ms: seq<string>, rest: seq<Issue<Path>>)
    requires SchemaPath(path)
    requires forall i :: 0 <= i < |rest| ==> SchemaPath(rest[i].path)
    ensures forall i :: 0 <= i < |At(path, ms) + rest| ==> SchemaPath((At(path, ms) + rest)[i].path)
  {
    var all := At(path, ms) + rest;
    forall i | 0 <= i < |all| ensures SchemaPath(all[i].path) {
      if i < |At(path, ms)| {
        AtPaths(path, ms, i);
      } else {
        assert all[i] == rest[i - |At(path, ms)|];
      }
    }
  }

  /** Every issue `At` makes carries the given path. */
  lemma {:induction false} AtPaths<P>(path: P, ms: seq<string>, i: nat)
    requires i < |At(path, ms)|
    ensures At(path, ms)[i].path == path
    decreases |ms|
  {
    if i > 0 {
      AtPaths(path, ms[1..], i - 1);
    }
  }

  /** The record's other keys play no part in the schema. */
  lemma OtherKeysIgnored(data: map<string, Value>, k: string, v: Value,
                         isEmail: string -> bool, toNumber: string -> Option<real>)
    requires k !in SCHEMA_KEYS
    ensures Schema(data[k := v], isEmail, toNumber) == Schema(data, isEmail, toNumber)
  {
    var d := data[k := v];
    assert Get(d, "name") == Get(data, "name");
    assert Get(d, "age") == Get(data, "age");
    assert Get(d, "email") == Get(data, "email");
    assert Get(d, "password") == Get(data, "password");
    assert Get(d, "repeatPassword") == Get(data, "repeatPassword");
    if Get(data, "age").Some? && Get(data, "age").value.Str? {
      assert ChecksOf(d, Get(data, "age").value.s, isEmail, toNumber) == ChecksOf(data, Get(data, "age").value.s, isEmail, toNumber);
    }
  }

  /** The controlled form's password rule is stricter: whatever it accepts has a
      digit, so this refine accepts it too. */
  lemma ControlledPasswordPasses(p: string)
    requires FormControl.PasswordIssues(p) == []
    ensures PasswordMessages(p) == []
  {
    var fs := FormControl.PasswordFailures(p);
    assert |FormControl.PasswordIssues(p)| == |fs|;
    assert FormControl.Passes(FormControl.NeedsNumber, p);
    var i :| 0 <= i < |p| && IsDigit(p[i]);
    assert CoercesToNumber(p[i]);
  }

  /** A password without an A-Z letter fails the controlled form's rule. */
  lemma NoUppercaseRejected(p: string)
    requires forall i :: 0 <= i < |p| ==> !IsUpper(p[i])
    ensures FormControl.PasswordIssues(p) != []
  {
    var fs := FormControl.PasswordFailures(p);
    assert !FormControl.Passes(FormControl.NeedsUppercase, p);
    assert FormControl.NeedsUppercase in fs;
    assert |FormControl.PasswordIssues(p)| == |fs|;
  }

  /** The message promises four categories, but only a number is checked: "1" and
      a single space pass here, while the controlled form rejects both. */
  lemma HintPromisesMore()
    ensures PasswordMessages("1") == [] && FormControl.PasswordIssues("1") != []
    ensures PasswordMessages(" ") == [] && FormControl.PasswordIssues(" ") != []
  {
    assert CoercesToNumber("1"[0]) && CoercesToNumber(" "[0]);
    NoUppercaseRejected("1");
    NoUppercaseRejected(" ");
  }

  // ---------------------------------------------------------------------------
  // The error outputs and the handler

  /** The name of the output that shows a key's message. */
  function OutputName(k: string): string {
    "err-" + k
  }

  /** Different keys have different outputs. */
  lemma OutputNameInjective(a: string, b: string)
    ensures OutputName(a) == OutputName(b) <==> a == b
  {
    if OutputName(a) == OutputName(b) {
      assert OutputName(a)[4..] == a && OutputName(b)[4..] == b;
    }
  }

  /** The record's keys except those containing "err": the outputs' own names
      are record keys too, since the outputs are elements of the form. */
  function DataKeys(keys: seq<string>): (r: seq<string>)
    ensures forall k :: k in r <==> k in keys && !Contains(k, "err")
    ensures Distinct(keys) ==> Distinct(r)
  {
    if keys == [] then []
    else
      var rest := DataKeys(keys[1..]);
      assert Distinct(keys) ==> Distinct(keys[1..]) && keys[0] !in keys[1..];
      if Contains(keys[0], "err") then rest else [keys[0]] + rest
  }

  /** Filtering distributes over concatenation. */
  lemma {:induction false} DataKeysAppend(a: seq<string>, b: seq<string>)
    ensures DataKeys(a + b) == DataKeys(a) + DataKeys(b)
  {
    if a == [] {
      assert a + b == b;
    } else {
      assert (a + b)[1..] == a[1..] + b;
      DataKeysAppend(a[1..], b);
    }
  }

  /** One write per key, into its output, of the first message reported on it or
      of the empty string. The reported paths have at most one element (see
      OnlySchemaFields), so comparing a path's first element with the key is
      comparing the path with the one-element path of the key. With no issues,
      these are the writes that clear the outputs. */
  function IssueWrites(keys: seq<string>, issues: seq<Issue<Path>>): seq<(string, string)> {
    seq(|keys|, i requires 0 <= i < |keys| => (OutputName(keys[i]), MessageOrEmpty(issues, [keys[i]])))
  }

  /** How the handler ends: it navigates home, it returns on the page, or an
      exception escapes it. */
  datatype Outcome = Navigated | Stayed | Threw

  /** What the handler will try to do after parsing: the writes in order, and
      how it ends if all of them reach an element. */
  datatype Plan = Plan(writes: seq<(string, string)>, outcome: Outcome)

  /** On success, the parsed object's keys are the schema's five, so their outputs
      are cleared and the handler navigates. On a validation error, every data key
      gets its output written, and the handler stays exactly when there are issues.
      On a `TypeError`, reading `issues.find` on the caught error throws before the
      first write. */
  function PlanFor(result: ParseResult, keys: seq<string>): Plan {
    match result
    case Parsed => Plan(IssueWrites(SCHEMA_KEYS, []), Navigated)
    case Rejected(issues) => Plan(IssueWrites(DataKeys(keys), issues), if issues != [] then Stayed else Navigated)
    case TypeError => Plan([], Threw)
  }

  /** The plan for a submission of the elements `els`. */
  function SubmitPlan(els: seq<Element>, isEmail: string -> bool, toNumber: string -> Option<real>): Plan {
    PlanFor(Schema(Built(els), isEmail, toNumber), KeyOrder(DEFAULT_KEYS, els))
  }

  /** Carrying out a plan on the form's named elements: the writes succeed up to
      the first name the form does not have, where reading `.value` of `undefined`
      throws. */
  function Run(shown: map<string, string>, plan: Plan): (map<string, string>, Outcome) {
    var n := FirstMissing(shown, plan.writes);
    (Assign(shown, plan.writes[..n]), if n < |plan.writes| then Threw else plan.outcome)
  }

  /** The values of the form's named elements that the handler can reach as
      `formRef.current[name]`. */
  class ErrorOutputs {
    var shown: map<string, string>

    /** A form whose elements called `names` show nothing yet. */
    constructor(names: seq<string>)
      ensures shown == map n | n in names :: ""
    {
      shown := map n | n in names :: "";
    }

    /** Sets `.value` of the named elements in order, stopping at the first name
        the form lacks; `done` is the number of writes that took place. */
    method WriteAll(ws: seq<(string, string)>) returns (done: nat)
      modifies this
      ensures done == FirstMissing(old(shown), ws)
      ensures shown == Assign(old(shown), ws[..done])
    {
      done := 0;
      while done < |ws|
        invariant done <= |ws|
        invariant forall j :: 0 <= j < done ==> ws[j].0 in old(shown)
        invariant shown == Assign(old(shown), ws[..done])
      {
        AssignKeepsKeys(old(shown), ws[..done]);
        if ws[done].0 !in shown {
          FirstMissingIs(old(shown), ws, done);
          return;
        }
        AssignStep(old(shown), ws, done);
        shown := shown[ws[done].0 := ws[done].1];
        done := done + 1;
      }
      FirstMissingIs(old(shown), ws, done);
    }
  }

  /** The submit handler: build the record, parse it, and write the outputs. */
  method Submit(els: seq<Element>, isEmail: string -> bool, toNumber: string -> Option<real>, outputs: ErrorOutputs)
    returns (outcome: Outcome)
    modifies outputs
    ensures (outputs.shown, outcome) == Run(old(outputs.shown), SubmitPlan(els, isEmail, toNumber))
  {
    var data, keys := BuildFormData(els);
    var result := Schema(data, isEmail, toNumber);
    match result
    case TypeError =>
      assert outputs.shown == Assign(outputs.shown, []);
      outcome := Threw;
    case Parsed =>
      var writes := IssueWrites(SCHEMA_KEYS, []);
      var done := outputs.WriteAll(writes);
      outcome := if done < |writes| then Threw else Navigated;
    case Rejected(issues) =>
      var writes := IssueWrites(DataKeys(keys), issues);
      var done := outputs.WriteAll(writes);
      outcome := if done < |writes| then Threw else if issues != [] then Stayed else Navigated;
  }

  /** Writing messages for distinct keys whose outputs all exist: every write
      takes place, each output shows its key's message, and every other element
      is as it was. */
  lemma WritesLand(shown: map<string, string>, keys: seq<string>, issues: seq<Issue<Path>>)
    requires Distinct(keys)
    requires forall k :: k in keys ==> OutputName(k) in shown
    ensures FirstMissing(shown, IssueWrites(keys, issues)) == |keys|
    ensures var after := Assign(shown, IssueWrites(keys, issues));
      && (forall k :: k in keys ==> OutputName(k) in after && after[OutputName(k)] == MessageOrEmpty(issues, [k]))
      && (forall o :: o in shown && (forall k :: k in keys ==> o != OutputName(k)) ==> o in after && after[o] == shown[o])
  {
    var ws := IssueWrites(keys, issues);
    FirstMissingIs(shown, ws, |keys|);
    assert DistinctKeys(ws) by {
      forall a, b | 0 <= a < b < |ws| ensures ws[a].0 != ws[b].0 {
        OutputNameInjective(keys[a], keys[b]);
      }
    }
    forall k | k in keys
      ensures OutputName(k) in Assign(shown, ws) && Assign(shown, ws)[OutputName(k)] == MessageOrEmpty(issues, [k])
    {
      var j :| 0 <= j < |keys| && keys[j] == k;
      AssignDistinct(shown, ws, j);
    }
    forall o | o in shown && (forall k :: k in keys ==> o != OutputName(k))
      ensures o in Assign(shown, ws) && Assign(shown, ws)[o] == shown[o]
    {
      forall j | 0 <= j < |ws| ensures ws[j].0 != o {
        assert keys[j] in keys;
      }
      AssignOther(shown, ws, o);
    }
  }

  /** The same for a whole plan: it then ends as planned. */
  lemma RunLands(shown: map<string, string>, keys: seq<string>, issues: seq<Issue<Path>>, outcome: Outcome)
    requires Distinct(keys)
    requires forall k :: k in keys ==> OutputName(k) in shown
    ensures var after := Run(shown, Plan(IssueWrites(keys, issues), outcome));
      && after.1 == outcome
      && (forall k :: k in keys ==> OutputName(k) in after.0 && after.0[OutputName(k)] == MessageOrEmpty(issues, [k]))
      && (forall o :: o in shown && (forall k :: k in keys ==> o != OutputName(k)) ==> o in after.0 && after.0[o] == shown[o])
  {
    WritesLand(shown, keys, issues);
    var ws := IssueWrites(keys, issues);
    assert ws[..|ws|] == ws;
  }

  /** The handler navigates only when the record passed. */
  lemma NavigatesOnlyWhenParsed(els: seq<Element>, isEmail: string -> bool, toNumber: string -> Option<real>,
                                shown: map<string, string>)
    ensures Run(shown, SubmitPlan(els, isEmail, toNumber)).1 == Navigated ==> Schema(Built(els), isEmail, toNumber) == Parsed
  {
    RejectionHasIssues(Built(els), isEmail, toNumber);
  }

  /** A record that passed, with the five outputs present: the handler navigates,
      with those outputs cleared and every other element as it was. */
  lemma ParsedClears(els: seq<Element>, isEmail: string -> bool, toNumber: string -> Option<real>,
                     shown: map<string, string>)
    requires Schema(Built(els), isEmail, toNumber) == Parsed
    requires forall k :: k in SCHEMA_KEYS ==> OutputName(k) in shown
    ensures var after := Run(shown, SubmitPlan(els, isEmail, toNumber));
      && after.1 == Navigated
      && (forall k :: k in SCHEMA_KEYS ==> OutputName(k) in after.0 && after.0[OutputName(k)] == "")
      && (forall o :: o in shown && (forall k :: k in SCHEMA_KEYS ==> o != OutputName(k)) ==> o in after.0 && after.0[o] == shown[o])
  {
    var plan := SubmitPlan(els, isEmail, toNumber);
    assert plan == Plan(IssueWrites(SCHEMA_KEYS, []), Navigated);
    SchemaKeysDistinct();
    RunLands(shown, SCHEMA_KEYS, [], Navigated);
  }

  /** A rejected record, with an output for every data key: the handler returns
      without navigating, each data key's output shows the first message reported
      on it or nothing, and every other element is as it was. */
  lemma RejectedShowsMessages(els: seq<Element>, isEmail: string -> bool, toNumber: string -> Option<real>,
                              shown: map<string, string>)
    requires Schema(Built(els), isEmail, toNumber).Rejected?
    requires forall k :: k in DataKeys(KeyOrder(DEFAULT_KEYS, els)) ==> OutputName(k) in shown
    ensures var issues := Schema(Built(els), isEmail, toNumber).issues;
      var keys := DataKeys(KeyOrder(DEFAULT_KEYS, els));
      var after := Run(shown, SubmitPlan(els, isEmail, toNumber));
      && after.1 == Stayed
      && (forall k :: k in keys ==> OutputName(k) in after.0 && after.0[OutputName(k)] == MessageOrEmpty(issues, [k]))
      && (forall o :: o in shown && (forall k :: k in keys ==> o != OutputName(k)) ==> o in after.0 && after.0[o] == shown[o])
  {
    RejectionHasIssues(Built(els), isEmail, toNumber);
    DataKeysDistinct(els);
    RejectedPlanLands(Schema(Built(els), isEmail, toNumber), KeyOrder(DEFAULT_KEYS, els), shown);
  }

  /** The data keys of a record are distinct. */
  lemma DataKeysDistinct(els: seq<Element>)
    ensures Distinct(DataKeys(KeyOrder(DEFAULT_KEYS, els)))
  {
    KeyOrderLists(DEFAULT_KEYS, els);
  }

  lemma RejectedPlanLands(result: ParseResult, keys: seq<string>, shown: map<string, string>)
    requires result.Rejected? && result.issues != [] && Distinct(DataKeys(keys))
    requires forall k :: k in DataKeys(keys) ==> OutputName(k) in shown
    ensures var after := Run(shown, PlanFor(result, keys));
      && after.1 == Stayed
      && (forall k :: k in DataKeys(keys) ==> OutputName(k) in after.0 && after.0[OutputName(k)] == MessageOrEmpty(result.issues, [k]))
      && (forall o :: o in shown && (forall k :: k in DataKeys(keys) ==> o != OutputName(k)) ==> o in after.0 && after.0[o] == shown[o])
  {
    RunLands(shown, DataKeys(keys), result.issues, Stayed);
  }

  /** An empty name makes the handler throw before it changes anything. */
  lemma EmptyNameChangesNothing(els: seq<Element>, isEmail: string -> bool, toNumber: string -> Option<real>,
                                shown: map<string, string>)
    ensures Get(Built(els), "name") == Some(Str("")) ==> Run(shown, SubmitPlan(els, isEmail, toNumber)) == (shown, Threw)
  {
    EmptyNameThrows(Built(els), isEmail, toNumber);
    assert IssueWrites([], [])[..0] == [];
  }

  // ---------------------------------------------------------------------------
  // The rendered form

  /** The keys the rendered form has an output for, in document order. */
  const RENDERED_DATA_KEYS: seq<string> :=
    ["name", "age", "email", "password", "repeatPassword", "sex", "terms", "image", "country"]

  /** The rendered form's listed elements, in document order: each of the nine
      fields (the checkbox among them) followed by its output, then the button. */
  predicate IsRendered(els: seq<Element>) {
    && |els| == 2 * |RENDERED_DATA_KEYS| + 1
    && (forall i :: 0 <= i < |RENDERED_DATA_KEYS| ==>
          els[2 * i].name == RENDERED_DATA_KEYS[i] && els[2 * i + 1].name == OutputName(RENDERED_DATA_KEYS[i]))
    && els[2 * |RENDERED_DATA_KEYS|].name == "submit"
  }

  /** Output names are filtered out of the data keys. */
  lemma OutputNamesFiltered(k: string)
    ensures Contains(OutputName(k), "err")
  {
    assert OutputName(k)[0..][..3] == "err";
  }

  /** No two consecutive `r`s: such a string cannot contain "err". */
  predicate NoDoubleR(s: string) {
    forall i :: 0 <= i < |s| - 1 ==> s[i] != 'r' || s[i + 1] != 'r'
  }

  lemma NoErr(s: string)
    requires NoDoubleR(s)
    ensures !Contains(s, "err")
  {
    forall i | 0 <= i <= |s| - 3 ensures s[i..][..3] != "err" {
      assert s[i..][..3][1] == s[i + 1] && s[i..][..3][2] == s[i + 2];
    }
  }

  /** The rendered form's field names and the button's name survive the filter. */
  lemma RenderedKeysKept()
    ensures forall k :: k in RENDERED_DATA_KEYS ==> !Contains(k, "err")
    ensures !Contains("submit", "err")
  {
    NoErr("name");
    NoErr("age");
    NoErr("email");
    NoErr("password");
    NoErr("repeatPassword");
    NoErr("sex");
    NoErr("terms");
    NoErr("image");
    NoErr("country");
    NoErr("submit");
  }

  /** Each of the first eighteen elements is a field or a field's output. */
  lemma RenderedNameAt(els: seq<Element>, m: nat)
    requires IsRendered(els) && m < 18
    ensures var i := m / 2; i < 9 && els[m].name == if m % 2 == 0 then RENDERED_DATA_KEYS[i] else OutputName(RENDERED_DATA_KEYS[i])
    ensures els[m].name in RENDERED_DATA_KEYS || exists j :: j in RENDERED_DATA_KEYS && els[m].name == OutputName(j)
  {
    var i := m / 2;
    assert m == 2 * i + m % 2;
    assert RENDERED_DATA_KEYS[i] in RENDERED_DATA_KEYS;
  }

  /** The first eighteen elements of the rendered form carry the nine keys and
      their outputs' names. */
  lemma RenderedFieldNames(els: seq<Element>, k: string)
    requires IsRendered(els)
    ensures (exists m :: 0 <= m < 18 && els[m].name == k) <==>
      k in RENDERED_DATA_KEYS || exists j :: j in RENDERED_DATA_KEYS && k == OutputName(j)
  {
    if exists m :: 0 <= m < 18 && els[m].name == k {
      var m :| 0 <= m < 18 && els[m].name == k;
      RenderedNameAt(els, m);
    }
    if k in RENDERED_DATA_KEYS {
      var i :| 0 <= i < 9 && RENDERED_DATA_KEYS[i] == k;
      assert els[2 * i].name == k;
    }
    if exists j :: j in RENDERED_DATA_KEYS && k == OutputName(j) {
      var j :| j in RENDERED_DATA_KEYS && k == OutputName(j);
      var i :| 0 <= i < 9 && RENDERED_DATA_KEYS[i] == j;
      assert els[2 * i + 1].name == k;
    }
  }

  /** The declared keys are among the rendered form's keys. */
  lemma DefaultKeysRendered()
    ensures forall k :: k in DEFAULT_KEYS ==> k in RENDERED_DATA_KEYS
  {
  }

  /** The key order of the first eighteen elements lists the nine keys and their outputs' names. */
  lemma RenderedInitKey(els: seq<Element>, k: string)
    requires IsRendered(els)
    ensures k in KeyOrder(DEFAULT_KEYS, els[..18]) <==>
      k in RENDERED_DATA_KEYS || exists j :: j in RENDERED_DATA_KEYS && k == OutputName(j)
  {
    var init := els[..18];
    KeyOrderLists(DEFAULT_KEYS, init);
    DefaultKeysRendered();
    RenderedFieldNames(els, k);
    if exists m :: 0 <= m < 18 && els[m].name == k {
      var m :| 0 <= m < 18 && els[m].name == k;
      assert init[m].name == k;
    }
    if exists m :: 0 <= m < |init| && init[m].name == k {
      var m :| 0 <= m < |init| && init[m].name == k;
      assert els[m].name == k;
    }
  }

  lemma RenderedInitKeys(els: seq<Element>)
    requires IsRendered(els)
    ensures forall k :: k in KeyOrder(DEFAULT_KEYS, els[..18]) <==>
      k in RENDERED_DATA_KEYS || exists j :: j in RENDERED_DATA_KEYS && k == OutputName(j)
  {
    forall k ensures k in KeyOrder(DEFAULT_KEYS, els[..18]) <==>
      k in RENDERED_DATA_KEYS || exists j :: j in RENDERED_DATA_KEYS && k == OutputName(j)
    {
      RenderedInitKey(els, k);
    }
  }

  /** The button's name is neither a key nor an output's name. */
  lemma SubmitUnlisted(j: string)
    ensures "submit" !in RENDERED_DATA_KEYS && "submit" != OutputName(j)
  {
    assert OutputName(j)[0] == 'e';
  }

  /** In the rendered form, the record's key order is that of the first
      eighteen elements' names, then the button's. */
  lemma RenderedKeyOrder(els: seq<Element>)
    requires IsRendered(els)
    ensures KeyOrder(DEFAULT_KEYS, els) == KeyOrder(DEFAULT_KEYS, els[..18]) + ["submit"]
  {
    var init := els[..18];
    RenderedInitKeys(els);
    forall j ensures "submit" != OutputName(j) {
      SubmitUnlisted(j);
    }
    assert "submit" !in KeyOrder(DEFAULT_KEYS, init);
    assert els[..|els| - 1] == init;
  }

  /** In the rendered form, the data keys are the nine keys with outputs followed
      by the button's name, which has none. */
  lemma RenderedDataKeys(els: seq<Element>)
    requires IsRendered(els)
    ensures var dk := DataKeys(KeyOrder(DEFAULT_KEYS, els));
      && |dk| > 0 && dk[|dk| - 1] == "submit" && Distinct(dk)
      && forall k :: k in dk[..|dk| - 1] <==> k in RENDERED_DATA_KEYS
  {
    var prev := KeyOrder(DEFAULT_KEYS, els[..18]);
    RenderedKeyOrder(els);
    RenderedInitKeys(els);
    KeyOrderLists(DEFAULT_KEYS, els);
    DataKeysAppend(prev, ["submit"]);
    RenderedKeysKept();
    assert DataKeys(["submit"]) == ["submit"];
    var d := DataKeys(prev);
    assert (d + ["submit"])[..|d|] == d;
    forall k ensures k in d <==> k in RENDERED_DATA_KEYS {
      if exists j :: j in RENDERED_DATA_KEYS && k == OutputName(j) {
        var j :| j in RENDERED_DATA_KEYS && k == OutputName(j);
        OutputNamesFiltered(j);
      }
    }
  }

  /** On the rendered form a rejected record never reaches the early return:
      every output receives its key's message, and then the write for the
      button's key finds no `err-submit` element and throws. */
  lemma RenderedRejectionThrows(els: seq<Element>, isEmail: string -> bool, toNumber: string -> Option<real>,
                                shown: map<string, string>)
    requires IsRendered(els)
    requires Schema(Built(els), isEmail, toNumber).Rejected?
    requires forall k :: k in RENDERED_DATA_KEYS ==> OutputName(k) in shown
    requires OutputName("submit") !in shown
    ensures var issues := Schema(Built(els), isEmail, toNumber).issues;
      var after := Run(shown, SubmitPlan(els, isEmail, toNumber));
      && after.1 == Threw
      && forall k :: k in RENDERED_DATA_KEYS ==>
           OutputName(k) in after.0 && after.0[OutputName(k)] == MessageOrEmpty(issues, [k])
  {
    RenderedDataKeys(els);
    RejectedPlanThrows(Schema(Built(els), isEmail, toNumber), KeyOrder(DEFAULT_KEYS, els), shown);
  }

  /** A rejection whose last data key has no output: every other key's output
      receives its message, and then the handler throws. */
  lemma RejectedPlanThrows(result: ParseResult, keys: seq<string>, shown: map<string, string>)
    requires result.Rejected?
    requires var dk := DataKeys(keys);
      && |dk| > 0 && Distinct(dk) && OutputName(dk[|dk| - 1]) !in shown
      && forall k :: k in dk[..|dk| - 1] ==> OutputName(k) in shown
    ensures var dk := DataKeys(keys);
      var after := Run(shown, PlanFor(result, keys));
      && after.1 == Threw
      && forall k :: k in dk[..|dk| - 1] ==>
           OutputName(k) in after.0 && after.0[OutputName(k)] == MessageOrEmpty(result.issues, [k])
  {
    var issues := result.issues;
    var dk := DataKeys(keys);
    var d := dk[..|dk| - 1];
    assert Distinct(d);
    WritesLand(shown, d, issues);
    WritesThenMissing(shown, d, dk[|dk| - 1], issues);
    assert dk == d + [dk[|dk| - 1]];
  }

  /** Writes for keys whose outputs exist, then one for a key whose output does not:
      the handler stops at that last write. */
  lemma WritesThenMissing(shown: map<string, string>, d: seq<string>, last: string, issues: seq<Issue<Path>>)
    requires forall k :: k in d ==> OutputName(k) in shown
    requires OutputName(last) !in shown
    ensures var ws := IssueWrites(d + [last], issues);
      FirstMissing(shown, ws) == |d| && ws[..|d|] == IssueWrites(d, issues)
  {
    var ws := IssueWrites(d + [last], issues);
    assert forall j :: 0 <= j < |d| ==> (d + [last])[j] == d[j] && d[j] in d;
    FirstMissingIs(shown, ws, |d|);
    assert ws[..|d|] == IssueWrites(d, issues);
  }

  /** The names of the rendered form's outputs, in document order. */
  function RenderedOutputs(): (names: seq<string>)
    ensures |names| == |RENDERED_DATA_KEYS|
    ensures forall i :: 0 <= i < |names| ==> names[i] == OutputName(RENDERED_DATA_KEYS[i])
  {
    seq(|RENDERED_DATA_KEYS|, i requires 0 <= i < |RENDERED_DATA_KEYS| => OutputName(RENDERED_DATA_KEYS[i]))
  }

  /** Every field of the rendered form has its output, and the button has none. */
  lemma RenderedOutputsListed(k: string)
    ensures k in RENDERED_DATA_KEYS ==> OutputName(k) in RenderedOutputs()
    ensures OutputName("submit") !in RenderedOutputs()
  {
    if k in RENDERED_DATA_KEYS {
      var i :| 0 <= i < |RENDERED_DATA_KEYS| && RENDERED_DATA_KEYS[i] == k;
      assert RenderedOutputs()[i] == OutputName(k);
    }
    forall i | 0 <= i < |RENDERED_DATA_KEYS| ensures RenderedOutputs()[i] != OutputName("submit") {
      SubmitUnlisted(RENDERED_DATA_KEYS[i]);
      OutputNameInjective(RENDERED_DATA_KEYS[i], "submit");
    }
  }

  /** Submitting the rendered form as it is first shown, every output empty. A
      record that parses navigates and leaves every output empty; an empty name
      throws before any write; any other rejection writes every field's first
      message and then throws at the missing `err-submit`. */
  method SubmitFresh(els: seq<Element>, isEmail: string -> bool, toNumber: string -> Option<real>)
    returns (outcome: Outcome, outputs: ErrorOutputs)
    requires IsRendered(els)
    ensures var result := Schema(Built(els), isEmail, toNumber);
      && outputs.shown.Keys == (set k | k in RENDERED_DATA_KEYS :: OutputName(k))
      && (outcome == Navigated <==> result == Parsed)
      && (outcome == Threw <==> !result.Parsed?)
      && (forall k :: k in RENDERED_DATA_KEYS ==>
            outputs.shown[OutputName(k)] == if result.Rejected? then MessageOrEmpty(result.issues, [k]) else "")
  {
    var names := RenderedOutputs();
    outputs := new ErrorOutputs(names);
    ghost var initial := outputs.shown;
    FreshKeys(initial);
    outcome := Submit(els, isEmail, toNumber, outputs);
    FreshOutcome(els, isEmail, toNumber, initial);
  }

  /** The freshly shown form has exactly the nine outputs. */
  lemma FreshKeys(initial: map<string, string>)
    requires initial == map n | n in RenderedOutputs() :: ""
    ensures initial.Keys == (set k | k in RENDERED_DATA_KEYS :: OutputName(k))
    ensures forall k :: k in RENDERED_DATA_KEYS ==> OutputName(k) in initial
  {
    forall k | k in RENDERED_DATA_KEYS ensures OutputName(k) in initial {
      RenderedOutputsListed(k);
    }
    forall o | o in initial ensures exists k :: k in RENDERED_DATA_KEYS && o == OutputName(k) {
      var i :| 0 <= i < |RenderedOutputs()| && RenderedOutputs()[i] == o;
      assert RENDERED_DATA_KEYS[i] in RENDERED_DATA_KEYS;
    }
  }

  /** What `SubmitFresh` proves about the run of the plan, on a form whose nine
      outputs show nothing. */
  lemma FreshOutcome(els: seq<Element>, isEmail: string -> bool, toNumber: string -> Option<real>,
                     initial: map<string, string>)
    requires IsRendered(els)
    requires initial == map n | n in RenderedOutputs() :: ""
    requires forall k :: k in RENDERED_DATA_KEYS ==> OutputName(k) in initial
    ensures var result := Schema(Built(els), isEmail, toNumber);
      var after := Run(initial, SubmitPlan(els, isEmail, toNumber));
      && after.0.Keys == initial.Keys
      && (after.1 == Navigated <==> result == Parsed)
      && (after.1 == Threw <==> !result.Parsed?)
      && (forall k :: k in RENDERED_DATA_KEYS ==>
            after.0[OutputName(k)] == if result.Rejected? then MessageOrEmpty(result.issues, [k]) else "")
  {
    var result := Schema(Built(els), isEmail, toNumber);
    var plan := SubmitPlan(els, isEmail, toNumber);
    var n := FirstMissing(initial, plan.writes);
    AssignKeepsKeys(initial, plan.writes[..n]);
    match result
    case Parsed =>
      assert forall k :: k in SCHEMA_KEYS ==> k in RENDERED_DATA_KEYS;
      ParsedClears(els, isEmail, toNumber, initial);
    case TypeError =>
      EmptyNameThrows(Built(els), isEmail, toNumber);
      EmptyNameChangesNothing(els, isEmail, toNumber, initial);
    case Rejected(issues) =>
      RenderedOutputsListed("submit");
      RenderedRejectionThrows(els, isEmail, toNumber, initial);
  }
}
