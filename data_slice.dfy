/** The store's `data` slice: one record of the nine form fields, replaced by
    `clearData` with the initial record and shallow-merged by `addData` with the
    fields its payload carries. Both reducers return a new record. */
module DataSlice {
  import opened Text
  import opened Values
  import FormControl

  /** The stored record. */
  datatype FormData = FormData(
    name: string, age: real, email: string, password: string, repeatPassword: string,
    sex: string, terms: bool, country: string, image: string)

  /** The record's keys. */
  datatype Key = Name | Age | Email | Password | RepeatPassword | Sex | Terms | Country | Image

  /** A record's value under a key. */
  function Lookup(d: FormData, k: Key): Value {
    match k
    case Name => Str(d.name)
    case Age => Num(d.age)
    case Email => Str(d.email)
    case Password => Str(d.password)
    case RepeatPassword => Str(d.repeatPassword)
    case Sex => Str(d.sex)
    case Terms => Bool(d.terms)
    case Country => Str(d.country)
    case Image => Str(d.image)
  }

  /** Two records are equal when they agree under every key. */
  lemma LookupExtensional(a: FormData, b: FormData)
    requires forall k :: Lookup(a, k) == Lookup(b, k)
    ensures a == b
  {
    assert Lookup(a, Name) == Lookup(b, Name) && Lookup(a, Age) == Lookup(b, Age);
    assert Lookup(a, Email) == Lookup(b, Email) && Lookup(a, Password) == Lookup(b, Password);
    assert Lookup(a, RepeatPassword) == Lookup(b, RepeatPassword) && Lookup(a, Sex) == Lookup(b, Sex);
    assert Lookup(a, Terms) == Lookup(b, Terms) && Lookup(a, Country) == Lookup(b, Country);
    assert Lookup(a, Image) == Lookup(b, Image);
  }

  const INITIAL_STATE: FormData := FormData("", 0.0, "", "", "", "", false, "", "")

  /** An `addData` payload: the fields it carries, each with a value of the field's type. */
  datatype Payload = Payload(
    name: Option<string>, age: Option<real>, email: Option<string>, password: Option<string>,
    repeatPassword: Option<string>, sex: Option<string>, terms: Option<bool>,
    country: Option<string>, image: Option<string>)

  const EMPTY_PAYLOAD: Payload := Payload(None, None, None, None, None, None, None, None, None)

  /** A payload's value under a key, if it carries that key. */
  function Provided(p: Payload, k: Key): Option<Value> {
    match k
    case Name => if p.name.Some? then Some(Str(p.name.value)) else None
    case Age => if p.age.Some? then Some(Num(p.age.value)) else None
    case Email => if p.email.Some? then Some(Str(p.email.value)) else None
    case Password => if p.password.Some? then Some(Str(p.password.value)) else None
    case RepeatPassword => if p.repeatPassword.Some? then Some(Str(p.repeatPassword.value)) else None
    case Sex => if p.sex.Some? then Some(Str(p.sex.value)) else None
    case Terms => if p.terms.Some? then Some(Bool(p.terms.value)) else None
    case Country => if p.country.Some? then Some(Str(p.country.value)) else None
    case Image => if p.image.Some? then Some(Str(p.image.value)) else None
  }

  /** A payload carrying every field of `d`. */
  function Full(d: FormData): (p: Payload)
    ensures forall k :: Provided(p, k) == Some(Lookup(d, k))
  {
    Payload(Some(d.name), Some(d.age), Some(d.email), Some(d.password), Some(d.repeatPassword),
            Some(d.sex), Some(d.terms), Some(d.country), Some(d.image))
  }

  /** `{ ...state, ...payload }`, field by field. */
  function Merge(state: FormData, p: Payload): FormData {
    FormData(
      p.name.GetOr(state.name), p.age.GetOr(state.age), p.email.GetOr(state.email),
      p.password.GetOr(state.password), p.repeatPassword.GetOr(state.repeatPassword),
      p.sex.GetOr(state.sex), p.terms.GetOr(state.terms), p.country.GetOr(state.country),
      p.image.GetOr(state.image))
  }

  /** Under every key, the merge holds the payload's value if it carries the key,
      else the state's. */
  lemma MergeLookup(state: FormData, p: Payload, k: Key)
    ensures Lookup(Merge(state, p), k) == Provided(p, k).GetOr(Lookup(state, k))
  {
    match k
    case Name =>
    case Age =>
    case Email =>
    case Password =>
    case RepeatPassword =>
    case Sex =>
    case Terms =>
    case Country =>
    case Image =>
  }

  /** The slice's actions; every other action leaves the slice's state alone. */
  datatype Action = AddData(payload: Payload) | ClearData | Other

  /** The slice's reducer. */
  function Reduce(state: FormData, action: Action): FormData {
    match action
    case AddData(p) => Merge(state, p)
    case ClearData => INITIAL_STATE
    case Other => state
  }

  /** Home shows the record when its name is a non-empty string. */
  predicate HasData(d: FormData) {
    d.name != ""
  }

  /** The initial record is blank: empty strings, age 0, terms unchecked, and no data shown. */
  lemma InitialStateBlank(k: Key)
    ensures Lookup(INITIAL_STATE, k) == if k == Age then Num(0.0) else if k == Terms then Bool(false) else Str("")
    ensures !HasData(INITIAL_STATE)
  {
  }

  /** `clearData` resets whatever the state, so clearing twice is clearing once. */
  lemma ClearResets(state: FormData)
    ensures Reduce(state, ClearData) == INITIAL_STATE
    ensures Reduce(Reduce(state, ClearData), ClearData) == Reduce(state, ClearData)
  {
  }

  /** A field the payload carries takes the payload's value. */
  lemma PresentFieldsWin(state: FormData, p: Payload, k: Key)
    requires Provided(p, k).Some?
    ensures Lookup(Reduce(state, AddData(p)), k) == Provided(p, k).value
  {
    MergeLookup(state, p, k);
  }

  /** A field the payload does not carry keeps its value: a merge, not a replacement. */
  lemma AbsentFieldsKept(state: FormData, p: Payload, k: Key)
    requires Provided(p, k).None?
    ensures Lookup(Reduce(state, AddData(p)), k) == Lookup(state, k)
  {
    MergeLookup(state, p, k);
  }

  /** A payload with all nine fields is read back as exactly that record. */
  lemma FullPayloadRoundTrip(state: FormData, d: FormData)
    ensures Reduce(state, AddData(Full(d))) == d
  {
    forall k ensures Lookup(Reduce(state, AddData(Full(d))), k) == Lookup(d, k) {
      MergeLookup(state, Full(d), k);
    }
    LookupExtensional(Reduce(state, AddData(Full(d))), d);
  }

  /** An empty payload leaves the state unchanged. */
  lemma EmptyPayloadKeeps(state: FormData)
    ensures Reduce(state, AddData(EMPTY_PAYLOAD)) == state
  {
  }

  /** Clearing after adding gives the initial record, which shows no data. */
  lemma AddThenClear(state: FormData, p: Payload)
    ensures Reduce(Reduce(state, AddData(p)), ClearData) == INITIAL_STATE
    ensures !HasData(Reduce(Reduce(state, AddData(p)), ClearData))
  {
  }

  /** The payload `q` laid over `p`, field by field. */
  function Overlay(p: Payload, q: Payload): Payload {
    Payload(
      if q.name.Some? then q.name else p.name, if q.age.Some? then q.age else p.age,
      if q.email.Some? then q.email else p.email, if q.password.Some? then q.password else p.password,
      if q.repeatPassword.Some? then q.repeatPassword else p.repeatPassword,
      if q.sex.Some? then q.sex else p.sex, if q.terms.Some? then q.terms else p.terms,
      if q.country.Some? then q.country else p.country, if q.image.Some? then q.image else p.image)
  }

  /** The overlay carries `q`'s value under every key `q` carries, else `p`'s. */
  lemma OverlayProvided(p: Payload, q: Payload, k: Key)
    ensures Provided(Overlay(p, q), k) == if Provided(q, k).Some? then Provided(q, k) else Provided(p, k)
  {
    match k
    case Name =>
    case Age =>
    case Email =>
    case Password =>
    case RepeatPassword =>
    case Sex =>
    case Terms =>
    case Country =>
    case Image =>
  }

  /** Two merges in a row are one merge of the overlaid payloads; in particular
      merging the same payload twice is merging it once. */
  lemma MergesCompose(state: FormData, p: Payload, q: Payload)
    ensures Reduce(Reduce(state, AddData(p)), AddData(q)) == Reduce(state, AddData(Overlay(p, q)))
    ensures Reduce(Reduce(state, AddData(p)), AddData(p)) == Reduce(state, AddData(p))
  {
    var twice := Reduce(Reduce(state, AddData(p)), AddData(q));
    var once := Reduce(state, AddData(Overlay(p, q)));
    forall k ensures Lookup(twice, k) == Lookup(once, k) {
      MergeLookup(state, p, k);
      MergeLookup(Merge(state, p), q, k);
      MergeLookup(state, Overlay(p, q), k);
      OverlayProvided(p, q, k);
    }
    LookupExtensional(twice, once);
    forall k ensures Lookup(Reduce(Reduce(state, AddData(p)), AddData(p)), k) == Lookup(Reduce(state, AddData(p)), k) {
      MergeLookup(state, p, k);
      MergeLookup(Merge(state, p), p, k);
    }
    LookupExtensional(Reduce(Reduce(state, AddData(p)), AddData(p)), Reduce(state, AddData(p)));
  }

  /** Other actions leave the record as it is. */
  lemma OtherActionsIgnored(state: FormData)
    ensures Reduce(state, Other) == state
  {
  }

  /** After a merge, data is shown exactly when the payload's name is non-empty,
      or it carries no name and data was shown before. */
  lemma ShowsDataAfterAdd(state: FormData, p: Payload)
    ensures HasData(Reduce(state, AddData(p))) <==> if p.name.Some? then p.name.value != "" else HasData(state)
  {
  }

  /** The controlled form dispatches the name it validated, and a valid name is not
      empty, so after its submission Home shows the record. */
  lemma ValidSubmissionShowsData(c: FormControl.Candidate, isEmail: string -> bool, toNumber: string -> Option<real>,
                                 state: FormData, p: Payload)
    requires FormControl.Validate(c, isEmail, toNumber) == []
    requires p.name == Some(c.name)
    ensures HasData(Reduce(state, AddData(p)))
  {
    FormControl.ValidIff(c, isEmail, toNumber);
  }
}
