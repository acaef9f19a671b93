/** Validation issues as a schema reports them: the first element of the issue's
    path (the field it is attached to) and its message, in the order the schema
    produced them. The path type is a parameter: a field enumeration where the
    fields are fixed, strings where they are looked up by name. */
module Issues {
  import opened Text

  datatype Issue<P> = Issue(path: P, message: string)

  /** Attaches every message of one field rule to that field, keeping their order. */
  function At<P>(path: P, messages: seq<string>): (r: seq<Issue<P>>)
    ensures |r| == |messages|
  {
    if messages == [] then [] else [Issue(path, messages[0])] + At(path, messages[1..])
  }

  /** The messages attached to `field`, in report order. */
  function MessagesAt<P(==)>(issues: seq<Issue<P>>, field: P): (ms: seq<string>)
    ensures |ms| <= |issues|
  {
    if issues == [] then []
    else if issues[0].path == field then [issues[0].message] + MessagesAt(issues[1..], field)
    else MessagesAt(issues[1..], field)
  }

  /** `issues.find((e) => e.path[0] === field)`, reduced to its message. */
  function FirstMessage<P(==)>(issues: seq<Issue<P>>, field: P): (r: Option<string>)
    ensures r.None? <==> forall i :: 0 <= i < |issues| ==> issues[i].path != field
    ensures r.Some? ==> exists i :: 0 <= i < |issues| && issues[i] == Issue(field, r.value)
                                   && forall j :: 0 <= j < i ==> issues[j].path != field
  {
    if issues == [] then None
    else if issues[0].path == field then Some(issues[0].message)
    else
      var r := FirstMessage(issues[1..], field);
      assert r.Some? ==> exists i :: 0 <= i < |issues[1..]| && issues[1..][i] == Issue(field, r.value)
                                   && forall j :: 0 <= j < i ==> issues[1..][j].path != field;
      assert r.Some? ==> exists i :: 1 <= i < |issues| && issues[i] == Issue(field, r.value)
                                   && forall j :: 0 <= j < i ==> issues[j].path != field by {
        if r.Some? {
          var i :| 0 <= i < |issues[1..]| && issues[1..][i] == Issue(field, r.value)
                 && forall j :: 0 <= j < i ==> issues[1..][j].path != field;
          assert issues[i + 1] == Issue(field, r.value);
          assert forall j :: 0 <= j < i + 1 ==> issues[j].path != field by {
            forall j | 0 <= j < i + 1 ensures issues[j].path != field {
              if j > 0 { assert issues[j] == issues[1..][j - 1]; }
            }
          }
        }
      }
      r
  }

  /** The message an output shows for `field`: the first one reported for it, or the empty string. */
  function MessageOrEmpty<P(==)>(issues: seq<Issue<P>>, field: P): string {
    FirstMessage(issues, field).GetOr("")
  }

  /** Collecting the messages of one field distributes over concatenated reports. */
  lemma {:induction false} MessagesAtAppend<P>(a: seq<Issue<P>>, b: seq<Issue<P>>, field: P)
    ensures MessagesAt(a + b, field) == MessagesAt(a, field) + MessagesAt(b, field)
  {
    if a != [] {
      assert (a + b)[0] == a[0];
      assert (a + b)[1..] == a[1..] + b;
      MessagesAtAppend(a[1..], b, field);
    } else {
      assert a + b == b;
    }
  }

  /** Reading a field out of one rule's issues followed by a rest. */
  lemma AtThen<P>(path: P, messages: seq<string>, rest: seq<Issue<P>>, field: P)
    ensures path == field ==> MessagesAt(At(path, messages) + rest, field) == messages + MessagesAt(rest, field)
    ensures path != field ==> MessagesAt(At(path, messages) + rest, field) == MessagesAt(rest, field)
  {
    MessagesAtAppend(At(path, messages), rest, field);
    MessagesAtAt(path, messages, field);
  }

  /** The issues of one rule carry exactly that rule's messages on its field, and none on any other. */
  lemma {:induction false} MessagesAtAt<P>(path: P, messages: seq<string>, field: P)
    ensures MessagesAt(At(path, messages), field) == if path == field then messages else []
  {
    if messages != [] {
      MessagesAtAt(path, messages[1..], field);
    }
  }

  /** The message `find` selects is the first entry of the field's message list. */
  lemma {:induction false} FirstMessageIsHead<P>(issues: seq<Issue<P>>, field: P)
    ensures FirstMessage(issues, field) ==
            if MessagesAt(issues, field) == [] then None else Some(MessagesAt(issues, field)[0])
  {
    if issues != [] && issues[0].path != field {
      FirstMessageIsHead(issues[1..], field);
    }
  }

  /** MessagesAt keeps exactly the messages of the issues on `field`. */
  lemma {:induction false} MessagesAtMembers<P>(issues: seq<Issue<P>>, field: P, m: string)
    ensures m in MessagesAt(issues, field) <==> exists i :: 0 <= i < |issues| && issues[i] == Issue(field, m)
  {
    if issues != [] {
      MessagesAtMembers(issues[1..], field, m);
      if exists i :: 0 <= i < |issues| && issues[i] == Issue(field, m) {
        var i :| 0 <= i < |issues| && issues[i] == Issue(field, m);
        if i > 0 { assert issues[1..][i - 1] == issues[i]; }
      }
      if exists i :: 0 <= i < |issues[1..]| && issues[1..][i] == Issue(field, m) {
        var i :| 0 <= i < |issues[1..]| && issues[1..][i] == Issue(field, m);
        assert issues[i + 1] == issues[1..][i];
      }
    }
  }
}
