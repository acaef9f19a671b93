/** The one regular expression the controlled form builds at run time: a
    character class made by escaping a list of characters and wrapping it in
    brackets. This module models the escaping replace and the part of
    JavaScript's (non-`u`) character-class syntax such a pattern uses: plain
    characters, identity escapes of punctuation, and `a-b` ranges. */
module RegexClass {
  import opened Text

  /** The characters matched by the escaping regex `/[.*+?^${}()|[\]\\]/g`. */
  predicate IsMeta(c: char) {
    c == '.' || c == '*' || c == '+' || c == '?' || c == '^' || c == '$' || c == '{' || c == '}'
    || c == '(' || c == ')' || c == '|' || c == '[' || c == ']' || c == '\\'
  }

  /** The replacement `'\\$&'` applied to one character. */
  function EscapeChar(c: char): (r: string)
    ensures IsMeta(c) ==> r == ['\\', c]
    ensures !IsMeta(c) ==> r == [c]
  {
    if IsMeta(c) then ['\\', c] else [c]
  }

  /** `s.replace(/[.*+?^${}()|[\]\\]/g, '\\$&')`: a backslash before every meta character. */
  function Escape(s: string): (r: string)
    ensures |s| <= |r| <= 2 * |s|
  {
    if s == [] then [] else EscapeChar(s[0]) + Escape(s[1..])
  }

  /** Drops the backslash of every two-character escape, reading left to right. */
  function Unescape(s: string): (r: string)
    ensures |r| <= |s|
  {
    if s == [] then []
    else if s[0] == '\\' && |s| >= 2 then [s[1]] + Unescape(s[2..])
    else [s[0]] + Unescape(s[1..])
  }

  /** Escaping loses nothing: undoing it gives back the original characters. */
  lemma {:induction false} UnescapeEscape(s: string)
    ensures Unescape(Escape(s)) == s
  {
    if s != [] {
      assert Escape(s) == EscapeChar(s[0]) + Escape(s[1..]);
      UnescapeEscape(s[1..]);
      if IsMeta(s[0]) {
        assert (EscapeChar(s[0]) + Escape(s[1..]))[2..] == Escape(s[1..]);
      } else {
        assert (EscapeChar(s[0]) + Escape(s[1..]))[1..] == Escape(s[1..]);
      }
    }
  }

  /** One member of a class: a single character or an inclusive range. */
  datatype ClassItem = Single(c: char) | Range(lo: char, hi: char)

  predicate ItemMatches(item: ClassItem, c: char) {
    match item
    case Single(x) => c == x
    case Range(lo, hi) => lo <= c <= hi
  }

  /** A class matches a character when one of its items does. */
  predicate ClassMatches(items: seq<ClassItem>, c: char) {
    exists i :: 0 <= i < |items| && ItemMatches(items[i], c)
  }

  /** Reads one class atom: an identity escape of a character that is not a
      letter or digit, or any character other than `\` and the closing `]`.
      `None` is the end of the class, or an escape this model does not read
      (`\d`, `\w`, `\b`, control escapes). */
  function ParseAtom(s: string): (r: Option<(char, string)>)
    ensures r.Some? ==> |r.value.1| < |s| && r.value.1 == s[|s| - |r.value.1|..]
    ensures r.Some? ==> s[0] != ']'
  {
    if |s| == 0 || s[0] == ']' then None
    else if s[0] == '\\' then
      if |s| >= 2 && !IsAlnum(s[1]) then Some((s[1], s[2..])) else None
    else Some((s[0], s[1..]))
  }

  /** Reads one class item: an atom, or two atoms joined by `-` into a range.
      `None` is an atom this model does not read, or a range whose ends are out of order. */
  function ParseItem(s: string): (r: Option<(ClassItem, string)>)
    ensures r.Some? ==> |r.value.1| < |s| && r.value.1 == s[|s| - |r.value.1|..]
  {
    match ParseAtom(s)
    case None => None
    case Some((lo, rest)) =>
      if |rest| >= 2 && rest[0] == '-' && rest[1] != ']' then
        match ParseAtom(rest[1..])
        case None => None
        case Some((hi, rest2)) =>
          SuffixOfSuffix(s, rest, rest[1..]);
          SuffixOfSuffix(s, rest[1..], rest2);
          if hi < lo then None else Some((Range(lo, hi), rest2))
      else Some((Single(lo), rest))
  }

  /** A suffix of a suffix of `s` is a suffix of `s`. */
  lemma SuffixOfSuffix(s: string, a: string, b: string)
    requires |a| <= |s| && a == s[|s| - |a|..]
    requires |b| <= |a| && b == a[|a| - |b|..]
    ensures b == s[|s| - |b|..]
  {
    assert a[|a| - |b|..] == s[|s| - |b|..];
  }

  /** Reads class items up to and including the closing `]`, returning them with
      the text after the bracket. `None` is a syntax error: no closing bracket,
      an escape outside the modelled subset, or a range whose ends are out of
      order. */
  function ParseClassBody(s: string): (r: Option<(seq<ClassItem>, string)>)
    ensures r.Some? ==> |r.value.1| < |s| && r.value.1 == s[|s| - |r.value.1|..]
    decreases |s|
  {
    if |s| == 0 then None
    else if s[0] == ']' then Some(([], s[1..]))
    else
      match ParseItem(s)
      case None => None
      case Some((item, rest)) =>
        match ParseClassBody(rest)
        case None => None
        case Some((items, tail)) => Some(([item] + items, tail))
  }

  /** A whole pattern that is one non-negated character class and nothing else. */
  function ParseClass(pattern: string): (r: Option<seq<ClassItem>>)
    ensures r.Some? ==> |pattern| >= 2 && pattern[0] == '[' && pattern[|pattern| - 1] == ']'
  {
    if |pattern| >= 2 && pattern[0] == '[' && pattern[1] != '^' then
      match ParseClassBody(pattern[1..])
      case Some((items, tail)) =>
        if tail == [] then
          assert pattern[|pattern| - 1] == ']' by { ClosingBracketLast(pattern[1..]); }
          Some(items)
        else None
      case None => None
    else None
  }

  /** When the class body consumes all of its input, the last character read was the `]`. */
  lemma {:induction false} ClosingBracketLast(s: string)
    requires ParseClassBody(s).Some? && ParseClassBody(s).value.1 == []
    ensures |s| >= 1 && s[|s| - 1] == ']'
    decreases |s|
  {
    if s[0] != ']' {
      var (item, rest) := ParseItem(s).value;
      ClosingBracketLast(rest);
      assert rest == s[|s| - |rest|..];
    }
  }

  /** The items a class made from an escaped list denotes: the list read left to
      right, where an unescaped `-` between two characters joins them into a range. */
  function ItemsOf(s: string): (items: seq<ClassItem>)
    ensures |items| <= |s|
  {
    if s == [] then []
    else if |s| >= 3 && s[1] == '-' then [Range(s[0], s[2])] + ItemsOf(s[3..])
    else [Single(s[0])] + ItemsOf(s[1..])
  }

  /** No letter or digit, so no escape in the escaped list has a special meaning. */
  predicate NoAlnum(s: string) {
    forall i :: 0 <= i < |s| ==> !IsAlnum(s[i])
  }

  /** Every `x-y` that could become a range has its ends in order. */
  predicate DashRangesOrdered(s: string) {
    forall i :: 1 <= i < |s| - 1 && s[i] == '-' ==> s[i - 1] <= s[i + 1]
  }

  /** Every character from `lo` to `hi` is one of `all`. */
  predicate RangeWithin(lo: char, hi: char, all: string) {
    forall c :: lo <= c <= hi ==> c in all
  }

  /** Every `x-y` that could become a range covers the `-` itself and only characters of `all`. */
  predicate DashRangesClosed(s: string, all: string) {
    forall i :: 1 <= i < |s| - 1 && s[i] == '-' ==> s[i - 1] <= '-' <= s[i + 1] && RangeWithin(s[i - 1], s[i + 1], all)
  }

  /** An escaped character reads back as one atom: itself. */
  lemma AtomOfEscaped(c: char, t: string)
    requires !IsAlnum(c)
    ensures ParseAtom(EscapeChar(c) + t) == Some((c, t))
  {
    if IsMeta(c) {
      assert (EscapeChar(c) + t)[2..] == t;
    } else {
      assert (EscapeChar(c) + t)[1..] == t;
    }
  }

  /** Dropping a prefix keeps both side conditions of a list. */
  lemma SuffixConditions(s: string, n: nat)
    requires n <= |s| && NoAlnum(s) && DashRangesOrdered(s)
    ensures NoAlnum(s[n..]) && DashRangesOrdered(s[n..])
  {
    var tail := s[n..];
    forall i | 1 <= i < |tail| - 1 && tail[i] == '-' ensures tail[i - 1] <= tail[i + 1] {
      assert tail[i - 1] == s[i - 1 + n] && tail[i] == s[i + n] && tail[i + 1] == s[i + 1 + n];
    }
    forall i | 0 <= i < |tail| ensures !IsAlnum(tail[i]) {
      assert tail[i] == s[i + n];
    }
  }

  /** The body of a bracketed escaped list parses, up to its closing bracket, into ItemsOf. */
  lemma {:induction false} ParseEscapedList(s: string, t: string)
    requires NoAlnum(s) && DashRangesOrdered(s)
    ensures ParseClassBody(Escape(s) + "]" + t) == Some((ItemsOf(s), t))
    decreases |s|, 1
  {
    if s == [] {
      var input := Escape(s) + "]" + t;
      assert input == "]" + t;
      assert input[1..] == t;
    } else if |s| >= 3 && s[1] == '-' {
      ParseEscapedRange(s, t);
    } else {
      ParseEscapedSingle(s, t);
    }
  }

  /** The step of ParseEscapedList where the list starts `x-y`: a range. */
  lemma {:induction false} ParseEscapedRange(s: string, t: string)
    requires NoAlnum(s) && DashRangesOrdered(s)
    requires |s| >= 3 && s[1] == '-'
    ensures ParseClassBody(Escape(s) + "]" + t) == Some((ItemsOf(s), t))
    decreases |s|, 0
  {
    var rest2 := Escape(s[3..]) + "]" + t;
    var input := EscapeChar(s[0]) + ("-" + (EscapeChar(s[2]) + rest2));
    EscapeRangeSplit(s);
    assert Escape(s) + "]" + t == input;
    assert s[0] <= s[2] && !IsAlnum(s[0]) && !IsAlnum(s[2]);
    ItemOfEscapedRange(s[0], s[2], rest2);
    SuffixConditions(s, 3);
    ParseEscapedList(s[3..], t);
    BodyStep(input, Range(s[0], s[2]), rest2, ItemsOf(s[3..]), t);
  }

  /** The escaped form of a list starting `x-y`: the `-` is not escaped. */
  lemma EscapeRangeSplit(s: string)
    requires |s| >= 3 && s[1] == '-'
    ensures Escape(s) == EscapeChar(s[0]) + ("-" + (EscapeChar(s[2]) + Escape(s[3..])))
  {
    assert Escape(s) == EscapeChar(s[0]) + Escape(s[1..]);
    assert s[1..][1..] == s[2..] && s[2..][1..] == s[3..];
    assert Escape(s[1..]) == EscapeChar(s[1]) + Escape(s[2..]);
    assert Escape(s[2..]) == EscapeChar(s[2]) + Escape(s[3..]);
  }

  /** Two escaped characters joined by `-` read back as one range item. */
  lemma ItemOfEscapedRange(lo: char, hi: char, rest2: string)
    requires !IsAlnum(lo) && !IsAlnum(hi) && lo <= hi
    ensures ParseItem(EscapeChar(lo) + ("-" + (EscapeChar(hi) + rest2))) == Some((Range(lo, hi), rest2))
  {
    var rest := "-" + (EscapeChar(hi) + rest2);
    AtomOfEscaped(lo, rest);
    assert rest[1..] == EscapeChar(hi) + rest2;
    assert rest[1] == EscapeChar(hi)[0];
    AtomOfEscaped(hi, rest2);
  }

  /** The step of ParseEscapedList where the first character stands alone. */
  lemma {:induction false} ParseEscapedSingle(s: string, t: string)
    requires NoAlnum(s) && DashRangesOrdered(s)
    requires s != [] && !(|s| >= 3 && s[1] == '-')
    ensures ParseClassBody(Escape(s) + "]" + t) == Some((ItemsOf(s), t))
    decreases |s|, 0
  {
    var rest := Escape(s[1..]) + "]" + t;
    var input := EscapeChar(s[0]) + rest;
    assert Escape(s) + "]" + t == input by {
      assert Escape(s) == EscapeChar(s[0]) + Escape(s[1..]);
    }
    NoRangeAfter(s, t);
    ItemOfEscapedSingle(s[0], rest);
    SuffixConditions(s, 1);
    ParseEscapedList(s[1..], t);
    BodyStep(input, Single(s[0]), rest, ItemsOf(s[1..]), t);
  }

  /** A class body that starts with an item is that item followed by the rest of the body. */
  lemma BodyStep(input: string, item: ClassItem, rest: string, items: seq<ClassItem>, t: string)
    requires ParseItem(input) == Some((item, rest))
    requires ParseClassBody(rest) == Some((items, t))
    ensures ParseClassBody(input) == Some(([item] + items, t))
  {
  }

  /** After the first character of a list that does not start `x-y`, the escaped
      text does not continue with a range dash. */
  lemma NoRangeAfter(s: string, t: string)
    requires NoAlnum(s) && s != [] && !(|s| >= 3 && s[1] == '-')
    ensures var rest := Escape(s[1..]) + "]" + t; !(|rest| >= 2 && rest[0] == '-' && rest[1] != ']')
  {
    var rest := Escape(s[1..]) + "]" + t;
    if |s| >= 2 {
      assert s[1..][1..] == s[2..];
      assert Escape(s[1..]) == EscapeChar(s[1]) + Escape(s[2..]);
      assert rest[0] == EscapeChar(s[1])[0];
      if s[1] == '-' {
        assert Escape(s[2..]) == [];
        assert rest[1] == ']';
      }
    } else {
      assert rest[0] == ']';
    }
  }

  /** An escaped character not followed by a range dash reads back as a single item. */
  lemma ItemOfEscapedSingle(c: char, rest: string)
    requires !IsAlnum(c) && !(|rest| >= 2 && rest[0] == '-' && rest[1] != ']')
    ensures ParseItem(EscapeChar(c) + rest) == Some((Single(c), rest))
  {
    AtomOfEscaped(c, rest);
  }

  /** Wrapping an escaped list in brackets gives a well-formed class whose items are ItemsOf. */
  lemma ParseEscapedClass(s: string)
    requires NoAlnum(s) && DashRangesOrdered(s)
    ensures ParseClass("[" + Escape(s) + "]") == Some(ItemsOf(s))
  {
    var body := Escape(s) + "]" + "";
    var p := "[" + Escape(s) + "]";
    assert p[1..] == body;
    ParseEscapedList(s, "");
    EscapedNoCaret(s);
  }

  /** An escaped list never starts with `^`, so its class is not negated. */
  lemma EscapedNoCaret(s: string)
    ensures ("[" + Escape(s) + "]")[1] != '^'
  {
    var p := "[" + Escape(s) + "]";
    if s != [] {
      assert Escape(s) == EscapeChar(s[0]) + Escape(s[1..]);
      assert p[1] == EscapeChar(s[0])[0];
    } else {
      assert p[1] == ']';
    }
  }

  /** Dropping a prefix keeps a list's ranges closed. */
  lemma ClosedSuffix(s: string, all: string, n: nat)
    requires n <= |s| && DashRangesClosed(s, all)
    ensures DashRangesClosed(s[n..], all)
  {
    var tail := s[n..];
    forall i | 1 <= i < |tail| - 1 && tail[i] == '-'
      ensures tail[i - 1] <= '-' <= tail[i + 1] && RangeWithin(tail[i - 1], tail[i + 1], all)
    {
      assert tail[i - 1] == s[i - 1 + n] && tail[i] == s[i + n] && tail[i + 1] == s[i + 1 + n];
    }
  }

  /** A match in `[head] + rest` is a match of `head` or of `rest`. */
  lemma MatchesCons(head: ClassItem, rest: seq<ClassItem>, c: char)
    ensures ClassMatches([head] + rest, c) <==> ItemMatches(head, c) || ClassMatches(rest, c)
  {
    if ClassMatches(rest, c) {
      var i :| 0 <= i < |rest| && ItemMatches(rest[i], c);
      assert ([head] + rest)[i + 1] == rest[i];
    }
    if ClassMatches([head] + rest, c) {
      var i :| 0 <= i < |[head] + rest| && ItemMatches(([head] + rest)[i], c);
      if i > 0 { assert ([head] + rest)[i] == rest[i - 1]; }
    }
    assert ([head] + rest)[0] == head;
  }

  /** When every range is closed, the items of a list match its own characters and
      nothing outside `all`. */
  lemma {:induction false} ItemsOfCover(s: string, all: string, c: char)
    requires DashRangesClosed(s, all) && forall x :: x in s ==> x in all
    ensures c in s ==> ClassMatches(ItemsOf(s), c)
    ensures ClassMatches(ItemsOf(s), c) ==> c in all
    decreases |s|
  {
    if s != [] {
      var n := if |s| >= 3 && s[1] == '-' then 3 else 1;
      var head := if n == 3 then Range(s[0], s[2]) else Single(s[0]);
      var tail := s[n..];
      assert ItemsOf(s) == [head] + ItemsOf(tail);
      ClosedSuffix(s, all, n);
      assert s == s[..n] + tail;
      ItemsOfCover(tail, all, c);
      MatchesCons(head, ItemsOf(tail), c);
      HeadCovers(s, all, c);
    }
  }

  /** The first item of a list matches the characters it is read from, and only
      characters of `all` when its range is closed. */
  lemma HeadCovers(s: string, all: string, c: char)
    requires s != [] && DashRangesClosed(s, all) && forall x :: x in s ==> x in all
    ensures var n := if |s| >= 3 && s[1] == '-' then 3 else 1;
      var head := if n == 3 then Range(s[0], s[2]) else Single(s[0]);
      && (c in s[..n] ==> ItemMatches(head, c))
      && (ItemMatches(head, c) ==> c in all)
  {
    if |s| >= 3 && s[1] == '-' {
      assert s[0] <= '-' <= s[2] && RangeWithin(s[0], s[2], all);
      if c in s[..3] {
        assert c == s[0] || c == s[1] || c == s[2];
      }
    } else {
      assert s[..1] == [s[0]];
      assert s[0] in s;
    }
  }
}
