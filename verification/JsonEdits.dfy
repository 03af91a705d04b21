/**
 Putting another value in the place of one: what the reader makes of the edited text.
 */
module JsonEdits {
  import opened Basics
  import opened Json
  import opened JsonReader
  import opened JsonText

  // ---- one value in the place of another ----

  function Replaced(text: string, span: Span, with: string): string
    requires span.start <= span.end <= |text|
  {
    text[..span.start] + with + text[span.end..]
  }

  /** Reading a member and the comma after it does not depend on what follows the comma. */
  lemma MemberLocal(head: string, tail: string, other: string)
    requires ReadName(head + tail).Got? && ReadValue(ReadName(head + tail).rest).Got?
    requires SkipSpace(ReadValue(ReadName(head + tail).rest).rest) == [','] + tail
    ensures ReadName(head + other).Got? && ReadName(head + other).value == ReadName(head + tail).value
    ensures var value := ReadValue(ReadName(head + other).rest);
      && value.Got? && value.value == ReadValue(ReadName(head + tail).rest).value
      && SkipSpace(value.rest) == [','] + other
  {
    hide ReadValue, ReadName, SkipSpace, EndOf, Left;
    var Got(name, after) := ReadName(head + tail);
    var Got(value, rest) := ReadValue(after);
    NameEnd(head + tail);
    ValueEnd(after);
    SpaceShorter(after);
    SpaceShorter(rest);
    Parts(head, tail, after, other);
    var a := Left(head, tail, after);
    NameLocal(head[..|head| - |a|], a + tail, a + other);
    Parts(a, tail, rest, other);
    var r := Left(a, tail, rest);
    EndsAfter(r, tail, other);
    ValueLocal(a[..|a| - |r|], r + tail, r + other);
    OneMore(r, tail, ',', other);
  }

  /** The same for an element of an array. */
  lemma ItemLocal(head: string, tail: string, other: string)
    requires ReadValue(head + tail).Got? && SkipSpace(ReadValue(head + tail).rest) == [','] + tail
    ensures ReadValue(head + other).Got? && SkipSpace(ReadValue(head + other).rest) == [','] + other
  {
    hide ReadValue, SkipSpace, EndOf, Left;
    var Got(value, rest) := ReadValue(head + tail);
    ValueEnd(head + tail);
    SpaceShorter(rest);
    Parts(head, tail, rest, other);
    var r := Left(head, tail, rest);
    EndsAfter(r, tail, other);
    ValueLocal(head[..|head| - |r|], r + tail, r + other);
    OneMore(r, tail, ',', other);
  }

  /** Another value after the same white space. */
  lemma ValueThere(space: string, raw: string, rest: string)
    requires SkipSpace(space) == [] && IsRaw(raw) && Ends(rest)
    ensures ReadValue(space + (raw + rest)) == Got(ReadValue(raw).value, rest)
  {
    hide ReadValue, SkipSpace;
    IsRawReads(raw);
    assert raw + [] == raw;
    ValueLocal(raw, [], rest);
    SkipIn(space, raw + rest);
    ValueSkips(space + (raw + rest));
    ValueSkips(raw + rest);
  }

  lemma {:induction false} SpaceBefore(s: string)
    ensures |SkipSpace(s)| <= |s| && SkipSpace(s[..|s| - |SkipSpace(s)|]) == []
    ensures forall i :: 0 <= i < |s| - |SkipSpace(s)| ==> IsSpace(s[i])
  {
    if s != [] && IsSpace(s[0]) {
      SpaceBefore(s[1..]);
      var n := |s| - |SkipSpace(s)|;
      assert s[..n][1..] == s[1..][..n - 1];
    } else {
      assert s[..0] == [];
    }
  }

  /** The first member, with another value. */
  lemma NameThen(s: string, raw: string, before: map<string, JSON>)
    requires ReadName(s).Got? && ReadValue(ReadName(s).rest).Got? && IsRaw(raw)
    requires var t := SkipSpace(ReadValue(ReadName(s).rest).rest); t != [] && (t[0] == ',' || t[0] == '}')
    ensures var after := ReadName(s).rest;
      && |SkipSpace(after)| <= |after| <= |s|
      && var u := s[..|s| - |SkipSpace(after)|] + raw + ReadValue(after).rest;
         && ReadName(u).Got? && ReadName(u).value == ReadName(s).value
         && ReadValue(ReadName(u).rest) == Got(ReadValue(raw).value, ReadValue(after).rest)
  {
    hide ReadValue, ReadName, SkipSpace, IsRaw, EndOf;
    var Got(name, after) := ReadName(s);
    var rest := ReadValue(after).rest;
    NameEnd(s);
    SpaceEnd(after);
    SpaceBefore(after);
    var space := after[..|after| - |SkipSpace(after)|];
    var head := s[..|s| - |after|];
    Whole(s, after);
    NameLocal(head, after, space + (raw + rest));
    Regrouped(s, after, SkipSpace(after), raw, rest);
    EndsHere(rest);
    ValueThere(space, raw, rest);
  }

  lemma Whole(s: string, after: string)
    requires EndOf(after, s)
    ensures s == s[..|s| - |after|] + after
  {
  }

  lemma Regrouped(s: string, after: string, t: string, raw: string, rest: string)
    requires EndOf(after, s) && EndOf(t, after)
    ensures s[..|s| - |t|] + raw + rest == s[..|s| - |after|] + (after[..|after| - |t|] + (raw + rest))
  {
    assert s[..|s| - |t|] == s[..|s| - |after|] + after[..|after| - |t|];
  }

  lemma EndsHere(rest: string)
    requires SkipSpace(rest) != [] && SkipSpace(rest)[0] in [',', ']', '}', ':']
    ensures Ends(rest)
  {
    assert rest != [];
    if !IsSpace(rest[0]) {
      NoSpace(rest);
    }
  }

  // ---- inside an object ----

  /** The object the members make when member k has another value. */
  function FieldMapWith(text: string, fields: seq<Field>, before: map<string, JSON>, k: int, value: JSON): map<string, JSON>
  {
    if fields == [] then before
    else FieldMapWith(text, fields[1..], before[fields[0].name := if k == 0 then value else ValueAt(text, fields[0].at)], k - 1, value)
  }

  lemma {:induction false} NoneReplaced(text: string, fields: seq<Field>, before: map<string, JSON>, k: int, value: JSON)
    requires k < 0
    ensures FieldMapWith(text, fields, before, k, value) == FieldMap(text, fields, before)
  {
    if fields != [] {
      NoneReplaced(text, fields[1..], before[fields[0].name := ValueAt(text, fields[0].at)], k - 1, value);
    }
  }

  /** A text that is the same up to a position, and reads otherwise from there on. */
  lemma Cut(text: string, span: Span, raw: string, at: nat)
    requires at <= span.start <= span.end <= |text|
    ensures |Replaced(text, span, raw)| >= span.start
    ensures Replaced(text, span, raw)[at..] == text[at..span.start] + raw + text[span.end..]
  {
  }

  lemma CutAhead(text: string, span: Span, raw: string, at: nat, next: nat)
    requires at <= next <= span.start <= span.end <= |text|
    ensures |Replaced(text, span, raw)| >= span.start
    ensures Replaced(text, span, raw)[at..] == text[at..next] + Replaced(text, span, raw)[next..]
    ensures text[at..] == text[at..next] + text[next..]
  {
    var edited := Replaced(text, span, raw);
    assert edited[at..next] == text[at..next];
  }

  /** With another value in the place of member k's, the object reads as before but for that member. */
  lemma {:induction false} FieldReplaced(text: string, at: nat, s: string, k: nat, raw: string, before: map<string, JSON>)
    requires at <= |text| && text[at..] == s && FieldsFrom(s, at).Got? && k < |FieldsFrom(s, at).value| && IsRaw(raw)
    ensures var fields := FieldsFrom(s, at).value;
      var span := fields[k].at;
      && at <= span.start <= span.end <= |text| && at <= |Replaced(text, span, raw)|
      && ReadMembers(Replaced(text, span, raw)[at..], before)
         == Got(FieldMapWith(text, fields, before, k, ReadValue(raw).value), FieldsFrom(s, at).rest)
    decreases |s|
  {
    hide ReadValue, SkipSpace, IsRaw, EndOf, ReadName, ReadMembers, Places, FieldsFrom, Replaced, InOrder, FieldMap;
    FieldsHold(text, at, s, before);
    if ReadName(s).Failed? || ReadValue(ReadName(s).rest).Failed? {
      NoField(s, at, before);
      assert false;
    }
    FieldHolds(text, at, s, before);
    FirstField(s, at, before);
    var Got(name, after) := ReadName(s);
    var Got(value, rest) := ReadValue(after);
    var t := SkipSpace(rest);
    SpaceShorter(rest);
    if k == 0 {
      FirstReplaced(text, at, s, raw, before);
    } else {
      Onward(text, at, s, rest, ',');
      var next := at + |s| - |t| + 1;
      FieldReplaced(text, next, t[1..], k - 1, raw, before[name := value]);
      LaterReplaced(text, at, s, next, FieldsFrom(s, at).value[k].at, raw, before);
    }
  }

  /** The first member's value replaced: the rest reads as it did. */
  lemma FirstReplaced(text: string, at: nat, s: string, raw: string, before: map<string, JSON>)
    requires at <= |text| && text[at..] == s && FieldsFrom(s, at).Got? && IsRaw(raw)
    ensures var fields := FieldsFrom(s, at).value;
      && fields != [] && at <= fields[0].at.start <= fields[0].at.end <= |text| && at <= |Replaced(text, fields[0].at, raw)|
      && ReadMembers(Replaced(text, fields[0].at, raw)[at..], before)
         == Got(FieldMapWith(text, fields, before, 0, ReadValue(raw).value), FieldsFrom(s, at).rest)
  {
    hide ReadValue, SkipSpace, IsRaw, EndOf, ReadName, ReadMembers, Places, FieldsFrom, Replaced, InOrder, FieldMap;
    if ReadName(s).Failed? || ReadValue(ReadName(s).rest).Failed? {
      NoField(s, at, before);
      assert false;
    }
    IsRawReads(raw);
    FieldHolds(text, at, s, before);
    FirstField(s, at, before);
    var Got(name, after) := ReadName(s);
    var rest := ReadValue(after).rest;
    var t := SkipSpace(rest);
    SpaceShorter(rest);
    var span := Span(at + |s| - |SkipSpace(after)|, at + |s| - |rest|);
    FirstEdited(text, at, s, span, raw);
    var edited := Replaced(text, span, raw)[at..];
    MembersByName(edited, before);
    var more := FieldsFrom(s, at).value[1..];
    var begun := before[name := ReadValue(raw).value];
    NoneReplaced(text, more, begun, -1, ReadValue(raw).value);
    if t[0] == ',' {
      Onward(text, at, s, rest, ',');
      FieldsHold(text, at + |s| - |t| + 1, t[1..], begun);
    } else {
      NoFieldsLeft(text, more, begun);
    }
  }

  /** What stands there then: the same name, the new value, the same rest. */
  lemma FirstEdited(text: string, at: nat, s: string, span: Span, raw: string)
    requires at <= |text| && text[at..] == s && ReadName(s).Got? && ReadValue(ReadName(s).rest).Got? && IsRaw(raw)
    requires var t := SkipSpace(ReadValue(ReadName(s).rest).rest); t != [] && (t[0] == ',' || t[0] == '}')
    requires var after := ReadName(s).rest;
      |SkipSpace(after)| <= |s| && |ReadValue(after).rest| <= |s|
      && span == Span(at + |s| - |SkipSpace(after)|, at + |s| - |ReadValue(after).rest|) && span.start <= span.end <= |text|
    ensures at <= |Replaced(text, span, raw)|
    ensures var edited := Replaced(text, span, raw)[at..];
      && ReadName(edited).Got? && ReadName(edited).value == ReadName(s).value
      && ReadValue(ReadName(edited).rest) == Got(ReadValue(raw).value, ReadValue(ReadName(s).rest).rest)
  {
    hide ReadValue, SkipSpace, IsRaw, EndOf, ReadName, Replaced;
    var after := ReadName(s).rest;
    NameThen(s, raw, map[]);
    Cut(text, span, raw, at);
    NameEnd(s);
    ValueEnd(after);
    EndOfEnd(ReadValue(after).rest, after, s);
    StandsFrom(text, at, s, ReadValue(after).rest, |s| - |SkipSpace(after)|);
  }

  lemma NoFieldsLeft(text: string, fields: seq<Field>, before: map<string, JSON>)
    ensures fields == [] ==> FieldMap(text, fields, before) == before
  {
  }

  lemma StandsFrom(text: string, at: nat, s: string, rest: string, n: nat)
    requires at <= |text| && text[at..] == s && EndOf(rest, s) && n <= |s|
    ensures text[at..at + n] == s[..n] && text[at + |s| - |rest|..] == rest
  {
    From(text, at, s, |s| - |rest|);
  }

  /** A later member's value replaced: the first member and its comma read as they did. */
  lemma LaterReplaced(text: string, at: nat, s: string, next: nat, span: Span, raw: string, before: map<string, JSON>)
    requires at <= next <= span.start <= span.end <= |text| && text[at..] == s
    requires ReadName(s).Got? && ReadValue(ReadName(s).rest).Got?
    requires SkipSpace(ReadValue(ReadName(s).rest).rest) == [','] + text[next..]
    ensures next <= |Replaced(text, span, raw)|
    ensures ReadMembers(Replaced(text, span, raw)[at..], before)
         == ReadMembers(Replaced(text, span, raw)[next..], before[ReadName(s).value := ReadValue(ReadName(s).rest).value])
  {
    hide ReadValue, ReadName, SkipSpace, ReadMembers, Replaced;
    CutAhead(text, span, raw, at, next);
    var edited := Replaced(text, span, raw);
    MemberLocal(text[at..next], text[next..], edited[next..]);
    MembersByName(edited[at..], before);
  }

  // ---- inside an array ----

  lemma FirstItemEdited(text: string, at: nat, s: string, span: Span, raw: string)
    requires at <= |text| && text[at..] == s && ReadValue(s).Got? && IsRaw(raw)
    requires var t := SkipSpace(ReadValue(s).rest); t != [] && (t[0] == ',' || t[0] == ']')
    requires |SkipSpace(s)| <= |s| && |ReadValue(s).rest| <= |s|
    requires span == Span(at + |s| - |SkipSpace(s)|, at + |s| - |ReadValue(s).rest|) && span.start <= span.end <= |text|
    ensures at <= |Replaced(text, span, raw)|
    ensures ReadValue(Replaced(text, span, raw)[at..]) == Got(ReadValue(raw).value, ReadValue(s).rest)
  {
    hide ReadValue, SkipSpace, IsRaw, EndOf, Replaced;
    var rest := ReadValue(s).rest;
    Cut(text, span, raw, at);
    ValueEnd(s);
    SpaceBefore(s);
    StandsFrom(text, at, s, rest, |s| - |SkipSpace(s)|);
    EndsHere(rest);
    var space := s[..|s| - |SkipSpace(s)|];
    ValueThere(space, raw, rest);
    Associative(space, raw, rest);
  }

  lemma {:induction false} ItemReplaced(text: string, at: nat, s: string, k: nat, raw: string)
    requires at <= |text| && text[at..] == s && ItemSpansFrom(s, at).Got? && k < |ItemSpansFrom(s, at).value| && IsRaw(raw)
    ensures var span := ItemSpansFrom(s, at).value[k];
      && at <= span.start <= span.end <= |text| && at <= |Replaced(text, span, raw)|
      && ReadItems(Replaced(text, span, raw)[at..]).Got?
      && ReadItems(Replaced(text, span, raw)[at..]).rest == ItemSpansFrom(s, at).rest
    decreases |s|
  {
    hide *;
    var first, next, last := ItemStep(text, at, s);
    if k == 0 {
      FirstItemReplaced(text, at, s, first, raw);
    } else {
      ItemReplaced(text, next, text[next..], k - 1, raw);
      var span := ItemSpansFrom(s, at).value[k];
      LaterItemEdited(text, at, s, next, span, raw);
      ItemThen(Replaced(text, span, raw)[at..], Replaced(text, span, raw)[next..]);
    }
  }

  lemma FirstItemReplaced(text: string, at: nat, s: string, span: Span, raw: string)
    requires at <= |text| && text[at..] == s && ItemSpansFrom(s, at).Got? && IsRaw(raw)
    requires ItemSpansFrom(s, at).value != [] && span == ItemSpansFrom(s, at).value[0]
    ensures at <= span.start <= span.end <= |text| && at <= |Replaced(text, span, raw)|
    ensures ReadItems(Replaced(text, span, raw)[at..]).Got?
    ensures ReadItems(Replaced(text, span, raw)[at..]).rest == ItemSpansFrom(s, at).rest
  {
    hide ReadValue, SkipSpace, IsRaw, EndOf, Replaced, InOrder, ReadItems, ItemSpansFrom;
    FirstItem(s, at);
    ReadThere(text, at, s);
    FirstItemEdited(text, at, s, span, raw);
    ItemSpansHold(text, at, s);
    SameRest(s, Replaced(text, span, raw)[at..]);
  }

  /** The elements after the first are read from what the first leaves. */
  lemma SameRest(s: string, u: string)
    requires ReadItems(s).Got? && ReadValue(s).Got? && ReadValue(u).Got? && ReadValue(u).rest == ReadValue(s).rest
    ensures ReadItems(u).Got? && ReadItems(u).rest == ReadItems(s).rest
  {
    hide ReadValue, SkipSpace;
  }

  lemma ItemThen(s: string, more: string)
    requires ReadValue(s).Got? && SkipSpace(ReadValue(s).rest) == [','] + more && ReadItems(more).Got?
    ensures ReadItems(s).Got? && ReadItems(s).rest == ReadItems(more).rest
  {
    hide ReadValue, SkipSpace;
    assert ([','] + more)[1..] == more;
  }

  lemma LaterItemEdited(text: string, at: nat, s: string, next: nat, span: Span, raw: string)
    requires at <= next <= span.start <= span.end <= |text| && text[at..] == s && ReadValue(s).Got?
    requires SkipSpace(ReadValue(s).rest) == [','] + text[next..]
    ensures next <= |Replaced(text, span, raw)|
    ensures var v := ReadValue(Replaced(text, span, raw)[at..]);
      v.Got? && SkipSpace(v.rest) == [','] + Replaced(text, span, raw)[next..]
  {
    hide ReadValue, SkipSpace, Replaced;
    CutAhead(text, span, raw, at, next);
    ItemLocal(text[at..next], text[next..], Replaced(text, span, raw)[next..]);
  }

  // ---- whole values ----

  lemma ItemsNotEmpty(s: string)
    requires ReadItems(s).Got?
    ensures SkipSpace(s) != [] && SkipSpace(s)[0] != ']'
  {
    hide ReadItems, ReadMembers, ReadChars, NumberLength, SkipSpace;
    assert ReadItems(s).Got? ==> ReadValue(s).Got? by {
      ItemsFirst(s);
    }
  }

  lemma ItemsFirst(s: string)
    ensures ReadItems(s).Got? ==> ReadValue(s).Got?
  {
    hide ReadValue, SkipSpace;
  }

  lemma MembersNotEmpty(s: string, before: map<string, JSON>)
    requires ReadMembers(s, before).Got?
    ensures SkipSpace(s) != [] && SkipSpace(s)[0] == '\"'
  {
    hide ReadValue, ReadChars, SkipSpace;
  }

  /** An edit behind the opening bracket leaves the bracket first. */
  lemma OpensAlike(text: string, span: Span, raw: string, c: char)
    requires SkipSpace(text) != [] && SkipSpace(text)[0] == c
    requires |text| - |SkipSpace(text)| + 1 <= span.start <= span.end <= |text|
    ensures var at := |text| - |SkipSpace(text)| + 1;
      && 0 <= at <= |Replaced(text, span, raw)|
      && SkipSpace(Replaced(text, span, raw)) == [c] + Replaced(text, span, raw)[at..]
    ensures !IsSpace(text[0]) ==> Replaced(text, span, raw)[0] == text[0]
  {
    hide SkipSpace;
    SpaceBefore(text);
    SpaceEnd(text);
    var n := |text| - |SkipSpace(text)|;
    CutAhead(text, span, raw, 0, n + 1);
    var edited := Replaced(text, span, raw);
    assert edited == text[..n] + ([c] + edited[n + 1..]) by {
      assert text[n..][0] == c;
      assert text[..n + 1] == text[..n] + [c];
      Associative(text[..n], [c], edited[n + 1..]);
      assert edited[0..] == edited && text[0..n + 1] == text[..n + 1];
    }
    SkipIn(text[..n], [c] + edited[n + 1..]);
    SkipTwice(text);
    NoSpace([c] + edited[n + 1..]);
  }

  /** A bracket and what is behind it. */
  lemma Opened(s: string, c: char, rest: string)
    requires SkipSpace(s) == [c] + rest
    ensures c == '{' && ReadMembers(rest, map[]).Got? ==>
      ReadValue(s) == Got(Obj(ReadMembers(rest, map[]).value), ReadMembers(rest, map[]).rest)
    ensures c == '[' && ReadItems(rest).Got? ==> ReadValue(s) == Got(Arr(ReadItems(rest).value), ReadItems(rest).rest)
  {
    hide ReadItems, ReadMembers, ReadChars, NumberLength, SkipSpace;
    assert ([c] + rest)[1..] == rest;
    if c == '{' && ReadMembers(rest, map[]).Got? {
      MembersNotEmpty(rest, map[]);
    }
    if c == '[' && ReadItems(rest).Got? {
      ItemsNotEmpty(rest);
    }
  }

  /** Where the members of an object text begin, and what is read from there. */
  lemma ObjectFrom(text: string) returns (at: nat, rest: string)
    requires Fields(text).Some? && Fields(text).value != []
    ensures SkipSpace(text) != [] && SkipSpace(text)[0] == '{' && |SkipSpace(text)| <= |text|
    ensures at == |text| - |SkipSpace(text)| + 1 && text[at..] == SkipSpace(text)[1..]
    ensures FieldsFrom(text[at..], at) == Got(Fields(text).value, rest) && SkipSpace(rest) == []
    ensures IsRaw(text) ==> rest == []
  {
    hide ReadValue, ReadMembers, SkipSpace, FieldsFrom;
    var t := SkipSpace(text);
    Inside(text, '{');
    at := |text| - |t| + 1;
    rest := FieldsFrom(text[at..], at).rest;
    FieldsHold(text, at, t[1..], map[]);
    assert t == ['{'] + t[1..];
    Opened(text, '{', t[1..]);
  }

  /** An object with another value for member k. */
  lemma ObjectEdited(text: string, k: nat, raw: string)
    requires Fields(text).Some? && k < |Fields(text).value| && IsRaw(raw)
    ensures var fields := Fields(text).value;
      && fields[k].at.start <= fields[k].at.end <= |text|
      && ReadDocument(Replaced(text, fields[k].at, raw))
         == Some(Obj(FieldMapWith(text, fields, map[], k, ReadValue(raw).value)))
      && (IsRaw(text) ==> IsRaw(Replaced(text, fields[k].at, raw)) && Replaced(text, fields[k].at, raw)[0] == '{')
  {
    hide ReadValue, ReadMembers, SkipSpace, Replaced, FieldMapWith, FieldsFrom, Fields;
    var at, rest := ObjectFrom(text);
    IsRawReads(raw);
    FieldReplaced(text, at, text[at..], k, raw, map[]);
    var span := Fields(text).value[k].at;
    OpensAlike(text, span, raw, '{');
    var edited := Replaced(text, span, raw);
    Opened(edited, '{', edited[at..]);
    if IsRaw(text) {
      NoSpace(text);
    }
  }
}
