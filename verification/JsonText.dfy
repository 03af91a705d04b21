/**
 How the reader uses its text: a value is read from a stretch of it, and from nothing else.
 */
module JsonText {
  import opened Basics
  import opened Json
  import opened JsonReader

  // ---- what is left is the end of what was read ----

  predicate EndOf(rest: string, s: string)
  {
    |rest| <= |s| && s[|s| - |rest|..] == rest
  }

  lemma EndOfEnd(a: string, b: string, c: string)
    requires EndOf(a, b) && EndOf(b, c)
    ensures EndOf(a, c)
  {
    assert c[|c| - |b|..][|b| - |a|..] == c[|c| - |a|..];
  }

  lemma {:induction false} SpaceEnd(s: string)
    ensures EndOf(SkipSpace(s), s)
  {
    if s != [] && IsSpace(s[0]) {
      SpaceEnd(s[1..]);
      EndOfEnd(SkipSpace(s[1..]), s[1..], s);
    }
  }

  lemma EscapeEnd(s: string)
    requires ReadEscape(s).Got?
    ensures EndOf(ReadEscape(s).rest, s)
    ensures |ReadEscape(s).rest| == |s| - 1 || |ReadEscape(s).rest| == |s| - 5 || |ReadEscape(s).rest| == |s| - 11
  {
    if |s| >= 11 {
      assert s[5..][6..] == s[11..];
    }
  }

  lemma {:induction false} CharsEnd(s: string)
    requires ReadChars(s).Got?
    ensures EndOf(ReadChars(s).rest, s)
  {
    hide ReadEscape;
    if s[0] != '\"' {
      var first := if s[0] == '\\' then ReadEscape(s[1..]) else Got(s[0], s[1..]);
      if s[0] == '\\' {
        EscapeEnd(s[1..]);
        EndOfEnd(first.rest, s[1..], s);
      }
      CharsEnd(first.rest);
      EndOfEnd(ReadChars(s).rest, first.rest, s);
    }
  }

  lemma TailEnd(s: string)
    requires s != []
    ensures EndOf(s[1..], s)
  {
  }

  lemma EndOfTail(a: string, b: string)
    requires b != [] && EndOf(a, b[1..])
    ensures EndOf(a, b) && |a| < |b|
  {
    EndOfEnd(a, b[1..], b);
  }

  lemma NumberEnd(s: string)
    ensures EndOf(s[NumberLength(s)..], s)
    ensures forall n :: 0 <= n <= |s| ==> EndOf(s[n..], s)
  {
    hide NumberLength;
  }

  lemma NoSpace(s: string)
    requires s != [] && !IsSpace(s[0])
    ensures SkipSpace(s) == s
  {
  }

  lemma {:induction false} SkipTwice(s: string)
    ensures SkipSpace(SkipSpace(s)) == SkipSpace(s)
    ensures SkipSpace(s) != [] ==> !IsSpace(SkipSpace(s)[0])
  {
    if s != [] {
      SkipTwice(s[1..]);
    }
  }

  lemma ValueSkips(s: string)
    ensures ReadValue(s) == ReadValue(SkipSpace(s))
    ensures SkipSpace(s) != [] ==> !IsSpace(SkipSpace(s)[0])
    ensures ReadValue(s).Got? ==> SkipSpace(s) != []
  {
    hide ReadItems, ReadMembers, ReadChars, NumberLength, SkipSpace;
    SkipTwice(s);
  }

  /** What is left of a string, an array or an object. */
  lemma NestedRest(t: string)
    requires t != [] && !IsSpace(t[0]) && ReadValue(t).Got?
    ensures t[0] == '\"' ==> ReadChars(t[1..]).Got? && ReadChars(t[1..]).rest == ReadValue(t).rest
    ensures t[0] == '[' ==>
      var u := SkipSpace(t[1..]);
      if u != [] && u[0] == ']' then ReadValue(t).rest == u[1..]
      else ReadItems(t[1..]).Got? && ReadItems(t[1..]).rest == ReadValue(t).rest
    ensures t[0] == '{' ==>
      var u := SkipSpace(t[1..]);
      if u != [] && u[0] == '}' then ReadValue(t).rest == u[1..]
      else ReadMembers(t[1..], map[]).Got? && ReadMembers(t[1..], map[]).rest == ReadValue(t).rest
  {
    hide ReadItems, ReadMembers, ReadChars, NumberLength, SkipSpace;
    NoSpace(t);
  }

  lemma WordRest(t: string)
    requires t != [] && !IsSpace(t[0]) && ReadValue(t).Got? && t[0] != '\"' && t[0] != '[' && t[0] != '{'
    ensures EndOf(ReadValue(t).rest, t)
  {
    hide ReadItems, ReadMembers, ReadChars, NumberLength, SkipSpace, EndOf;
    NoSpace(t);
    NumberEnd(t);
  }

  lemma {:induction false} ValueEnd(s: string)
    requires ReadValue(s).Got?
    ensures EndOf(ReadValue(s).rest, s) && |ReadValue(s).rest| < |SkipSpace(s)|
    decreases |s|, 1
  {
    hide ReadChars, ReadValue, ReadItems, ReadMembers, SkipSpace, EndOf;
    ValueSkips(s);
    var t := SkipSpace(s);
    SpaceEnd(s);
    var rest := ReadValue(s).rest;
    if t[0] == '\"' || t[0] == '[' || t[0] == '{' {
      NestedRest(t);
      var u := SkipSpace(t[1..]);
      SpaceEnd(t[1..]);
      if t[0] == '\"' {
        CharsEnd(t[1..]);
      } else if u != [] && u[0] == (if t[0] == '[' then ']' else '}') {
        TailEnd(u);
        EndOfEnd(u[1..], u, t[1..]);
      } else if t[0] == '[' {
        ItemsEnd(t[1..]);
      } else {
        MembersEnd(t[1..], map[]);
      }
      EndOfTail(rest, t);
    } else {
      WordRest(t);
    }
    EndOfEnd(rest, t, s);
  }

  lemma {:induction false} ItemsEnd(s: string)
    requires ReadItems(s).Got?
    ensures EndOf(ReadItems(s).rest, s)
    decreases |s|, 2
  {
    hide ReadValue, SkipSpace, EndOf;
    ValueEnd(s);
    var t := SkipSpace(ReadValue(s).rest);
    AfterSpace(ReadValue(s).rest, s);
    if t[0] == ',' {
      ItemsEnd(t[1..]);
      EndOfEnd(ReadItems(s).rest, t[1..], s);
    }
  }

  lemma AfterSpace(rest: string, s: string)
    requires EndOf(rest, s)
    ensures var t := SkipSpace(rest); EndOf(t, s) && (t != [] ==> EndOf(t[1..], s))
  {
    SpaceEnd(rest);
    EndOfEnd(SkipSpace(rest), rest, s);
    if SkipSpace(rest) != [] {
      EndOfEnd(SkipSpace(rest)[1..], SkipSpace(rest), s);
    }
  }

  /** A member up to what follows it: name, colon and value. */
  function ReadName(s: string): (r: Read<string>)
    ensures r.Got? ==> |r.rest| < |s|
  {
    var t := SkipSpace(s);
    if t == [] || t[0] != '\"' then Failed
    else
      match ReadChars(t[1..])
      case Failed => Failed
      case Got(name, rest) =>
        var colon := SkipSpace(rest);
        if colon == [] || colon[0] != ':' then Failed else Got(name, colon[1..])
  }

  lemma MembersByName(s: string, before: map<string, JSON>)
    ensures ReadMembers(s, before) == match ReadName(s)
      case Failed => Failed
      case Got(name, after) =>
        match ReadValue(after)
        case Failed => Failed
        case Got(value, end) =>
          var t := SkipSpace(end);
          if t != [] && t[0] == '}' then Got(before[name := value], t[1..])
          else if t != [] && t[0] == ',' then ReadMembers(t[1..], before[name := value])
          else Failed
  {
    hide ReadValue, ReadChars;
  }

  lemma NameEnd(s: string)
    requires ReadName(s).Got?
    ensures EndOf(ReadName(s).rest, s)
  {
    hide ReadChars, EndOf;
    var q := SkipSpace(s);
    SpaceEnd(s);
    CharsEnd(q[1..]);
    EndOfTail(ReadChars(q[1..]).rest, q);
    AfterSpace(ReadChars(q[1..]).rest, q);
    EndOfEnd(ReadName(s).rest, q, s);
  }

  lemma {:induction false} MembersEnd(s: string, before: map<string, JSON>)
    requires ReadMembers(s, before).Got?
    ensures EndOf(ReadMembers(s, before).rest, s)
    decreases |s|, 2
  {
    hide ReadValue, ReadName, SkipSpace, ReadMembers, EndOf;
    MembersByName(s, before);
    NameEnd(s);
    var Got(name, after) := ReadName(s);
    ValueEnd(after);
    var Got(value, end) := ReadValue(after);
    EndOfEnd(end, after, s);
    AfterSpace(end, s);
    var t := SkipSpace(end);
    if t[0] == ',' {
      MembersEnd(t[1..], before[name := value]);
      EndOfEnd(ReadMembers(s, before).rest, t[1..], s);
    }
  }

  // ---- what is read depends on the stretch it is read from ----

  lemma {:induction false} SkipIn(p: string, x: string)
    ensures SkipSpace(p + x) == if SkipSpace(p) == [] then SkipSpace(x) else SkipSpace(p) + x
  {
    if p == [] {
      assert p + x == x;
    } else {
      assert (p + x)[1..] == p[1..] + x;
      SkipIn(p[1..], x);
    }
  }

  /** The part of `p` that is left, when more than `x` is left of p + x. */
  function Left(p: string, x: string, rest: string): string
    requires |x| <= |rest| <= |p| + |x|
  {
    p[|p| + |x| - |rest|..]
  }

  lemma Parts(p: string, x: string, rest: string, y: string)
    requires EndOf(rest, p + x) && |x| <= |rest|
    ensures |rest| <= |p| + |x|
    ensures var r := Left(p, x, rest);
      && |r| <= |p| && rest == r + x
      && p + x == p[..|p| - |r|] + (r + x) && p + y == p[..|p| - |r|] + (r + y)
  {
    var r := Left(p, x, rest);
    assert p == p[..|p| - |r|] + r;
    assert (p + x)[|p| + |x| - |rest|..] == r + x;
  }

  lemma UnitLocal(s: string, t: string)
    requires |s| >= 4 && |t| >= 4 && s[..4] == t[..4]
    ensures ReadUnit(s) == ReadUnit(t)
  {
    assert forall i :: 0 <= i < 4 ==> s[i] == s[..4][i] && t[i] == t[..4][i];
  }

  lemma EscapeLocal(p: string, x: string, y: string)
    requires ReadEscape(p + x).Got? && ReadEscape(p + x).rest == x
    ensures ReadEscape(p + y) == Got(ReadEscape(p + x).value, y)
  {
    hide ReadUnit;
    var s, t := p + x, p + y;
    EscapeEnd(s);
    assert s[0] == p[0] == t[0] && s[|p|..] == x && t[|p|..] == y;
    if |p| >= 5 {
      assert s[1..][..4] == p[1..5] == t[1..][..4];
      UnitLocal(s[1..], t[1..]);
      if |p| == 11 {
        PairLocal(p, x, y);
      }
    }
  }

  lemma PairLocal(p: string, x: string, y: string)
    requires |p| == 11
    ensures ReadUnit((p + x)[5..][2..]) == ReadUnit((p + y)[5..][2..])
    ensures (p + x)[5..][..2] == (p + y)[5..][..2] && (p + x)[5..][6..] == x && (p + y)[5..][6..] == y
    ensures (p + x)[5..][0] == (p + y)[5..][0] && (p + x)[5..][1] == (p + y)[5..][1]
  {
    hide ReadUnit;
    var s, t := p + x, p + y;
    assert s[5..][2..][..4] == p[7..11] == t[5..][2..][..4];
    UnitLocal(s[5..][2..], t[5..][2..]);
  }

  lemma {:induction false} CharsLocal(p: string, x: string, y: string)
    requires ReadChars(p + x).Got? && ReadChars(p + x).rest == x
    ensures ReadChars(p + y) == Got(ReadChars(p + x).value, y)
    decreases |p|
  {
    hide ReadEscape, EndOf, Left;
    var s := p + x;
    assert p != [];
    assert s[0] == p[0] == (p + y)[0] && s[1..] == p[1..] + x && (p + y)[1..] == p[1..] + y;
    if p[0] == '\"' {
      assert p[1..] == [];
    } else {
      var first := if s[0] == '\\' then ReadEscape(s[1..]) else Got(s[0], s[1..]);
      if p[0] == '\\' {
        EscapeEnd(s[1..]);
        Parts(p[1..], x, first.rest, y);
        var r := Left(p[1..], x, first.rest);
        EscapeLocal(p[1..][..|p| - 1 - |r|], r + x, r + y);
        CharsLocal(r, x, y);
      } else {
        CharsLocal(p[1..], x, y);
      }
    }
  }

  lemma OneMore(p: string, x: string, c: char, y: string)
    requires SkipSpace(p + x) == [c] + x
    ensures SkipSpace(p) == [c] && SkipSpace(p + y) == [c] + y
  {
    SkipIn(p, x);
    SkipIn(p, y);
    SpaceShorter(x);
    if SkipSpace(p) != [] {
      assert (SkipSpace(p) + x)[|SkipSpace(p)|..] == x;
    }
  }

  lemma SpaceShorter(x: string)
    ensures |SkipSpace(x)| <= |x|
  {
  }

  /** Enough is left to begin inside p. */
  lemma BeginsInside(p: string, x: string, y: string)
    requires |SkipSpace(p + x)| > |x|
    ensures SkipSpace(p) != [] && SkipSpace(p + x) == SkipSpace(p) + x && SkipSpace(p + y) == SkipSpace(p) + y
  {
    SkipIn(p, x);
    SkipIn(p, y);
    SpaceShorter(x);
  }

  lemma {:induction false} ValueLocal(p: string, x: string, y: string)
    requires ReadValue(p + x).Got? && ReadValue(p + x).rest == x && Ends(y)
    ensures ReadValue(p + y) == Got(ReadValue(p + x).value, y)
    decreases |p|, 1
  {
    hide ReadValue, ReadItems, ReadMembers, ReadChars, SkipSpace, NumberLength;
    ValueEnd(p + x);
    BeginsInside(p, x, y);
    SpaceEnd(p);
    ValueSkips(p + x);
    ValueSkips(p + y);
    TokenLocal(SkipSpace(p), x, y);
  }

  lemma {:induction false} TokenLocal(t: string, x: string, y: string)
    requires t != [] && !IsSpace(t[0]) && ReadValue(t + x).Got? && ReadValue(t + x).rest == x && Ends(y)
    ensures ReadValue(t + y) == Got(ReadValue(t + x).value, y)
    decreases |t|, 0
  {
    hide *;
    BracketReads(t + x);
    BracketReads(t + y);
    assert (t + x)[1..] == t[1..] + x && (t + y)[1..] == t[1..] + y;
    if t[0] == '\"' {
      CharsLocal(t[1..], x, y);
    } else if t[0] == '[' || t[0] == '{' {
      var u := SkipSpace(t[1..] + x);
      var close := if t[0] == '[' then ']' else '}';
      if u != [] && u[0] == close {
        assert u == [close] + x;
        OneMore(t[1..], x, close, y);
      } else if t[0] == '[' {
        ItemsStart(t[1..] + x);
        ItemsEnd(t[1..] + x);
        BeginsInside(t[1..], x, y);
        ItemsLocal(t[1..], x, y);
      } else {
        MembersStart(t[1..] + x);
        BeginsInside(t[1..], x, y);
        MembersLocal(t[1..], x, y, map[]);
      }
    } else {
      WordLocal(t, x, y);
    }
  }

  /** What a string, an array or an object is read as. */
  lemma BracketReads(t: string)
    requires t != [] && !IsSpace(t[0])
    ensures t[0] == '\"' ==>
      ReadValue(t) ==
        match ReadChars(t[1..])
        case Failed => Failed
        case Got(text, rest) => Got(Str(text), rest)
    ensures t[0] == '[' ==>
      var u := SkipSpace(t[1..]);
      ReadValue(t) ==
        if u != [] && u[0] == ']' then Got(Arr([]), u[1..])
        else
          match ReadItems(t[1..])
          case Failed => Failed
          case Got(items, rest) => Got(Arr(items), rest)
    ensures t[0] == '{' ==>
      var u := SkipSpace(t[1..]);
      ReadValue(t) ==
        if u != [] && u[0] == '}' then Got(Obj(map[]), u[1..])
        else
          match ReadMembers(t[1..], map[])
          case Failed => Failed
          case Got(members, rest) => Got(Obj(members), rest)
  {
    hide ReadItems, ReadMembers, ReadChars, NumberLength, SkipSpace, IsNumber;
    NoSpace(t);
  }

  /** Numbers and literal names. */
  lemma WordLocal(t: string, x: string, y: string)
    requires t != [] && !IsSpace(t[0]) && t[0] != '\"' && t[0] != '[' && t[0] != '{'
    requires ReadValue(t + x).Got? && ReadValue(t + x).rest == x && Ends(y)
    ensures ReadValue(t + y) == Got(ReadValue(t + x).value, y)
  {
    hide ReadItems, ReadMembers, ReadChars, SkipSpace;
    var s := t + x;
    NoSpace(s);
    NoSpace(t + y);
    if t[0] == '-' || t[0] in DIGITS {
      assert NumberLength(s) == |t| && s[..|t|] == t;
      assert forall i :: 0 <= i < |t| ==> t[i] == s[i];
      ReadNumber(t, y);
      assert (t + y)[..|t|] == t && (t + y)[|t|..] == y;
    } else {
      assert |t| == 4 || |t| == 5;
      assert s[..|t|] == t && (t + y)[..|t|] == t && (t + y)[|t|..] == y;
      assert |t| == 5 ==> s[..4] == t[..4] == (t + y)[..4];
    }
  }

  lemma ItemsStart(s: string)
    requires ReadItems(s).Got?
    ensures |ReadItems(s).rest| < |SkipSpace(s)|
  {
    hide ReadValue, SkipSpace;
    ValueEnd(s);
    AfterSpace(ReadValue(s).rest, s);
    var t := SkipSpace(ReadValue(s).rest);
    SpaceShorter(ReadValue(s).rest);
    if t[0] == ',' {
      ItemsEnd(t[1..]);
    }
  }

  lemma MembersStart(s: string)
    requires ReadMembers(s, map[]).Got?
    ensures |ReadMembers(s, map[]).rest| < |SkipSpace(s)|
  {
    hide ReadValue, ReadChars, SkipSpace;
    var q := SkipSpace(s);
    MembersSkip(s);
    MembersEnd(q, map[]);
  }

  lemma MembersSkip(s: string)
    ensures ReadMembers(SkipSpace(s), map[]) == ReadMembers(s, map[])
  {
    hide ReadValue, ReadChars, SkipSpace;
    SkipTwice(s);
  }

  lemma EndsAfter(r: string, x: string, y: string)
    requires r != [] && SkipSpace(r + x) != [] && SkipSpace(r + x)[0] in [',', ']', '}', ':']
    ensures Ends(r + y)
  {
    if !IsSpace(r[0]) {
      NoSpace(r + x);
    }
  }

  lemma {:induction false} ItemsLocal(p: string, x: string, y: string)
    requires ReadItems(p + x).Got? && ReadItems(p + x).rest == x
    ensures ReadItems(p + y) == Got(ReadItems(p + x).value, y)
    decreases |p|, 2
  {
    hide ReadValue, SkipSpace, EndOf, Left;
    var Got(first, rest) := ReadValue(p + x);
    ValueEnd(p + x);
    SpaceShorter(rest);
    var t := SkipSpace(rest);
    if t[0] == ',' {
      ItemsEnd(t[1..]);
    }
    Parts(p, x, rest, y);
    var r := Left(p, x, rest);
    EndsAfter(r, x, y);
    ValueLocal(p[..|p| - |r|], r + x, r + y);
    BeginsInside(r, x, y);
    var u := SkipSpace(r);
    assert t == u + x && t[1..] == u[1..] + x && SkipSpace(r + y)[1..] == u[1..] + y;
    if t[0] == ',' {
      SpaceEnd(r);
      ItemsLocal(u[1..], x, y);
    }
  }

  lemma {:induction false} NameLocal(p: string, x: string, y: string)
    requires ReadName(p + x).Got? && ReadName(p + x).rest == x
    ensures ReadName(p + y) == Got(ReadName(p + x).value, y)
  {
    hide ReadChars, SkipSpace, EndOf, Left;
    var q := SkipSpace(p + x);
    CharsEnd(q[1..]);
    var Got(name, rest) := ReadChars(q[1..]);
    SpaceShorter(rest);
    BeginsInside(p, x, y);
    var t := SkipSpace(p);
    assert q[1..] == t[1..] + x && (t + y)[1..] == t[1..] + y;
    Parts(t[1..], x, rest, y);
    var r := Left(t[1..], x, rest);
    CharsLocal(t[1..][..|t| - 1 - |r|], r + x, r + y);
    OneMore(r, x, ':', y);
  }

  lemma {:induction false} MembersLocal(p: string, x: string, y: string, before: map<string, JSON>)
    requires ReadMembers(p + x, before).Got? && ReadMembers(p + x, before).rest == x
    ensures ReadMembers(p + y, before) == Got(ReadMembers(p + x, before).value, y)
    decreases |p|, 2
  {
    hide ReadValue, ReadName, ReadMembers, SkipSpace, EndOf, Left;
    MembersByName(p + x, before);
    MembersByName(p + y, before);
    var Got(name, after) := ReadName(p + x);
    NameEnd(p + x);
    var Got(value, end) := ReadValue(after);
    ValueEnd(after);
    SpaceShorter(after);
    SpaceShorter(end);
    var t := SkipSpace(end);
    if t[0] == ',' {
      MembersEnd(t[1..], before[name := value]);
    }
    Parts(p, x, after, y);
    var a := Left(p, x, after);
    NameLocal(p[..|p| - |a|], a + x, a + y);
    Parts(a, x, end, y);
    var r := Left(a, x, end);
    EndsAfter(r, x, y);
    ValueLocal(a[..|a| - |r|], r + x, r + y);
    BeginsInside(r, x, y);
    var u := SkipSpace(r);
    assert t == u + x && t[1..] == u[1..] + x && SkipSpace(r + y)[1..] == u[1..] + y;
    if t[0] == ',' {
      SpaceEnd(r);
      MembersLocal(u[1..], x, y, before[name := value]);
    }
  }

  // ---- where the parts of a text stand ----

  datatype Span = Span(start: nat, end: nat)

  /** The text of one value, without white space around it. */
  predicate IsRaw(text: string)
  {
    text != [] && !IsSpace(text[0]) && ReadValue(text).Got? && ReadValue(text).rest == []
  }

  /** Where the elements of an array stand that is read up to `s`, which begins at position `at`. */
  function ItemSpansFrom(s: string, at: nat): (r: Read<seq<Span>>)
    ensures r.Got? ==> |r.rest| < |s|
    decreases |s|
  {
    match ReadValue(s)
    case Failed => Failed
    case Got(_, rest) =>
      var span := Span(at + |s| - |SkipSpace(s)|, at + |s| - |rest|);
      var t := SkipSpace(rest);
      if t != [] && t[0] == ']' then Got([span], t[1..])
      else if t != [] && t[0] == ',' then
        (match ItemSpansFrom(t[1..], at + |s| - |t| + 1)
         case Failed => Failed
         case Got(more, end) => Got([span] + more, end))
      else Failed
  }

  /** The elements of an array that is all of a text. */
  function ItemSpans(text: string): Option<seq<Span>>
  {
    var t := SkipSpace(text);
    if t == [] || t[0] != '[' then None
    else
      var u := SkipSpace(t[1..]);
      if u != [] && u[0] == ']' then (if SkipSpace(u[1..]) == [] then Some([]) else None)
      else
        match ItemSpansFrom(t[1..], |text| - |t| + 1)
        case Failed => None
        case Got(spans, rest) => if SkipSpace(rest) == [] then Some(spans) else None
  }

  /** A member of an object: its name, and where its value stands. */
  datatype Field = Field(name: string, at: Span)

  function FieldsFrom(s: string, at: nat): (r: Read<seq<Field>>)
    ensures r.Got? ==> |r.rest| < |s|
    decreases |s|
  {
    match ReadName(s)
    case Failed => Failed
    case Got(name, after) =>
      match ReadValue(after)
      case Failed => Failed
      case Got(_, rest) =>
        var field := Field(name, Span(at + |s| - |SkipSpace(after)|, at + |s| - |rest|));
        var t := SkipSpace(rest);
        if t != [] && t[0] == '}' then Got([field], t[1..])
        else if t != [] && t[0] == ',' then
          (match FieldsFrom(t[1..], at + |s| - |t| + 1)
           case Failed => Failed
           case Got(more, end) => Got([field] + more, end))
        else Failed
  }

  /** The members of an object that is all of a text. */
  function Fields(text: string): Option<seq<Field>>
  {
    var t := SkipSpace(text);
    if t == [] || t[0] != '{' then None
    else
      var u := SkipSpace(t[1..]);
      if u != [] && u[0] == '}' then (if SkipSpace(u[1..]) == [] then Some([]) else None)
      else
        match FieldsFrom(t[1..], |text| - |t| + 1)
        case Failed => None
        case Got(fields, rest) => if SkipSpace(rest) == [] then Some(fields) else None
  }

  /** Spans in order, none empty, none overlapping, from a position to another. */
  ghost predicate InOrder(spans: seq<Span>, from: nat, to: nat)
  {
    && (forall i :: 0 <= i < |spans| ==> from <= spans[i].start < spans[i].end <= to)
    && forall i, j :: 0 <= i < j < |spans| ==> spans[i].end <= spans[j].start
  }

  /** What reads before something else is a value alone. */
  lemma ReadsAlone(p: string, rest: string)
    requires p != [] && !IsSpace(p[0]) && ReadValue(p + rest).Got? && ReadValue(p + rest).rest == rest
    ensures IsRaw(p) && ReadValue(p).value == ReadValue(p + rest).value
  {
    hide ReadValue;
    ValueLocal(p, rest, []);
    assert p + [] == p;
  }

  /** What is read at a position of a text is written there. */
  lemma ReadThere(text: string, at: nat, s: string)
    requires at <= |text| && text[at..] == s && ReadValue(s).Got?
    ensures |ReadValue(s).rest| < |SkipSpace(s)| <= |s|
    ensures var start, end := at + |s| - |SkipSpace(s)|, at + |s| - |ReadValue(s).rest|;
      && end <= |text| && IsRaw(text[start..end]) && ReadValue(text[start..end]).value == ReadValue(s).value
      && text[end..] == ReadValue(s).rest
  {
    hide *;
    var t, rest := SkipSpace(s), ReadValue(s).rest;
    ValueEnd(s);
    SpaceEnd(s);
    ValueSkips(s);
    SpaceShorter(s);
    StandsAt(text, at, s, t);
    StandsAt(text, at, s, rest);
    Between(text, at + |s| - |t|, t, rest);
    var p := text[at + |s| - |t|..at + |s| - |rest|];
    assert p != [] && p[0] == t[0];
    ReadsAlone(p, rest);
  }

  lemma SliceOfSlice(s: string, i: nat, n: nat, a: nat, b: nat)
    requires i + n <= |s| && a <= b <= n
    ensures s[i..i + n][a..b] == s[i + a..i + b]
  {
    var there := s[i..i + n];
    assert forall k :: a <= k < b ==> there[k] == s[i + k];
    forall k | 0 <= k < b - a ensures there[a..b][k] == s[i + a..i + b][k] {
      assert there[a..b][k] == there[a + k];
    }
  }

  lemma From(text: string, at: nat, s: string, n: nat)
    requires at <= |text| && text[at..] == s && n <= |s|
    ensures text[at + n..] == s[n..]
  {
  }

  lemma Between(text: string, start: nat, t: string, rest: string)
    requires start <= |text| && text[start..] == t && |rest| <= |t| && text[|text| - |rest|..] == rest
    ensures |text| - |rest| == start + |t| - |rest| && t == text[start..start + |t| - |rest|] + rest
  {
  }

  lemma Onward(text: string, at: nat, s: string, rest: string, c: char)
    requires at <= |text| && text[at..] == s && EndOf(rest, s) && SkipSpace(rest) != [] && SkipSpace(rest)[0] == c
    ensures var t := SkipSpace(rest);
      && |t| <= |rest| <= |s| && at + |s| - |t| + 1 <= |text| && text[at + |s| - |t| + 1..] == t[1..]
  {
    hide SkipSpace;
    var t := SkipSpace(rest);
    AfterSpace(rest, s);
    SpaceShorter(rest);
    assert t[1..] == s[|s| - |t| + 1..];
    assert text[at..][|s| - |t| + 1..] == text[at + |s| - |t| + 1..];
  }

  lemma Prepended(first: Span, more: seq<Span>, from: nat, mid: nat, to: nat)
    requires from <= first.start < first.end <= mid <= to && InOrder(more, mid, to)
    ensures InOrder([first] + more, from, to)
  {
  }

  /** The first element and what follows it. */
  lemma FirstItem(s: string, at: nat)
    requires ItemSpansFrom(s, at).Got?
    ensures ReadValue(s).Got? && |ReadValue(s).rest| < |SkipSpace(s)| <= |s|
    ensures var first := Span(at + |s| - |SkipSpace(s)|, at + |s| - |ReadValue(s).rest|);
      var t := SkipSpace(ReadValue(s).rest);
      && t != [] && |t| <= |s| && (t[0] == ']' || t[0] == ',')
      && (t[0] == ']' ==> ItemSpansFrom(s, at) == Got([first], t[1..]))
      && (t[0] == ',' ==>
            var more := ItemSpansFrom(t[1..], at + |s| - |t| + 1);
            more.Got? && ItemSpansFrom(s, at) == Got([first] + more.value, more.rest))
  {
    hide ReadValue, SkipSpace;
    ValueEnd(s);
    SpaceShorter(s);
    SpaceShorter(ReadValue(s).rest);
  }

  /** The spans of an array's elements are in order and hold what the reader reads. */
  lemma {:induction false} ItemSpansHold(text: string, at: nat, s: string)
    requires at <= |text| && text[at..] == s
    ensures ItemSpansFrom(s, at).Got? <==> ReadItems(s).Got?
    ensures ReadItems(s).Got? ==>
      var spans := ItemSpansFrom(s, at).value;
      && ItemSpansFrom(s, at).rest == ReadItems(s).rest
      && InOrder(spans, at, |text|) && |spans| == |ReadItems(s).value|
      && forall i :: 0 <= i < |spans| ==>
           IsRaw(text[spans[i].start..spans[i].end])
           && ReadValue(text[spans[i].start..spans[i].end]).value == ReadItems(s).value[i]
    decreases |s|
  {
    hide ReadValue, ReadItems, ItemSpansFrom, SkipSpace, IsRaw, EndOf, InOrder;
    FirstRead(s, at);
    if ReadValue(s).Got? {
      ReadThere(text, at, s);
      ValueEnd(s);
      var rest := ReadValue(s).rest;
      var t := SkipSpace(rest);
      SpaceShorter(rest);
      var first := Span(at + |s| - |SkipSpace(s)|, at + |s| - |rest|);
      OneSpan(first, at, |text|);
      if t != [] && t[0] == ',' {
        Onward(text, at, s, rest, ',');
        var next := at + |s| - |t| + 1;
        ItemSpansHold(text, next, t[1..]);
        if ReadItems(s).Got? {
          Prepended(first, ItemSpansFrom(t[1..], next).value, at, next, |text|);
        }
      }
    }
  }

  /** An array is read element by element; the spans follow. */
  lemma FirstRead(s: string, at: nat)
    ensures ReadValue(s).Failed? ==> ItemSpansFrom(s, at).Failed? && ReadItems(s).Failed?
    ensures ReadValue(s).Got? ==>
      var Got(value, rest) := ReadValue(s);
      var t := SkipSpace(rest);
      |SkipSpace(s)| <= |s| && |rest| <= |s| && |t| <= |s| &&
      var first := Span(at + |s| - |SkipSpace(s)|, at + |s| - |rest|);
      if t != [] && t[0] == ']' then
        ItemSpansFrom(s, at) == Got([first], t[1..]) && ReadItems(s) == Got([value], t[1..])
      else if t != [] && t[0] == ',' then
        && ItemSpansFrom(s, at) ==
             (match ItemSpansFrom(t[1..], at + |s| - |t| + 1)
              case Failed => Failed
              case Got(more, end) => Got([first] + more, end))
        && ReadItems(s) ==
             (match ReadItems(t[1..])
              case Failed => Failed
              case Got(more, end) => Got([value] + more, end))
      else ItemSpansFrom(s, at).Failed? && ReadItems(s).Failed?
  {
    hide ReadValue, SkipSpace;
    SpaceShorter(s);
    if ReadValue(s).Got? {
      SpaceShorter(ReadValue(s).rest);
    }
  }

  lemma OneSpan(span: Span, from: nat, to: nat)
    requires from <= span.start < span.end <= to
    ensures InOrder([span], from, to)
  {
  }

  /** What may follow a value inside another. */
  predicate MayFollow(rest: string)
  {
    rest == [] || IsSpace(rest[0]) || rest[0] in [',', ']', '}']
  }

  lemma FollowsHere(rest: string)
    requires SkipSpace(rest) != [] && SkipSpace(rest)[0] in [',', ']', '}']
    ensures MayFollow(rest)
  {
    if rest != [] && !IsSpace(rest[0]) {
      NoSpace(rest);
    }
  }

  /** Every element ends before what is left, and before a mark or white space. */
  lemma {:induction false} ItemsFollow(text: string, at: nat, s: string)
    requires at <= |text| && text[at..] == s && ItemSpansFrom(s, at).Got?
    ensures |ItemSpansFrom(s, at).rest| <= |text|
    ensures forall i :: 0 <= i < |ItemSpansFrom(s, at).value| ==>
      var end := ItemSpansFrom(s, at).value[i].end;
      end <= |text| - |ItemSpansFrom(s, at).rest| && MayFollow(text[end..])
    decreases |s|
  {
    hide *;
    var first, next, last := ItemStep(text, at, s);
    if !last {
      ItemsFollow(text, next, text[next..]);
    }
  }

  /** One element, and where the next begins unless this is the last. */
  lemma ItemStep(text: string, at: nat, s: string) returns (first: Span, next: nat, last: bool)
    requires at <= |text| && text[at..] == s && ItemSpansFrom(s, at).Got?
    ensures at <= first.start < first.end < next <= |text| && MayFollow(text[first.end..])
    ensures IsRaw(text[first.start..first.end]) && |text[next..]| < |s| && ReadValue(s).Got?
    ensures first.start == |text| - |SkipSpace(s)|
    ensures var rest := ReadValue(s).rest;
      && rest == text[first.end..] && SkipSpace(rest) == [if last then ']' else ','] + text[next..]
      && next == |text| - |SkipSpace(rest)| + 1
    ensures last ==> ItemSpansFrom(s, at) == Got([first], text[next..])
    ensures !last ==>
      var more := ItemSpansFrom(text[next..], next);
      more.Got? && ItemSpansFrom(s, at) == Got([first] + more.value, more.rest)
  {
    hide ReadValue, SkipSpace, EndOf, MayFollow, ItemSpansFrom, IsRaw;
    FirstItem(s, at);
    ReadThere(text, at, s);
    ValueEnd(s);
    var rest := ReadValue(s).rest;
    var t := SkipSpace(rest);
    first := Span(at + |s| - |SkipSpace(s)|, at + |s| - |rest|);
    next, last := at + |s| - |t| + 1, t[0] == ']';
    SpaceShorter(rest);
    FollowsHere(rest);
    Onward(text, at, s, rest, t[0]);
    assert t == [t[0]] + t[1..];
  }

  /** The same for the members of an object. */
  lemma {:induction false} FieldsFollow(text: string, at: nat, s: string)
    requires at <= |text| && text[at..] == s && FieldsFrom(s, at).Got?
    ensures |FieldsFrom(s, at).rest| <= |text|
    ensures forall i :: 0 <= i < |FieldsFrom(s, at).value| ==>
      var end := FieldsFrom(s, at).value[i].at.end;
      end <= |text| - |FieldsFrom(s, at).rest| && MayFollow(text[end..])
    decreases |s|
  {
    hide *;
    var first, next, last := FieldStep(text, at, s);
    if !last {
      FieldsFollow(text, next, text[next..]);
    }
  }

  /** One member, and where the next begins unless this is the last. */
  lemma FieldStep(text: string, at: nat, s: string) returns (first: Field, next: nat, last: bool)
    requires at <= |text| && text[at..] == s && FieldsFrom(s, at).Got?
    ensures at < first.at.start < first.at.end < next <= |text| && MayFollow(text[first.at.end..])
    ensures IsRaw(text[first.at.start..first.at.end]) && |text[next..]| < |s|
    ensures ReadName(s).Got? && ReadValue(ReadName(s).rest).Got?
    ensures var after := ReadName(s).rest;
      var rest := ReadValue(after).rest;
      && first.at.start == |text| - |SkipSpace(after)| && rest == text[first.at.end..]
      && SkipSpace(rest) == [if last then '}' else ','] + text[next..] && next == |text| - |SkipSpace(rest)| + 1
      && first.name == ReadName(s).value
    ensures last ==> FieldsFrom(s, at) == Got([first], text[next..])
    ensures !last ==>
      var more := FieldsFrom(text[next..], next);
      more.Got? && FieldsFrom(s, at) == Got([first] + more.value, more.rest)
  {
    hide ReadValue, ReadName, ReadMembers, SkipSpace, EndOf, MayFollow, FieldsFrom, IsRaw;
    FieldRead(text, at, s);
    var after := ReadName(s).rest;
    var rest := ReadValue(after).rest;
    var t := SkipSpace(rest);
    first := Field(ReadName(s).value, Span(at + |s| - |SkipSpace(after)|, at + |s| - |rest|));
    SpaceShorter(rest);
    FirstField(s, at, map[]);
    next, last := at + |s| - |t| + 1, t[0] == '}';
    FollowsHere(rest);
    Onward(text, at, s, rest, t[0]);
    StandsAt(text, at, s, rest);
  }

  lemma FieldRead(text: string, at: nat, s: string)
    requires at <= |text| && text[at..] == s && FieldsFrom(s, at).Got?
    ensures ReadName(s).Got? && ReadValue(ReadName(s).rest).Got?
    ensures var after := ReadName(s).rest;
      var rest := ReadValue(after).rest;
      && |rest| < |SkipSpace(after)| <= |after| < |s| && EndOf(rest, s)
      && SkipSpace(rest) != [] && (SkipSpace(rest)[0] == '}' || SkipSpace(rest)[0] == ',')
      && var span := Span(at + |s| - |SkipSpace(after)|, at + |s| - |rest|);
         && span.end <= |text| && IsRaw(text[span.start..span.end])
  {
    hide ReadValue, ReadName, ReadMembers, SkipSpace, EndOf, IsRaw, FieldsFrom;
    if ReadName(s).Failed? || ReadValue(ReadName(s).rest).Failed? {
      NoField(s, at, map[]);
      assert false;
    }
    FieldHolds(text, at, s, map[]);
    SpaceShorter(ReadValue(ReadName(s).rest).rest);
    FirstField(s, at, map[]);
  }

  lemma StandsAt(text: string, at: nat, s: string, rest: string)
    requires at <= |text| && text[at..] == s && EndOf(rest, s)
    ensures text[at + |s| - |rest|..] == rest
  {
    From(text, at, s, |s| - |rest|);
  }

  /** An array's elements, exactly where there is one. */
  lemma ItemSpansOf(text: string)
    ensures ItemSpans(text).Some? <==> ReadDocument(text).Some? && ReadDocument(text).value.Arr?
    ensures ItemSpans(text).Some? ==>
      var spans := ItemSpans(text).value;
      && InOrder(spans, 0, |text|) && |spans| == |ReadDocument(text).value.items|
      && forall i :: 0 <= i < |spans| ==>
           IsRaw(text[spans[i].start..spans[i].end])
           && ReadValue(text[spans[i].start..spans[i].end]).value == ReadDocument(text).value.items[i]
  {
    hide ReadItems, ReadMembers, ReadChars, NumberLength, SkipSpace, IsRaw, EndOf;
    var t := SkipSpace(text);
    if t != [] && t[0] == '[' {
      Inside(text, '[');
      ItemSpansHold(text, |text| - |t| + 1, t[1..]);
    }
  }

  lemma Inside(text: string, c: char)
    requires SkipSpace(text) != [] && SkipSpace(text)[0] == c
    ensures var t := SkipSpace(text); |text| - |t| + 1 <= |text| && text[|text| - |t| + 1..] == t[1..] && |t| <= |text|
  {
    hide SkipSpace;
    SpaceEnd(text);
    assert text[|text| - |SkipSpace(text)|..][1..] == text[|text| - |SkipSpace(text)| + 1..];
  }

  /** The value at a span. */
  function ValueAt(text: string, span: Span): JSON
  {
    if span.start <= span.end <= |text| && ReadValue(text[span.start..span.end]).Got?
    then ReadValue(text[span.start..span.end]).value else Null
  }

  /** The object the members make, of two of one name the later one. */
  function FieldMap(text: string, fields: seq<Field>, before: map<string, JSON>): map<string, JSON>
  {
    if fields == [] then before
    else FieldMap(text, fields[1..], before[fields[0].name := ValueAt(text, fields[0].at)])
  }

  function Places(fields: seq<Field>): (r: seq<Span>)
    ensures |r| == |fields| && forall i :: 0 <= i < |fields| ==> r[i] == fields[i].at
  {
    seq(|fields|, i requires 0 <= i < |fields| => fields[i].at)
  }

  lemma PlacesPrepended(first: Field, more: seq<Field>)
    ensures Places([first] + more) == [first.at] + Places(more)
  {
  }

  /** The first member and what follows it. */
  lemma FirstField(s: string, at: nat, before: map<string, JSON>)
    requires ReadName(s).Got? && ReadValue(ReadName(s).rest).Got?
    requires |ReadValue(ReadName(s).rest).rest| <= |s| && |SkipSpace(ReadName(s).rest)| <= |s|
    ensures var Got(name, after) := ReadName(s);
      var Got(value, rest) := ReadValue(after);
      var first := Field(name, Span(at + |s| - |SkipSpace(after)|, at + |s| - |rest|));
      var t := SkipSpace(rest);
      if t != [] && t[0] == '}' then
        FieldsFrom(s, at) == Got([first], t[1..]) && ReadMembers(s, before) == Got(before[name := value], t[1..])
      else if t != [] && t[0] == ',' && |t| <= |s| then
        && ReadMembers(s, before) == ReadMembers(t[1..], before[name := value])
        && FieldsFrom(s, at) == match FieldsFrom(t[1..], at + |s| - |t| + 1)
             case Failed => Failed
             case Got(more, end) => Got([first] + more, end)
      else (t != [] && t[0] == ',') || (FieldsFrom(s, at).Failed? && ReadMembers(s, before).Failed?)
  {
    hide ReadValue, SkipSpace, ReadName, ReadMembers;
    MembersByName(s, before);
  }

  lemma {:induction false} FieldsHold(text: string, at: nat, s: string, before: map<string, JSON>)
    requires at <= |text| && text[at..] == s
    ensures FieldsFrom(s, at).Got? <==> ReadMembers(s, before).Got?
    ensures FieldsFrom(s, at).Got? ==>
      var fields := FieldsFrom(s, at).value;
      && ReadMembers(s, before) == Got(FieldMap(text, fields, before), FieldsFrom(s, at).rest)
      && InOrder(Places(fields), at, |text|) && fields != []
      && forall i :: 0 <= i < |fields| ==> IsRaw(text[fields[i].at.start..fields[i].at.end])
    decreases |s|
  {
    hide *;
    if ReadName(s).Got? && ReadValue(ReadName(s).rest).Got? {
      FieldHolds(text, at, s, before);
      FirstField(s, at, before);
      var Got(name, after) := ReadName(s);
      var Got(value, rest) := ReadValue(after);
      var first := Field(name, Span(at + |s| - |SkipSpace(after)|, at + |s| - |rest|));
      var t := SkipSpace(rest);
      SpaceShorter(rest);
      if t != [] && t[0] == ',' {
        Onward(text, at, s, rest, ',');
        var next := at + |s| - |t| + 1;
        FieldsHold(text, next, t[1..], before[name := value]);
        if FieldsFrom(t[1..], next).Got? {
          FieldPrepended(text, first, FieldsFrom(t[1..], next).value, before, at, next);
        }
      } else if t != [] && t[0] == '}' {
        OneField(text, first, before, at);
      }
    } else {
      NoField(s, at, before);
    }
  }

  lemma FieldPrepended(text: string, first: Field, more: seq<Field>, before: map<string, JSON>, at: nat, next: nat)
    requires at <= first.at.start < first.at.end <= next <= |text| && InOrder(Places(more), next, |text|)
    requires IsRaw(text[first.at.start..first.at.end])
    requires forall i :: 0 <= i < |more| ==> IsRaw(text[more[i].at.start..more[i].at.end])
    ensures InOrder(Places([first] + more), at, |text|)
    ensures var all := [first] + more;
      forall i :: 0 <= i < |all| ==> IsRaw(text[all[i].at.start..all[i].at.end])
    ensures FieldMap(text, [first] + more, before) == FieldMap(text, more, before[first.name := ValueAt(text, first.at)])
  {
    hide IsRaw, ValueAt, InOrder, Places;
    PlacesPrepended(first, more);
    Prepended(first.at, Places(more), at, next, |text|);
  }

  lemma OneField(text: string, first: Field, before: map<string, JSON>, at: nat)
    requires at <= first.at.start < first.at.end <= |text|
    ensures InOrder(Places([first]), at, |text|)
    ensures FieldMap(text, [first], before) == before[first.name := ValueAt(text, first.at)]
  {
    hide ValueAt;
  }

  lemma NoField(s: string, at: nat, before: map<string, JSON>)
    requires ReadName(s).Failed? || ReadValue(ReadName(s).rest).Failed?
    ensures FieldsFrom(s, at).Failed? && ReadMembers(s, before).Failed?
  {
    hide ReadValue, ReadName, ReadMembers;
    MembersByName(s, before);
  }

  lemma NoPlaces()
    ensures Places([]) == []
  {
  }

  /** One member: its value stands where its span says. */
  lemma FieldHolds(text: string, at: nat, s: string, before: map<string, JSON>)
    requires at <= |text| && text[at..] == s && ReadName(s).Got? && ReadValue(ReadName(s).rest).Got?
    ensures var after := ReadName(s).rest;
      var rest := ReadValue(after).rest;
      && |rest| < |SkipSpace(after)| <= |after| < |s| && EndOf(rest, s)
      && var span := Span(at + |s| - |SkipSpace(after)|, at + |s| - |rest|);
         && span.end <= |text| && IsRaw(text[span.start..span.end])
         && ValueAt(text, span) == ReadValue(after).value
  {
    hide ReadValue, SkipSpace, IsRaw, ReadName;
    var after := ReadName(s).rest;
    NameEnd(s);
    assert text[at..][|s| - |after|..] == text[at + |s| - |after|..];
    ReadThere(text, at + |s| - |after|, after);
    ValueEnd(after);
    EndOfEnd(ReadValue(after).rest, after, s);
    IsRawReads(text[at + |s| - |SkipSpace(after)|..at + |s| - |ReadValue(after).rest|]);
  }

  lemma IsRawReads(raw: string)
    requires IsRaw(raw)
    ensures ReadValue(raw).Got? && ReadValue(raw).rest == [] && raw != [] && SkipSpace(raw) == raw
  {
    hide ReadValue;
    NoSpace(raw);
  }

  /** An object's members, exactly where there is one. */
  lemma FieldsOf(text: string)
    ensures Fields(text).Some? <==> ReadDocument(text).Some? && ReadDocument(text).value.Obj?
    ensures Fields(text).Some? ==>
      var fields := Fields(text).value;
      && ReadDocument(text).value == Obj(FieldMap(text, fields, map[]))
      && InOrder(Places(fields), 0, |text|)
      && forall i :: 0 <= i < |fields| ==> IsRaw(text[fields[i].at.start..fields[i].at.end])
  {
    hide ReadValue, ReadMembers, SkipSpace, IsRaw, FieldsFrom, Places;
    var t := SkipSpace(text);
    NoPlaces();
    BraceRead(text);
    if t != [] && t[0] == '{' {
      Inside(text, '{');
      FieldsHold(text, |text| - |t| + 1, t[1..], map[]);
    }
  }

  /** An object is read exactly behind an opening brace. */
  lemma BraceRead(text: string)
    ensures var t := SkipSpace(text);
      if t == [] || t[0] != '{' then ReadValue(text).Got? ==> !ReadValue(text).value.Obj?
      else
        var u := SkipSpace(t[1..]);
        ReadValue(text) ==
          if u != [] && u[0] == '}' then Got(Obj(map[]), u[1..])
          else
            match ReadMembers(t[1..], map[])
            case Failed => Failed
            case Got(members, rest) => Got(Obj(members), rest)
  {
    hide ReadItems, ReadMembers, ReadChars, NumberLength, SkipSpace, IsNumber;
  }

  // ---- an array written from its elements ----

  function Joined(texts: seq<string>): string
  {
    if texts == [] then ""
    else if |texts| == 1 then texts[0]
    else texts[0] + "," + Joined(texts[1..])
  }

  /** The texts that stand at spans. */
  function TextsAt(text: string, spans: seq<Span>): seq<string>
  {
    seq(|spans|, i requires 0 <= i < |spans| =>
      if spans[i].start <= spans[i].end <= |text| then text[spans[i].start..spans[i].end] else "")
  }

  /** An array written from the texts of values has exactly those texts as its elements. */
  lemma JoinedHolds(texts: seq<string>)
    requires forall x :: x in texts ==> IsRaw(x)
    ensures var text := "[" + Joined(texts) + "]";
      ItemSpans(text).Some? && TextsAt(text, ItemSpans(text).value) == texts
  {
    hide IsRaw, ItemSpansFrom, TextsAt;
    var text := "[" + Joined(texts) + "]";
    assert SkipSpace(text) == text && text[1..] == Joined(texts) + "]";
    if texts == [] {
      assert text[1..] == "]" && "]"[1..] == [];
      NothingAt(text);
    } else {
      IsRawReads(texts[0]);
      JoinedFrom(texts, text, 1, "");
      assert Joined(texts) + "]" + "" == Joined(texts) + "]";
      JoinedStarts(texts, "]");
    }
  }

  lemma NothingAt(text: string)
    ensures TextsAt(text, []) == []
  {
  }

  lemma JoinedStarts(texts: seq<string>, end: string)
    requires texts != [] && IsRaw(texts[0])
    ensures var s := Joined(texts) + end; s != [] && !IsSpace(s[0]) && SkipSpace(s) == s && s[0] != ']'
  {
    hide ReadItems, ReadMembers, ReadChars, NumberLength;
    NotAValue(texts[0]);
    JoinedBegins(texts, end);
    NoSpace(Joined(texts) + end);
  }

  lemma NotAValue(text: string)
    requires IsRaw(text)
    ensures text != [] && !IsSpace(text[0]) && text[0] != ']'
  {
    hide ReadItems, ReadMembers, ReadChars, NumberLength, SkipSpace, IsNumber;
    NoSpace(text);
  }

  lemma JoinedBegins(texts: seq<string>, end: string)
    requires texts != [] && texts[0] != []
    ensures var s := Joined(texts) + end; s != [] && s[0] == texts[0][0]
  {
  }

  /** The first element and what follows it. */
  lemma OneItem(first: string, tail: string, at: nat)
    requires IsRaw(first) && tail != [] && (tail[0] == ']' || tail[0] == ',')
    ensures var span := Span(at, at + |first|);
      ItemSpansFrom(first + tail, at) ==
        if tail[0] == ']' then Got([span], tail[1..])
        else
          match ItemSpansFrom(tail[1..], at + |first| + 1)
          case Failed => Failed
          case Got(more, end) => Got([span] + more, end)
  {
    hide ReadValue, SkipSpace, IsRaw;
    IsRawReads(first);
    assert first + [] == first;
    ValueLocal(first, [], tail);
    RawThenSame(first, tail);
    NotSpace(tail);
  }

  lemma {:induction false} JoinedFrom(texts: seq<string>, text: string, at: nat, end: string)
    requires texts != [] && forall x :: x in texts ==> IsRaw(x)
    requires at <= |text| && text[at..] == Joined(texts) + "]" + end
    ensures var r := ItemSpansFrom(Joined(texts) + "]" + end, at);
      r.Got? && r.rest == end && TextsAt(text, r.value) == texts
  {
    hide *;
    var first := texts[0];
    var tail := if |texts| == 1 then "]" + end else "," + (Joined(texts[1..]) + "]" + end);
    JoinedSplit(texts, end);
    OneItem(first, tail, at);
    var span := Span(at, at + |first|);
    Stands(text, at, first, tail);
    if |texts| > 1 {
      JoinedFrom(texts[1..], text, at + |first| + 1, end);
      TextsPrepended(text, span, ItemSpansFrom(tail[1..], at + |first| + 1).value);
    } else {
      NothingAt(text);
      TextsPrepended(text, span, []);
      assert [span] + [] == [span];
    }
  }

  lemma JoinedSplit(texts: seq<string>, end: string)
    requires texts != []
    ensures |texts| == 1 ==> Joined(texts) + "]" + end == texts[0] + ("]" + end) && ("]" + end)[1..] == end
    ensures |texts| > 1 ==>
      var more := Joined(texts[1..]) + "]" + end;
      Joined(texts) + "]" + end == texts[0] + ("," + more) && ("," + more)[1..] == more
  {
    if |texts| == 1 {
      Associative(texts[0], "]", end);
      assert ("]" + end)[1..] == end;
    } else {
      hide Joined;
      JoinedStep(texts);
      FiveParts(texts[0], ",", Joined(texts[1..]), "]", end);
      assert ("," + (Joined(texts[1..]) + "]" + end))[1..] == Joined(texts[1..]) + "]" + end;
    }
  }

  lemma JoinedStep(texts: seq<string>)
    requires |texts| > 1
    ensures Joined(texts) == texts[0] + "," + Joined(texts[1..])
  {
  }

  lemma FiveParts(a: string, b: string, c: string, d: string, e: string)
    ensures a + b + c + d + e == a + (b + (c + d + e))
  {
    Associative(a + b + c, d, e);
    Associative(a + b, c, d + e);
    Associative(a, b, c + (d + e));
    Associative(c, d, e);
  }

  lemma Stands(text: string, at: nat, first: string, tail: string)
    requires at <= |text| && text[at..] == first + tail && tail != []
    ensures text[at..at + |first|] == first && text[at + |first| + 1..] == tail[1..]
  {
    assert text[at..][..|first|] == first && text[at..][|first| + 1..] == tail[1..];
  }

  lemma NotSpace(tail: string)
    requires tail != [] && (tail[0] == ']' || tail[0] == ',')
    ensures SkipSpace(tail) == tail
  {
  }

  lemma RawThenSame(raw: string, tail: string)
    requires IsRaw(raw)
    ensures SkipSpace(raw + tail) == raw + tail
  {
    hide ReadValue;
    NoSpace(raw + tail);
  }

  lemma TextsPrepended(text: string, span: Span, more: seq<Span>)
    requires span.start <= span.end <= |text|
    ensures TextsAt(text, [span] + more) == [text[span.start..span.end]] + TextsAt(text, more)
  {
  }

  // ---- an object as it is printed ----

  lemma NameReads(name: string, rest: string)
    ensures ReadName(StringText(name, false) + (":" + rest)) == Got(name, rest)
  {
    hide ReadChars, Escape;
    var s := StringText(name, false) + (":" + rest);
    ReadString(name, false, ":" + rest);
    NoSpace(s);
    NoSpace(":" + rest);
    assert (":" + rest)[1..] == rest;
  }

  /** A printed value, before what does not belong to it. */
  lemma PrintedValue(tree: Tree, end: string)
    requires Ends(end)
    ensures ReadValue(Text(tree, false) + end) == Got(Value(tree), end)
    ensures SkipSpace(Text(tree, false) + end) == Text(tree, false) + end && Text(tree, false) != []
  {
    hide ReadValue, Text;
    ReadTree(tree, false, end);
    TextStarts(tree, false);
    NoSpace(Text(tree, false) + end);
  }

  lemma StandsBehind(text: string, at: nat, s: string, head: string, v: string, end: string)
    requires at <= |text| && text[at..] == s && s == head + (v + end)
    ensures at + |s| - |end| <= |text|
    ensures text[at + |s| - |v + end|..at + |s| - |end|] == v && text[at + |s| - |end|..] == end
  {
    assert s[|head|..|head| + |v|] == v;
    assert s[|head| + |v|..] == end;
    assert text[at + |head|..at + |head| + |v|] == s[|head|..|head| + |v|];
    From(text, at, s, |head| + |v|);
  }

  /** The members stand at these spans, each under its name and as it is printed. */
  ghost predicate StandAs(text: string, fields: seq<Field>, ms: seq<Member>)
  {
    && |fields| == |ms|
    && forall k :: 0 <= k < |ms| ==>
         && fields[k].name == ms[k].name && fields[k].at.start <= fields[k].at.end <= |text|
         && text[fields[k].at.start..fields[k].at.end] == Text(ms[k].tree, false)
  }

  /** The members of a printed object stand in its text under their names, each as it was printed. */
  lemma {:induction false} PrintedFrom(ms: seq<Member>, text: string, at: nat, rest: string)
    requires ms != [] && at <= |text| && text[at..] == MembersText(ms, false) + ("}" + rest)
    ensures var r := FieldsFrom(text[at..], at);
      r.Got? && r.rest == rest && StandAs(text, r.value, ms)
    decreases |ms|
  {
    hide *;
    if |ms| == 1 {
      PrintedLast(ms, text, at, rest);
    } else {
      var first, next := PrintedNext(ms, text, at, rest);
      PrintedFrom(ms[1..], text, next, rest);
      StandCons(text, first, FieldsFrom(text[next..], next).value, ms);
    }
  }

  lemma PrintedNext(ms: seq<Member>, text: string, at: nat, rest: string) returns (first: Field, next: nat)
    requires |ms| > 1 && at <= |text| && text[at..] == MembersText(ms, false) + ("}" + rest)
    ensures next <= |text| && text[next..] == MembersText(ms[1..], false) + ("}" + rest)
    ensures first.name == ms[0].name && first.at.start <= first.at.end <= |text|
    ensures text[first.at.start..first.at.end] == Text(ms[0].tree, false)
    ensures FieldsFrom(text[at..], at) ==
      match FieldsFrom(text[next..], next)
      case Failed => Failed
      case Got(more, left) => Got([first] + more, left)
  {
    hide *;
    var more := MembersText(ms[1..], false) + ("}" + rest);
    MembersTextSplit(ms, false, rest, "," + more);
    PrintedFirst(ms[0], text, at, "," + more);
    next := |text| - |"," + more| + 1;
    From(text, next - 1, "," + more, 1);
    assert ("," + more)[1..] == more;
    first := Field(ms[0].name, Span(|text| - |Text(ms[0].tree, false) + ("," + more)|, next - 1));
  }

  lemma PrintedLast(ms: seq<Member>, text: string, at: nat, rest: string)
    requires |ms| == 1 && at <= |text| && text[at..] == MembersText(ms, false) + ("}" + rest)
    ensures var r := FieldsFrom(text[at..], at);
      r.Got? && r.rest == rest && StandAs(text, r.value, ms)
  {
    hide *;
    MembersTextSplit(ms, false, rest, "}" + rest);
    PrintedFirst(ms[0], text, at, "}" + rest);
    var first := Field(ms[0].name, Span(|text| - |Text(ms[0].tree, false) + ("}" + rest)|, |text| - |"}" + rest|));
    StandCons(text, first, [], ms);
  }

  lemma StandCons(text: string, first: Field, more: seq<Field>, ms: seq<Member>)
    requires ms != [] && first.name == ms[0].name && first.at.start <= first.at.end <= |text|
    requires text[first.at.start..first.at.end] == Text(ms[0].tree, false)
    requires |ms| > 1 ==> StandAs(text, more, ms[1..])
    ensures |ms| > 1 ==> StandAs(text, [first] + more, ms)
    ensures |ms| == 1 ==> StandAs(text, [first], ms)
  {
    hide Text;
  }

  /** The first of them, and what follows it. */
  lemma PrintedFirst(m: Member, text: string, at: nat, end: string)
    requires at <= |text| && end != [] && (end[0] == ',' || end[0] == '}')
    requires text[at..] == StringText(m.name, false) + (":" + (Text(m.tree, false) + end))
    ensures |end| <= |text| && text[|text| - |end|..] == end
    ensures var v := Text(m.tree, false);
      var first := Field(m.name, Span(|text| - |v + end|, |text| - |end|));
      && |v + end| <= |text| && text[first.at.start..first.at.end] == v
      && FieldsFrom(text[at..], at) ==
           if end[0] == '}' then Got([first], end[1..])
           else
             match FieldsFrom(end[1..], |text| - |end| + 1)
             case Failed => Failed
             case Got(more, left) => Got([first] + more, left)
  {
    hide ReadValue, ReadName, ReadMembers, SkipSpace, StringText, Text, FieldsFrom;
    var s, v := text[at..], Text(m.tree, false);
    NameReads(m.name, v + end);
    PrintedValue(m.tree, end);
    NoSpace(end);
    Associative(StringText(m.name, false), ":", v + end);
    StandsBehind(text, at, s, StringText(m.name, false) + ":", v, end);
    FirstField(s, at, map[]);
  }

  lemma PrintedObject(ms: seq<Member>)
    requires ms != []
    ensures var text := Text(ObjTree(ms), false);
      Fields(text).Some? && StandAs(text, Fields(text).value, ms)
  {
    hide FieldsFrom, MembersText, StandAs;
    var text := Text(ObjTree(ms), false);
    assert text[1..] == MembersText(ms, false) + ("}" + "");
    NoSpace(text);
    PrintedFrom(ms, text, 1, "");
    StartsWithName(ms);
  }

  lemma StartsWithName(ms: seq<Member>)
    requires ms != []
    ensures var s := MembersText(ms, false) + ("}" + ""); SkipSpace(s) == s && s != [] && s[0] == '\"'
  {
    hide Text, Escape;
  }
}
