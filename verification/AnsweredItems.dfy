/**
 What an item of `input` reads as once an answer in its text was replaced.

 The text is searched for `"output":` and the answer, from its start. That may be the item's own
 `output` member, or a member that stands before it: one of an object inside the item, or one whose
 name ends in a quotation mark and `output`.
 */
module AnsweredItems {
  import opened Basics
  import opened Json
  import opened JsonReader
  import opened JsonText
  import opened JsonEdits
  import opened KeyLogin
  import opened KeyLoginRequest

  const OUTPUT := "\"output\":"

  lemma OutputText(output: string)
    ensures OutputMember(output) == OUTPUT + StringText(output, false) && |OUTPUT| == 9
    ensures StringText(output, false) != [] && StringText(output, false)[0] == '\"'
  {
  }

  lemma OutputLetters()
    ensures |OUTPUT| == 9 && OUTPUT[1..8] == "output\""
    ensures OUTPUT[0] == '\"' && OUTPUT[1] == 'o' && OUTPUT[7] == '\"' && OUTPUT[8] == ':'
  {
  }

  lemma NeedleParts(output: string)
    ensures var needle := OutputMember(output);
      && |needle| >= 10 && needle[1..8] == "output\"" && needle[9..] == StringText(output, false)
      && needle[0] == '\"' && needle[1] == 'o' && needle[7] == '\"' && needle[8] == ':' && needle[9] == '\"'
  {
    hide StringText, OutputMember;
    OutputText(output);
    OutputLetters();
    Apart9(OUTPUT, StringText(output, false));
  }

  lemma Apart9(a: string, b: string)
    requires |a| == 9
    ensures (a + b)[1..8] == a[1..8] && (a + b)[9..] == b
  {
  }

  lemma TailOfSlice(s: string, i: nat, n: nat, a: nat)
    requires i + n <= |s| && a <= n
    ensures s[i..i + n][a..] == s[i + a..i + n]
  {
  }

  /** The letters at an occurrence. */
  lemma Letters(s: string, output: string, i: nat)
    requires OccursAt(s, OutputMember(output), i)
    ensures i + 10 <= i + |OutputMember(output)| <= |s|
    ensures s[i] == '\"' && s[i + 1] == 'o' && s[i + 7] == '\"' && s[i + 8] == ':' && s[i + 9] == '\"'
    ensures s[i + 1..i + 8] == "output\""
    ensures s[i + 9..i + |OutputMember(output)|] == StringText(output, false)
  {
    hide StringText, OutputMember;
    NeedleParts(output);
    var needle := OutputMember(output);
    assert s[i..i + |needle|] == needle;
    var there := s[i..i + |needle|];
    assert s[i] == there[0] && s[i + 1] == there[1] && s[i + 7] == there[7] && s[i + 8] == there[8] && s[i + 9] == there[9];
    SliceOfSlice(s, i, |needle|, 1, 8);
    TailOfSlice(s, i, |needle|, 9);
  }

  lemma OccursIn(s: string, output: string, i: nat, n: nat)
    requires OccursAt(s, OutputMember(output), i) && n <= i
    ensures OccursAt(s[n..], OutputMember(output), i - n)
  {
    hide StringText;
    var needle := OutputMember(output);
    assert s[n..][i - n..i - n + |needle|] == s[i..i + |needle|];
  }

  lemma PlainThenQuote(s: string)
    requires |s| >= 7 && s[..7] == "output\""
    ensures ReadChars(s) == Got("output", s[7..])
  {
    hide ReadChars, Escape;
    PlainOutput();
    ReadEscaped("output", false, s[7..]);
    assert s == "output" + ("\"" + s[7..]);
  }

  lemma PlainOutput()
    ensures Escape("output", false) == "output"
  {
    hide Escape;
    PlainText("output");
  }

  lemma HexIsNoQuote(s: string, k: nat)
    requires ReadUnit(s).Some? && k < 4
    ensures s[k] != '\"'
  {
  }

  /** Inside an escape, a quotation mark is the character escaped. */
  lemma QuoteInEscape(s: string, i: nat)
    requires ReadEscape(s).Got? && i < |s| - |ReadEscape(s).rest| && s[i] == '\"'
    ensures i == 0 && ReadEscape(s).rest == s[1..]
  {
    EscapeEnd(s);
    if i > 0 {
      var unit := ReadUnit(s[1..]);
      if i <= 4 {
        HexIsNoQuote(s[1..], i - 1);
      } else {
        assert s[5..][0] == s[5] && s[5..][1] == s[6];
        if i > 6 {
          HexIsNoQuote(s[5..][2..], i - 7);
        }
      }
    }
  }

  /** In the characters of a string, an occurrence begins with the closing mark, or ends the string itself. */
  lemma {:induction false} CharsOccurrence(s: string, output: string, i: nat)
    requires ReadChars(s).Got? && OccursAt(s, OutputMember(output), i) && i < |s| - |ReadChars(s).rest|
    ensures |ReadChars(s).rest| == |s| - i - 1 || |ReadChars(s).rest| == |s| - i - 8
    decreases |s|
  {
    hide ReadChars, OccursAt, OutputMember;
    Letters(s, output, i);
    NotEmpty(s);
    if s[0] == '\"' {
      Closed(s);
    } else {
      var n := FirstChar(s);
      if i >= n {
        OccursIn(s, output, i, n);
        CharsOccurrence(s[n..], output, i - n);
      } else {
        EscapedQuote(s, n, i);
      }
    }
  }

  lemma NotEmpty(s: string)
    requires ReadChars(s).Got?
    ensures s != []
  {
    hide ReadEscape;
  }

  lemma Closed(s: string)
    requires s != [] && s[0] == '\"' && ReadChars(s).Got?
    ensures |ReadChars(s).rest| == |s| - 1
  {
    hide ReadEscape;
  }

  /** The first character of a string takes n of the text; only an escape takes more than one. */
  lemma FirstChar(s: string) returns (n: nat)
    requires s != [] && s[0] != '\"' && ReadChars(s).Got?
    ensures 0 < n <= |s| && ReadChars(s[n..]).Got? && ReadChars(s[n..]).rest == ReadChars(s).rest
    ensures n > 1 ==> ReadEscape(s[1..]).Got? && |ReadEscape(s[1..]).rest| == |s| - n
  {
    hide ReadEscape;
    if s[0] == '\\' {
      EscapeEnd(s[1..]);
      n := |s| - |ReadEscape(s[1..]).rest|;
      assert s[1..][n - 1..] == s[n..];
    } else {
      n := 1;
    }
  }

  /** A quotation mark inside an escape, with the rest of the needle behind it: the string ends there. */
  lemma EscapedQuote(s: string, n: nat, i: nat)
    requires i < n <= |s| && i + 8 < |s| && s[0] != '\"' && s[i] == '\"' && s[i + 1..i + 8] == "output\""
    requires ReadChars(s).Got? && ReadChars(s[n..]).Got? && ReadChars(s[n..]).rest == ReadChars(s).rest
    requires n > 1 ==> ReadEscape(s[1..]).Got? && |ReadEscape(s[1..]).rest| == |s| - n
    ensures |ReadChars(s).rest| == |s| - i - 8
  {
    hide ReadChars, ReadEscape;
    QuoteInEscape(s[1..], i - 1);
    assert s[2..][..7] == s[2..9];
    PlainThenQuote(s[2..]);
  }

  /** After the name of a member stands the colon. */
  lemma NameParts(q: string)
    requires q != [] && q[0] == '\"' && ReadName(q).Got?
    ensures ReadChars(q[1..]).Got?
    ensures var rest := ReadChars(q[1..]).rest;
      && EndOf(rest, q) && |rest| < |q| && SkipSpace(rest) != [] && SkipSpace(rest)[0] == ':' && ReadName(q).rest == SkipSpace(rest)[1..]
  {
    hide ReadChars, SkipSpace, EndOf;
    NoSpace(q);
    CharsEnd(q[1..]);
    EndOfTail(ReadChars(q[1..]).rest, q);
  }

  lemma NameSkips(s: string)
    requires ReadName(s).Got?
    ensures SkipSpace(s) != [] && SkipSpace(s)[0] == '\"' && ReadName(SkipSpace(s)) == ReadName(s)
  {
    hide ReadChars, SkipSpace;
    SkipTwice(s);
  }

  /** The closing mark of the name stands before the colon of the occurrence. */
  lemma NameCloses(q: string, output: string, i: nat)
    requires q != [] && q[0] == '\"' && ReadName(q).Got? && OccursAt(q, OutputMember(output), i)
    requires i < |q| - |ReadChars(q[1..]).rest|
    ensures ReadChars(q[1..]).rest == q[i + 8..]
  {
    hide ReadChars, SkipSpace, OccursAt, OutputMember, ReadName;
    Letters(q, output, i);
    NameParts(q);
    var rest := ReadChars(q[1..]).rest;
    assert rest == q[|q| - |rest|..];
    if i == 0 {
      assert q[1..][..7] == q[1..8];
      PlainThenQuote(q[1..]);
    } else {
      OccursIn(q, output, i, 1);
      CharsOccurrence(q[1..], output, i - 1);
      if |rest| == |q| - i - 1 {
        assert rest[0] == 'o';
        NoSpace(rest);
        assert false;
      }
    }
  }

  /** In the name of a member, an occurrence ends just before the value. */
  lemma NameOccurrence(s: string, output: string, i: nat)
    requires ReadName(s).Got? && OccursAt(s, OutputMember(output), i) && i < |s| - |ReadName(s).rest|
    ensures ReadName(s).rest == s[i + 9..]
  {
    hide ReadChars, SkipSpace, OccursAt, OutputMember, ReadName;
    Letters(s, output, i);
    NameSkips(s);
    SpaceBefore(s);
    SpaceEnd(s);
    var q := SkipSpace(s);
    var n := |s| - |q|;
    assert q == s[n..];
    assert i >= n;
    OccursIn(s, output, i, n);
    Letters(q, output, i - n);
    NameParts(q);
    var rest := ReadChars(q[1..]).rest;
    if i - n < |q| - |rest| {
      NameCloses(q, output, i - n);
      ColonNext(q, rest, i - n + 8);
      assert q[i - n + 9..] == s[i + 9..];
    } else {
      NotInGap(q, rest, i - n);
      assert false;
    }
  }

  lemma NotInGap(q: string, rest: string, i: nat)
    requires EndOf(rest, q) && SkipSpace(rest) != []
    requires |q| - |rest| <= i < |q| - |SkipSpace(rest)| + 1 && q[i] == '\"'
    ensures SkipSpace(rest)[0] == '\"'
  {
    SpaceBefore(rest);
    SpaceEnd(rest);
    assert q[i] == rest[i - (|q| - |rest|)];
    assert SkipSpace(rest)[0] == rest[|rest| - |SkipSpace(rest)|];
  }

  lemma ColonNext(s: string, rest: string, i: nat)
    requires i < |s| && s[i] == ':' && |rest| == |s| - i && EndOf(rest, s)
    ensures SkipSpace(rest) == rest && rest[1..] == s[i + 1..]
  {
    assert rest == s[i..];
    NoSpace(rest);
  }

  // ---- where in an object or an array ----

  /** An occurrence among the members is a name before its value, or lies in a value. */
  lemma {:induction false} InField(text: string, at: nat, s: string, output: string, i: nat) returns (k: nat)
    requires at <= |text| && text[at..] == s && FieldsFrom(s, at).Got? && OccursAt(text, OutputMember(output), i)
    requires at <= i < |text| - |FieldsFrom(s, at).rest|
    ensures var fields := FieldsFrom(s, at).value;
      k < |fields| && (fields[k].at.start == i + 9 || fields[k].at.start <= i < fields[k].at.end)
    decreases |s|
  {
    hide *;
    var first, next, last := FieldStep(text, at, s);
    k := 0;
    if i < first.at.end {
      OccursIn(text, output, i, at);
      Tails(text, at, first.at.end);
      InFirst(s, output, i - at);
    } else if i < next {
      Letters(text, output, i);
      Tails(text, at, first.at.end);
      NotInGap(text, text[first.at.end..], i);
      assert false;
    } else {
      var j := InField(text, next, text[next..], output, i);
      k := j + 1;
    }
  }

  lemma Tails(text: string, at: nat, end: nat)
    requires at <= end <= |text|
    ensures |text[at..]| == |text| - at && |text[end..]| == |text| - end && EndOf(text[end..], text)
  {
  }

  /** Up to the end of the first value. */
  lemma InFirst(s: string, output: string, i: nat)
    requires ReadName(s).Got? && ReadValue(ReadName(s).rest).Got? && OccursAt(s, OutputMember(output), i)
    requires i < |s| - |ReadValue(ReadName(s).rest).rest|
    ensures var after := ReadName(s).rest;
      |SkipSpace(after)| <= |s| && (|s| - |SkipSpace(after)| == i + 9 || |s| - |SkipSpace(after)| <= i)
  {
    hide ReadValue, ReadName, SkipSpace, OccursAt, OutputMember;
    var after := ReadName(s).rest;
    Letters(s, output, i);
    NameEnd(s);
    SpaceBefore(after);
    if i < |s| - |after| {
      NameOccurrence(s, output, i);
      NoSpace(after);
    } else {
      NoSpaceIn(s, after, i);
    }
  }

  lemma WholeEnd(s: string)
    ensures EndOf(s, s)
  {
  }

  lemma NoSpaceIn(s: string, after: string, i: nat)
    requires EndOf(after, s) && |s| - |after| <= i < |s| && !IsSpace(s[i])
    ensures i >= |s| - |SkipSpace(after)|
  {
    SpaceBefore(after);
    assert s[i] == after[i - (|s| - |after|)];
  }

  /** An occurrence among the elements of an array lies in one. */
  lemma {:induction false} InItem(text: string, at: nat, s: string, output: string, i: nat) returns (k: nat)
    requires at <= |text| && text[at..] == s && ItemSpansFrom(s, at).Got? && OccursAt(text, OutputMember(output), i)
    requires at <= i < |text| - |ItemSpansFrom(s, at).rest|
    ensures var spans := ItemSpansFrom(s, at).value;
      k < |spans| && spans[k].start <= i < spans[k].end
    decreases |s|
  {
    hide *;
    var first, next, last := ItemStep(text, at, s);
    Letters(text, output, i);
    Tails(text, at, first.end);
    k := 0;
    if i < first.end {
      WholeEnd(s);
      CharAt(text, at, i);
      NoSpaceIn(s, s, i - at);
    } else if i < next {
      NotInGap(text, text[first.end..], i);
      assert false;
    } else {
      var j := InItem(text, next, text[next..], output, i);
      k := j + 1;
    }
  }

  lemma CharAt(text: string, at: nat, i: nat)
    requires at <= i < |text|
    ensures text[at..][i - at] == text[i] && (text[i] == '\"' ==> !IsSpace(text[at..][i - at]))
  {
  }

  // ---- replacing an occurrence ----

  /** The text with the answer at `i` replaced, from one position to another. */
  function Answered(text: string, a: nat, b: nat, i: nat, output: string, answer: string): string
    requires a <= i && i + |OutputMember(output)| <= b <= |text|
  {
    text[a..i] + OutputMember(answer) + text[i + |OutputMember(output)|..b]
  }

  /** A value reads in its place as it does alone. */
  lemma ReadsInPlace(text: string, a: nat, b: nat)
    requires a < b <= |text| && IsRaw(text[a..b]) && MayFollow(text[b..])
    ensures ReadValue(text[a..]) == Got(ReadValue(text[a..b]).value, text[b..])
    ensures text[a..] != [] && !IsSpace(text[a]) && text[a..][0] == text[a] && text[a..][1..] == text[a + 1..]
  {
    hide ReadValue;
    var p := text[a..b];
    assert p + [] == p && text[a..] == p + text[b..];
    ValueLocal(p, [], text[b..]);
    assert p[0] == text[a];
  }

  lemma StringCloses(text: string, a: nat, b: nat, output: string, i: nat)
    requires a < b <= |text| && IsRaw(text[a..b]) && MayFollow(text[b..]) && a <= i < b
    requires OccursAt(text, OutputMember(output), i) && text[a] == '\"'
    ensures b == i + 1 || b == i + 8
  {
    hide ReadValue, ReadChars, OccursAt, OutputMember, SkipSpace;
    ReadsInPlace(text, a, b);
    NestedRest(text[a..]);
    Letters(text, output, i);
    if i == a {
      assert text[a + 1..][..7] == text[i + 1..i + 8];
      PlainThenQuote(text[a + 1..]);
    } else {
      OccursIn(text, output, i, a + 1);
      CharsOccurrence(text[a + 1..], output, i - a - 1);
    }
  }

  lemma FollowsAt(text: string, b: nat)
    requires b <= |text|
    ensures b < |text| && MayFollow(text[b..]) ==> IsSpace(text[b]) || text[b] in [',', ']', '}']
  {
    assert b < |text| ==> text[b..][0] == text[b];
  }

  /** No occurrence lies in a string: a colon follows it. */
  lemma NoStringOccurrence(text: string, a: nat, b: nat, output: string, i: nat)
    requires a < b <= |text| && IsRaw(text[a..b]) && MayFollow(text[b..]) && a <= i < b
    requires OccursAt(text, OutputMember(output), i)
    ensures text[a] != '\"'
  {
    hide ReadValue, OccursAt, OutputMember, MayFollow, IsRaw;
    Letters(text, output, i);
    FollowsAt(text, b);
    if text[a] == '\"' {
      StringCloses(text, a, b, output, i);
      assert false;
    }
  }

  lemma WordHasNoQuote(p: string, k: nat)
    requires IsRaw(p) && p[0] != '\"' && p[0] != '[' && p[0] != '{' && k < |p|
    ensures p[k] != '\"'
  {
    hide ReadItems, ReadMembers, ReadChars, SkipSpace, NumberLength, IsNumber;
    NoSpace(p);
    if p[0] == '-' || p[0] in DIGITS {
      AllNumber(p);
    } else {
      assert |p| == 4 || |p| == 5;
      assert p[..|p|] == p;
    }
  }

  lemma AllNumber(p: string)
    requires p[NumberLength(p)..] == []
    ensures forall k :: 0 <= k < |p| ==> p[k] != '\"'
  {
    hide NumberLength;
    assert NumberLength(p) == |p|;
    forall k | 0 <= k < |p| ensures p[k] != '\"' {
      NotInNumber(p[k]);
    }
  }

  lemma NotInNumber(c: char)
    requires c in NUMBER_CHARS
    ensures c != '\"'
  {
  }

  /** What is read behind an opening bracket, up to where the value ends. */
  lemma Opens(text: string, a: nat, b: nat)
    requires a < b <= |text| && IsRaw(text[a..b]) && MayFollow(text[b..]) && (text[a] == '[' || text[a] == '{')
    ensures var u, close := SkipSpace(text[a + 1..]), if text[a] == '[' then ']' else '}';
      if u != [] && u[0] == close then u[1..] == text[b..]
      else if text[a] == '[' then ReadItems(text[a + 1..]).Got? && ReadItems(text[a + 1..]).rest == text[b..]
      else ReadMembers(text[a + 1..], map[]).Got? && ReadMembers(text[a + 1..], map[]).rest == text[b..]
  {
    hide ReadValue, ReadItems, ReadMembers, SkipSpace, IsRaw, MayFollow;
    ReadsInPlace(text, a, b);
    NestedRest(text[a..]);
  }

  /** Nothing lies between the brackets of an empty array or object. */
  lemma NotInEmpty(text: string, a: nat, b: nat, close: char, i: nat)
    requires a < b <= |text| && a <= i < b && text[a] != '\"' && close != '\"'
    requires SkipSpace(text[a + 1..]) != [] && SkipSpace(text[a + 1..])[0] == close && SkipSpace(text[a + 1..])[1..] == text[b..]
    ensures text[i] != '\"'
  {
    hide SkipSpace;
    var s := text[a + 1..];
    SpaceEnd(s);
    SpaceBefore(s);
    var n := |s| - |SkipSpace(s)|;
    assert s[n..] == SkipSpace(s);
    assert forall k :: 0 <= k < |s| ==> s[k] == text[a + 1 + k];
    assert s[n] == close && b == a + 1 + n + 1;
  }

  /** A value with one of its own replaced, between its brackets, is a value again. */
  lemma BracketsAgain(open: char, inner: string, rest: string)
    requires open == '[' ==> ReadItems(inner + rest).Got? && ReadItems(inner + rest).rest == rest
    requires open == '{' ==> ReadMembers(inner + rest, map[]).Got? && ReadMembers(inner + rest, map[]).rest == rest
    requires open == '[' || open == '{'
    ensures IsRaw([open] + inner)
  {
    hide ReadValue, ReadItems, ReadMembers, SkipSpace;
    var s := [open] + (inner + rest);
    NoSpace(s);
    Opened(s, open, inner + rest);
    assert s == ([open] + inner) + rest;
    ReadsAlone([open] + inner, rest);
  }

  // ---- inside any value ----

  lemma StringIsRaw(s: string)
    ensures IsRaw(StringText(s, false)) && ReadValue(StringText(s, false)).value == Str(s)
  {
    hide ReadValue, Escape;
    ReadQuoted(s, false, []);
    assert StringText(s, false) + [] == StringText(s, false);
  }

  /** Where the value behind a name is what stands in the occurrence, it ends with it. */
  lemma EndsWithAnswer(text: string, span: Span, output: string, i: nat)
    requires OccursAt(text, OutputMember(output), i) && span.start == i + 9
    requires span.start < span.end <= |text| && IsRaw(text[span.start..span.end]) && MayFollow(text[span.end..])
    ensures span.end == i + |OutputMember(output)| && ReadValue(text[span.start..span.end]).value == Str(output)
  {
    hide ReadValue, StringText, OccursAt, MayFollow;
    Letters(text, output, i);
    ReadsInPlace(text, span.start, span.end);
    var n := i + |OutputMember(output)|;
    ReadQuoted(output, false, text[n..]);
    assert text[span.start..] == text[i + 9..n] + text[n..];
  }

  /** The replacement made of the value there: either the answer's text, or the value with it replaced inside. */
  function ValueAnswered(text: string, span: Span, i: nat, output: string, answer: string): string
  {
    if span.start <= i && i + |OutputMember(output)| <= span.end <= |text|
    then Answered(text, span.start, span.end, i, output, answer) else StringText(answer, false)
  }

  /** Replacing the occurrence is replacing that value. */
  lemma AnsweredAround(text: string, a: nat, b: nat, span: Span, i: nat, output: string, answer: string)
    requires OccursAt(text, OutputMember(output), i) && a <= i < b <= |text|
    requires a <= span.start <= span.end <= b && i + |OutputMember(output)| <= span.end
    requires span.start <= i || (span.start == i + 9 && span.end == i + |OutputMember(output)|)
    ensures Answered(text, a, b, i, output, answer)
         == text[a..span.start] + ValueAnswered(text, span, i, output, answer) + text[span.end..b]
  {
    hide StringText, OccursAt, OutputMember;
    OutputText(answer);
    if span.start <= i {
      Widened(text, a, span.start, i, OutputMember(answer), i + |OutputMember(output)|, span.end, b);
    } else {
      OutputThere(text, output, i);
      Slices(text, a, i, i + 9);
      Associative(text[a..i], OUTPUT, StringText(answer, false));
    }
  }

  lemma Slices(text: string, a: nat, b: nat, c: nat)
    requires a <= b <= c <= |text|
    ensures text[a..c] == text[a..b] + text[b..c]
  {
  }

  lemma Widened(text: string, a: nat, from: nat, i: nat, with: string, n: nat, to: nat, b: nat)
    requires a <= from <= i <= n <= to <= b <= |text|
    ensures text[a..i] + with + text[n..b] == text[a..from] + (text[from..i] + with + text[n..to]) + text[to..b]
  {
    Slices(text, a, from, i);
    Slices(text, n, to, b);
    Associative(text[a..from], text[from..i], with);
    Associative(text[a..from], text[from..i] + with, text[n..to]);
    Associative(text[a..i] + with, text[n..to], text[to..b]);
  }

  lemma OutputThere(text: string, output: string, i: nat)
    requires OccursAt(text, OutputMember(output), i)
    ensures i + 9 <= |text| && text[i..i + 9] == OUTPUT
  {
    hide StringText;
    OutputText(output);
    assert text[i..i + |OutputMember(output)|][..9] == text[i..i + 9];
  }

  /**
   An occurrence that begins in a value lies in it, the value is an array or an object, and with the
   answer replaced it is a value again.
   */
  lemma {:induction false} AnsweredInside(text: string, a: nat, b: nat, i: nat, output: string, answer: string)
    requires a < b <= |text| && IsRaw(text[a..b]) && MayFollow(text[b..]) && a <= i < b
    requires OccursAt(text, OutputMember(output), i)
    ensures text[a] != '\"' && i + |OutputMember(output)| <= b && IsRaw(Answered(text, a, b, i, output, answer))
    decreases b - a
  {
    hide *;
    NoStringOccurrence(text, a, b, output, i);
    Letters(text, output, i);
    if text[a] == '{' {
      var k := InsideObject(text, a, b, i, output);
      var span := FieldsFrom(text[a + 1..], a + 1).value[k].at;
      if span.start == i + 9 {
        EndsWithAnswer(text, span, output, i);
      } else {
        AnsweredInside(text, span.start, span.end, i, output, answer);
      }
      ValueAnsweredIsRaw(text, span, i, output, answer);
      ObjectAnswered(text, a, b, k, i, output, answer);
    } else if text[a] == '[' {
      var k := InsideArray(text, a, b, i, output);
      var span := ItemSpansFrom(text[a + 1..], a + 1).value[k];
      AnsweredInside(text, span.start, span.end, i, output, answer);
      ValueAnsweredIsRaw(text, span, i, output, answer);
      ArrayAnswered(text, a, b, k, i, output, answer);
    } else {
      RawStarts(text, a, b);
      WordHasNoQuote(text[a..b], i - a);
    }
  }

  /** The member an occurrence in an object belongs to. */
  lemma InsideObject(text: string, a: nat, b: nat, i: nat, output: string) returns (k: nat)
    requires a < b <= |text| && IsRaw(text[a..b]) && MayFollow(text[b..]) && a <= i < b
    requires OccursAt(text, OutputMember(output), i) && text[a] == '{' && text[i] == '\"'
    ensures a < i && FieldsFrom(text[a + 1..], a + 1).Got? && FieldsFrom(text[a + 1..], a + 1).rest == text[b..]
    ensures k < |FieldsFrom(text[a + 1..], a + 1).value|
    ensures var span := FieldsFrom(text[a + 1..], a + 1).value[k].at;
      && a < span.start < span.end <= b && IsRaw(text[span.start..span.end]) && MayFollow(text[span.end..])
      && (span.start == i + 9 || span.start <= i < span.end)
  {
    hide ReadMembers, IsRaw, MayFollow, OccursAt, OutputMember, FieldsFrom, Places;
    InObject(text, a, b, i, output);
    k := InField(text, a + 1, text[a + 1..], output, i);
    FieldsHold(text, a + 1, text[a + 1..], map[]);
    FieldsFollow(text, a + 1, text[a + 1..]);
    var fields := FieldsFrom(text[a + 1..], a + 1).value;
    assert Places(fields)[k] == fields[k].at;
  }

  /** The element an occurrence in an array lies in. */
  lemma InsideArray(text: string, a: nat, b: nat, i: nat, output: string) returns (k: nat)
    requires a < b <= |text| && IsRaw(text[a..b]) && MayFollow(text[b..]) && a <= i < b
    requires OccursAt(text, OutputMember(output), i) && text[a] == '[' && text[i] == '\"'
    ensures a < i && ItemSpansFrom(text[a + 1..], a + 1).Got? && ItemSpansFrom(text[a + 1..], a + 1).rest == text[b..]
    ensures k < |ItemSpansFrom(text[a + 1..], a + 1).value|
    ensures var span := ItemSpansFrom(text[a + 1..], a + 1).value[k];
      && a < span.start <= i < span.end <= b && IsRaw(text[span.start..span.end]) && MayFollow(text[span.end..])
  {
    hide ReadItems, IsRaw, MayFollow, OccursAt, OutputMember, ItemSpansFrom;
    InArray(text, a, b, i, output);
    k := InItem(text, a + 1, text[a + 1..], output, i);
    ItemSpansHold(text, a + 1, text[a + 1..]);
    ItemsFollow(text, a + 1, text[a + 1..]);
  }

  lemma RawStarts(text: string, a: nat, b: nat)
    requires a < b <= |text|
    ensures text[a..b][0] == text[a] && forall k :: 0 <= k < b - a ==> text[a..b][k] == text[a + k]
  {
  }

  lemma ValueAnsweredIsRaw(text: string, span: Span, i: nat, output: string, answer: string)
    requires span.start <= i && i + |OutputMember(output)| <= span.end <= |text|
      ==> IsRaw(Answered(text, span.start, span.end, i, output, answer))
    ensures IsRaw(ValueAnswered(text, span, i, output, answer))
  {
    hide IsRaw, Answered, OutputMember, StringText;
    StringIsRaw(answer);
  }

  lemma InObject(text: string, a: nat, b: nat, i: nat, output: string)
    requires a < b <= |text| && IsRaw(text[a..b]) && MayFollow(text[b..]) && a <= i < b && text[a] == '{' && text[i] == '\"'
    ensures i > a && FieldsFrom(text[a + 1..], a + 1).Got? && FieldsFrom(text[a + 1..], a + 1).rest == text[b..]
  {
    hide ReadValue, ReadItems, ReadMembers, SkipSpace, IsRaw, MayFollow, FieldsFrom;
    Opens(text, a, b);
    var u := SkipSpace(text[a + 1..]);
    if u != [] && u[0] == '}' {
      NotInEmpty(text, a, b, '}', i);
    }
    FieldsHold(text, a + 1, text[a + 1..], map[]);
  }

  lemma InArray(text: string, a: nat, b: nat, i: nat, output: string)
    requires a < b <= |text| && IsRaw(text[a..b]) && MayFollow(text[b..]) && a <= i < b && text[a] == '[' && text[i] == '\"'
    ensures i > a && ItemSpansFrom(text[a + 1..], a + 1).Got? && ItemSpansFrom(text[a + 1..], a + 1).rest == text[b..]
  {
    hide ReadValue, ReadItems, ReadMembers, SkipSpace, IsRaw, MayFollow, ItemSpansFrom;
    Opens(text, a, b);
    var u := SkipSpace(text[a + 1..]);
    if u != [] && u[0] == ']' {
      NotInEmpty(text, a, b, ']', i);
    }
    ItemSpansHold(text, a + 1, text[a + 1..]);
  }

  /** The text between the brackets, with one value replaced, before what follows. */
  lemma BetweenBrackets(text: string, a: nat, b: nat, span: Span, raw: string)
    requires a < span.start <= span.end <= b <= |text|
    ensures a + 1 <= |Replaced(text, span, raw)|
    ensures var inner := text[a + 1..span.start] + raw + text[span.end..b];
      && Replaced(text, span, raw)[a + 1..] == inner + text[b..]
      && [text[a]] + inner == text[a..span.start] + raw + text[span.end..b]
  {
    Cut(text, span, raw, a + 1);
    assert text[span.end..] == text[span.end..b] + text[b..];
    assert text[a..span.start] == [text[a]] + text[a + 1..span.start];
  }

  lemma ObjectAnswered(text: string, a: nat, b: nat, k: nat, i: nat, output: string, answer: string)
    requires a < b <= |text| && text[a] == '{' && a < i < b && OccursAt(text, OutputMember(output), i)
    requires FieldsFrom(text[a + 1..], a + 1).Got? && FieldsFrom(text[a + 1..], a + 1).rest == text[b..]
    requires k < |FieldsFrom(text[a + 1..], a + 1).value|
    requires var span := FieldsFrom(text[a + 1..], a + 1).value[k].at;
      && a < span.start <= span.end <= b && i + |OutputMember(output)| <= span.end
      && (span.start <= i || (span.start == i + 9 && span.end == i + |OutputMember(output)|))
      && IsRaw(ValueAnswered(text, span, i, output, answer))
    ensures i + |OutputMember(output)| <= b && IsRaw(Answered(text, a, b, i, output, answer))
  {
    hide ReadValue, ReadMembers, SkipSpace, IsRaw, OccursAt, OutputMember, Answered, FieldsFrom, Replaced, ValueAnswered;
    var span := FieldsFrom(text[a + 1..], a + 1).value[k].at;
    var raw := ValueAnswered(text, span, i, output, answer);
    AnsweredAround(text, a, b, span, i, output, answer);
    FieldReplaced(text, a + 1, text[a + 1..], k, raw, map[]);
    BetweenBrackets(text, a, b, span, raw);
    BracketsAgain('{', text[a + 1..span.start] + raw + text[span.end..b], text[b..]);
  }

  lemma ArrayAnswered(text: string, a: nat, b: nat, k: nat, i: nat, output: string, answer: string)
    requires a < b <= |text| && text[a] == '[' && a < i < b && OccursAt(text, OutputMember(output), i)
    requires ItemSpansFrom(text[a + 1..], a + 1).Got? && ItemSpansFrom(text[a + 1..], a + 1).rest == text[b..]
    requires k < |ItemSpansFrom(text[a + 1..], a + 1).value|
    requires var span := ItemSpansFrom(text[a + 1..], a + 1).value[k];
      && a < span.start <= span.end <= b && i + |OutputMember(output)| <= span.end && span.start <= i
      && IsRaw(ValueAnswered(text, span, i, output, answer))
    ensures i + |OutputMember(output)| <= b && IsRaw(Answered(text, a, b, i, output, answer))
  {
    hide ReadValue, ReadItems, SkipSpace, IsRaw, OccursAt, OutputMember, Answered, ItemSpansFrom, Replaced, ValueAnswered;
    var span := ItemSpansFrom(text[a + 1..], a + 1).value[k];
    var raw := ValueAnswered(text, span, i, output, answer);
    AnsweredAround(text, a, b, span, i, output, answer);
    ItemReplaced(text, a + 1, text[a + 1..], k, raw);
    BetweenBrackets(text, a, b, span, raw);
    BracketsAgain('[', text[a + 1..span.start] + raw + text[span.end..b], text[b..]);
  }

  // ---- the item's own answer ----

  /** Member k is the only one with that name. */
  ghost predicate OnlyOne(fields: seq<Field>, name: string, k: int)
  {
    && 0 <= k < |fields| && fields[k].name == name
    && forall j :: 0 <= j < |fields| && j != k ==> fields[j].name != name
  }

  ghost predicate NoneNamed(fields: seq<Field>, name: string)
  {
    forall j :: 0 <= j < |fields| ==> fields[j].name != name
  }

  lemma Swapped(m: map<string, JSON>, a: string, x: JSON, b: string, y: JSON)
    requires a != b
    ensures m[a := x][b := y] == m[b := y][a := x]
  {
  }

  /** What no member names stays as it is, and may be set before or after. */
  lemma {:induction false} NotNamed(text: string, fields: seq<Field>, before: map<string, JSON>, k: int, value: JSON,
                                    name: string, own: JSON)
    requires NoneNamed(fields, name)
    ensures FieldMapWith(text, fields, before[name := own], k, value) == FieldMapWith(text, fields, before, k, value)[name := own]
  {
    hide ValueAt;
    if fields != [] {
      hide FieldMapWith;
      var first, v := fields[0].name, if k == 0 then value else ValueAt(text, fields[0].at);
      MapStep(text, fields, before[name := own], k, value);
      MapStep(text, fields, before, k, value);
      NotNamed(text, fields[1..], before[first := v], k - 1, value, name, own);
      Swapped(before, name, own, first, v);
    }
  }

  lemma MapStep(text: string, fields: seq<Field>, before: map<string, JSON>, k: int, value: JSON)
    requires fields != []
    ensures var v := if k == 0 then value else ValueAt(text, fields[0].at);
      FieldMapWith(text, fields, before, k, value)
      == FieldMapWith(text, fields[1..], before[fields[0].name := v], k - 1, value)
  {
    hide ValueAt;
  }

  /** With the one member of a name replaced, only that entry differs. */
  lemma {:induction false} OwnReplaced(text: string, fields: seq<Field>, before: map<string, JSON>, name: string, k: nat, value: JSON)
    requires OnlyOne(fields, name, k)
    ensures FieldMapWith(text, fields, before, k, value) == FieldMap(text, fields, before)[name := value]
  {
    if k == 0 {
      OwnFirst(text, fields, before, name, value);
    } else {
      OwnReplaced(text, fields[1..], before[fields[0].name := ValueAt(text, fields[0].at)], name, k - 1, value);
    }
  }

  lemma OwnFirst(text: string, fields: seq<Field>, before: map<string, JSON>, name: string, value: JSON)
    requires OnlyOne(fields, name, 0)
    ensures FieldMapWith(text, fields, before, 0, value) == FieldMap(text, fields, before)[name := value]
  {
    hide FieldMapWith, FieldMap;
    var rest, own := fields[1..], ValueAt(text, fields[0].at);
    assert NoneNamed(rest, name);
    NotNamed(text, rest, before, -1, value, name, value);
    NotNamed(text, rest, before, -1, value, name, own);
    NoneReplaced(text, rest, before[name := own], -1, value);
    FirstUnfolded(text, fields, before, value);
    var base := FieldMapWith(text, rest, before, -1, value);
    assert base[name := own][name := value] == base[name := value];
  }

  lemma FirstUnfolded(text: string, fields: seq<Field>, before: map<string, JSON>, value: JSON)
    requires fields != []
    ensures FieldMapWith(text, fields, before, 0, value)
         == FieldMapWith(text, fields[1..], before[fields[0].name := value], -1, value)
    ensures FieldMap(text, fields, before) == FieldMap(text, fields[1..], before[fields[0].name := ValueAt(text, fields[0].at)])
  {
  }

  /** With another member replaced, a name keeps its value. */
  lemma {:induction false} OwnKept(text: string, fields: seq<Field>, before: map<string, JSON>, name: string, own: nat, k: int, value: JSON)
    requires OnlyOne(fields, name, own) && k != own
    ensures name in FieldMapWith(text, fields, before, k, value)
    ensures FieldMapWith(text, fields, before, k, value)[name] == ValueAt(text, fields[own].at)
  {
    if own == 0 {
      assert NoneNamed(fields[1..], name);
      NotNamed(text, fields[1..], before, k - 1, value, name, ValueAt(text, fields[0].at));
    } else {
      var begun := before[fields[0].name := if k == 0 then value else ValueAt(text, fields[0].at)];
      OwnKept(text, fields[1..], begun, name, own - 1, k - 1, value);
    }
  }

  lemma StringStarts(p: string)
    requires IsRaw(p) && ReadValue(p).value.Str?
    ensures p[0] == '\"'
  {
    hide ReadItems, ReadMembers, ReadChars, NumberLength, SkipSpace;
    NoSpace(p);
  }

  lemma AllSpace(text: string, rest: string, i: nat)
    requires EndOf(rest, text) && SkipSpace(rest) == [] && |text| - |rest| <= i < |text|
    ensures IsSpace(text[i])
  {
    SpaceBefore(rest);
    assert text[i] == rest[i - (|text| - |rest|)];
  }

  /** Before the opening bracket and behind the closing one there is no quotation mark. */
  lemma Bracketed(text: string, rest: string, i: nat)
    requires SkipSpace(text) != [] && SkipSpace(text)[0] == '{' && EndOf(rest, text) && SkipSpace(rest) == []
    requires i < |text| && text[i] == '\"'
    ensures |text| - |SkipSpace(text)| + 1 <= i < |text| - |rest|
  {
    hide SkipSpace;
    SpaceBefore(text);
    SpaceEnd(text);
    assert SkipSpace(text)[0] == text[|text| - |SkipSpace(text)|];
    if i >= |text| - |rest| {
      AllSpace(text, rest, i);
    }
  }

  /** The member an occurrence belongs to: its value is the old answer right behind, or has it inside. */
  lemma MemberOf(text: string, i: nat, output: string, answer: string) returns (k: nat)
    requires Fields(text).Some? && Fields(text).value != [] && OccursAt(text, OutputMember(output), i)
    ensures k < |Fields(text).value|
    ensures var span := Fields(text).value[k].at;
      && span.start < span.end <= |text| && i + |OutputMember(output)| <= span.end
      && (span.start == i + 9 || (span.start <= i && text[span.start] != '\"'))
      && (span.start == i + 9 ==> span.end == i + |OutputMember(output)|)
      && IsRaw(ValueAnswered(text, span, i, output, answer))
  {
    hide *;
    k := MemberFound(text, i, output);
    var span := Fields(text).value[k].at;
    if span.start == i + 9 {
      EndsWithAnswer(text, span, output, i);
    } else {
      AnsweredInside(text, span.start, span.end, i, output, answer);
    }
    ValueAnsweredIsRaw(text, span, i, output, answer);
  }

  lemma MemberFound(text: string, i: nat, output: string) returns (k: nat)
    requires Fields(text).Some? && Fields(text).value != [] && OccursAt(text, OutputMember(output), i)
    ensures k < |Fields(text).value|
    ensures var span := Fields(text).value[k].at;
      && span.start < span.end <= |text| && IsRaw(text[span.start..span.end]) && MayFollow(text[span.end..])
      && (span.start == i + 9 || span.start <= i < span.end)
  {
    hide ReadMembers, SkipSpace, FieldsFrom, Fields, OccursAt, OutputMember, IsRaw, MayFollow, EndOf, Places;
    Letters(text, output, i);
    var at, rest := ObjectFrom(text);
    FieldsHold(text, at, text[at..], map[]);
    MembersEnd(text[at..], map[]);
    Tails(text, 0, at);
    EndOfEnd(rest, text[at..], text);
    Bracketed(text, rest, i);
    EndsBefore(text, rest);
    k := InField(text, at, text[at..], output, i);
    FieldsFollow(text, at, text[at..]);
    assert Places(Fields(text).value)[k] == Fields(text).value[k].at;
  }

  lemma EndsBefore(text: string, rest: string)
    requires EndOf(rest, text)
    ensures |rest| <= |text|
  {
  }

  /** The text with the occurrence replaced reads as the object with that member replaced. */
  lemma AnsweredReads(text: string, i: nat, output: string, answer: string) returns (k: nat)
    requires Fields(text).Some? && Fields(text).value != [] && OccursAt(text, OutputMember(output), i)
    ensures k < |Fields(text).value| && i + |OutputMember(output)| <= |text|
    ensures var span := Fields(text).value[k].at;
      && (span.start == i + 9 || (span.start <= i && i + 9 < span.end <= |text| && text[span.start] != '\"'))
      && ReadValue(ValueAnswered(text, span, i, output, answer)).Got?
      && ReadDocument(Answered(text, 0, |text|, i, output, answer))
         == Some(Obj(FieldMapWith(text, Fields(text).value, map[], k,
                                  ReadValue(ValueAnswered(text, span, i, output, answer)).value)))
  {
    hide ReadDocument, Fields, FieldMapWith, OccursAt, OutputMember, Answered, ValueAnswered, IsRaw, Replaced, ReadValue;
    Letters(text, output, i);
    k := MemberOf(text, i, output, answer);
    var span := Fields(text).value[k].at;
    var raw := ValueAnswered(text, span, i, output, answer);
    AnsweredAround(text, 0, |text|, span, i, output, answer);
    IsRawReads(raw);
    ObjectEdited(text, k, raw);
    SameText(text, span, raw);
  }

  /**
   An occurrence in an item replaced: where the item's own `output`, its only one, stands right there,
   the item reads as it did with the new answer; anywhere else it keeps its old one.
   */
  lemma AnsweredItemReads(text: string, own: nat, i: nat, output: string, answer: string)
    requires Fields(text).Some? && OnlyOne(Fields(text).value, "output", own)
    requires ValueAt(text, Fields(text).value[own].at) == Str(output) && OccursAt(text, OutputMember(output), i)
    ensures i + |OutputMember(output)| <= |text|
    ensures var read := ReadDocument(Answered(text, 0, |text|, i, output, answer));
      var members := FieldMap(text, Fields(text).value, map[]);
      && read.Some? && read.value.Obj?
      && (Fields(text).value[own].at.start == i + 9 ==> read.value.members == members["output" := Str(answer)])
      && (Fields(text).value[own].at.start != i + 9 ==>
            "output" in read.value.members && read.value.members["output"] == Str(output))
  {
    hide ReadDocument, Fields, FieldMap, FieldMapWith, OccursAt, OutputMember, Answered, ValueAnswered, ReadValue, ValueAt;
    var k := AnsweredReads(text, i, output, answer);
    var fields := Fields(text).value;
    OwnSpan(text, own, k, output);
    if k == own {
      var value := ReadValue(ValueAnswered(text, fields[k].at, i, output, answer)).value;
      OwnReplaced(text, fields, map[], "output", own, value);
      OwnValue(text, fields[k].at, i, output, answer);
    } else {
      var value := ReadValue(ValueAnswered(text, fields[k].at, i, output, answer)).value;
      OwnKept(text, fields, map[], "output", own, k, value);
    }
  }

  /** The own answer is a string, and no other member stands where it does. */
  lemma OwnSpan(text: string, own: nat, k: nat, output: string)
    requires Fields(text).Some? && own < |Fields(text).value| && k < |Fields(text).value|
    requires ValueAt(text, Fields(text).value[own].at) == Str(output)
    ensures Fields(text).value[own].at.start < |text| && text[Fields(text).value[own].at.start] == '\"'
    ensures k != own ==> Apart(Fields(text).value[own].at, Fields(text).value[k].at)
    ensures Fields(text).value[own].at.start < Fields(text).value[own].at.end
    ensures Fields(text).value[k].at.start < Fields(text).value[k].at.end
  {
    hide ReadDocument, Fields, IsRaw, ReadValue;
    FieldsOf(text);
    var fields := Fields(text).value;
    assert Places(fields)[k] == fields[k].at && Places(fields)[own] == fields[own].at;
    assert k < own || own < k || k == own;
    OwnIsString(text, fields[own].at, output);
  }

  lemma SameText(text: string, span: Span, raw: string)
    requires span.start <= span.end <= |text|
    ensures text[0..span.start] + raw + text[span.end..|text|] == Replaced(text, span, raw)
  {
    assert text[0..span.start] == text[..span.start] && text[span.end..|text|] == text[span.end..];
  }

  lemma OwnIsString(text: string, span: Span, output: string)
    requires span.start < span.end <= |text| && IsRaw(text[span.start..span.end]) && ValueAt(text, span) == Str(output)
    ensures text[span.start] == '\"'
  {
    hide ReadValue;
    IsRawReads(text[span.start..span.end]);
    StringStarts(text[span.start..span.end]);
  }

  lemma OwnValue(text: string, span: Span, i: nat, output: string, answer: string)
    requires span.start == i + 9
    ensures ReadValue(ValueAnswered(text, span, i, output, answer)).Got?
    ensures ReadValue(ValueAnswered(text, span, i, output, answer)).value == Str(answer)
  {
    hide ReadValue, StringText, Answered;
    StringIsRaw(answer);
  }

  /** The item's text with its edit made, if it has one. */
  function Edited(item: Item, edit: Option<Splice>): string
  {
    if edit.Some? && item.start <= edit.value.start <= edit.value.end <= item.start + |item.text|
    then item.text[..edit.value.start - item.start] + edit.value.text + item.text[edit.value.end - item.start..]
    else item.text
  }

  /** The first place where the item's text has the old answer is its own `output` member. */
  predicate OwnFound(item: Item, start: nat)
    requires item.output.Some?
  {
    var found := FindFrom(item.text, OutputMember(item.output.value), 0);
    found.Some? && found.value + 9 == start
  }

  /**
   What an answered item reads as, where `output` is one of its members and serde reads what stands
   there: its own output is the native answer exactly when the first place that has the old answer is
   that member. Then nothing else about the item differs.
   */
  lemma AnswerEditReads(item: Item, calls: map<string, Call>, log: map<string, Call>, known: Answers, own: nat)
    requires AnswerOf(item, calls, log, known).Some?
    requires Fields(item.text).Some? && OnlyOne(Fields(item.text).value, "output", own)
    requires ValueAt(item.text, Fields(item.text).value[own].at) == Str(item.output.value)
    ensures var edit, answer := AnswerEdit(item, calls, log, known), AnswerOf(item, calls, log, known).value;
      var read, found := ReadDocument(Edited(item, edit)), OwnFound(item, Fields(item.text).value[own].at.start);
      && read.Some? && read.value.Obj? && "output" in read.value.members
      && (read.value.members["output"] == Str(answer) <==> found || answer == item.output.value)
      && (found ==> read.value.members == FieldMap(item.text, Fields(item.text).value, map[])["output" := Str(answer)])
  {
    hide ReadDocument, Fields, FieldMap, OutputMember, ValueAt, OccursAt;
    var edit, answer := AnswerEdit(item, calls, log, known), AnswerOf(item, calls, log, known).value;
    if edit.Some? {
      var i := edit.value.start - item.start;
      AnsweredItemReads(item.text, own, i, item.output.value, answer);
      AnsweredWhole(item.text, i, item.output.value, answer);
    } else {
      OwnKeptAsIs(item.text, own);
    }
  }

  /** An item that is not edited reads as its members do. */
  lemma OwnKeptAsIs(text: string, own: nat)
    requires Fields(text).Some? && OnlyOne(Fields(text).value, "output", own)
    ensures var read := ReadDocument(text);
      && read.Some? && read.value.Obj? && "output" in read.value.members
      && read.value.members["output"] == ValueAt(text, Fields(text).value[own].at)
  {
    hide ReadDocument, Fields, ValueAt;
    var fields := Fields(text).value;
    FieldsOf(text);
    OwnKept(text, fields, map[], "output", own, -1, Null);
    NoneReplaced(text, fields, map[], -1, Null);
  }

  lemma AnsweredWhole(text: string, i: nat, output: string, answer: string)
    requires i + |OutputMember(output)| <= |text|
    ensures Answered(text, 0, |text|, i, output, answer)
         == text[..i] + OutputMember(answer) + text[i + |OutputMember(output)|..]
  {
    hide OutputMember;
    assert text[0..i] == text[..i] && text[i + |OutputMember(output)|..|text|] == text[i + |OutputMember(output)|..];
  }

  // ---- an item where it goes astray ----

  /** An output item in which an object with such a member stands before the item's own output. */
  function NestedMembers(callId: string, output: string): seq<Member>
  {
    [Member("type", StrTree("function_call_output")), Member("call_id", StrTree(callId)),
     Member("a", ObjTree([Member("output", StrTree(output))])), Member("output", StrTree(output))]
  }

  /** Its text, and what serde reads of it. */
  function NestedItem(start: nat, callId: string, output: string): Item
  {
    Item(start, Text(ObjTree(NestedMembers(callId, output)), false), callId, None, true, Some(output))
  }

  /** The item is an output of that call. */
  lemma NestedReads(start: nat, callId: string, output: string)
    ensures ReadDocument(NestedItem(start, callId, output).text) == Some(Obj(Members(NestedMembers(callId, output))))
    ensures var members := Members(NestedMembers(callId, output));
      && "type" in members && members["type"] == Str("function_call_output")
      && "call_id" in members && members["call_id"] == Str(callId)
      && "output" in members && members["output"] == Str(output)
  {
    hide Text, ReadDocument;
    var ms := NestedMembers(callId, output);
    ReadDocumentText(ObjTree(ms), false);
    MembersHead(ms);
    MembersHead(ms[1..]);
    MembersHead(ms[2..]);
    MembersHead(ms[3..]);
    assert "type"[0] != "call_id"[0] && "call_id"[0] != "a"[0] && "output"[0] != "a"[0] && "output"[0] != "type"[0]
      && "output"[0] != "call_id"[0] && "type"[0] != "a"[0];
  }

  lemma InnerText(output: string)
    ensures Text(ObjTree([Member("output", StrTree(output))]), false) == "{" + OutputMember(output) + "}"
  {
    hide Escape;
    PlainOutput();
    var m := Member("output", StrTree(output));
    assert MembersText([m], false) == MemberText(m, false);
    assert MemberText(m, false) == OutputMember(output);
  }

  /** Its members, and the old answer in the inner object, before its own. */
  lemma NestedFields(callId: string, output: string) returns (i: nat)
    ensures var text := NestedItem(0, callId, output).text;
      && Fields(text).Some? && |Fields(text).value| == 4 && OnlyOne(Fields(text).value, "output", 3)
      && i < Fields(text).value[2].at.end
      && ValueAt(text, Fields(text).value[3].at) == Str(output)
      && OccursAt(text, OutputMember(output), i) && i + 9 < Fields(text).value[3].at.start
  {
    hide Fields, Text, ReadDocument, IsRaw, OutputMember, ReadValue, StringText;
    var ms, text := NestedMembers(callId, output), NestedItem(0, callId, output).text;
    PrintedObject(ms);
    FieldsOf(text);
    var fields := Fields(text).value;
    assert fields[0].name == "type" && fields[1].name == "call_id" && fields[2].name == "a" && fields[3].name == "output";
    assert "output"[0] != "a"[0] && "output"[0] != "type"[0] && "output"[0] != "call_id"[0];
    StringIsRaw(output);
    IsRawReads(StringText(output, false));
    StringPrinted(output);
    InnerText(output);
    assert Places(fields)[2] == fields[2].at && Places(fields)[3] == fields[3].at;
    var inner := fields[2].at;
    i := inner.start + 1;
    OccursInner(text, inner, output);
    assert fields[2].at.end <= fields[3].at.start;
  }

  lemma StringPrinted(s: string)
    ensures Text(StrTree(s), false) == StringText(s, false)
  {
    hide StringText;
  }

  lemma OccursInner(text: string, span: Span, output: string)
    requires span.start <= span.end <= |text| && text[span.start..span.end] == "{" + OutputMember(output) + "}"
    ensures OccursAt(text, OutputMember(output), span.start + 1) && span.start + 10 < span.end
  {
    hide OutputMember;
    NeedleParts(output);
    SliceOfSlice(text, span.start, span.end - span.start, 1, 1 + |OutputMember(output)|);
    assert ("{" + OutputMember(output) + "}")[1..1 + |OutputMember(output)|] == OutputMember(output);
  }

  /**
   Whatever the call and the answers: where such an item is to be answered it is edited, but in an
   earlier place than its own output, which still reads as the old answer.
   */
  lemma NestedKeepsItsOutput(start: nat, callId: string, output: string, calls: map<string, Call>, log: map<string, Call>,
                             known: Answers)
    requires AnswerOf(NestedItem(start, callId, output), calls, log, known).Some?
    ensures var item := NestedItem(start, callId, output);
      var edit := AnswerEdit(item, calls, log, known);
      var read := ReadDocument(Edited(item, edit));
      && edit.Some? && Fields(item.text).Some? && |Fields(item.text).value| == 4
      && edit.value.start < item.start + Fields(item.text).value[2].at.end
      && read.Some? && read.value.Obj? && "output" in read.value.members && read.value.members["output"] == Str(output)
  {
    hide ReadDocument, Fields, OutputMember, ValueAt, OccursAt, Answered, FieldMap, Text, NestedMembers;
    var item := NestedItem(start, callId, output);
    var text := item.text;
    var i := NestedFields(callId, output);
    var found := FindFrom(text, OutputMember(output), 0);
    assert found.Some? && found.value <= i;
    var edit := AnswerEdit(item, calls, log, known);
    AnsweredItemReads(text, 3, found.value, output, AnswerOf(item, calls, log, known).value);
    AnsweredWhole(text, found.value, output, AnswerOf(item, calls, log, known).value);
  }
}
