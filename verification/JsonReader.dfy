/**
 A reader of JSON texts following sections 2 to 5 and 7 of RFC 8259 (numbers are tokens), written
 from the standard and not from the printers. Every text the printers produce reads back.
 */
module JsonReader {
  import opened Basics
  import opened Json

  // ---- the reader ----

  function SkipSpace(s: string): (r: string)
    ensures |r| <= |s|
  {
    if s != [] && (s[0] == ' ' || s[0] == '\t' || s[0] == '\n' || s[0] == '\r') then SkipSpace(s[1..]) else s
  }

  function HexDigit(c: char): (r: Option<nat>)
    ensures r.Some? ==> r.value < 16
  {
    if '0' <= c <= '9' then Some(c as int - '0' as int)
    else if 'a' <= c <= 'f' then Some(c as int - 'a' as int + 10)
    else if 'A' <= c <= 'F' then Some(c as int - 'A' as int + 10)
    else None
  }

  /** Four hexadecimal digits: one UTF-16 code unit. */
  function ReadUnit(s: string): (r: Option<nat>)
    ensures r.Some? ==> |s| >= 4 && r.value < 0x10000
  {
    if |s| < 4 then None
    else
      match (HexDigit(s[0]), HexDigit(s[1]), HexDigit(s[2]), HexDigit(s[3]))
      case (Some(a), Some(b), Some(c), Some(d)) => Some(a * 4096 + b * 256 + c * 16 + d)
      case _ => None
  }

  datatype Read<+T> = Failed | Got(value: T, rest: string)

  /** What follows a backslash; a character outside the basic plane is a surrogate pair. */
  function ReadEscape(s: string): (r: Read<char>)
    ensures r.Got? ==> |r.rest| < |s|
  {
    if s == [] then Failed
    else if s[0] == '\"' || s[0] == '\\' || s[0] == '/' then Got(s[0], s[1..])
    else if s[0] == 'b' then Got('\U{8}', s[1..])
    else if s[0] == 'f' then Got('\U{c}', s[1..])
    else if s[0] == 'n' then Got('\n', s[1..])
    else if s[0] == 'r' then Got('\r', s[1..])
    else if s[0] == 't' then Got('\t', s[1..])
    else if s[0] != 'u' || ReadUnit(s[1..]).None? then Failed
    else
      var unit := ReadUnit(s[1..]).value;
      var rest := s[5..];
      if unit < 0xD800 || unit >= 0xE000 then Got(unit as char, rest)
      else if unit < 0xDC00 && |rest| >= 2 && rest[0] == '\\' && rest[1] == 'u' && ReadUnit(rest[2..]).Some? then
        var low := ReadUnit(rest[2..]).value;
        if 0xDC00 <= low < 0xE000 then Got((0x10000 + (unit - 0xD800) * 1024 + (low - 0xDC00)) as char, rest[6..])
        else Failed
      else Failed
  }

  /** The characters of a string up to its closing quotation mark. */
  function ReadChars(s: string): (r: Read<string>)
    ensures r.Got? ==> |r.rest| < |s|
  {
    if s == [] || s[0] < ' ' then Failed
    else if s[0] == '\"' then Got([], s[1..])
    else
      var first := if s[0] == '\\' then ReadEscape(s[1..]) else Got(s[0], s[1..]);
      if first.Failed? then Failed
      else
        match ReadChars(first.rest)
        case Failed => Failed
        case Got(more, rest) => Got([first.value] + more, rest)
  }

  /** The longest run of number characters. */
  function NumberLength(s: string): (n: nat)
    ensures n <= |s| && (forall i :: 0 <= i < n ==> s[i] in NUMBER_CHARS)
    ensures n < |s| ==> s[n] !in NUMBER_CHARS
  {
    if s != [] && s[0] in NUMBER_CHARS then 1 + NumberLength(s[1..]) else 0
  }

  function ReadValue(s: string): (r: Read<JSON>)
    ensures r.Got? ==> |r.rest| < |s|
    decreases |s|, 1
  {
    var s := SkipSpace(s);
    if s == [] then Failed
    else if s[0] == '\"' then
      (match ReadChars(s[1..])
       case Failed => Failed
       case Got(text, rest) => Got(Str(text), rest))
    else if s[0] == '[' then
      var t := SkipSpace(s[1..]);
      if t != [] && t[0] == ']' then Got(Arr([]), t[1..])
      else
        (match ReadItems(s[1..])
         case Failed => Failed
         case Got(items, rest) => Got(Arr(items), rest))
    else if s[0] == '{' then
      var t := SkipSpace(s[1..]);
      if t != [] && t[0] == '}' then Got(Obj(map[]), t[1..])
      else
        (match ReadMembers(s[1..], map[])
         case Failed => Failed
         case Got(members, rest) => Got(Obj(members), rest))
    else if s[0] == '-' || s[0] in DIGITS then
      var n := NumberLength(s);
      if IsNumber(s[..n]) then Got(Number(s[..n]), s[n..]) else Failed
    else if |s| >= 4 && s[..4] == "null" then Got(Null, s[4..])
    else if |s| >= 4 && s[..4] == "true" then Got(Bool(true), s[4..])
    else if |s| >= 5 && s[..5] == "false" then Got(Bool(false), s[5..])
    else Failed
  }

  function ReadItems(s: string): (r: Read<seq<JSON>>)
    ensures r.Got? ==> |r.rest| < |s|
    decreases |s|, 2
  {
    match ReadValue(s)
    case Failed => Failed
    case Got(first, rest) =>
      var t := SkipSpace(rest);
      if t != [] && t[0] == ']' then Got([first], t[1..])
      else if t != [] && t[0] == ',' then
        (match ReadItems(t[1..])
         case Failed => Failed
         case Got(more, end) => Got([first] + more, end))
      else Failed
  }

  function ReadMembers(s: string, before: map<string, JSON>): (r: Read<map<string, JSON>>)
    ensures r.Got? ==> |r.rest| < |s|
    decreases |s|, 2
  {
    var s := SkipSpace(s);
    if s == [] || s[0] != '\"' then Failed
    else
      match ReadChars(s[1..])
      case Failed => Failed
      case Got(name, rest) =>
        var colon := SkipSpace(rest);
        if colon == [] || colon[0] != ':' then Failed
        else
          match ReadValue(colon[1..])
          case Failed => Failed
          case Got(value, end) =>
            var t := SkipSpace(end);
            var members := before[name := value];
            if t != [] && t[0] == '}' then Got(members, t[1..])
            else if t != [] && t[0] == ',' then ReadMembers(t[1..], members)
            else Failed
  }

  /** A whole document: one value and nothing but white space after it. */
  function ReadDocument(s: string): Option<JSON>
  {
    match ReadValue(s)
    case Failed => None
    case Got(v, rest) => if SkipSpace(rest) == [] then Some(v) else None
  }

  // ---- what is printed reads back ----

  lemma ReadHexEscape(c: char, rest: string)
    requires c as int < 0x100
    ensures ReadEscape(HexEscape(c)[1..] + rest) == Got(c, rest)
  {
    var s := HexEscape(c)[1..] + rest;
    var a, b := c as int / 16, c as int % 16;
    assert s[1..5] == s[1..][..4];
    assert HexDigit(Hex(a)) == Some(a) && HexDigit(Hex(b)) == Some(b);
    assert ReadUnit(s[1..]) == Some(a * 16 + b);
    assert s[5..] == rest;
  }

  lemma ReadShortEscape(e: string, c: char, rest: string)
    requires |e| == 2 && e[0] == '\\' && e[1] != 'u' && ReadEscape([e[1]]) == Got(c, [])
    ensures ReadEscape(e[1..] + rest) == Got(c, rest)
  {
    assert (e[1..] + rest)[1..] == rest;
  }

  lemma ReadLineSeparators(rest: string)
    ensures ReadEscape("u2028" + rest) == Got('\U{2028}', rest)
    ensures ReadEscape("u2029" + rest) == Got('\U{2029}', rest)
  {
    var s, t := "u2028" + rest, "u2029" + rest;
    assert s[1..][0] == '2' && s[1..][1] == '0' && s[1..][2] == '2' && s[1..][3] == '8' && s[5..] == rest;
    assert t[1..][0] == '2' && t[1..][1] == '0' && t[1..][2] == '2' && t[1..][3] == '9' && t[5..] == rest;
  }

  /** The escapes of two characters. */
  lemma ShortEscapes(c: char, html: bool)
    ensures var e := EscapeChar(c, html);
      |e| == 2 ==> e[0] == '\\' && e[1] != 'u' && ReadEscape([e[1]]) == Got(c, [])
  {
    hide ReadUnit;
  }

  /** The others: a character by itself, a small one in hexadecimal, or a line separator. */
  lemma OtherEscapes(c: char, html: bool)
    ensures var e := EscapeChar(c, html);
      || |e| == 2 || (e == [c] && c >= ' ' && c != '\"' && c != '\\') || (c as int < 0x100 && e == HexEscape(c))
      || (c == '\U{2028}' && e == "\\u2028") || (c == '\U{2029}' && e == "\\u2029")
  {
    hide HexEscape;
  }

  /** Every printed character is either itself or an escape that reads as it. */
  lemma ReadEscapedChar(c: char, html: bool, rest: string)
    ensures var e := EscapeChar(c, html);
      if e[0] == '\\' then ReadEscape(e[1..] + rest) == Got(c, rest)
      else e == [c] && c >= ' ' && c != '\"'
  {
    hide EscapeChar, ReadEscape;
    var e := EscapeChar(c, html);
    ShortEscapes(c, html);
    OtherEscapes(c, html);
    if |e| == 2 {
      ReadShortEscape(e, c, rest);
    } else if c as int < 0x100 && e == HexEscape(c) {
      ReadHexEscape(c, rest);
    } else if e != [c] {
      ReadLineSeparators(rest);
      assert "\\u2028"[1..] == "u2028" && "\\u2029"[1..] == "u2029";
    }
  }

  /** One character of a string, itself or escaped. */
  lemma CharThen(e: string, c: char, more: string)
    requires e != [] && if e[0] == '\\' then ReadEscape(e[1..] + more) == Got(c, more) else e == [c] && c >= ' ' && c != '\"'
    ensures ReadChars(e + more) ==
      match ReadChars(more)
      case Failed => Failed
      case Got(s, rest) => Got([c] + s, rest)
  {
    hide ReadEscape;
    assert (e + more)[0] == e[0] && (e + more)[1..] == e[1..] + more;
  }

  lemma {:induction false} ReadEscaped(s: string, html: bool, rest: string)
    ensures ReadChars(Escape(s, html) + ("\"" + rest)) == Got(s, rest)
  {
    hide EscapeChar, ReadEscape;
    if s == [] {
      assert Escape(s, html) + ("\"" + rest) == "\"" + rest;
    } else {
      hide ReadChars;
      var more := Escape(s[1..], html) + ("\"" + rest);
      var e := EscapeChar(s[0], html);
      assert Escape(s, html) + ("\"" + rest) == e + more;
      ReadEscapedChar(s[0], html, more);
      CharThen(e, s[0], more);
      ReadEscaped(s[1..], html, rest);
      assert s == [s[0]] + s[1..];
    }
  }

  predicate IsSpace(c: char)
  {
    c == ' ' || c == '\t' || c == '\n' || c == '\r'
  }

  /** What may follow a value: nothing that a number token would swallow. */
  ghost predicate Ends(rest: string)
  {
    rest == [] || rest[0] !in NUMBER_CHARS
  }

  lemma TextStarts(t: Tree, html: bool)
    ensures Text(t, html) != []
    ensures var c := Text(t, html)[0]; !IsSpace(c) && c != ']' && c != '}' && c != ','
    ensures match t
      case StrTree(_) => Text(t, html)[0] == '\"'
      case ArrTree(_) => Text(t, html)[0] == '['
      case ObjTree(_) => Text(t, html)[0] == '{'
      case NumberTree(_) => Text(t, html)[0] == '-' || Text(t, html)[0] in DIGITS
      case _ => true
  {
    if t.NumberTree? {
      assert IsNumber(t.text);
    }
  }

  lemma ReadString(s: string, html: bool, rest: string)
    ensures StringText(s, html)[0] == '\"'
    ensures ReadChars((StringText(s, html) + rest)[1..]) == Got(s, rest)
  {
    hide ReadChars, Escape;
    ReadEscaped(s, html, rest);
    assert (StringText(s, html) + rest)[1..] == Escape(s, html) + ("\"" + rest);
  }

  lemma {:induction false} ReadNumber(s: string, rest: string)
    requires forall c :: c in s ==> c in NUMBER_CHARS
    requires Ends(rest)
    ensures NumberLength(s + rest) == |s|
  {
    if s == [] {
      assert s + rest == rest;
    } else {
      assert (s + rest)[1..] == s[1..] + rest;
      ReadNumber(s[1..], rest);
    }
  }

  lemma MembersLast(ms: seq<Member>)
    requires ms != []
    ensures Members(ms) == Members(ms[..|ms| - 1])[ms[|ms| - 1].name := Value(ms[|ms| - 1].tree)]
  {
    hide Value;
  }

  lemma {:induction false} MembersHead(ms: seq<Member>)
    requires ms != []
    ensures Members(ms) == map[ms[0].name := Value(ms[0].tree)] + Members(ms[1..])
  {
    hide Members, Value;
    MembersLast(ms);
    if |ms| > 1 {
      var init, more := ms[..|ms| - 1], ms[1..];
      MembersHead(init);
      MembersLast(more);
      assert init[1..] == more[..|ms| - 2] && more[|ms| - 2] == ms[|ms| - 1];
    } else {
      assert ms[..0] == [] && ms[1..] == [];
      NoMembers([]);
    }
  }

  lemma ReadLiteral(t: Tree, html: bool, rest: string)
    requires t.NullTree? || t.BoolTree?
    ensures ReadValue(Text(t, html) + rest) == Got(Value(t), rest)
  {
    hide ReadItems, ReadMembers, ReadChars, NumberLength;
    match t
    case NullTree => LiteralStarts("null", rest);
    case BoolTree(b) => LiteralStarts(if b then "true" else "false", rest);
  }

  lemma LiteralStarts(text: string, rest: string)
    requires text == "null" || text == "true" || text == "false"
    ensures var s := text + rest;
      && s[..|text|] == text && s[|text|..] == rest && SkipSpace(s) == s && s[0] == text[0] && !(s[0] in NUMBER_CHARS)
      && s[0] !in DIGITS && s[0] != '\"' && s[0] != '[' && s[0] != '{' && s[0] != '-'
      && (text != "null" ==> s[..4] != "null") && (text == "false" ==> s[..4] != "true")
  {
    var s := text + rest;
    assert s[..|text|] == text && s[|text|..] == rest;
    assert s[0] == text[0] && s[..4][0] == s[0];
  }

  lemma ReadToken(text: NumberText, rest: string)
    requires Ends(rest)
    ensures ReadValue(text + rest) == Got(Number(text), rest)
  {
    hide ReadValue, NumberLength, IsFraction, AfterDigits;
    var s := text + rest;
    assert IsNumber(text);
    ReadNumber(text, rest);
    assert s[..|text|] == text && s[|text|..] == rest;
    NumberRead(s);
  }

  /** A text that begins as a number does is read as its longest run of number characters. */
  lemma NumberRead(s: string)
    requires s != [] && (s[0] == '-' || s[0] in DIGITS)
    ensures var n := NumberLength(s);
      ReadValue(s) == if IsNumber(s[..n]) then Got(Number(s[..n]), s[n..]) else Failed
  {
    hide ReadItems, ReadMembers, ReadChars, NumberLength, IsNumber;
    assert SkipSpace(s) == s;
  }

  lemma ReadQuoted(text: string, html: bool, rest: string)
    ensures ReadValue(StringText(text, html) + rest) == Got(Str(text), rest)
  {
    hide ReadChars, Escape;
    ReadString(text, html, rest);
  }

  lemma Bracketed(open: char, inner: string, close: char, rest: string)
    ensures var s := [open] + inner + [close] + rest; s[0] == open && s[1..] == inner + ([close] + rest)
  {
  }

  lemma ReadArray(items: seq<Tree>, html: bool, rest: string)
    requires items != [] ==> ReadItems(ItemsText(items, html) + ("]" + rest)) == Got(Values(items), rest)
    ensures ReadValue(Text(ArrTree(items), html) + rest) == Got(Arr(Values(items)), rest)
  {
    hide ReadItems, ReadMembers, ReadChars, NumberLength;
    var s := Text(ArrTree(items), html) + rest;
    Bracketed('[', ItemsText(items, html), ']', rest);
    if items == [] {
      assert s[1..] == "]" + rest && s[1..][1..] == rest;
    } else {
      TextStarts(items[0], html);
      assert s[1..][0] == Text(items[0], html)[0];
    }
  }

  lemma ReadObject(members: seq<Member>, html: bool, rest: string)
    requires members != [] ==> ReadMembers(MembersText(members, html) + ("}" + rest), map[]) == Got(Members(members), rest)
    ensures ReadValue(Text(ObjTree(members), html) + rest) == Got(Obj(Members(members)), rest)
  {
    hide ReadItems, ReadMembers, ReadChars, NumberLength;
    var s := Text(ObjTree(members), html) + rest;
    Bracketed('{', MembersText(members, html), '}', rest);
    if members == [] {
      assert s[1..] == "}" + rest && s[1..][1..] == rest;
    } else {
      assert s[1..][0] == '\"';
    }
  }

  /** Every printed tree reads back as the value it writes down, whatever follows that a number would not swallow. */
  lemma {:induction false} ReadTree(t: Tree, html: bool, rest: string)
    requires Ends(rest)
    ensures ReadValue(Text(t, html) + rest) == Got(Value(t), rest)
    decreases t, 1
  {
    hide ReadValue;
    match t
    case NumberTree(text) => ReadToken(text, rest);
    case StrTree(text) => ReadQuoted(text, html, rest);
    case ArrTree(items) =>
      if items != [] {
        ReadTreeItems(items, html, rest);
      }
      ReadArray(items, html, rest);
    case ObjTree(members) =>
      if members != [] {
        ReadTreeMembers(members, html, map[], rest);
        assert map[] + Members(members) == Members(members);
      }
      ReadObject(members, html, rest);
    case _ => ReadLiteral(t, html, rest);
  }

  lemma Commas(first: string, others: string, end: string)
    ensures first + ("," + others) + end == first + ("," + (others + end)) && ("," + (others + end))[1..] == others + end
  {
  }

  lemma {:induction false} ReadTreeItems(ts: seq<Tree>, html: bool, rest: string)
    requires ts != []
    ensures ReadItems(ItemsText(ts, html) + ("]" + rest)) == Got(Values(ts), rest)
    decreases ts, 0
  {
    hide ReadValue;
    var end := "]" + rest;
    assert end[1..] == rest;
    if |ts| == 1 {
      ReadTree(ts[0], html, end);
      assert ItemsText(ts, html) == Text(ts[0], html);
      assert Values(ts) == [Value(ts[0])];
      assert SkipSpace(end) == end;
    } else {
      var more := ItemsText(ts[1..], html) + end;
      ReadTree(ts[0], html, "," + more);
      ReadTreeItems(ts[1..], html, rest);
      Commas(Text(ts[0], html), ItemsText(ts[1..], html), end);
    }
  }

  lemma MembersTextSplit(ms: seq<Member>, html: bool, rest: string, end: string)
    requires ms != []
    requires end == if |ms| == 1 then "}" + rest else "," + (MembersText(ms[1..], html) + ("}" + rest))
    ensures MembersText(ms, html) + ("}" + rest)
         == StringText(ms[0].name, html) + (":" + (Text(ms[0].tree, html) + end))
    ensures end[1..] == if |ms| == 1 then rest else MembersText(ms[1..], html) + ("}" + rest)
  {
    hide StringText, Text, MemberText;
    var first := MemberText(ms[0], html);
    if |ms| > 1 {
      Commas(first, MembersText(ms[1..], html), "}" + rest);
    } else {
      assert MembersText(ms, html) == first + [];
    }
    MemberThen(ms[0], html, end);
  }

  lemma MemberThen(m: Member, html: bool, end: string)
    ensures MemberText(m, html) + end == StringText(m.name, html) + (":" + (Text(m.tree, html) + end))
  {
    hide StringText, Text;
  }

  lemma ReadMember(name: string, value: JSON, text: string, html: bool, before: map<string, JSON>, end: string)
    requires end != [] && ReadValue(text + end) == Got(value, end)
    ensures var s := StringText(name, html) + (":" + (text + end));
      && (end[0] == '}' ==> ReadMembers(s, before) == Got(before[name := value], end[1..]))
      && (end[0] == ',' ==> ReadMembers(s, before) == ReadMembers(end[1..], before[name := value]))
  {
    hide ReadValue, ReadChars, Escape;
    var s := StringText(name, html) + (":" + (text + end));
    ReadString(name, html, ":" + (text + end));
    assert SkipSpace(s) == s;
    assert (":" + (text + end))[1..] == text + end;
  }

  lemma SetThen(before: map<string, JSON>, name: string, value: JSON, more: map<string, JSON>)
    ensures before[name := value] + more == before + (map[name := value] + more)
    ensures before[name := value] + map[] == before[name := value]
  {
  }

  lemma MemberAdded(ms: seq<Member>, before: map<string, JSON>)
    requires ms != []
    ensures before[ms[0].name := Value(ms[0].tree)] + Members(ms[1..]) == before + Members(ms)
    ensures |ms| == 1 ==> before[ms[0].name := Value(ms[0].tree)] == before + Members(ms)
  {
    hide Value, Members;
    MembersHead(ms);
    SetThen(before, ms[0].name, Value(ms[0].tree), Members(ms[1..]));
    if |ms| == 1 {
      NoMembers(ms[1..]);
    }
  }

  lemma NoMembers(ms: seq<Member>)
    requires ms == []
    ensures Members(ms) == map[]
  {
  }

  lemma {:induction false} ReadTreeMembers(ms: seq<Member>, html: bool, before: map<string, JSON>, rest: string)
    requires ms != []
    ensures ReadMembers(MembersText(ms, html) + ("}" + rest), before) == Got(before + Members(ms), rest)
    decreases ms, 0
  {
    hide ReadValue, ReadMembers, Text, StringText, Members, MembersText, Value;
    var name, tree := ms[0].name, ms[0].tree;
    var end := if |ms| == 1 then "}" + rest else "," + (MembersText(ms[1..], html) + ("}" + rest));
    MembersTextSplit(ms, html, rest, end);
    ReadTree(tree, html, end);
    ReadMember(name, Value(tree), Text(tree, html), html, before, end);
    MemberAdded(ms, before);
    if |ms| > 1 {
      ReadTreeMembers(ms[1..], html, before[name := Value(tree)], rest);
    }
  }

  /** Reading a printed document recovers the value. */
  lemma ReadDocumentText(t: Tree, html: bool)
    ensures ReadDocument(Text(t, html)) == Some(Value(t))
  {
    ReadTree(t, html, []);
    assert Text(t, html) + [] == Text(t, html);
  }
}
