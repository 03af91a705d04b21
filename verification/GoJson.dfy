/**
 Go's encoding/json encoding of a decoded value: object keys sorted at every level, `<`, `>`, `&`,
 U+2028 and U+2029 escaped, written by appending to one growing buffer.
 */
module GoJson {
  import opened Basics
  import opened Json
  import opened JsonReader

  // ---- the specification ----

  function Marshalled(v: JSON): string
  {
    Text(SerdeTree(v), true)
  }

  /** A reader of RFC 8259 recovers exactly the value that was marshalled. */
  lemma MarshalRoundTrip(v: JSON)
    ensures ReadDocument(Marshalled(v)) == Some(v)
  {
    SerdeTreeValue(v);
    ReadDocumentText(SerdeTree(v), true);
  }

  /** Two values marshal alike only if they are the same value. */
  lemma MarshalInjective(v: JSON, w: JSON)
    ensures Marshalled(v) == Marshalled(w) <==> v == w
  {
    MarshalRoundTrip(v);
    MarshalRoundTrip(w);
  }

  /** What never appears raw in marshalled text. */
  predicate Unsafe(c: char)
  {
    c < ' ' || c == '<' || c == '>' || c == '&' || c == '\U{2028}' || c == '\U{2029}'
  }

  ghost predicate Safe(s: string)
  {
    forall c :: c in s ==> !Unsafe(c)
  }

  lemma {:induction false} EscapeSafe(s: string)
    ensures Safe(Escape(s, true))
  {
    if s != [] {
      EscapeCharSafe(s[0]);
      EscapeSafe(s[1..]);
    }
  }

  lemma EscapeCharSafe(c: char)
    ensures Safe(EscapeChar(c, true))
  {
  }

  lemma SafeParts(a: string, b: string)
    ensures Safe(a + b) <==> Safe(a) && Safe(b)
  {
    assert Safe(a + b) ==> forall c :: c in a || c in b ==> c in a + b;
  }

  lemma PunctuationSafe()
    ensures Safe("[") && Safe("]") && Safe("{") && Safe("}") && Safe(",") && Safe(":") && Safe("\"")
    ensures Safe("null") && Safe("true") && Safe("false") && Safe("")
  {
  }

  lemma StringSafe(s: string)
    ensures Safe(StringText(s, true))
  {
    hide Safe, Escape;
    PunctuationSafe();
    EscapeSafe(s);
    SafeParts("\"", Escape(s, true));
    SafeParts("\"" + Escape(s, true), "\"");
  }

  lemma {:induction false} TextSafe(t: Tree)
    ensures Safe(Text(t, true))
    decreases t, 1
  {
    hide Safe, StringText, ItemsText, MembersText;
    PunctuationSafe();
    match t
    case NumberTree(text) => NumberSafe(text);
    case StrTree(s) => StringSafe(s);
    case ArrTree(items) =>
      ItemsSafe(items);
      SafeParts("[", ItemsText(items, true));
      SafeParts("[" + ItemsText(items, true), "]");
    case ObjTree(members) =>
      MembersSafe(members);
      SafeParts("{", MembersText(members, true));
      SafeParts("{" + MembersText(members, true), "}");
    case _ =>
  }

  lemma NumberSafe(text: NumberText)
    ensures Safe(text)
  {
    hide IsFraction, AfterDigits;
    assert IsNumber(text);
  }

  lemma {:induction false} ItemsSafe(ts: seq<Tree>)
    ensures Safe(ItemsText(ts, true))
    decreases ts, 0
  {
    hide Safe, Text;
    PunctuationSafe();
    if ts != [] {
      TextSafe(ts[0]);
      ItemsSafe(ts[1..]);
      var more := if |ts| == 1 then "" else "," + ItemsText(ts[1..], true);
      SafeParts(",", ItemsText(ts[1..], true));
      SafeParts(Text(ts[0], true), more);
    }
  }

  lemma {:induction false} MembersSafe(ms: seq<Member>)
    ensures Safe(MembersText(ms, true))
    decreases ms, 0
  {
    hide Safe, Text, StringText;
    PunctuationSafe();
    if ms != [] {
      StringSafe(ms[0].name);
      TextSafe(ms[0].tree);
      MembersSafe(ms[1..]);
      SafeParts(StringText(ms[0].name, true), ":");
      SafeParts(StringText(ms[0].name, true) + ":", Text(ms[0].tree, true));
      var more := if |ms| == 1 then "" else "," + MembersText(ms[1..], true);
      SafeParts(",", MembersText(ms[1..], true));
      SafeParts(MemberText(ms[0], true), more);
    }
  }

  /** Marshalled text holds no raw `<`, `>`, `&`, control character, U+2028 or U+2029. */
  lemma MarshalSafe(v: JSON)
    ensures Safe(Marshalled(v))
  {
    TextSafe(SerdeTree(v));
  }

  // ---- the printer ----

  method WriteChar(out: Buffer, c: char)
    modifies out
    ensures out.text == old(out.text) + EscapeChar(c, true)
  {
    if c == '\"' {
      out.Extend("\\\"");
    } else if c == '\\' {
      out.Extend("\\\\");
    } else if c == '\n' {
      out.Extend("\\n");
    } else if c == '\r' {
      out.Extend("\\r");
    } else if c == '\t' {
      out.Extend("\\t");
    } else if c == '\U{8}' {
      out.Extend("\\b");
    } else if c == '\U{c}' {
      out.Extend("\\f");
    } else if c == '<' || c == '>' || c == '&' || c < ' ' {
      var code := c as int;
      out.Extend("\\u00");
      out.Push(Hex(code / 16));
      out.Push(Hex(code % 16));
    } else if c == '\U{2028}' {
      out.Extend("\\u2028");
    } else if c == '\U{2029}' {
      out.Extend("\\u2029");
    } else {
      out.Push(c);
    }
  }

  method WriteString(out: Buffer, text: string)
    modifies out
    ensures out.text == old(out.text) + StringText(text, true)
  {
    hide EscapeChar;
    out.Push('\"');
    ghost var start := out.text;
    for i := 0 to |text|
      invariant out.text == start + Escape(text[..i], true)
    {
      EscapeAppend(text[..i], text[i], true);
      assert text[..i + 1] == text[..i] + [text[i]];
      WriteChar(out, text[i]);
    }
    assert text[..|text|] == text;
    out.Push('\"');
  }

  lemma {:induction false} EscapeAppend(s: string, c: char, html: bool)
    ensures Escape(s + [c], html) == Escape(s, html) + EscapeChar(c, html)
  {
    if s == [] {
      assert s + [c] == [c];
      assert Escape([c], html) == EscapeChar(c, html) + Escape([], html);
    } else {
      assert (s + [c])[1..] == s[1..] + [c];
      EscapeAppend(s[1..], c, html);
    }
  }

  /** The least key: one pass over the keys that are left, in any order. */
  method LeastKey(keys: set<string>) returns (k: string)
    requires keys != {}
    ensures k == Least(keys)
  {
    k :| k in keys;
    var rest := keys - {k};
    LeqTotal(k, k);
    while rest != {}
      invariant rest < keys && IsLeast(k, keys - rest)
      decreases rest
    {
      var j :| j in rest;
      LeqTotal(j, k);
      LeqTotal(j, j);
      assert keys - (rest - {j}) == keys - rest + {j};
      if Leq(j, k) {
        forall i | i in keys - rest ensures Leq(j, i) {
          LeqTransitive(j, k, i);
        }
        k := j;
      }
      rest := rest - {j};
    }
    assert keys - {} == keys;
    LeastUnique(k, keys);
  }

  /** An object's keys, collected in any order and sorted bytewise. */
  method SortKeys(keys: set<string>) returns (r: seq<string>)
    ensures r == Sorted(keys)
  {
    var rest := keys;
    r := [];
    while rest != {}
      invariant rest <= keys && r + Sorted(rest) == Sorted(keys)
      decreases rest
    {
      var k := LeastKey(rest);
      assert [k] + Sorted(rest - {k}) == Sorted(rest);
      r := r + [k];
      rest := rest - {k};
    }
    assert r + [] == r;
  }

  lemma {:induction false} SerdeItemsAt(items: seq<JSON>, i: nat)
    requires i < |items|
    ensures SerdeItems(items)[i] == SerdeTree(items[i])
  {
    hide SerdeTree;
    if i > 0 {
      SerdeItemsAt(items[1..], i - 1);
    }
  }

  method WriteValue(out: Buffer, value: JSON)
    modifies out
    ensures out.text == old(out.text) + Text(SerdeTree(value), true)
    decreases value, 2
  {
    match value
    case Null => out.Extend("null");
    case Bool(b) => out.Extend(if b then "true" else "false");
    case Number(text) => out.Extend(text);
    case Str(text) => WriteString(out, text);
    case Arr(items) => WriteArray(out, items);
    case Obj(members) => WriteObject(out, value);
  }

  method WriteArray(out: Buffer, items: seq<JSON>)
    modifies out
    ensures out.text == old(out.text) + ("[" + ItemsText(SerdeItems(items), true) + "]")
    decreases items, 1
  {
    hide Text;
    out.Push('[');
    ghost var start, ts := out.text, SerdeItems(items);
    for index := 0 to |items|
      invariant out.text == start + ItemsText(ts[..index], true)
    {
      ItemsAppend(ts[..index], SerdeTree(items[index]), true);
      SerdeItemsAt(items, index);
      OneLonger(SerdeItems(items), index);
      if index > 0 {
        out.Push(',');
      }
      WriteValue(out, items[index]);
    }
    assert ts[..|items|] == ts;
    out.Push(']');
  }

  lemma {:induction false} SerdeMembersTake(v: JSON, keys: seq<string>, i: nat)
    requires v.Obj? && (forall k :: k in keys ==> k in v.members) && i < |keys|
    ensures SerdeMembers(v, keys)[..i + 1]
         == SerdeMembers(v, keys)[..i] + [Member(keys[i], SerdeTree(v.members[keys[i]]))]
  {
    hide Keys, SerdeTree;
    var first, rest := Member(keys[0], SerdeTree(v.members[keys[0]])), SerdeMembers(v, keys[1..]);
    assert SerdeMembers(v, keys) == [first] + rest;
    if i > 0 {
      SerdeMembersTake(v, keys[1..], i - 1);
      TakeOneMore(first, rest, i, Member(keys[i], SerdeTree(v.members[keys[i]])));
    }
  }

  lemma EmptyMembers()
    ensures MembersText([], true) == ""
  {
  }

  method WriteMember(out: Buffer, key: string, value: JSON)
    modifies out
    ensures out.text == old(out.text) + MemberText(Member(key, SerdeTree(value)), true)
    decreases value, 3
  {
    hide Text, SerdeTree, StringText;
    WriteString(out, key);
    out.Push(':');
    WriteValue(out, value);
  }

  method WriteObject(out: Buffer, value: JSON)
    requires value.Obj?
    modifies out
    ensures out.text == old(out.text) + Text(SerdeTree(value), true)
    decreases value, 1
  {
    hide *;
    var members := value.members;
    var keys := SortKeys(members.Keys);
    SortedKeys(members.Keys);
    out.Push('{');
    ghost var start, ms := out.text, SerdeMembers(value, keys);
    assert MembersText(ms[..0], true) == "" by { EmptyMembers(); assert ms[..0] == []; }
    for index := 0 to |keys|
      invariant |ms| == |keys| && out.text == start + MembersText(ms[..index], true)
    {
      SerdeMembersTake(value, keys, index);
      MembersAppend(ms[..index], Member(keys[index], SerdeTree(members[keys[index]])), true);
      if index > 0 {
        out.Push(',');
      }
      WriteMember(out, keys[index], members[keys[index]]);
    }
    assert ms[..|keys|] == ms;
    out.Push('}');
    ObjectText(value, keys);
  }

  lemma ObjectText(value: JSON, keys: seq<string>)
    requires value.Obj? && keys == Sorted(value.members.Keys) && forall k :: k in keys ==> k in value.members
    ensures Text(SerdeTree(value), true) == "{" + MembersText(SerdeMembers(value, keys), true) + "}"
  {
  }

  method Marshal(value: JSON) returns (text: string)
    ensures text == Marshalled(value)
  {
    var out := new Buffer();
    WriteValue(out, value);
    text := out.text;
  }
}
