/**
 JSON values and their concrete texts.

 A `JSON` value is what serde_json decodes: an object is a map, so the order its members were
 inserted in is not part of it. A `Tree` is one way to write a value down: it fixes the order of
 the members of every object. `Value` forgets that order; `Text` prints it.
 */
module Json {
  import opened Basics

  const DIGITS := "0123456789"
  const NUMBER_CHARS := "0123456789+-.eE"

  /** What is left of a text behind the digits it begins with. */
  function AfterDigits(s: string): string
  {
    if s != [] && s[0] in DIGITS then AfterDigits(s[1..]) else s
  }

  /** Nothing, or an exponent: a letter, perhaps a sign, and digits to the end. */
  predicate IsExponent(s: string)
  {
    if s == [] then true
    else
      var digits := if |s| > 1 && (s[1] == '+' || s[1] == '-') then s[2..] else s[1..];
      (s[0] == 'e' || s[0] == 'E') && digits != [] && AfterDigits(digits) == []
  }

  /** What may stand behind the integer part: a point with digits, perhaps, and an exponent, perhaps. */
  predicate IsFraction(s: string)
  {
    if s != [] && s[0] == '.' then |s| > 1 && s[1] in DIGITS && IsExponent(AfterDigits(s[1..]))
    else IsExponent(s)
  }

  /**
   A number as section 6 of RFC 8259 has it. It is a token: how it is rounded, and spelled when it is
   printed, is not modelled.
   */
  predicate IsNumber(s: string)
  {
    var t := if s != [] && s[0] == '-' then s[1..] else s;
    && (forall c :: c in s ==> c in NUMBER_CHARS)
    && t != [] && t[0] in DIGITS && IsFraction(if t[0] == '0' then t[1..] else AfterDigits(t))
  }

  type NumberText = s: string | IsNumber(s) witness "0"

  datatype JSON =
    | Null
    | Bool(b: bool)
    | Number(text: NumberText)
    | Str(s: string)
    | Arr(items: seq<JSON>)
    | Obj(members: map<string, JSON>)

  datatype Tree =
    | NullTree
    | BoolTree(b: bool)
    | NumberTree(text: NumberText)
    | StrTree(s: string)
    | ArrTree(items: seq<Tree>)
    | ObjTree(members: seq<Member>)

  datatype Member = Member(name: string, tree: Tree)

  // ---- the value a tree writes down ----

  function Value(t: Tree): JSON
  {
    match t
    case NullTree => Null
    case BoolTree(b) => Bool(b)
    case NumberTree(text) => Number(text)
    case StrTree(s) => Str(s)
    case ArrTree(items) => Arr(Values(items))
    case ObjTree(members) => Obj(Members(members))
  }

  function Values(ts: seq<Tree>): (r: seq<JSON>)
    ensures |r| == |ts| && forall i :: 0 <= i < |ts| ==> r[i] == Value(ts[i])
  {
    if ts == [] then [] else [Value(ts[0])] + Values(ts[1..])
  }

  /** Of two members with one name the later one counts, as in serde_json. */
  function Members(ms: seq<Member>): map<string, JSON>
  {
    if ms == [] then map[]
    else Members(ms[..|ms| - 1])[ms[|ms| - 1].name := Value(ms[|ms| - 1].tree)]
  }

  function Keys(ms: seq<Member>): (r: seq<string>)
    ensures |r| == |ms|
  {
    seq(|ms|, i requires 0 <= i < |ms| => ms[i].name)
  }

  lemma KeysAppend(ms: seq<Member>, m: Member)
    ensures Keys(ms + [m]) == Keys(ms) + [m.name]
  {
  }

  lemma KeysCons(m: Member, ms: seq<Member>)
    ensures Keys([m] + ms) == [m.name] + Keys(ms)
  {
  }

  /** Members written once each, with the values of `obj`, are the members of `obj`. */
  lemma {:induction false} MembersOf(ms: seq<Member>, obj: map<string, JSON>)
    requires Distinct(Keys(ms))
    requires forall k :: k in Keys(ms) <==> k in obj
    requires forall i :: 0 <= i < |ms| ==> Value(ms[i].tree) == obj[Keys(ms)[i]]
    ensures Members(ms) == obj
  {
    if ms == [] {
      assert obj == map[];
    } else {
      var init, last := ms[..|ms| - 1], ms[|ms| - 1];
      var rest := obj - {last.name};
      InitOf(ms, obj);
      MembersOf(init, rest);
      assert obj == rest[last.name := obj[last.name]];
    }
  }

  /** All members but the last are the members of the object without the last one's name. */
  lemma InitOf(ms: seq<Member>, obj: map<string, JSON>)
    requires ms != [] && Distinct(Keys(ms))
    requires forall k :: k in Keys(ms) <==> k in obj
    requires forall i :: 0 <= i < |ms| ==> Value(ms[i].tree) == obj[Keys(ms)[i]]
    ensures var init, last := ms[..|ms| - 1], ms[|ms| - 1];
      var rest := obj - {last.name};
      && last.name in obj && obj[last.name] == Value(last.tree)
      && Distinct(Keys(init)) && (forall k :: k in Keys(init) <==> k in rest)
      && forall i :: 0 <= i < |init| ==> Value(init[i].tree) == rest[Keys(init)[i]]
  {
    hide Value;
    var init, last := ms[..|ms| - 1], ms[|ms| - 1];
    var all, some := Keys(ms), Keys(init);
    assert all == some + [last.name];
    assert forall i :: 0 <= i < |init| ==> some[i] == all[i];
    assert all[|ms| - 1] == last.name && all[|ms| - 1] in all;
    forall k ensures k in some <==> k in obj - {last.name} {
      assert k in all <==> k in some || k == last.name;
    }
    forall i | 0 <= i < |init| ensures Value(init[i].tree) == (obj - {last.name})[some[i]] {
      assert some[i] in some;
    }
  }

  // ---- the order of keys ----

  /** The bytewise order of UTF-8 strings, which is the order of their code points. */
  predicate Leq(a: string, b: string)
  {
    a == [] || (b != [] && (a[0] < b[0] || (a[0] == b[0] && Leq(a[1..], b[1..]))))
  }

  lemma {:induction false} LeqTotal(a: string, b: string)
    ensures Leq(a, b) || Leq(b, a)
    ensures Leq(a, b) && Leq(b, a) ==> a == b
  {
    if a != [] && b != [] && a[0] == b[0] {
      LeqTotal(a[1..], b[1..]);
      assert a == [a[0]] + a[1..] && b == [b[0]] + b[1..];
    }
  }

  lemma {:induction false} LeqTransitive(a: string, b: string, c: string)
    requires Leq(a, b) && Leq(b, c)
    ensures Leq(a, c)
  {
    if a != [] && a[0] == b[0] && b[0] == c[0] {
      LeqTransitive(a[1..], b[1..], c[1..]);
    }
  }

  predicate IsLeast(k: string, s: set<string>)
  {
    k in s && forall j :: j in s ==> Leq(k, j)
  }

  lemma {:induction false} LeastExists(s: set<string>)
    requires s != {}
    ensures exists k :: IsLeast(k, s)
    decreases |s|
  {
    var j :| j in s;
    LeqTotal(j, j);
    if s == {j} {
      assert IsLeast(j, s);
    } else {
      var rest := s - {j};
      LeastExists(rest);
      var k :| IsLeast(k, rest);
      LeqTotal(j, k);
      if Leq(j, k) {
        forall i | i in s ensures Leq(j, i) {
          if i != j {
            LeqTransitive(j, k, i);
          }
        }
        assert IsLeast(j, s);
      } else {
        assert IsLeast(k, s);
      }
    }
  }

  lemma OneLeast(s: set<string>)
    ensures forall j, k :: IsLeast(j, s) && IsLeast(k, s) ==> j == k
  {
    forall j, k | IsLeast(j, s) && IsLeast(k, s) ensures j == k {
      LeqTotal(j, k);
    }
  }

  function Least(s: set<string>): (k: string)
    requires s != {}
    ensures IsLeast(k, s)
  {
    LeastExists(s);
    OneLeast(s);
    assert exists k :: k in s && IsLeast(k, s);
    var k :| k in s && IsLeast(k, s);
    k
  }

  lemma LeastUnique(k: string, s: set<string>)
    requires IsLeast(k, s)
    ensures Least(s) == k
  {
    LeqTotal(k, Least(s));
  }

  /** The keys of an object in serde_json's order. */
  function Sorted(s: set<string>): (r: seq<string>)
    decreases |s|
  {
    if s == {} then [] else [Least(s)] + Sorted(s - {Least(s)})
  }

  lemma {:induction false} SortedKeys(s: set<string>)
    ensures Distinct(Sorted(s)) && (forall k :: k in Sorted(s) <==> k in s)
    ensures forall i, j :: 0 <= i < j < |Sorted(s)| ==> Leq(Sorted(s)[i], Sorted(s)[j])
    decreases |s|
  {
    if s != {} {
      SortedKeys(s - {Least(s)});
    }
  }

  // ---- printing ----

  /** A lower-case hexadecimal digit. */
  function Hex(n: nat): char
    requires n < 16
  {
    if n < 10 then ('0' as int + n) as char else ('a' as int + n - 10) as char
  }

  /** A character below U+0100 as a six-character escape. */
  function HexEscape(c: char): string
    requires c as int < 0x100
  {
    ['\\', 'u', '0', '0', Hex(c as int / 16), Hex(c as int % 16)]
  }

  /**
   One character inside a JSON string. With `html` also `<`, `>`, `&`, U+2028 and U+2029 are
   escaped (Go's encoding/json); without it this is serde_json's encoding.
   */
  function EscapeChar(c: char, html: bool): (r: string)
    ensures r != []
  {
    if c == '\"' then "\\\""
    else if c == '\\' then "\\\\"
    else if c == '\n' then "\\n"
    else if c == '\r' then "\\r"
    else if c == '\t' then "\\t"
    else if c == '\U{8}' then "\\b"
    else if c == '\U{c}' then "\\f"
    else if c < ' ' || (html && (c == '<' || c == '>' || c == '&')) then HexEscape(c)
    else if html && c == '\U{2028}' then "\\u2028"
    else if html && c == '\U{2029}' then "\\u2029"
    else [c]
  }

  function Escape(s: string, html: bool): string
  {
    if s == [] then [] else EscapeChar(s[0], html) + Escape(s[1..], html)
  }

  function StringText(s: string, html: bool): string
  {
    "\"" + Escape(s, html) + "\""
  }

  function Text(t: Tree, html: bool): string
  {
    match t
    case NullTree => "null"
    case BoolTree(b) => if b then "true" else "false"
    case NumberTree(text) => text
    case StrTree(s) => StringText(s, html)
    case ArrTree(items) => "[" + ItemsText(items, html) + "]"
    case ObjTree(members) => "{" + MembersText(members, html) + "}"
  }

  function ItemsText(ts: seq<Tree>, html: bool): string
  {
    if ts == [] then []
    else Text(ts[0], html) + (if |ts| == 1 then [] else "," + ItemsText(ts[1..], html))
  }

  function MemberText(m: Member, html: bool): string
  {
    StringText(m.name, html) + ":" + Text(m.tree, html)
  }

  function MembersText(ms: seq<Member>, html: bool): string
  {
    if ms == [] then []
    else MemberText(ms[0], html) + (if |ms| == 1 then [] else "," + MembersText(ms[1..], html))
  }

  // ---- serde_json's own layout ----

  /** A value with every object's members in serde_json's order. */
  function SerdeTree(v: JSON): Tree
    decreases v, 0
  {
    match v
    case Null => NullTree
    case Bool(b) => BoolTree(b)
    case Number(text) => NumberTree(text)
    case Str(s) => StrTree(s)
    case Arr(items) => ArrTree(SerdeItems(items))
    case Obj(members) => SortedKeys(members.Keys); ObjTree(SerdeMembers(v, Sorted(members.Keys)))
  }

  function SerdeItems(items: seq<JSON>): (r: seq<Tree>)
    ensures |r| == |items|
    decreases items, 0
  {
    if items == [] then [] else [SerdeTree(items[0])] + SerdeItems(items[1..])
  }

  function SerdeMembers(v: JSON, keys: seq<string>): (r: seq<Member>)
    requires v.Obj? && forall k :: k in keys ==> k in v.members
    ensures Keys(r) == keys
    ensures forall i :: 0 <= i < |keys| ==> r[i].tree == SerdeTree(v.members[keys[i]])
    decreases v, 0, |keys|
  {
    if keys == [] then []
    else
      var first, rest := Member(keys[0], SerdeTree(v.members[keys[0]])), SerdeMembers(v, keys[1..]);
      KeysCons(first, rest);
      [first] + rest
  }

  lemma {:induction false} SerdeTreeValue(v: JSON)
    ensures Value(SerdeTree(v)) == v
    decreases v, 1
  {
    match v
    case Arr(items) => SerdeItemsValue(items);
    case Obj(members) =>
      SortedKeys(members.Keys);
      var keys := Sorted(members.Keys);
      forall k | k in members ensures Value(SerdeTree(members[k])) == members[k] {
        SerdeTreeValue(members[k]);
      }
      MembersOf(SerdeMembers(v, keys), members);
    case _ =>
  }

  lemma {:induction false} SerdeItemsValue(items: seq<JSON>)
    ensures Values(SerdeItems(items)) == items
    decreases items, 0
  {
    if items != [] {
      SerdeTreeValue(items[0]);
      SerdeItemsValue(items[1..]);
    }
  }

  // ---- appending to an output ----

  /** The output vector. */
  class Buffer {
    var text: string

    constructor ()
      ensures text == ""
    {
      text := "";
    }

    method Push(c: char)
      modifies this
      ensures text == old(text) + [c]
    {
      text := text + [c];
    }

    method Extend(s: string)
      modifies this
      ensures text == old(text) + s
    {
      text := text + s;
    }
  }

  /** Taking one more of a list is taking one more of its tail. */
  lemma TakeOneMore(first: Member, rest: seq<Member>, i: nat, m: Member)
    requires 0 < i <= |rest| && rest[..i] == rest[..i - 1] + [m]
    ensures ([first] + rest)[..i + 1] == ([first] + rest)[..i] + [m]
  {
    assert ([first] + rest)[..i + 1] == [first] + rest[..i];
    assert ([first] + rest)[..i] == [first] + rest[..i - 1];
  }

  /** One more after a comma, or after nothing. */
  lemma CommaShift(first: string, others: string, last: string)
    ensures first + ("," + (others + "," + last)) == first + ("," + others) + "," + last
    ensures first + ("," + ("" + "" + last)) == first + "" + "," + last
  {
    var tail := others + "," + last;
    assert "," + tail == "," + others + "," + last;
  }

  lemma {:induction false} ItemsAppend(ts: seq<Tree>, t: Tree, html: bool)
    ensures ItemsText(ts + [t], html) == ItemsText(ts, html) + (if ts == [] then "" else ",") + Text(t, html)
  {
    hide Text;
    var all := ts + [t];
    if ts == [] {
      assert all == [t];
      assert ItemsText(all, html) == Text(t, html) + "";
    } else {
      var rest := ts[1..];
      assert all[0] == ts[0] && all[1..] == rest + [t];
      ItemsAppend(rest, t, html);
      CommaShift(Text(ts[0], html), ItemsText(rest, html), Text(t, html));
      OneItemMore(ts, all, html);
    }
  }

  lemma OneItemMore(ts: seq<Tree>, all: seq<Tree>, html: bool)
    requires ts != [] && |all| == |ts| + 1 && all[0] == ts[0]
    ensures ItemsText(all, html) == Text(ts[0], html) + ("," + ItemsText(all[1..], html))
    ensures ItemsText(ts, html) == Text(ts[0], html) + (if ts[1..] == [] then "" else "," + ItemsText(ts[1..], html))
    ensures ts[1..] == [] ==> ItemsText(ts[1..], html) == ""
  {
    hide Text;
  }

  lemma {:induction false} MembersAppend(ms: seq<Member>, m: Member, html: bool)
    ensures MembersText(ms + [m], html) == MembersText(ms, html) + (if ms == [] then "" else ",") + MemberText(m, html)
  {
    hide MemberText;
    var all := ms + [m];
    if ms == [] {
      assert all == [m];
      assert MembersText(all, html) == MemberText(m, html) + "";
    } else {
      var rest := ms[1..];
      assert all[0] == ms[0] && all[1..] == rest + [m];
      MembersAppend(rest, m, html);
      CommaShift(MemberText(ms[0], html), MembersText(rest, html), MemberText(m, html));
      OneMemberMore(ms, all, html);
    }
  }

  lemma OneMemberMore(ms: seq<Member>, all: seq<Member>, html: bool)
    requires ms != [] && |all| == |ms| + 1 && all[0] == ms[0]
    ensures MembersText(all, html) == MemberText(ms[0], html) + ("," + MembersText(all[1..], html))
    ensures MembersText(ms, html) == MemberText(ms[0], html) + (if ms[1..] == [] then "" else "," + MembersText(ms[1..], html))
    ensures ms[1..] == [] ==> MembersText(ms[1..], html) == ""
  {
    hide MemberText;
  }
}
