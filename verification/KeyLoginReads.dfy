/**
 What a completed API-key request reads as: the client's request, with its tools completed, the member
 added to its metadata, its refused calls answered, and everything else as it was.
 */
module KeyLoginReads {
  import opened Basics
  import opened Json
  import opened JsonReader
  import opened JsonText
  import opened JsonEdits
  import opened KeyLogin
  import opened KeyLoginRequest
  import opened AnsweredItems

  // ---- parts of a substituted text ----

  /** What the text between two positions is substituted by. */
  function Segment(body: string, edits: seq<Splice>, a: nat, b: nat): string
  {
    var from, to := Substituted(body, edits, a), Substituted(body, edits, b);
    if |to| <= |from| then from[..|from| - |to|] else ""
  }

  /** No edit begins before a position and ends behind it. */
  ghost predicate Boundary(edits: seq<Splice>, p: nat)
  {
    forall edit :: edit in edits ==> !(edit.start < p < edit.end)
  }

  lemma SegmentIs(body: string, edits: seq<Splice>, a: nat, b: nat)
    requires a <= b <= |body| && Disjoint(edits, |body|) && Boundary(edits, b)
    ensures Substituted(body, edits, a) == Segment(body, edits, a, b) + Substituted(body, edits, b)
  {
    hide Substituted, Disjoint;
    var left := SplitAt(body, edits, a, b);
    assert (left + Substituted(body, edits, b))[..|left|] == left;
  }

  /** Up to a position inside no edit, the text is substituted on its own. */
  lemma {:induction false} SplitAt(body: string, edits: seq<Splice>, at: nat, p: nat) returns (left: string)
    requires at <= p <= |body| && Disjoint(edits, |body|) && Boundary(edits, p)
    ensures Substituted(body, edits, at) == left + Substituted(body, edits, p)
    decreases p - at
  {
    hide StartingAt, Disjoint;
    if at == p {
      left := "";
    } else {
      match StartingAt(edits, at)
      case Some(edit) =>
        InText(edits, |body|, edit);
        left := SplitAt(body, edits, edit.end, p);
        left := edit.text + left;
      case None =>
        left := SplitAt(body, edits, at + 1, p);
        left := [body[at]] + left;
    }
  }

  lemma InText(edits: seq<Splice>, length: nat, edit: Splice)
    requires Disjoint(edits, length) && edit in edits
    ensures edit.start < edit.end <= length
  {
  }

  lemma Unedited(body: string, edits: seq<Splice>, a: nat, b: nat)
    requires a <= b <= |body| && forall edit :: edit in edits ==> !(a <= edit.start < b)
    ensures Segment(body, edits, a, b) == body[a..b]
    ensures Substituted(body, edits, a) == body[a..b] + Substituted(body, edits, b)
  {
    hide Substituted;
    Untouched(body, edits, a, b);
    assert (body[a..b] + Substituted(body, edits, b))[..b - a] == body[a..b];
  }

  lemma WholeEdit(body: string, edits: seq<Splice>, edit: Splice)
    requires Disjoint(edits, |body|) && edit in edits
    ensures edit.start <= edit.end <= |body| && Segment(body, edits, edit.start, edit.end) == edit.text
  {
    hide Substituted;
    InText(edits, |body|, edit);
    SubstitutedThere(body, edits, edit);
    var rest := Substituted(body, edits, edit.end);
    assert (edit.text + rest)[..|edit.text|] == edit.text;
  }

  /** Every edit between two positions lies in one of the spans. */
  ghost predicate EditsWithin(edits: seq<Splice>, at: nat, end: nat, spans: seq<Span>)
  {
    forall edit :: edit in edits ==>
      edit.end <= at || end <= edit.start || exists i :: 0 <= i < |spans| && Within(edit, spans[i])
  }

  /** Between a position and the first of the spans, and from it to the next, nothing is edited. */
  lemma FirstOf(edits: seq<Splice>, at: nat, first: Span, more: seq<Span>, next: nat, end: nat, length: nat)
    requires EditsWithin(edits, at, end, [first] + more) && InOrder(more, next, length)
    requires at <= first.start < first.end < next <= end <= length && Disjoint(edits, length)
    ensures forall edit :: edit in edits ==> !(at <= edit.start < first.start) && !(first.end <= edit.start < next)
    ensures Boundary(edits, first.start) && Boundary(edits, first.end) && Boundary(edits, next)
    ensures EditsWithin(edits, next, end, more)
  {
    hide Disjoint;
    forall edit | edit in edits
      ensures !(at <= edit.start < first.start) && !(first.end <= edit.start < next)
      ensures !(edit.start < first.start < edit.end) && !(edit.start < first.end < edit.end) && !(edit.start < next < edit.end)
      ensures edit.end <= next || end <= edit.start || exists i :: 0 <= i < |more| && Within(edit, more[i])
    {
      InText(edits, length, edit);
      if edit.end > at && edit.start < end {
        var i :| 0 <= i < |[first] + more| && Within(edit, ([first] + more)[i]);
        if i > 0 {
          assert ([first] + more)[i] == more[i - 1];
        }
      }
    }
  }

  // ---- a member with another value, before other text ----

  /** A member reads with another value in its place, whatever text stands behind the mark after it. */
  lemma MemberAgain(s: string, gap: string, c: char, was: string, raw: string, now: string)
    requires ReadName(s).Got? && ReadValue(ReadName(s).rest).Got? && IsRaw(raw) && (c == ',' || c == '}')
    requires ReadValue(ReadName(s).rest).rest == gap + was && SkipSpace(gap + was) == [c] + was
    ensures |SkipSpace(ReadName(s).rest)| <= |s|
    ensures var u := s[..|s| - |SkipSpace(ReadName(s).rest)|] + (raw + (gap + now));
      && ReadName(u).Got? && ReadName(u).value == ReadName(s).value
      && ReadValue(ReadName(u).rest) == Got(ReadValue(raw).value, gap + now) && SkipSpace(gap + now) == [c] + now
  {
    hide ReadValue, ReadName, SkipSpace, IsRaw, EndOf;
    var after := ReadName(s).rest;
    NameEnd(s);
    SpaceEnd(after);
    SpaceBefore(after);
    JsonText.OneMore(gap, was, c, now);
    GapNotEmpty(gap, c);
    EndsAfter(gap, was, now);
    var space, head := after[..|after| - |SkipSpace(after)|], s[..|s| - |after|];
    Whole(s, after);
    NameLocal(head, after, space + (raw + (gap + now)));
    Regrouped(s, after, SkipSpace(after), raw, gap + now);
    Associative(s[..|s| - |SkipSpace(after)|], raw, gap + now);
    ValueThere(space, raw, gap + now);
  }

  lemma GapNotEmpty(gap: string, c: char)
    requires SkipSpace(gap) == [c]
    ensures gap != []
  {
  }

  /** The same for an element of an array. */
  lemma ItemAgain(s: string, gap: string, c: char, was: string, raw: string, now: string)
    requires ReadValue(s).Got? && IsRaw(raw) && (c == ',' || c == ']')
    requires ReadValue(s).rest == gap + was && SkipSpace(gap + was) == [c] + was
    ensures |SkipSpace(s)| <= |s|
    ensures var u := s[..|s| - |SkipSpace(s)|] + (raw + (gap + now));
      ReadValue(u) == Got(ReadValue(raw).value, gap + now) && SkipSpace(gap + now) == [c] + now
  {
    hide ReadValue, SkipSpace, IsRaw;
    SpaceBefore(s);
    JsonText.OneMore(gap, was, c, now);
    GapNotEmpty(gap, c);
    EndsAfter(gap, was, now);
    ValueThere(s[..|s| - |SkipSpace(s)|], raw, gap + now);
  }

  // ---- an object with several members replaced ----

  /** The value that stands at a span once the edits are made. */
  function ValueNow(body: string, edits: seq<Splice>, span: Span): JSON
  {
    match ReadValue(Segment(body, edits, span.start, span.end))
    case Got(value, _) => value
    case Failed => Null
  }

  ghost predicate RawNow(body: string, edits: seq<Splice>, span: Span)
  {
    IsRaw(Segment(body, edits, span.start, span.end))
  }

  /** The object the members make with the values they have then. */
  function MembersNow(body: string, edits: seq<Splice>, fields: seq<Field>, before: map<string, JSON>): map<string, JSON>
  {
    if fields == [] then before
    else MembersNow(body, edits, fields[1..], before[fields[0].name := ValueNow(body, edits, fields[0].at)])
  }

  lemma {:induction false} MembersSubstituted(body: string, edits: seq<Splice>, at: nat, s: string, before: map<string, JSON>)
    requires at <= |body| && body[at..] == s && FieldsFrom(s, at).Got? && Disjoint(edits, |body|)
    requires |FieldsFrom(s, at).rest| <= |body|
    requires EditsWithin(edits, at, |body| - |FieldsFrom(s, at).rest|, Places(FieldsFrom(s, at).value))
    requires forall i :: 0 <= i < |FieldsFrom(s, at).value| ==> RawNow(body, edits, FieldsFrom(s, at).value[i].at)
    ensures ReadMembers(Substituted(body, edits, at), before)
         == Got(MembersNow(body, edits, FieldsFrom(s, at).value, before),
                Substituted(body, edits, |body| - |FieldsFrom(s, at).rest|))
    decreases |s|
  {
    hide *;
    var first, next, last := FieldStep(body, at, s);
    var more: seq<Field> := if last then [] else FieldsFrom(body[next..], next).value;
    assert FieldsFrom(s, at).value == [first] + more && ([first] + more)[0] == first;
    MoreInOrder(body, next, last);
    PlacesPrepended(first, more);
    RestBehind(body, next, last, |FieldsFrom(s, at).rest|);
    FirstOf(edits, at, first.at, Places(more), next, |body| - |FieldsFrom(s, at).rest|, |body|);
    MemberNow(body, edits, at, s, first, next, last, before);
    MembersNowStep(body, edits, first, more, before);
    if last {
      NothingMore(body, edits, before[first.name := ValueNow(body, edits, first.at)]);
      TailLength(body, next);
    } else {
      assert forall i :: 0 <= i < |more| ==> more[i] == ([first] + more)[i + 1];
      MembersSubstituted(body, edits, next, body[next..], before[first.name := ValueNow(body, edits, first.at)]);
    }
  }

  lemma RestBehind(body: string, next: nat, last: bool, n: nat)
    requires next <= |body| && (!last ==> FieldsFrom(body[next..], next).Got?)
    requires n == if last then |body[next..]| else |FieldsFrom(body[next..], next).rest|
    ensures n <= |body| && next <= |body| - n
  {
    hide FieldsFrom;
  }

  lemma SpansRestBehind(body: string, next: nat, last: bool, n: nat)
    requires next <= |body| && (!last ==> ItemSpansFrom(body[next..], next).Got?)
    requires n == if last then |body[next..]| else |ItemSpansFrom(body[next..], next).rest|
    ensures n <= |body| && next <= |body| - n
  {
    hide ItemSpansFrom;
  }

  lemma TailLength(body: string, next: nat)
    requires next <= |body|
    ensures |body[next..]| == |body| - next
  {
  }

  lemma MoreInOrder(body: string, next: nat, last: bool)
    requires next <= |body| && (!last ==> FieldsFrom(body[next..], next).Got?)
    ensures InOrder(Places(if last then [] else FieldsFrom(body[next..], next).value), next, |body|)
  {
    hide FieldsFrom, ReadMembers, FieldMap, IsRaw;
    if !last {
      FieldsHold(body, next, body[next..], map[]);
    }
  }

  lemma MembersNowStep(body: string, edits: seq<Splice>, first: Field, more: seq<Field>, before: map<string, JSON>)
    ensures MembersNow(body, edits, [first] + more, before)
         == MembersNow(body, edits, more, before[first.name := ValueNow(body, edits, first.at)])
  {
    hide ValueNow;
    assert ([first] + more)[1..] == more;
  }

  lemma NothingMore(body: string, edits: seq<Splice>, before: map<string, JSON>)
    ensures MembersNow(body, edits, [], before) == before
  {
  }

  /** One member of the substituted text, and what is read behind it. */
  lemma MemberNow(body: string, edits: seq<Splice>, at: nat, s: string, first: Field, next: nat, last: bool,
                  before: map<string, JSON>)
    requires at <= |body| && body[at..] == s && Disjoint(edits, |body|) && RawNow(body, edits, first.at)
    requires at < first.at.start < first.at.end < next <= |body|
    requires ReadName(s).Got? && ReadValue(ReadName(s).rest).Got? && first.name == ReadName(s).value
    requires var after := ReadName(s).rest;
      && first.at.start == |body| - |SkipSpace(after)| && ReadValue(after).rest == body[first.at.end..]
      && SkipSpace(body[first.at.end..]) == [if last then '}' else ','] + body[next..]
    requires forall edit :: edit in edits ==>
      !(at <= edit.start < first.at.start) && !(first.at.end <= edit.start < next)
    requires Boundary(edits, first.at.end)
    ensures ReadMembers(Substituted(body, edits, at), before) ==
      var begun := before[first.name := ValueNow(body, edits, first.at)];
      if last then Got(begun, Substituted(body, edits, next)) else ReadMembers(Substituted(body, edits, next), begun)
  {
    hide ReadValue, ReadName, SkipSpace, IsRaw, ReadMembers, Substituted, Segment, Disjoint, Boundary;
    var raw, now, gap := Segment(body, edits, first.at.start, first.at.end), Substituted(body, edits, next),
                         body[first.at.end..next];
    Unedited(body, edits, at, first.at.start);
    SegmentIs(body, edits, first.at.start, first.at.end);
    Unedited(body, edits, first.at.end, next);
    TwoParts(body, first.at.end, next);
    MemberAgain(s, gap, if last then '}' else ',', body[next..], raw, now);
    HeadIs(body, at, s, first.at.start);
    var u := body[at..first.at.start] + (raw + (gap + now));
    assert Substituted(body, edits, at) == u;
    MembersByName(u, before);
    MarkThen(if last then '}' else ',', now);
    IsRawReads(raw);
  }

  lemma MarkThen(c: char, now: string)
    ensures ([c] + now)[0] == c && ([c] + now)[1..] == now
  {
  }

  lemma TwoParts(body: string, a: nat, b: nat)
    requires a <= b <= |body|
    ensures body[a..] == body[a..b] + body[b..]
  {
  }

  lemma HeadIs(body: string, at: nat, s: string, p: nat)
    requires at <= p <= |body| && body[at..] == s
    ensures s[..|s| - (|body| - p)] == body[at..p]
  {
  }

  // ---- an array with several elements replaced ----

  function ElementsNow(body: string, edits: seq<Splice>, spans: seq<Span>): (r: seq<JSON>)
    ensures |r| == |spans| && forall i :: 0 <= i < |spans| ==> r[i] == ValueNow(body, edits, spans[i])
  {
    seq(|spans|, i requires 0 <= i < |spans| => ValueNow(body, edits, spans[i]))
  }

  lemma {:induction false} ItemsSubstituted(body: string, edits: seq<Splice>, at: nat, s: string)
    requires at <= |body| && body[at..] == s && ItemSpansFrom(s, at).Got? && Disjoint(edits, |body|)
    requires |ItemSpansFrom(s, at).rest| <= |body|
    requires EditsWithin(edits, at, |body| - |ItemSpansFrom(s, at).rest|, ItemSpansFrom(s, at).value)
    requires forall i :: 0 <= i < |ItemSpansFrom(s, at).value| ==> RawNow(body, edits, ItemSpansFrom(s, at).value[i])
    ensures ReadItems(Substituted(body, edits, at))
         == Got(ElementsNow(body, edits, ItemSpansFrom(s, at).value),
                Substituted(body, edits, |body| - |ItemSpansFrom(s, at).rest|))
    decreases |s|
  {
    hide *;
    var first, next, last := ItemStep(body, at, s);
    var more: seq<Span> := if last then [] else ItemSpansFrom(body[next..], next).value;
    assert ItemSpansFrom(s, at).value == [first] + more && ([first] + more)[0] == first;
    MoreSpansInOrder(body, next, last);
    SpansRestBehind(body, next, last, |ItemSpansFrom(s, at).rest|);
    FirstOf(edits, at, first, more, next, |body| - |ItemSpansFrom(s, at).rest|, |body|);
    ItemNow(body, edits, at, s, first, next, last);
    ElementsNowStep(body, edits, first, more);
    if last {
      TailLength(body, next);
      assert [ValueNow(body, edits, first)] + [] == [ValueNow(body, edits, first)];
    } else {
      assert forall i :: 0 <= i < |more| ==> more[i] == ([first] + more)[i + 1];
      ItemsSubstituted(body, edits, next, body[next..]);
    }
  }

  lemma ElementsNowStep(body: string, edits: seq<Splice>, first: Span, more: seq<Span>)
    ensures ElementsNow(body, edits, [first] + more) == [ValueNow(body, edits, first)] + ElementsNow(body, edits, more)
    ensures ElementsNow(body, edits, []) == []
  {
    hide ValueNow;
  }

  lemma MoreSpansInOrder(body: string, next: nat, last: bool)
    requires next <= |body| && (!last ==> ItemSpansFrom(body[next..], next).Got?)
    ensures InOrder(if last then [] else ItemSpansFrom(body[next..], next).value, next, |body|)
  {
    hide ItemSpansFrom, ReadItems, IsRaw;
    if !last {
      ItemSpansHold(body, next, body[next..]);
    }
  }

  lemma ItemNow(body: string, edits: seq<Splice>, at: nat, s: string, first: Span, next: nat, last: bool)
    requires at <= |body| && body[at..] == s && Disjoint(edits, |body|) && RawNow(body, edits, first)
    requires at <= first.start < first.end < next <= |body| && ReadValue(s).Got?
    requires first.start == |body| - |SkipSpace(s)| && ReadValue(s).rest == body[first.end..]
    requires SkipSpace(body[first.end..]) == [if last then ']' else ','] + body[next..]
    requires forall edit :: edit in edits ==> !(at <= edit.start < first.start) && !(first.end <= edit.start < next)
    requires Boundary(edits, first.end)
    ensures ReadItems(Substituted(body, edits, at)) ==
      if last then Got([ValueNow(body, edits, first)], Substituted(body, edits, next))
      else
        match ReadItems(Substituted(body, edits, next))
        case Failed => Failed
        case Got(more, end) => Got([ValueNow(body, edits, first)] + more, end)
  {
    hide ReadValue, SkipSpace, IsRaw, ReadItems, Substituted, Segment, Disjoint, Boundary;
    var raw, now, gap := Segment(body, edits, first.start, first.end), Substituted(body, edits, next), body[first.end..next];
    Unedited(body, edits, at, first.start);
    SegmentIs(body, edits, first.start, first.end);
    Unedited(body, edits, first.end, next);
    TwoParts(body, first.end, next);
    ItemAgain(s, gap, if last then ']' else ',', body[next..], raw, now);
    HeadIs(body, at, s, first.start);
    var u := body[at..first.start] + (raw + (gap + now));
    assert Substituted(body, edits, at) == u;
    ItemsByFirst(u);
    MarkThen(if last then ']' else ',', now);
    IsRawReads(raw);
  }

  lemma ItemsByFirst(s: string)
    ensures ReadItems(s) ==
      match ReadValue(s)
      case Failed => Failed
      case Got(first, rest) =>
        var t := SkipSpace(rest);
        if t != [] && t[0] == ']' then Got([first], t[1..])
        else if t != [] && t[0] == ',' then
          (match ReadItems(t[1..])
           case Failed => Failed
           case Got(more, end) => Got([first] + more, end))
        else Failed
  {
    hide ReadValue, SkipSpace;
  }

  // ---- the input, in the request ----

  function Moved(spans: seq<Span>, shift: nat): (r: seq<Span>)
    ensures |r| == |spans| && forall i :: 0 <= i < |spans| ==> r[i] == Span(shift + spans[i].start, shift + spans[i].end)
  {
    seq(|spans|, i requires 0 <= i < |spans| => Span(shift + spans[i].start, shift + spans[i].end))
  }

  /** The elements stand at the same places, as far on as the array does, whatever follows it. */
  lemma {:induction false} SpansMoved(p: string, x: string, at: nat, shift: nat)
    requires ItemSpansFrom(p, at).Got? && ItemSpansFrom(p, at).rest == []
    ensures ItemSpansFrom(p + x, at + shift) == Got(Moved(ItemSpansFrom(p, at).value, shift), x)
    decreases |p|
  {
    hide ReadValue, SkipSpace, ItemSpansFrom, ReadItems, EndOf, Moved;
    FirstRead(p, at);
    FirstRead(p + x, at + shift);
    var r := ReadValue(p).rest;
    var t := SkipSpace(r);
    ValueEnd(p);
    FirstLonger(p, r, x);
    assert (t + x)[1..] == t[1..] + x;
    var next := at + |p| - |t| + 1;
    assert at + shift + |p + x| - |t + x| + 1 == next + shift;
    var first := Span(at + |p| - |SkipSpace(p)|, at + |p| - |r|);
    if t[0] == ',' {
      SpansMoved(t[1..], x, next, shift);
      MovedStep(first, ItemSpansFrom(t[1..], next).value, shift);
    } else {
      MovedStep(first, [], shift);
      assert t[1..] == [] && [] + x == x;
    }
  }

  lemma MovedStep(first: Span, more: seq<Span>, shift: nat)
    ensures Moved([first] + more, shift) == [Span(shift + first.start, shift + first.end)] + Moved(more, shift)
    ensures Moved([first], shift) == [Span(shift + first.start, shift + first.end)]
  {
  }

  /** A value and the mark behind it read the same where the text goes on. */
  lemma FirstLonger(p: string, r: string, x: string)
    requires ReadValue(p).Got? && r == ReadValue(p).rest && SkipSpace(r) != [] && SkipSpace(r)[0] in [',', ']', '}', ':']
    ensures ReadValue(p + x) == Got(ReadValue(p).value, r + x) && SkipSpace(r + x) == SkipSpace(r) + x
    ensures SkipSpace(p + x) == SkipSpace(p) + x
  {
    hide ReadValue, SkipSpace;
    ValueEnd(p);
    var head := p[..|p| - |r|];
    assert p == head + r && p + x == head + (r + x);
    NotNothing(r);
    assert r + [] == r;
    EndsAfter(r, [], x);
    ValueLocal(head, r, r + x);
    SkipIn(r, x);
    ValueSkips(p);
    SkipIn(p, x);
  }

  lemma NotNothing(r: string)
    requires SkipSpace(r) != []
    ensures r != []
  {
  }

  /** The elements of an array that stands in a text, found in that text. */
  lemma InnerSpans(body: string, at: Span)
    requires at.start < at.end <= |body| && IsRaw(body[at.start..at.end])
    requires ItemSpans(body[at.start..at.end]).Some? && ItemSpans(body[at.start..at.end]).value != []
    ensures body[at.start] == '['
    ensures ItemSpansFrom(body[at.start + 1..], at.start + 1)
         == Got(Moved(ItemSpans(body[at.start..at.end]).value, at.start), body[at.end..])
  {
    hide ReadValue, ReadItems, SkipSpace, ItemSpansFrom;
    var text := body[at.start..at.end];
    NoSpace(text);
    SpansRest(text);
    SpansMoved(text[1..], body[at.end..], 1, at.start);
    assert body[at.start + 1..] == text[1..] + body[at.end..];
  }

  /** Nothing is left of an array's own text behind its elements. */
  lemma SpansRest(text: string)
    requires IsRaw(text) && ItemSpans(text).Some? && ItemSpans(text).value != []
    ensures text[0] == '[' && ItemSpansFrom(text[1..], 1) == Got(ItemSpans(text).value, [])
  {
    hide ReadValue, ReadItems, SkipSpace, ItemSpansFrom;
    NoSpace(text);
    NestedRest(text);
    ItemSpansHold(text, 1, text[1..]);
  }

  /** An array with its elements replaced in place is the array of what stands there then. */
  lemma ArrayNow(body: string, edits: seq<Splice>, at: Span)
    requires at.start < at.end <= |body| && IsRaw(body[at.start..at.end]) && Disjoint(edits, |body|)
    requires ItemSpans(body[at.start..at.end]).Some? && ItemSpans(body[at.start..at.end]).value != []
    requires EditsWithin(edits, at.start, at.end, Moved(ItemSpans(body[at.start..at.end]).value, at.start))
    requires forall span :: span in Moved(ItemSpans(body[at.start..at.end]).value, at.start) ==> RawNow(body, edits, span)
    requires Boundary(edits, at.start) && Boundary(edits, at.end)
    ensures RawNow(body, edits, at)
    ensures ValueNow(body, edits, at) == Arr(ElementsNow(body, edits, Moved(ItemSpans(body[at.start..at.end]).value, at.start)))
  {
    hide ReadValue, ReadItems, SkipSpace, ItemSpansFrom, ItemSpans, IsRaw, Substituted, Segment, Disjoint, Boundary, Moved;
    InnerSpans(body, at);
    var spans := Moved(ItemSpans(body[at.start..at.end]).value, at.start);
    SpansAfter(body, at.start + 1, spans, body[at.end..]);
    NotAtBracket(edits, at, spans, |body|);
    TailLength(body, at.end);
    ItemsSubstituted(body, edits, at.start + 1, body[at.start + 1..]);
    Unedited(body, edits, at.start, at.start + 1);
    SegmentIs(body, edits, at.start, at.end);
    assert body[at.start..at.start + 1] == ['['];
    var now, inside := Substituted(body, edits, at.start), Substituted(body, edits, at.start + 1);
    NoSpace(['['] + inside);
    Opened(now, '[', inside);
    var segment, rest := Segment(body, edits, at.start, at.end), Substituted(body, edits, at.end);
    ReadShorter(now, rest);
    SegmentStarts(segment, rest, now);
    ReadsAlone(segment, rest);
    IsRawReads(segment);
  }

  lemma ReadShorter(s: string, rest: string)
    requires ReadValue(s).Got? && ReadValue(s).rest == rest
    ensures |rest| < |s|
  {
    hide ReadValue, SkipSpace;
    ValueEnd(s);
    SpaceShorter(s);
  }

  lemma SegmentStarts(segment: string, rest: string, now: string)
    requires now == segment + rest && |rest| < |now| && !IsSpace(now[0])
    ensures segment != [] && !IsSpace(segment[0])
  {
  }

  lemma SpansAfter(body: string, at: nat, spans: seq<Span>, rest: string)
    requires at <= |body| && ItemSpansFrom(body[at..], at) == Got(spans, rest)
    ensures InOrder(spans, at, |body|)
  {
    hide ItemSpansFrom, ReadItems, IsRaw;
    ItemSpansHold(body, at, body[at..]);
  }

  lemma NotAtBracket(edits: seq<Splice>, at: Span, spans: seq<Span>, length: nat)
    requires EditsWithin(edits, at.start, at.end, spans) && InOrder(spans, at.start + 1, length) && Disjoint(edits, length)
    requires at.start < at.end
    ensures EditsWithin(edits, at.start + 1, at.end, spans)
    ensures forall edit :: edit in edits ==> !(at.start <= edit.start < at.start + 1)
  {
    forall edit | edit in edits ensures !(at.start <= edit.start < at.start + 1) {
      InText(edits, length, edit);
    }
  }

  // ---- an item ----

  /** The items of `input`, and where they stand. */
  lemma ItemsAreMoved(body: string, input: Span, seen: string -> Seen)
    requires input.start < input.end <= |body|
    ensures var text, items := body[input.start..input.end], ItemsIn(body, Some(input), seen);
      match ItemSpans(text)
      case None => items == []
      case Some(spans) =>
        && |items| == |spans| && ItemPlaces(items) == Moved(spans, input.start)
        && forall i :: 0 <= i < |items| ==> items[i].text == TextsAt(text, spans)[i]
  {
    hide ItemSpans, IsRaw, ReadValue, ReadDocument, TextsAt;
    var text, items := body[input.start..input.end], ItemsIn(body, Some(input), seen);
    TextsThere(text);
    if ItemSpans(text).Some? {
      var spans := ItemSpans(text).value;
      forall i | 0 <= i < |items| ensures ItemPlaces(items)[i] == Moved(spans, input.start)[i] {
      }
    }
  }

  /** The place of an item of `input` in the request, which is the text of a value. */
  lemma ItemStands(body: string, input: Option<Span>, seen: string -> Seen, i: nat)
    requires Proper(input, |body|) && i < |ItemsIn(body, input, seen)|
    ensures var item := ItemsIn(body, input, seen)[i];
      && ItemSpan(item) == Span(item.start, item.start + |item.text|)
      && item.start + |item.text| <= |body| && body[item.start..item.start + |item.text|] == item.text && IsRaw(item.text)
  {
    hide *;
    ProperOne(input, |body|);
    NoInput(body, input, seen);
    var at := input.value;
    var text, items := body[at.start..at.end], ItemsIn(body, input, seen);
    ItemsAreMoved(body, at, seen);
    var spans := ItemSpans(text).value;
    SpanReads(text, i);
    SliceOfSlice(body, at.start, |text|, spans[i].start, spans[i].end);
    assert ItemPlaces(items)[i] == ItemSpan(items[i]);
    SpanOf(items[i]);
  }

  lemma TextsThere(text: string)
    ensures ItemSpans(text).Some? ==> |TextsAt(text, ItemSpans(text).value)| == |ItemSpans(text).value|
    ensures ItemSpans(text).Some? ==> forall i :: 0 <= i < |ItemSpans(text).value| ==>
      |TextsAt(text, ItemSpans(text).value)[i]| == ItemSpans(text).value[i].end - ItemSpans(text).value[i].start
  {
    hide ItemSpans, IsRaw, ReadValue, ReadDocument;
    ItemSpansOf(text);
  }

  lemma ProperOne(input: Option<Span>, length: nat)
    requires Proper(input, length)
    ensures input.Some? ==> input.value.start < input.value.end <= length
  {
  }

  lemma NoInput(body: string, input: Option<Span>, seen: string -> Seen)
    requires Proper(input, |body|)
    ensures input.None? ==> ItemsIn(body, input, seen) == []
  {
  }

  lemma SpanOf(item: Item)
    ensures ItemSpan(item) == Span(item.start, item.start + |item.text|)
  {
  }

  lemma SpanReads(text: string, i: nat)
    requires ItemSpans(text).Some? && i < |ItemSpans(text).value|
    ensures var spans := ItemSpans(text).value;
      && spans[i].start < spans[i].end <= |text| && |TextsAt(text, spans)| == |spans|
      && TextsAt(text, spans)[i] == text[spans[i].start..spans[i].end] && IsRaw(text[spans[i].start..spans[i].end])
  {
    hide ItemSpans, ReadDocument, IsRaw, ReadValue;
    ItemSpansOf(text);
  }

  ghost predicate Lies(edit: Splice, item: Item)
  {
    !Apart(Span(edit.start, edit.end), ItemSpan(item))
  }

  /** Of all edits only an item's own touches it. */
  lemma EditsAtItem(body: string, c: Completion, i: nat)
    requires ReadTop(body).Some?
    requires Proper(ReadTop(body).value.input, |body|) && i < |ItemsIn(body, ReadTop(body).value.input, c.seen)|
    ensures var items := ItemsIn(body, ReadTop(body).value.input, c.seen);
      var own := AnswerEdit(items[i], CallsIn(items), c.log, c.known);
      && (forall edit :: edit in EditsOf(body, c) ==> edit.start < edit.end && (Lies(edit, items[i]) ==> own == Some(edit)))
      && (own.Some? ==> own.value in EditsOf(body, c) && Within(own.value, ItemSpan(items[i])))
  {
    hide ReadTop, ItemsIn, AnswerEdits, AnswerEdit, CallsIn, CompletedToolsText, WithGuardianCredits, Parsed, EditsOf;
    TopIsParsed(body, c.seen);
    ThreeApart(body, c);
    EditsAre(body, c);
    var top := ReadTop(body).value;
    var items := ItemsIn(body, top.input, c.seen);
    ItemApart(top.tools, top.metadata, top.input, items, |body|, i);
    AnswersAtItem(items, i, c);
  }

  lemma AnswersAtItem(items: seq<Item>, i: nat, c: Completion)
    requires i < |items| && forall j :: 0 <= j < |items| && j != i ==> Apart(ItemSpan(items[j]), ItemSpan(items[i]))
    ensures var own := AnswerEdit(items[i], CallsIn(items), c.log, c.known);
      && (forall edit :: edit in AnswerEdits(items, CallsIn(items), c.log, c.known) ==>
            edit.start < edit.end && (Lies(edit, items[i]) ==> own == Some(edit)))
      && (own.Some? ==> own.value in AnswerEdits(items, CallsIn(items), c.log, c.known) && Within(own.value, ItemSpan(items[i])))
  {
    hide AnswerEdits, AnswerEdit, CallsIn;
    var calls := CallsIn(items);
    var answers := AnswerEdits(items, calls, c.log, c.known);
    var of := EditsFollowItems(items, calls, c.log, c.known);
    AnswerWithin(items[i], calls, c.log, c.known);
    forall edit | edit in answers
      ensures edit.start < edit.end && (Lies(edit, items[i]) ==> AnswerEdit(items[i], calls, c.log, c.known) == Some(edit))
    {
      var k :| 0 <= k < |answers| && answers[k] == edit;
      AnswerWithin(items[of[k]], calls, c.log, c.known);
    }
    if AnswerEdit(items[i], calls, c.log, c.known).Some? {
      var k :| 0 <= k < |of| && of[k] == i;
      assert answers[k] in answers;
    }
  }

  lemma ItemApart(tools: Option<Span>, metadata: Option<Span>, input: Option<Span>, items: seq<Item>, length: nat, i: nat)
    requires Parsed(tools, metadata, input, ItemPlaces(items), length) && i < |items|
    ensures tools.Some? ==> Apart(tools.value, ItemSpan(items[i]))
    ensures metadata.Some? ==> Apart(metadata.value, ItemSpan(items[i]))
    ensures forall j :: 0 <= j < |items| && j != i ==> Apart(ItemSpan(items[j]), ItemSpan(items[i]))
  {
    var places := ItemPlaces(items);
    assert places[i] == ItemSpan(items[i]);
    forall j | 0 <= j < |items| && j != i ensures Apart(ItemSpan(items[j]), ItemSpan(items[i])) {
      assert places[j] == ItemSpan(items[j]);
    }
  }

  /** A stretch that one edit touches, and that lies in it. */
  lemma SegmentAround(body: string, edits: seq<Splice>, a: nat, b: nat, edit: Splice)
    requires Disjoint(edits, |body|) && edit in edits && a <= edit.start < edit.end <= b <= |body|
    requires forall other :: other in edits && other != edit ==> other.end <= a || b <= other.start
    ensures Segment(body, edits, a, b) == body[a..edit.start] + edit.text + body[edit.end..b]
    ensures Boundary(edits, a) && Boundary(edits, b)
  {
    hide Substituted, Disjoint;
    forall other | other in edits ensures other.start < other.end && !(edit.end <= other.start < b) && !(a <= other.start < edit.start) {
      InText(edits, |body|, other);
    }
    Unedited(body, edits, a, edit.start);
    WholeEdit(body, edits, edit);
    NoneInside(body, edits, edit);
    SegmentIs(body, edits, edit.start, edit.end);
    Unedited(body, edits, edit.end, b);
    ThreeParts(body[a..edit.start], edit.text, body[edit.end..b], Substituted(body, edits, b));
  }

  lemma ThreeParts(x: string, y: string, z: string, rest: string)
    ensures x + (y + (z + rest)) == (x + y + z) + rest && (x + (y + (z + rest)))[..|x + y + z|] == x + y + z
  {
    Associative(x, y, z + rest);
    Associative(x + y, z, rest);
  }

  lemma NoneInside(body: string, edits: seq<Splice>, edit: Splice)
    requires Disjoint(edits, |body|) && edit in edits
    ensures Boundary(edits, edit.start) && Boundary(edits, edit.end)
  {
    forall other | other in edits
      ensures !(other.start < edit.start < other.end) && !(other.start < edit.end < other.end)
    {
      var i :| 0 <= i < |edits| && edits[i] == edit;
      var j :| 0 <= j < |edits| && edits[j] == other;
    }
  }

  /** An item's text with its answer replaced is the text of a value. */
  lemma EditedIsRaw(item: Item, calls: map<string, Call>, log: map<string, Call>, known: Answers)
    requires IsRaw(item.text)
    ensures IsRaw(Edited(item, AnswerEdit(item, calls, log, known)))
  {
    hide IsRaw, OutputMember, Answered;
    if AnswerEdit(item, calls, log, known).Some? {
      var output, answer := item.output.value, AnswerOf(item, calls, log, known).value;
      var at := FindFrom(item.text, OutputMember(output), 0).value;
      assert item.text[0..|item.text|] == item.text && item.text[|item.text|..] == [];
      NeedleParts(output);
      AnsweredInside(item.text, 0, |item.text|, at, output, answer);
      AnsweredWhole(item.text, at, output, answer);
    }
  }

  /** An item in the request that is sent: what its edited text says. */
  lemma ItemThen(body: string, c: Completion, i: nat)
    requires ReadTop(body).Some?
    requires Proper(ReadTop(body).value.input, |body|) && i < |ItemsIn(body, ReadTop(body).value.input, c.seen)|
    ensures var items := ItemsIn(body, ReadTop(body).value.input, c.seen);
      var edited := Edited(items[i], AnswerEdit(items[i], CallsIn(items), c.log, c.known));
      && RawNow(body, EditsOf(body, c), ItemSpan(items[i]))
      && ReadDocument(edited) == Some(ValueNow(body, EditsOf(body, c), ItemSpan(items[i])))
  {
    hide *;
    var items := ItemsIn(body, ReadTop(body).value.input, c.seen);
    var item, edits, own := items[i], EditsOf(body, c), AnswerEdit(items[i], CallsIn(items), c.log, c.known);
    var end := item.start + |item.text|;
    EditsOfAreDisjoint(body, c);
    EditsAtItem(body, c, i);
    ItemStands(body, ReadTop(body).value.input, c.seen, i);
    EditedIsRaw(item, CallsIn(items), c.log, c.known);
    if own.Some? {
      OnlyOwn(item, edits, own.value);
      SegmentAround(body, edits, item.start, end, own.value);
      Around(body, item, own.value);
    } else {
      Unlied(item, edits);
      Unedited(body, edits, item.start, end);
      NoEdit(item);
    }
    FromSegment(body, edits, ItemSpan(item), Edited(item, own));
  }

  lemma OnlyOwn(item: Item, edits: seq<Splice>, own: Splice)
    requires forall edit :: edit in edits && Lies(edit, item) ==> own == edit
    requires Within(own, ItemSpan(item))
    ensures item.start <= own.start < own.end <= item.start + |item.text|
    ensures forall edit :: edit in edits && edit != own ==> edit.end <= item.start || item.start + |item.text| <= edit.start
  {
  }

  lemma NoEdit(item: Item)
    ensures Edited(item, None) == item.text
  {
  }

  lemma Unlied(item: Item, edits: seq<Splice>)
    requires forall edit :: edit in edits ==> edit.start < edit.end && !Lies(edit, item)
    ensures forall edit :: edit in edits ==> !(item.start <= edit.start < item.start + |item.text|)
  {
  }

  lemma FromSegment(body: string, edits: seq<Splice>, span: Span, text: string)
    requires Segment(body, edits, span.start, span.end) == text && IsRaw(text)
    ensures RawNow(body, edits, span) && ReadDocument(text) == Some(ValueNow(body, edits, span))
    ensures ReadValue(text).Got? && ReadValue(text).value == ValueNow(body, edits, span)
  {
    hide Segment, ReadValue;
    RawDocument(text);
  }

  lemma Around(body: string, item: Item, edit: Splice)
    requires item.start + |item.text| <= |body| && body[item.start..item.start + |item.text|] == item.text
    requires item.start <= edit.start <= edit.end <= item.start + |item.text|
    ensures body[item.start..edit.start] + edit.text + body[edit.end..item.start + |item.text|] == Edited(item, Some(edit))
  {
    var end := item.start + |item.text|;
    SliceOfSlice(body, item.start, |item.text|, 0, edit.start - item.start);
    SliceOfSlice(body, item.start, |item.text|, edit.end - item.start, |item.text|);
    assert item.text[..edit.start - item.start] == item.text[0..edit.start - item.start];
    assert item.text[edit.end - item.start..] == item.text[edit.end - item.start..|item.text|];
  }

  lemma RawDocument(text: string)
    requires IsRaw(text)
    ensures ReadValue(text).Got? && ReadDocument(text) == Some(ReadValue(text).value)
  {
    hide ReadValue;
  }

  // ---- the three members ----

  /** The only member with that name, if there is one that is not null. */
  lemma MemberAtIs(body: string, fields: seq<Field>, name: string) returns (k: nat)
    requires |Named(fields, name)| <= 1
    ensures MemberAt(body, fields, name).Some? ==>
      && k < |fields| && fields[k].name == name && fields[k].at == MemberAt(body, fields, name).value
      && forall j :: 0 <= j < |fields| && fields[j].name == name ==> j == k
    ensures MemberAt(body, fields, name).None? ==>
      forall j :: 0 <= j < |fields| && fields[j].name == name ==> IsNullAt(body, fields[j].at)
  {
    hide Named;
    k := 0;
    NamedOnce(fields, name);
    if Named(fields, name) != [] {
      k := NamedIs(fields, name);
    }
  }

  predicate IsNullAt(body: string, span: Span)
  {
    span.start <= span.end <= |body| && body[span.start..span.end] == "null"
  }

  lemma {:induction false} NamedOnce(fields: seq<Field>, name: string)
    ensures Named(fields, name) == [] ==> forall j :: 0 <= j < |fields| ==> fields[j].name != name
    ensures |Named(fields, name)| <= 1 ==>
      forall i, j :: 0 <= i < |fields| && 0 <= j < |fields| && fields[i].name == fields[j].name == name ==> i == j
  {
    if fields != [] {
      NamedOnce(fields[1..], name);
      assert forall j :: 1 <= j < |fields| ==> fields[j] == fields[1..][j - 1];
    }
  }

  /** No two members have that name. */
  ghost predicate AtMostOnce(fields: seq<Field>, name: string)
  {
    forall i, j :: 0 <= i < j < |fields| && fields[i].name == name ==> fields[j].name != name
  }

  lemma {:induction false} NamedTwice(fields: seq<Field>, name: string) returns (i: nat, j: nat)
    requires |Named(fields, name)| > 1
    ensures i < j < |fields| && fields[i].name == fields[j].name == name
  {
    if fields[0].name == name {
      j := NamedIs(fields[1..], name);
      i := 0;
    } else {
      i, j := NamedTwice(fields[1..], name);
      i := i + 1;
    }
    j := j + 1;
  }

  lemma OnceIs(fields: seq<Field>, name: string)
    ensures AtMostOnce(fields, name) <==> |Named(fields, name)| <= 1
  {
    NamedOnce(fields, name);
    if |Named(fields, name)| > 1 {
      var i, j := NamedTwice(fields, name);
    }
  }

  /** A request is completed exactly where it is an object that gives none of the three members twice. */
  lemma CompletedWhere(body: string)
    ensures ReadTop(body).Some? <==>
      && ReadDocument(body).Some? && ReadDocument(body).value.Obj? && Fields(body).Some?
      && AtMostOnce(Fields(body).value, "tools") && AtMostOnce(Fields(body).value, "client_metadata")
      && AtMostOnce(Fields(body).value, "input")
  {
    hide Fields, ReadDocument, Named, Places, FieldMap, IsRaw, AtMostOnce;
    FieldsOf(body);
    if Fields(body).Some? {
      var fields := Fields(body).value;
      OnceIs(fields, "tools");
      OnceIs(fields, "client_metadata");
      OnceIs(fields, "input");
    }
  }

  lemma TopIs(body: string) returns (tools: nat, metadata: nat, input: nat)
    requires ReadTop(body).Some?
    ensures Fields(body).Some?
    ensures var top, fields := ReadTop(body).value, Fields(body).value;
      && TopMember(body, fields, "tools", top.tools, tools) && TopMember(body, fields, "client_metadata", top.metadata, metadata)
      && TopMember(body, fields, "input", top.input, input)
  {
    hide Fields, Named, MemberAt;
    var fields := Fields(body).value;
    tools := MemberAtIs(body, fields, "tools");
    metadata := MemberAtIs(body, fields, "client_metadata");
    input := MemberAtIs(body, fields, "input");
  }

  /** Where a member of that name stands, and that it is the only one; none, or null, where no place is given. */
  ghost predicate TopMember(body: string, fields: seq<Field>, name: string, at: Option<Span>, k: nat)
  {
    if at.Some? then
      && k < |fields| && fields[k].name == name && fields[k].at == at.value
      && forall j :: 0 <= j < |fields| && fields[j].name == name ==> j == k
    else forall j :: 0 <= j < |fields| && fields[j].name == name ==> IsNullAt(body, fields[j].at)
  }

  // ---- which edits a member has ----

  ghost predicate Touches(edit: Splice, span: Span)
  {
    !Apart(Span(edit.start, edit.end), span)
  }

  /** The edits of the request, told apart. */
  lemma EditsAre(body: string, c: Completion)
    requires ReadTop(body).Some? && Proper(ReadTop(body).value.tools, |body|) && Proper(ReadTop(body).value.metadata, |body|)
    requires Proper(ReadTop(body).value.input, |body|)
    ensures var top := ReadTop(body).value;
      var items := ItemsIn(body, top.input, c.seen);
      forall edit :: edit in EditsOf(body, c) <==>
        || ToolsEdit(body, top.tools, c) == Some(edit) || MetadataEdit(body, top.metadata, c.guardian) == Some(edit)
        || edit in AnswerEdits(items, CallsIn(items), c.log, c.known)
  {
    hide ReadTop, ItemsIn, AnswerEdits, CallsIn, ToolsEdit, MetadataEdit, Parsed;
    TopIsParsed(body, c.seen);
  }

  /** Every answer lies in an item, and every item in `input`. */
  lemma AnswersInInput(body: string, c: Completion, edit: Splice)
    requires ReadTop(body).Some? && Proper(ReadTop(body).value.input, |body|)
    requires var items := ItemsIn(body, ReadTop(body).value.input, c.seen);
      edit in AnswerEdits(items, CallsIn(items), c.log, c.known)
    ensures ReadTop(body).value.input.Some? && Within(edit, ReadTop(body).value.input.value)
    ensures var items := ItemsIn(body, ReadTop(body).value.input, c.seen);
      exists i :: 0 <= i < |items| && Within(edit, ItemSpan(items[i]))
  {
    hide ReadTop, ItemsIn, AnswerEdits, AnswerEdit, CallsIn;
    var items := ItemsIn(body, ReadTop(body).value.input, c.seen);
    var answers := AnswerEdits(items, CallsIn(items), c.log, c.known);
    var of := EditsFollowItems(items, CallsIn(items), c.log, c.known);
    var k :| 0 <= k < |answers| && answers[k] == edit;
    AnswerWithin(items[of[k]], CallsIn(items), c.log, c.known);
    ItemsApart(body, ReadTop(body).value.input, c.seen);
    assert ItemPlaces(items)[of[k]] == ItemSpan(items[of[k]]);
  }

  /** What touches a member is its own edit, or an answer in it. */
  lemma EditsAtField(body: string, c: Completion, k: nat)
    requires ReadTop(body).Some? && Fields(body).Some? && k < |Fields(body).value|
    requires Proper(ReadTop(body).value.tools, |body|) && Proper(ReadTop(body).value.metadata, |body|)
    requires Proper(ReadTop(body).value.input, |body|)
    ensures var top, at := ReadTop(body).value, Fields(body).value[k].at;
      var items := ItemsIn(body, top.input, c.seen);
      && at.start < at.end <= |body| && IsRaw(body[at.start..at.end])
      && forall edit :: edit in EditsOf(body, c) && Touches(edit, at) ==>
           || (top.tools == Some(at) && ToolsEdit(body, top.tools, c) == Some(edit))
           || (top.metadata == Some(at) && MetadataEdit(body, top.metadata, c.guardian) == Some(edit))
           || (top.input == Some(at) && edit in AnswerEdits(items, CallsIn(items), c.log, c.known))
  {
    hide ReadTop, Fields, ReadDocument, ItemsIn, AnswerEdits, CallsIn, EditsOf, CompletedToolsText, WithGuardianCredits, IsRaw,
      Places, FieldMap, EditsWithin;
    var top, fields := ReadTop(body).value, Fields(body).value;
    var t, m, n := TopIs(body);
    FieldsOf(body);
    EditsAre(body, c);
    assert Places(fields)[k] == fields[k].at;
    forall edit | edit in EditsOf(body, c) && Touches(edit, fields[k].at)
      ensures || (top.tools == Some(fields[k].at) && ToolsEdit(body, top.tools, c) == Some(edit))
              || (top.metadata == Some(fields[k].at) && MetadataEdit(body, top.metadata, c.guardian) == Some(edit))
              || (top.input == Some(fields[k].at)
                  && edit in AnswerEdits(ItemsIn(body, top.input, c.seen), CallsIn(ItemsIn(body, top.input, c.seen)), c.log, c.known))
    {
      if ToolsEdit(body, top.tools, c) == Some(edit) {
        FieldsApart(body, fields, k, t);
      } else if MetadataEdit(body, top.metadata, c.guardian) == Some(edit) {
        FieldsApart(body, fields, k, m);
      } else {
        AnswersInInput(body, c, edit);
        FieldsApart(body, fields, k, n);
      }
    }
  }

  lemma FieldsApart(body: string, fields: seq<Field>, i: nat, j: nat)
    requires InOrder(Places(fields), 0, |body|) && i < |fields| && j < |fields|
    ensures i != j ==> Apart(fields[i].at, fields[j].at)
  {
    assert Places(fields)[i] == fields[i].at && Places(fields)[j] == fields[j].at;
  }

  /** Every edit lies in a member. */
  lemma EditsInFields(body: string, c: Completion, at: nat, end: nat)
    requires ReadTop(body).Some? && Fields(body).Some?
    requires Proper(ReadTop(body).value.tools, |body|) && Proper(ReadTop(body).value.metadata, |body|)
    requires Proper(ReadTop(body).value.input, |body|)
    ensures EditsWithin(EditsOf(body, c), at, end, Places(Fields(body).value))
    ensures forall edit :: edit in EditsOf(body, c) ==>
      exists k :: 0 <= k < |Fields(body).value| && Within(edit, Fields(body).value[k].at)
  {
    hide ReadTop, Fields, ReadDocument, ItemsIn, AnswerEdits, CallsIn, EditsOf, CompletedToolsText, WithGuardianCredits;
    var top, fields := ReadTop(body).value, Fields(body).value;
    var t, m, n := TopIs(body);
    EditsAre(body, c);
    forall edit | edit in EditsOf(body, c) ensures exists k :: 0 <= k < |fields| && Within(edit, fields[k].at) {
      if ToolsEdit(body, top.tools, c) == Some(edit) {
        assert Within(edit, fields[t].at);
      } else if MetadataEdit(body, top.metadata, c.guardian) == Some(edit) {
        assert Within(edit, fields[m].at);
      } else {
        AnswersInInput(body, c, edit);
        assert Within(edit, fields[n].at);
      }
    }
    forall edit | edit in EditsOf(body, c) ensures exists k :: 0 <= k < |fields| && Within(edit, Places(fields)[k]) {
      var k :| 0 <= k < |fields| && Within(edit, fields[k].at);
      assert Places(fields)[k] == fields[k].at;
    }
  }

  // ---- what each member reads as ----

  /** Where nothing touches a member, its text stays. */
  lemma Untouchable(body: string, edits: seq<Splice>, at: Span)
    requires at.start < at.end <= |body| && Disjoint(edits, |body|) && IsRaw(body[at.start..at.end])
    requires forall edit :: edit in edits ==> !Touches(edit, at)
    ensures RawNow(body, edits, at) && ValueNow(body, edits, at) == ValueAt(body, at)
  {
    hide IsRaw, Segment, ReadValue;
    forall edit | edit in edits ensures !(at.start <= edit.start < at.end) {
      InText(edits, |body|, edit);
    }
    Unedited(body, edits, at.start, at.end);
    FromSegment(body, edits, at, body[at.start..at.end]);
  }

  lemma Replaces(body: string, edits: seq<Splice>, edit: Splice, at: Span)
    requires Disjoint(edits, |body|) && edit in edits && at == Span(edit.start, edit.end) && IsRaw(edit.text)
    ensures RawNow(body, edits, at) && ReadDocument(edit.text) == Some(ValueNow(body, edits, at))
  {
    hide IsRaw, Segment, Disjoint;
    WholeEdit(body, edits, edit);
    FromSegment(body, edits, at, edit.text);
  }

  /** A document that begins and ends with no white space is the text of its value. */
  lemma SolidIsRaw(text: string)
    requires ReadDocument(text).Some? && text != [] && !IsSpace(text[0]) && !IsSpace(text[|text| - 1])
    ensures IsRaw(text)
  {
    hide ReadValue, SkipSpace;
    ValueEnd(text);
    var rest := ReadValue(text).rest;
    SpaceBefore(rest);
    EndsAlike(rest, text);
  }

  lemma EndsAlike(rest: string, text: string)
    requires EndOf(rest, text)
    ensures rest != [] ==> rest[|rest| - 1] == text[|text| - 1]
  {
  }

  /** The completed tools array is the text of the array of the completed tools. */
  lemma ToolsTextReads(span: string, head: string -> Head, helpers: Option<seq<Tool>>, image: Option<Tool>)
    requires AdditionsRead(helpers, image, head) && CompletedToolsText(span, head, helpers, image).Some?
    ensures ToolsIn(span, head).Some? && CompletedToolsSpec(ToolsIn(span, head).value, helpers, image).Some?
    ensures var text, all := CompletedToolsText(span, head, helpers, image).value,
                             CompletedToolsSpec(ToolsIn(span, head).value, helpers, image).value;
      && IsRaw(text) && ReadDocument(text).value.Arr? && |ReadDocument(text).value.items| == |all|
      && forall i :: 0 <= i < |all| ==>
           ReadDocument(all[i].text).Some? && ReadDocument(text).value.items[i] == ReadDocument(all[i].text).value
  {
    hide ToolsIn, Joined, IsRaw, ItemSpans, ReadDocument, Placed;
    var tools := ToolsIn(span, head).value;
    ClientToolsRead(span, head);
    PlacedRead(tools, HelpersMissing(tools, helpers), ImageMissing(tools, image), 0, head);
    var all := CompletedToolsSpec(tools, helpers, image).value;
    var texts := Texts(all);
    forall x | x in texts ensures IsRaw(x) {
      var i :| 0 <= i < |texts| && texts[i] == x;
      assert all[i] in all && Reads(all[i], head);
    }
    JoinedHolds(texts);
    var text := "[" + Joined(texts) + "]";
    ItemSpansOf(text);
    SolidIsRaw(text);
    forall i | 0 <= i < |all|
      ensures ReadDocument(all[i].text).Some? && ReadDocument(text).value.items[i] == ReadDocument(all[i].text).value
    {
      assert TextsAt(text, ItemSpans(text).value)[i] == texts[i];
      assert texts[i] in texts;
      RawDocument(texts[i]);
    }
  }

  /** The last character of an object's members is its closing brace. */
  lemma {:induction false} LastBrace(text: string, at: nat)
    requires at <= |text| && FieldsFrom(text[at..], at).Got? && FieldsFrom(text[at..], at).rest == []
    ensures text != [] && text[|text| - 1] == '}'
    decreases |text| - at
  {
    hide ReadValue, ReadName, FieldsFrom, SkipSpace, IsRaw;
    var first, next, last := FieldStep(text, at, text[at..]);
    if last {
      var rest := text[first.at.end..];
      SpaceEnd(rest);
      assert text[next..] == [] && SkipSpace(rest) == ['}'];
      assert rest[|rest| - 1] == text[|text| - 1];
    } else {
      LastBrace(text, next);
    }
  }

  lemma ObjectEnds(text: string)
    requires IsRaw(text) && text[0] == '{'
    ensures text[|text| - 1] == '}'
  {
    hide ReadValue, ReadMembers, FieldsFrom, SkipSpace;
    NestedRest(text);
    var u := SkipSpace(text[1..]);
    SpaceEnd(text[1..]);
    if u != [] && u[0] == '}' {
      assert u == ['}'];
      assert text[1..][|text| - 2] == text[|text| - 1];
    } else {
      FieldsHold(text, 1, text[1..], map[]);
      LastBrace(text, 1);
    }
  }

  /** The completed metadata is the text of the client's object with the member added. */
  lemma MetadataTextReads(span: string)
    requires IsRaw(span) && WithGuardianCredits(span).Some?
    ensures var text := WithGuardianCredits(span).value;
      && IsRaw(text) && ReadDocument(span).Some? && ReadDocument(span).value.Obj?
      && ReadDocument(text) == Some(Obj(ReadDocument(span).value.members[GUARDIAN := Str("true")]))
  {
    hide IsRaw, ReadDocument;
    var text := WithGuardianCredits(span).value;
    GuardianCreditsOnce(span);
    ObjectEnds(span);
    RawLonger(span);
    assert text[|text| - 1] == span[|span| - 1];
    SolidIsRaw(text);
  }

  lemma RawLonger(span: string)
    requires IsRaw(span) && span[0] == '{'
    ensures |span| > 1
  {
    hide ReadMembers, SkipSpace;
    assert span == ['{'] ==> span[1..] == [];
    NoSpace(span);
    NothingIn();
  }

  lemma NothingIn()
    ensures ReadMembers([], map[]).Failed? && SkipSpace([]) == []
  {
  }

  // ---- the whole request ----

  /** What is sent in the place of the client's tools. */
  ghost predicate ToolsThen(body: string, c: Completion, given: JSON, sent: JSON)
    requires ReadTop(body).Some?
  {
    var at := ReadTop(body).value.tools;
    if at.None? || !(at.value.start <= at.value.end <= |body|) then sent == given
    else
      var tools := ToolsIn(body[at.value.start..at.value.end], c.head);
      if tools.None? || CompletedToolsSpec(tools.value, c.helpers, c.image).None? then sent == given
      else
        var all := CompletedToolsSpec(tools.value, c.helpers, c.image).value;
        && sent.Arr? && |sent.items| == |all|
        && forall i :: 0 <= i < |all| ==> ReadDocument(all[i].text) == Some(sent.items[i])
  }

  predicate MetadataThen(c: Completion, given: JSON, sent: JSON)
  {
    if c.guardian && given.Obj? && "guardian_credits_requested" !in given.members
    then sent == Obj(given.members["guardian_credits_requested" := Str("true")]) else sent == given
  }

  /** Each item as its text says once its answer, if it has one to replace, is replaced. */
  ghost predicate InputThen(body: string, c: Completion, given: JSON, sent: JSON)
    requires ReadTop(body).Some? && Proper(ReadTop(body).value.input, |body|)
  {
    var items := ItemsIn(body, ReadTop(body).value.input, c.seen);
    if !given.Arr? then sent == given
    else
      && sent.Arr? && |sent.items| == |given.items| == |items|
      && forall i :: 0 <= i < |items| ==>
           && ReadDocument(items[i].text) == Some(given.items[i])
           && ReadDocument(Edited(items[i], AnswerEdit(items[i], CallsIn(items), c.log, c.known))) == Some(sent.items[i])
  }

  lemma ToolsField(body: string, c: Completion, k: nat)
    requires ReadTop(body).Some? && Fields(body).Some? && k < |Fields(body).value|
    requires AdditionsRead(c.helpers, c.image, c.head)
    requires Proper(ReadTop(body).value.tools, |body|) && Proper(ReadTop(body).value.metadata, |body|)
    requires Proper(ReadTop(body).value.input, |body|)
    requires TopMember(body, Fields(body).value, "tools", ReadTop(body).value.tools, k)
    requires ReadTop(body).value.tools.Some?
    ensures var at := Fields(body).value[k].at;
      RawNow(body, EditsOf(body, c), at) && ToolsThen(body, c, ValueAt(body, at), ValueNow(body, EditsOf(body, c), at))
  {
    hide ReadTop, Fields, ItemsIn, AnswerEdits, CallsIn, EditsOf, ToolsIn, CompletedToolsSpec, ReadDocument, ReadValue, IsRaw,
      ItemSpans, Segment, Disjoint, Parsed, MetadataEdit, RawNow;
    var top, at, edits := ReadTop(body).value, Fields(body).value[k].at, EditsOf(body, c);
    EditsOfAreDisjoint(body, c);
    EditsAre(body, c);
    EditsAtField(body, c, k);
    TopIsParsed(body, c.seen);
    ThreeApart(body, c);
    var text := body[at.start..at.end];
    match ToolsEdit(body, top.tools, c)
    case Some(edit) =>
      ToolsTextReads(text, c.head, c.helpers, c.image);
      Replaces(body, edits, edit, at);
    case None => Untouchable(body, edits, at);
  }

  /** The three places are apart. */
  lemma ThreeApart(body: string, c: Completion)
    requires ReadTop(body).Some?
    ensures var top := ReadTop(body).value;
      && ApartIfBoth(top.tools, top.metadata) && ApartIfBoth(top.tools, top.input) && ApartIfBoth(top.metadata, top.input)
      && Proper(top.tools, |body|) && Proper(top.metadata, |body|) && Proper(top.input, |body|)
  {
    hide ReadTop, ItemsIn;
    TopIsParsed(body, c.seen);
  }

  lemma MetadataField(body: string, c: Completion, k: nat)
    requires ReadTop(body).Some? && Fields(body).Some? && k < |Fields(body).value|
    requires Proper(ReadTop(body).value.tools, |body|) && Proper(ReadTop(body).value.metadata, |body|)
    requires Proper(ReadTop(body).value.input, |body|)
    requires TopMember(body, Fields(body).value, "client_metadata", ReadTop(body).value.metadata, k)
    requires ReadTop(body).value.metadata.Some?
    ensures var at := Fields(body).value[k].at;
      RawNow(body, EditsOf(body, c), at) && MetadataThen(c, ValueAt(body, at), ValueNow(body, EditsOf(body, c), at))
  {
    hide ReadTop, Fields, ItemsIn, AnswerEdits, CallsIn, EditsOf, ToolsEdit, ReadDocument, ReadValue, IsRaw, Segment, Disjoint,
      Parsed, RawNow, WithGuardianCredits;
    var top, at, edits := ReadTop(body).value, Fields(body).value[k].at, EditsOf(body, c);
    EditsOfAreDisjoint(body, c);
    EditsAre(body, c);
    EditsAtField(body, c, k);
    ThreeApart(body, c);
    var text := body[at.start..at.end];
    GuardianIs(text);
    match MetadataEdit(body, top.metadata, c.guardian)
    case Some(edit) =>
      MetadataTextReads(text);
      Replaces(body, edits, edit, at);
    case None => Untouchable(body, edits, at);
  }

  /** Where the member is added: to an object that has none of that name. */
  lemma GuardianIs(text: string)
    requires IsRaw(text)
    ensures ReadValue(text).Got? && ReadDocument(text) == Some(ReadValue(text).value)
    ensures var value := ReadValue(text).value;
      WithGuardianCredits(text).Some? <==> value.Obj? && "guardian_credits_requested" !in value.members
  {
    hide ReadItems, ReadMembers, ReadChars, NumberLength, IsNumber;
    NoSpace(text);
  }

  lemma InputField(body: string, c: Completion, k: nat)
    requires ReadTop(body).Some? && Fields(body).Some? && k < |Fields(body).value|
    requires Proper(ReadTop(body).value.tools, |body|) && Proper(ReadTop(body).value.metadata, |body|)
    requires Proper(ReadTop(body).value.input, |body|)
    requires TopMember(body, Fields(body).value, "input", ReadTop(body).value.input, k) && ReadTop(body).value.input.Some?
    ensures var at := Fields(body).value[k].at;
      RawNow(body, EditsOf(body, c), at) && InputThen(body, c, ValueAt(body, at), ValueNow(body, EditsOf(body, c), at))
  {
    hide ReadTop, Fields, ItemsIn, AnswerEdits, CallsIn, EditsOf, ToolsEdit, MetadataEdit, AnswerEdit, ReadDocument, ReadValue,
      IsRaw, Segment, Disjoint, Parsed, RawNow, ItemSpans, Boundary, EditsWithin, Moved;
    var top, at, edits := ReadTop(body).value, Fields(body).value[k].at, EditsOf(body, c);
    var items, text := ItemsIn(body, top.input, c.seen), body[at.start..at.end];
    EditsOfAreDisjoint(body, c);
    EditsAtField(body, c, k);
    ItemsAreMoved(body, at, c.seen);
    ItemSpansOf(text);
    RawDocument(text);
    InputTouched(body, c, k);
    if items == [] {
      NoAnswers(items, c);
      Untouchable(body, edits, at);
    } else {
      InputNow(body, c, at);
    }
  }

  lemma NoAnswers(items: seq<Item>, c: Completion)
    ensures items == [] ==> AnswerEdits(items, CallsIn(items), c.log, c.known) == []
  {
  }

  /** What touches `input` is an answer. */
  lemma InputTouched(body: string, c: Completion, k: nat)
    requires ReadTop(body).Some? && Fields(body).Some? && k < |Fields(body).value|
    requires Proper(ReadTop(body).value.tools, |body|) && Proper(ReadTop(body).value.metadata, |body|)
    requires Proper(ReadTop(body).value.input, |body|) && ReadTop(body).value.input == Some(Fields(body).value[k].at)
    ensures var items := ItemsIn(body, ReadTop(body).value.input, c.seen);
      forall edit :: edit in EditsOf(body, c) && Touches(edit, Fields(body).value[k].at) ==>
        edit in AnswerEdits(items, CallsIn(items), c.log, c.known)
  {
    hide ReadTop, Fields, ItemsIn, AnswerEdits, CallsIn, EditsOf, ToolsEdit, MetadataEdit, IsRaw, Touches;
    EditsAtField(body, c, k);
    ThreeApart(body, c);
  }

  /** An array of items, with their answers replaced. */
  lemma InputNow(body: string, c: Completion, at: Span)
    requires ReadTop(body).Some? && ReadTop(body).value.input == Some(at) && at.start < at.end <= |body|
    requires IsRaw(body[at.start..at.end]) && ItemsIn(body, Some(at), c.seen) != []
    requires var items := ItemsIn(body, Some(at), c.seen);
      forall edit :: edit in EditsOf(body, c) && Touches(edit, at) ==> edit in AnswerEdits(items, CallsIn(items), c.log, c.known)
    ensures RawNow(body, EditsOf(body, c), at) && InputThen(body, c, ValueAt(body, at), ValueNow(body, EditsOf(body, c), at))
  {
    hide ReadTop, Fields, ItemsIn, AnswerEdits, CallsIn, EditsOf, AnswerEdit, ReadDocument, ReadValue, IsRaw, Segment, Disjoint,
      RawNow, ItemSpans, Boundary, EditsWithin, Moved, Touches, ValueNow;
    var edits, items, text := EditsOf(body, c), ItemsIn(body, Some(at), c.seen), body[at.start..at.end];
    EditsOfAreDisjoint(body, c);
    ItemsAreMoved(body, at, c.seen);
    ItemSpansOf(text);
    RawDocument(text);
    var spans := ItemSpans(text).value;
    forall i | 0 <= i < |items|
      ensures ReadDocument(items[i].text) == Some(ReadDocument(text).value.items[i])
      ensures RawNow(body, edits, Moved(spans, at.start)[i])
      ensures ReadDocument(Edited(items[i], AnswerEdit(items[i], CallsIn(items), c.log, c.known)))
           == Some(ValueNow(body, edits, Moved(spans, at.start)[i]))
    {
      assert ItemPlaces(items)[i] == ItemSpan(items[i]);
      ItemThen(body, c, i);
      RawDocument(items[i].text);
    }
    AnswersWithin(body, c, at);
    ArrayNow(body, edits, at);
  }

  /** Every edit that touches the array lies in one of its elements. */
  lemma AnswersWithin(body: string, c: Completion, at: Span)
    requires ReadTop(body).Some? && ReadTop(body).value.input == Some(at) && at.start < at.end <= |body|
    requires var items := ItemsIn(body, Some(at), c.seen);
      forall edit :: edit in EditsOf(body, c) && Touches(edit, at) ==> edit in AnswerEdits(items, CallsIn(items), c.log, c.known)
    ensures EditsWithin(EditsOf(body, c), at.start, at.end, ItemPlaces(ItemsIn(body, Some(at), c.seen)))
    ensures Boundary(EditsOf(body, c), at.start) && Boundary(EditsOf(body, c), at.end)
  {
    hide ReadTop, ItemsIn, AnswerEdits, CallsIn, EditsOf;
    var items := ItemsIn(body, Some(at), c.seen);
    forall edit | edit in EditsOf(body, c) && Touches(edit, at)
      ensures Within(edit, at) && exists i :: 0 <= i < |items| && Within(edit, ItemPlaces(items)[i])
    {
      AnswersInInput(body, c, edit);
      var i :| 0 <= i < |items| && Within(edit, ItemSpan(items[i]));
      assert ItemPlaces(items)[i] == ItemSpan(items[i]);
    }
  }

  /** A member of any other name, or null, stays. */
  lemma OtherField(body: string, c: Completion, k: nat)
    requires ReadTop(body).Some? && Fields(body).Some? && k < |Fields(body).value|
    requires Proper(ReadTop(body).value.tools, |body|) && Proper(ReadTop(body).value.metadata, |body|)
    requires Proper(ReadTop(body).value.input, |body|)
    requires var top, at := ReadTop(body).value, Fields(body).value[k].at;
      top.tools != Some(at) && top.metadata != Some(at) && top.input != Some(at)
    ensures var at := Fields(body).value[k].at;
      RawNow(body, EditsOf(body, c), at) && ValueNow(body, EditsOf(body, c), at) == ValueAt(body, at)
  {
    hide ReadTop, Fields, ItemsIn, AnswerEdits, CallsIn, EditsOf, ToolsEdit, MetadataEdit, IsRaw, RawNow, ValueNow, ValueAt,
      Disjoint;
    EditsOfAreDisjoint(body, c);
    EditsAtField(body, c, k);
    Untouchable(body, EditsOf(body, c), Fields(body).value[k].at);
  }

  /** What is sent under a name in the place of what was given. */
  ghost predicate MemberThen(body: string, c: Completion, name: string, given: JSON, sent: JSON)
    requires ReadTop(body).Some? && Proper(ReadTop(body).value.input, |body|)
  {
    if name == "tools" then ToolsThen(body, c, given, sent)
    else if name == "client_metadata" then MetadataThen(c, given, sent)
    else if name == "input" then InputThen(body, c, given, sent)
    else sent == given
  }

  lemma SameThen(body: string, c: Completion, name: string, v: JSON)
    requires ReadTop(body).Some? && Proper(ReadTop(body).value.input, |body|)
    requires name == "tools" ==> ReadTop(body).value.tools.None?
    requires name == "client_metadata" || name == "input" ==> v == Null
    ensures MemberThen(body, c, name, v, v)
  {
    hide ReadTop;
  }

  /** Which of the three a member is: by its place as by its name. */
  lemma WhichOne(body: string, k: nat, j: nat, name: string, at: Option<Span>)
    requires Fields(body).Some? && k < |Fields(body).value| && TopMember(body, Fields(body).value, name, at, j)
    ensures at == Some(Fields(body).value[k].at) ==> k == j && Fields(body).value[k].name == name
    ensures Fields(body).value[k].name == name ==>
      at == Some(Fields(body).value[k].at) || (at.None? && ValueAt(body, Fields(body).value[k].at) == Null)
  {
    hide Fields, ReadDocument, IsRaw, ReadValue, Places, FieldMap;
    FieldsOf(body);
    var fields := Fields(body).value;
    assert Places(fields)[k] == fields[k].at;
    if at.Some? {
      assert Places(fields)[j] == fields[j].at;
      FieldsApart(body, fields, k, j);
    } else if fields[k].name == name {
      NullRead();
    }
  }

  lemma NullRead()
    ensures ReadValue("null").Got? && ReadValue("null").value == Null
  {
    hide ReadItems, ReadMembers, ReadChars, NumberLength;
    NoSpace("null");
  }

  /** Each member, by its name. */
  lemma FieldThen(body: string, c: Completion, k: nat)
    requires ReadTop(body).Some? && Fields(body).Some? && k < |Fields(body).value|
    requires AdditionsRead(c.helpers, c.image, c.head)
    requires Proper(ReadTop(body).value.tools, |body|) && Proper(ReadTop(body).value.metadata, |body|)
    requires Proper(ReadTop(body).value.input, |body|)
    ensures var field := Fields(body).value[k];
      var given, sent := ValueAt(body, field.at), ValueNow(body, EditsOf(body, c), field.at);
      RawNow(body, EditsOf(body, c), field.at) && MemberThen(body, c, field.name, given, sent)
  {
    hide ReadTop, Fields, EditsOf, IsRaw, RawNow, ValueNow, ValueAt, ToolsThen, MetadataThen, InputThen, Proper, AdditionsRead,
      IsNullAt;
    var top, field := ReadTop(body).value, Fields(body).value[k];
    var t, m, n := TopIs(body);
    WhichOne(body, k, t, "tools", top.tools);
    WhichOne(body, k, m, "client_metadata", top.metadata);
    WhichOne(body, k, n, "input", top.input);
    if top.tools == Some(field.at) {
      ToolsField(body, c, k);
    } else if top.metadata == Some(field.at) {
      MetadataField(body, c, k);
    } else if top.input == Some(field.at) {
      InputField(body, c, k);
    } else {
      OtherField(body, c, k);
      SameThen(body, c, field.name, ValueAt(body, field.at));
    }
  }

  // ---- the objects ----

  /** Both objects have the names of the fields, each with the value of the last field of that name. */
  lemma {:induction false} LastField(body: string, edits: seq<Splice>, fields: seq<Field>, name: string,
                                     before: map<string, JSON>, now: map<string, JSON>) returns (k: nat)
    ensures k <= |fields|
    ensures k < |fields| ==>
      && fields[k].name == name && name in FieldMap(body, fields, before) && name in MembersNow(body, edits, fields, now)
      && FieldMap(body, fields, before)[name] == ValueAt(body, fields[k].at)
      && MembersNow(body, edits, fields, now)[name] == ValueNow(body, edits, fields[k].at)
    ensures k == |fields| ==>
      && (name in FieldMap(body, fields, before) <==> name in before)
      && (name in MembersNow(body, edits, fields, now) <==> name in now)
      && (name in before ==> FieldMap(body, fields, before)[name] == before[name])
      && (name in now ==> MembersNow(body, edits, fields, now)[name] == now[name])
  {
    hide ValueAt, ValueNow;
    if fields == [] {
      k := 0;
    } else {
      var first := fields[0];
      var j := LastField(body, edits, fields[1..], name, before[first.name := ValueAt(body, first.at)],
                         now[first.name := ValueNow(body, edits, first.at)]);
      k := if j < |fields| - 1 then j + 1 else if first.name == name then 0 else |fields|;
    }
  }

  /**
   A request that serde reads, completed: the upstream reads an object of the same names. Its tools are
   the completed list, its metadata has the member added, each item of its input says what its text says
   with its answer replaced, and every other member is as the client wrote it.
   */
  lemma CompletedReads(body: string, c: Completion)
    requires ReadTop(body).Some? && AdditionsRead(c.helpers, c.image, c.head)
    ensures Proper(ReadTop(body).value.input, |body|)
    ensures ReadDocument(body).Some? && ReadDocument(body).value.Obj?
    ensures ReadDocument(Completed(body, c)).Some? && ReadDocument(Completed(body, c)).value.Obj?
    ensures var given, sent := ReadDocument(body).value.members, ReadDocument(Completed(body, c)).value.members;
      && sent.Keys == given.Keys
      && forall name :: name in given ==> MemberThen(body, c, name, given[name], sent[name])
  {
    hide *;
    ThreeApart(body, c);
    var t, m, n := TopIs(body);
    FieldsOf(body);
    var fields, edits := Fields(body).value, EditsOf(body, c);
    RequestNow(body, c);
    var given, sent := ReadDocument(body).value.members, ReadDocument(Completed(body, c)).value.members;
    forall name ensures name in sent <==> name in given
      ensures name in given ==> MemberThen(body, c, name, given[name], sent[name])
    {
      var k := LastField(body, edits, fields, name, map[], map[]);
      if name in given {
        FieldThen(body, c, k);
      }
    }
  }

  lemma RequestNow(body: string, c: Completion)
    requires ReadTop(body).Some? && AdditionsRead(c.helpers, c.image, c.head) && Fields(body).Some?
    requires Proper(ReadTop(body).value.tools, |body|) && Proper(ReadTop(body).value.metadata, |body|)
    requires Proper(ReadTop(body).value.input, |body|)
    ensures ReadDocument(Completed(body, c))
         == Some(Obj(MembersNow(body, EditsOf(body, c), Fields(body).value, map[])))
  {
    hide *;
    var fields, edits := Fields(body).value, EditsOf(body, c);
    CompletedIs(body, c);
    EditsOfAreDisjoint(body, c);
    if fields == [] {
      EditsInFields(body, c, 0, 0);
      NoFieldsAtAll(body, c);
    } else {
      var at, rest := ObjectFrom(body);
      EditsInFields(body, c, at, |body| - |rest|);
      forall k | 0 <= k < |fields| ensures RawNow(body, edits, fields[k].at) {
        FieldThen(body, c, k);
      }
      ObjectNow(body, edits, at, rest);
    }
  }

  lemma CompletedIs(body: string, c: Completion)
    ensures Completed(body, c) == Substituted(body, EditsOf(body, c), 0)
  {
  }

  lemma NoFieldsAtAll(body: string, c: Completion)
    requires Fields(body) == Some([]) && EditsWithin(EditsOf(body, c), 0, 0, [])
    requires forall edit :: edit in EditsOf(body, c) ==>
      exists k :: 0 <= k < |Fields(body).value| && Within(edit, Fields(body).value[k].at)
    ensures ReadDocument(Completed(body, c)) == Some(Obj(MembersNow(body, EditsOf(body, c), [], map[])))
  {
    hide Fields, EditsOf, ReadDocument, Substituted;
    FieldsOf(body);
    var edits := EditsOf(body, c);
    FirstIn(edits);
    if edits != [] {
      assert false;
    }
    NoEdits(body);
  }

  lemma FirstIn(edits: seq<Splice>)
    ensures edits == [] || edits[0] in edits
  {
  }

  /** The object read from the substituted text. */
  lemma ObjectNow(body: string, edits: seq<Splice>, at: nat, rest: string)
    requires Fields(body).Some? && Fields(body).value != [] && Disjoint(edits, |body|)
    requires SkipSpace(body) != [] && SkipSpace(body)[0] == '{' && |SkipSpace(body)| <= |body|
    requires at == |body| - |SkipSpace(body)| + 1 && body[at..] == SkipSpace(body)[1..]
    requires FieldsFrom(body[at..], at) == Got(Fields(body).value, rest) && SkipSpace(rest) == [] && |rest| <= |body|
    requires EditsWithin(edits, at, |body| - |rest|, Places(Fields(body).value))
    requires forall edit :: edit in edits ==> exists k :: 0 <= k < |Fields(body).value| && Within(edit, Fields(body).value[k].at)
    requires forall k :: 0 <= k < |Fields(body).value| ==> RawNow(body, edits, Fields(body).value[k].at)
    ensures ReadDocument(Substituted(body, edits, 0)) == Some(Obj(MembersNow(body, edits, Fields(body).value, map[])))
  {
    hide *;
    MembersSubstituted(body, edits, at, body[at..], map[]);
    EditsInside(body, edits, at, rest);
    var inside := Substituted(body, edits, at);
    Unedited(body, edits, 0, at);
    Unedited(body, edits, |body| - |rest|, |body|);
    TheEnd(body, edits, rest, at);
    assert body[0..at] == body[..at] && body == body[..at] + body[at..];
    assert SkipSpace(body) == ['{'] + body[at..];
    JsonText.OneMore(body[..at], body[at..], '{', inside);
    Opened(Substituted(body, edits, 0), '{', inside);
    DocumentIs(Substituted(body, edits, 0), rest);
  }

  lemma DocumentIs(text: string, rest: string)
    requires ReadValue(text).Got? && ReadValue(text).rest == rest && SkipSpace(rest) == []
    ensures ReadDocument(text) == Some(ReadValue(text).value)
  {
    hide ReadValue, SkipSpace;
  }

  lemma EditsInside(body: string, edits: seq<Splice>, at: nat, rest: string)
    requires at <= |body| && FieldsFrom(body[at..], at).Got? && FieldsFrom(body[at..], at).rest == rest && |rest| <= |body|
    requires var fields := FieldsFrom(body[at..], at).value;
      forall edit :: edit in edits ==> exists k :: 0 <= k < |fields| && Within(edit, fields[k].at)
    ensures forall edit :: edit in edits ==> !(0 <= edit.start < at) && !(|body| - |rest| <= edit.start < |body|)
  {
    hide FieldsFrom, ReadMembers, IsRaw, FieldMap, MayFollow;
    FieldsHold(body, at, body[at..], map[]);
    FieldsFollow(body, at, body[at..]);
    var fields := FieldsFrom(body[at..], at).value;
    forall edit | edit in edits ensures !(0 <= edit.start < at) && !(|body| - |rest| <= edit.start < |body|) {
      var k :| 0 <= k < |fields| && Within(edit, fields[k].at);
      assert Places(fields)[k] == fields[k].at;
    }
  }

  lemma TheEnd(body: string, edits: seq<Splice>, rest: string, at: nat)
    requires at <= |body| && FieldsFrom(body[at..], at).Got? && FieldsFrom(body[at..], at).rest == rest && |rest| <= |body|
    ensures Substituted(body, edits, |body|) == "" && body[|body| - |rest|..|body|] == rest
  {
    hide FieldsFrom, ReadMembers, StartingAt;
    FieldsHold(body, at, body[at..], map[]);
    MembersEnd(body[at..], map[]);
    StandsAt(body, at, body[at..], rest);
  }
}
